/**
  Document identifiers. Every stored document is keyed by its `_id`, an
  ObjectId whose canonical text is 24 lower-case hexadecimal digits. Request
  path parameters arrive as arbitrary strings and are cast the way Mongoose
  casts a string to an ObjectId: 24 hexadecimal digits of either case are
  accepted and anything else raises a cast error.
 */
module Ids {
  import opened Wrappers

  type Id = string

  predicate IsHexDigit(c: char) {
    '0' <= c <= '9' || 'a' <= c <= 'f' || 'A' <= c <= 'F'
  }

  predicate IsLowerHexDigit(c: char) {
    '0' <= c <= '9' || 'a' <= c <= 'f'
  }

  /** Text that can be cast to an ObjectId. */
  predicate IsObjectIdText(s: string) {
    |s| == 24 && forall i :: 0 <= i < |s| ==> IsHexDigit(s[i])
  }

  /** The text of an ObjectId as the database prints it. */
  predicate IsCanonical(s: string) {
    |s| == 24 && forall i :: 0 <= i < |s| ==> IsLowerHexDigit(s[i])
  }

  function LowerHexDigit(c: char): char {
    if 'A' <= c <= 'F' then (c as int + 32) as char else c
  }

  function LowerHex(s: string): (r: string)
    ensures |r| == |s|
    ensures forall i :: 0 <= i < |s| ==> r[i] == LowerHexDigit(s[i])
  {
    if s == [] then [] else [LowerHexDigit(s[0])] + LowerHex(s[1..])
  }

  /** Casts request text to an id; `None` is Mongoose's CastError. The id
      is the text itself with its upper-case digits written in lower case. */
  function Cast(s: string): (r: Option<Id>)
    ensures r.Some? <==> IsObjectIdText(s)
    ensures r.Some? ==> IsCanonical(r.value)
    ensures r.Some? ==> |r.value| == |s|
    ensures r.Some? ==> forall i :: 0 <= i < |s| ==>
              r.value[i] == s[i] || ('A' <= s[i] <= 'F' && r.value[i] as int == s[i] as int + 32)
  {
    if IsObjectIdText(s) then Some(LowerHex(s)) else None
  }

  /** The canonical text of an id casts back to that id. */
  lemma CastCanonical(s: string)
    requires IsCanonical(s)
    ensures Cast(s) == Some(s)
  {
    var r := LowerHex(s);
    assert forall i :: 0 <= i < |s| ==> r[i] == s[i];
    assert r == s;
    assert IsObjectIdText(s);
  }

  /** Two hexadecimal digits that name the same value, whatever their case. */
  predicate SameDigitIgnoringCase(c: char, d: char) {
    c == d || ('A' <= c <= 'F' && d as int == c as int + 32) || ('A' <= d <= 'F' && c as int == d as int + 32)
  }

  /** Two castable texts name the same id exactly when they agree digit by
      digit, ignoring case. */
  lemma CastIgnoresCase(a: string, b: string)
    requires IsObjectIdText(a) && IsObjectIdText(b)
    ensures Cast(a) == Cast(b) <==> forall i :: 0 <= i < 24 ==> SameDigitIgnoringCase(a[i], b[i])
  {
    var la, lb := LowerHex(a), LowerHex(b);
    if forall i :: 0 <= i < 24 ==> SameDigitIgnoringCase(a[i], b[i]) {
      forall i | 0 <= i < 24 ensures la[i] == lb[i] {
        assert SameDigitIgnoringCase(a[i], b[i]);
        assert IsHexDigit(a[i]) && IsHexDigit(b[i]);
      }
      assert la == lb;
    }
    if la == lb {
      forall i | 0 <= i < 24 ensures SameDigitIgnoringCase(a[i], b[i]) {
        assert la[i] == lb[i];
        assert IsHexDigit(a[i]) && IsHexDigit(b[i]);
      }
    }
  }
}
