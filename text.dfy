/** String trimming as done by String.prototype.trim (and Mongoose's `trim: true`). */
module Text {

  /** The characters trim removes (ECMAScript's WhiteSpace and LineTerminator): tab,
      vertical tab, form feed, the byte-order mark, every space separator of Unicode
      category Zs, and the line terminators LF, CR, LS and PS. */
  predicate IsSpace(c: char) {
    c == '\t' || c == '\U{000B}' || c == '\U{000C}' || c == '\U{FEFF}'
    || c == ' ' || c == '\U{00A0}' || c == '\U{1680}' || ('\U{2000}' <= c <= '\U{200A}')
    || c == '\U{202F}' || c == '\U{205F}' || c == '\U{3000}'
    || c == '\n' || c == '\r' || c == '\U{2028}' || c == '\U{2029}'
  }

  /** Every character of `s` is whitespace (so `s.trim()` is falsy). */
  predicate IsBlank(s: string) {
    forall i :: 0 <= i < |s| ==> IsSpace(s[i])
  }

  /** The number of leading whitespace characters. */
  function Leading(s: string): (n: nat)
    ensures n <= |s|
    ensures forall i :: 0 <= i < n ==> IsSpace(s[i])
    ensures n < |s| ==> !IsSpace(s[n])
  {
    if s == [] || !IsSpace(s[0]) then 0 else 1 + Leading(s[1..])
  }

  /** The number of trailing whitespace characters. */
  function Trailing(s: string): (n: nat)
    ensures n <= |s|
    ensures forall i :: |s| - n <= i < |s| ==> IsSpace(s[i])
    ensures n < |s| ==> !IsSpace(s[|s| - n - 1])
  {
    if s == [] || !IsSpace(s[|s| - 1]) then 0 else 1 + Trailing(s[..|s| - 1])
  }

  /** `s.trim()`: the part of `s` between its leading and its trailing whitespace. */
  function Trim(s: string): (r: string)
    ensures Leading(s) + |r| <= |s| && r == s[Leading(s)..Leading(s) + |r|]
    ensures forall i :: Leading(s) + |r| <= i < |s| ==> IsSpace(s[i])
    ensures r == [] || (!IsSpace(r[0]) && !IsSpace(r[|r| - 1]))
  {
    var a := Leading(s);
    var t := s[a..];
    t[..|t| - Trailing(t)]
  }

  lemma TrimEmptyIffBlank(s: string)
    ensures Trim(s) == [] <==> IsBlank(s)
  {
    if Trim(s) != [] {
      assert s[Leading(s)] == Trim(s)[0];
    }
  }

  lemma TrimIdempotent(s: string)
    ensures Trim(Trim(s)) == Trim(s)
  {
    var r := Trim(s);
    assert Leading(r) == 0;
    assert r[0..] == r;
    assert Trailing(r) == 0;
  }

  /** An ideographic space and an em space are trimmed like an ordinary space. */
  lemma WideSpacesTrimmed()
    ensures Trim("\U{3000}Rent") == "Rent"
    ensures IsBlank("\U{2003}")
  {
    assert Leading("\U{3000}Rent") == 1 by {
      assert "\U{3000}Rent"[1..] == "Rent";
    }
    assert "\U{3000}Rent"[1..] == "Rent";
  }
}
