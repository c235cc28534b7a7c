/** The letter classes of the source's patterns, spelled out letter by letter, and their ranges. */
module Letters {
  import opened Identity

  const DIGITS := "0123456789"
  const SMALL := "abcdefghijklmnopqrstuvwxyz"
  const CAPITAL := "ABCDEFGHIJKLMNOPQRSTUVWXYZ"

  ghost predicate Hex(s: string, n: nat) { |s| == n && forall c :: c in s ==> c in DIGITS || c in "abcdef" }

  lemma DigitRange(c: char)
    ensures c in DIGITS <==> InRange(c, '0', '9')
  {
    if '0' <= c <= '9' { assert DIGITS[c as int - '0' as int] == c; }
  }

  lemma SmallRange(c: char)
    ensures c in SMALL <==> InRange(c, 'a', 'z')
  {
    if 'a' <= c <= 'z' { assert SMALL[c as int - 'a' as int] == c; }
  }

  lemma CapitalRange(c: char)
    ensures c in CAPITAL <==> InRange(c, 'A', 'Z')
  {
    if 'A' <= c <= 'Z' { assert CAPITAL[c as int - 'A' as int] == c; }
  }

  lemma HexRange(c: char)
    ensures c in DIGITS || c in "abcdef" <==> LowerHex(c)
  {
    DigitRange(c);
    if 'a' <= c <= 'f' { assert "abcdef"[c as int - 'a' as int] == c; }
  }

  lemma HexDigits(s: string, n: nat)
    ensures Hex(s, n) <==> HexText(s, n)
  {
    forall c: char
      ensures c in DIGITS || c in "abcdef" <==> LowerHex(c)
    {
      HexRange(c);
    }
    assert forall i :: 0 <= i < |s| ==> s[i] in s;
  }
}
