/** btoa, atob and the package's pattern for base64 text (section 4 of RFC 4648). */
module Base64 {
  import opened Identity
  import opened Text

  type Sextet = n: int | 0 <= n < 64

  const PAD: CodeUnit := 61

  function Symbol(n: Sextet): CodeUnit {
    if n < 26 then 65 + n else if n < 52 then 71 + n else if n < 62 then n - 4 else if n == 62 then 43 else 47
  }

  predicate IsSymbol(u: CodeUnit) { 65 <= u <= 90 || 97 <= u <= 122 || 48 <= u <= 57 || u == 43 || u == 47 }

  function Value(u: CodeUnit): Sextet
    requires IsSymbol(u)
  {
    var n: int := u;
    if 65 <= n <= 90 then n - 65 else if 97 <= n <= 122 then n - 71 else if 48 <= n <= 57 then n + 4
    else if n == 43 then 62 else 63
  }

  function Group(a: Byte, b: Byte, c: Byte): seq<CodeUnit> {
    [Symbol(a / 4), Symbol(a % 4 * 16 + b / 16), Symbol(b % 16 * 4 + c / 64), Symbol(c % 64)]
  }

  function LastGroup(bytes: Bytes): seq<CodeUnit>
    requires 1 <= |bytes| <= 2
  {
    if |bytes| == 1 then [Symbol(bytes[0] / 4), Symbol(bytes[0] % 4 * 16), PAD, PAD]
    else [Symbol(bytes[0] / 4), Symbol(bytes[0] % 4 * 16 + bytes[1] / 16), Symbol(bytes[1] % 16 * 4), PAD]
  }

  /** btoa of the bytes read as a binary string. */
  function Encode(bytes: Bytes): (r: seq<CodeUnit>)
    ensures |r| == (|bytes| + 2) / 3 * 4
  {
    if bytes == [] then []
    else if |bytes| < 3 then LastGroup(bytes)
    else Group(bytes[0], bytes[1], bytes[2]) + Encode(bytes[3..])
  }

  /** Groups of four symbols; the last may end in one or two pads. */
  predicate WellFormed(t: seq<CodeUnit>) {
    t == [] ||
    (&& |t| >= 4 && IsSymbol(t[0]) && IsSymbol(t[1])
     && (if |t| == 4 && t[3] == PAD then t[2] == PAD || IsSymbol(t[2])
         else IsSymbol(t[2]) && IsSymbol(t[3]) && WellFormed(t[4..])))
  }

  /** atob; it does not care about the bits that padding leaves unused. */
  function Decode(t: seq<CodeUnit>): Bytes
    requires WellFormed(t)
  {
    if t == [] then []
    else
      var v, w := Value(t[0]), Value(t[1]);
      if t[3] == PAD then
        if t[2] == PAD then [v * 4 + w / 16] else [v * 4 + w / 16, w % 16 * 16 + Value(t[2]) / 4]
      else
        var x, y := Value(t[2]), Value(t[3]);
        [v * 4 + w / 16, w % 16 * 16 + x / 4, x % 4 * 64 + y] + Decode(t[4..])
  }

  lemma SymbolValue(n: Sextet)
    ensures IsSymbol(Symbol(n)) && Value(Symbol(n)) == n && Symbol(n) != PAD
  {
  }

  lemma LastGroupDecodes(bytes: Bytes)
    requires 1 <= |bytes| <= 2
    ensures WellFormed(LastGroup(bytes)) && Decode(LastGroup(bytes)) == bytes
  {
    SymbolValue(bytes[0] / 4);
    if |bytes| == 1 {
      SymbolValue(bytes[0] % 4 * 16);
    } else {
      SymbolValue(bytes[0] % 4 * 16 + bytes[1] / 16);
      SymbolValue(bytes[1] % 16 * 4);
    }
  }

  /** Four sextets hold three bytes. */
  lemma Sextets(a: Byte, b: Byte, c: Byte)
    ensures var v, w, x, y := a / 4, a % 4 * 16 + b / 16, b % 16 * 4 + c / 64, c % 64;
            && 0 <= v < 64 && 0 <= w < 64 && 0 <= x < 64 && 0 <= y < 64
            && v * 4 + w / 16 == a && w % 16 * 16 + x / 4 == b && x % 4 * 64 + y == c
  {
  }

  lemma GroupDecodes(a: Byte, b: Byte, c: Byte, rest: seq<CodeUnit>)
    requires WellFormed(rest)
    ensures WellFormed(Group(a, b, c) + rest) && Decode(Group(a, b, c) + rest) == [a, b, c] + Decode(rest)
  {
    Sextets(a, b, c);
    FourSymbols(a / 4, a % 4 * 16 + b / 16, b % 16 * 4 + c / 64, c % 64, a, b, c, rest);
  }

  lemma FourSymbols(v: Sextet, w: Sextet, x: Sextet, y: Sextet, a: Byte, b: Byte, c: Byte, rest: seq<CodeUnit>)
    requires WellFormed(rest) && v * 4 + w / 16 == a && w % 16 * 16 + x / 4 == b && x % 4 * 64 + y == c
    ensures var t := [Symbol(v), Symbol(w), Symbol(x), Symbol(y)] + rest;
            WellFormed(t) && Decode(t) == [a, b, c] + Decode(rest)
  {
    var t := [Symbol(v), Symbol(w), Symbol(x), Symbol(y)] + rest;
    SymbolValue(v); SymbolValue(w); SymbolValue(x); SymbolValue(y);
    assert t[4..] == rest && t[0] == Symbol(v) && t[1] == Symbol(w) && t[2] == Symbol(x) && t[3] == Symbol(y);
  }

  lemma EncodeSteps(bytes: Bytes)
    ensures 1 <= |bytes| < 3 ==> Encode(bytes) == LastGroup(bytes)
    ensures |bytes| >= 3 ==> Encode(bytes) == Group(bytes[0], bytes[1], bytes[2]) + Encode(bytes[3..])
  {
  }

  lemma FirstThree(bytes: Bytes)
    requires |bytes| >= 3
    ensures bytes == [bytes[0], bytes[1], bytes[2]] + bytes[3..]
  {
  }

  lemma {:induction false} DecodeOfEncode(bytes: Bytes)
    ensures WellFormed(Encode(bytes)) && Decode(Encode(bytes)) == bytes
  {
    EncodeSteps(bytes);
    if 1 <= |bytes| < 3 {
      LastGroupDecodes(bytes);
    } else if bytes != [] {
      FirstThree(bytes);
      DecodeOfEncode(bytes[3..]);
      GroupDecodes(bytes[0], bytes[1], bytes[2], Encode(bytes[3..]));
    }
  }

  /** base64ToBytes: the length test, the pattern, then the decoded length. */
  datatype Read = Bytes(bytes: Bytes) | BadEncoding | TooLarge

  function FromText(t: seq<CodeUnit>, maximum: nat): Read {
    if |t| > (maximum + 2) / 3 * 4 + 4 || !WellFormed(t) then BadEncoding
    else if |Decode(t)| > maximum then TooLarge
    else Read.Bytes(Decode(t))
  }

  /** Encoded bytes come back exactly when they fit the reader's maximum. */
  lemma ReadsBackWithinMaximum(bytes: Bytes, maximum: nat)
    ensures FromText(Encode(bytes), maximum).Bytes? <==> |bytes| <= maximum
    ensures |bytes| <= maximum ==> FromText(Encode(bytes), maximum) == Read.Bytes(bytes)
  {
    DecodeOfEncode(bytes);
  }

  lemma {:induction false} EncodedUnits(bytes: Bytes)
    ensures forall i :: 0 <= i < |Encode(bytes)| ==> IsSymbol(Encode(bytes)[i]) || Encode(bytes)[i] == PAD
  {
    if 1 <= |bytes| < 3 {
      LastGroupDecodes(bytes);
    } else if bytes != [] {
      EncodedUnits(bytes[3..]);
      GroupDecodes(bytes[0], bytes[1], bytes[2], []);
    }
  }

  /** bytesToBase64: the binary string is put together in chunks of 8192. */
  method BytesToBase64(bytes: array<Byte>) returns (text: seq<CodeUnit>)
    ensures text == Encode(bytes[..])
  {
    var binary: Bytes := [];
    var i := 0;
    while i < bytes.Length
      invariant 0 <= i
      invariant binary == bytes[..if i < bytes.Length then i else bytes.Length]
    {
      var end := if i + 8192 < bytes.Length then i + 8192 else bytes.Length;
      binary := binary + bytes[i..end];
      i := i + 8192;
    }
    assert bytes[..bytes.Length] == bytes[..];
    return Encode(binary);
  }

  /** base64ToBytes: the array is filled one character at a time. */
  method Base64ToBytes(value: seq<CodeUnit>, maximum: nat) returns (ok: bool, bytes: array<Byte>)
    ensures fresh(bytes)
    ensures ok <==> FromText(value, maximum).Bytes?
    ensures ok ==> FromText(value, maximum) == Read.Bytes(bytes[..])
  {
    var read := FromText(value, maximum);
    if !read.Bytes? {
      bytes := new Byte[0];
      return false, bytes;
    }
    var binary := Decode(value);
    bytes := new Byte[|binary|];
    for i := 0 to |binary|
      invariant bytes[..i] == binary[..i]
    {
      bytes[i] := binary[i];
    }
    assert bytes[..] == bytes[..|binary|];
    ok := true;
  }
}
