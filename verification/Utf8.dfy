/** UTF-8 as TextEncoder and Buffer write it and as a fatal TextDecoder reads it (RFC 3629). */
module Utf8 {
  import opened Identity
  import opened Text

  predicate PairAt(s: seq<CodeUnit>) { |s| >= 2 && HighSurrogate(s[0]) && LowSurrogate(s[1]) }

  /** Every surrogate is half of a pair. */
  predicate WellFormed(s: seq<CodeUnit>) {
    s == [] || (if PairAt(s) then WellFormed(s[2..]) else !Surrogate(s[0]) && WellFormed(s[1..]))
  }

  function Tail(n: int): Byte { 0x80 + n % 64 }

  /** One code unit outside the surrogates. */
  function EncodeUnit(u: CodeUnit): (r: Bytes)
    ensures 1 <= |r| <= 3
  {
    if u < 0x80 then [u]
    else if u < 0x800 then [0xC0 + u / 64, Tail(u)]
    else [0xE0 + u / 4096, Tail(u / 64), Tail(u)]
  }

  function CodePoint(high: int, low: int): int { 0x10000 + (high - 0xD800) * 1024 + (low - 0xDC00) }

  function EncodePair(high: CodeUnit, low: CodeUnit): (r: Bytes)
    requires HighSurrogate(high) && LowSurrogate(low)
    ensures |r| == 4
  {
    var cp := CodePoint(high, low);
    [0xF0 + cp / 262144, Tail(cp / 4096), Tail(cp / 64), Tail(cp)]
  }

  /** A surrogate without its partner is written as U+FFFD. */
  function Encode(s: seq<CodeUnit>): Bytes {
    if s == [] then []
    else if PairAt(s) then EncodePair(s[0], s[1]) + Encode(s[2..])
    else (if Surrogate(s[0]) then EncodeUnit(0xFFFD) else EncodeUnit(s[0])) + Encode(s[1..])
  }

  predicate IsTail(b: Byte) { 0x80 <= b <= 0xBF }

  /** The first character and how many bytes it took; overlong forms, surrogates and anything above
      U+10FFFF are errors. */
  function DecodeHead(b: Bytes): (r: Option<(seq<CodeUnit>, nat)>)
    requires b != []
    ensures r.Some? ==> 1 <= r.value.1 <= |b|
  {
    if b[0] < 0x80 then Some(([b[0] as int], 1))
    else if 0xC2 <= b[0] <= 0xDF && |b| >= 2 && IsTail(b[1])
      then Some(([(b[0] - 0xC0) as int * 64 + (b[1] - 0x80) as int], 2))
    else if 0xE0 <= b[0] <= 0xEF && |b| >= 3 && IsTail(b[1]) && IsTail(b[2]) then
      var u: int := (b[0] as int - 0xE0) * 4096 + (b[1] as int - 0x80) * 64 + (b[2] as int - 0x80);
      if u < 0x800 || Surrogate(u) then None else Some(([u], 3))
    else if 0xF0 <= b[0] <= 0xF4 && |b| >= 4 && IsTail(b[1]) && IsTail(b[2]) && IsTail(b[3]) then
      var front: int := (b[0] as int - 0xF0) * 262144 + (b[1] as int - 0x80) * 4096;
      var cp: int := front + (b[2] as int - 0x80) * 64 + (b[3] as int - 0x80);
      if cp < 0x10000 || cp > 0x10FFFF then None
      else Some(([0xD800 + (cp - 0x10000) / 1024, 0xDC00 + (cp - 0x10000) % 1024], 4))
    else None
  }

  function Decode(b: Bytes): Option<seq<CodeUnit>> {
    if b == [] then Some([])
    else match DecodeHead(b)
      case None => None
      case Some((units, used)) =>
        match Decode(b[used..])
        case None => None
        case Some(rest) => Some(units + rest)
  }

  lemma UnitDecodes(u: CodeUnit, rest: Bytes)
    requires !Surrogate(u)
    ensures DecodeHead(EncodeUnit(u) + rest) == Some(([u], |EncodeUnit(u)|))
  {
    var b := EncodeUnit(u) + rest;
    if u >= 0x800 {
      assert b[0] as int == 0xE0 + u / 4096 && b[1] as int == 0x80 + u / 64 % 64 && b[2] as int == 0x80 + u % 64;
      assert u == u / 4096 * 4096 + u / 64 % 64 * 64 + u % 64;
    } else if u >= 0x80 {
      assert b[0] as int == 0xC0 + u / 64 && b[1] as int == 0x80 + u % 64;
    }
  }

  lemma FourParts(cp: int)
    requires 0x10000 <= cp <= 0x10FFFF
    ensures cp == cp / 262144 * 262144 + cp / 4096 % 64 * 4096 + cp / 64 % 64 * 64 + cp % 64
  {
    var a, b := cp / 64, cp / 4096;
    assert a / 64 == b && b / 64 == cp / 262144;
    assert cp == a * 64 + cp % 64 && a == b * 64 + a % 64 && b == b / 64 * 64 + b % 64;
  }

  lemma PairDecodes(high: CodeUnit, low: CodeUnit, rest: Bytes)
    requires HighSurrogate(high) && LowSurrogate(low)
    ensures DecodeHead(EncodePair(high, low) + rest) == Some(([high, low], 4))
  {
    var cp := CodePoint(high, low);
    var b := EncodePair(high, low) + rest;
    assert b[0] as int == 0xF0 + cp / 262144 && b[1] as int == 0x80 + cp / 4096 % 64
           && b[2] as int == 0x80 + cp / 64 % 64 && b[3] as int == 0x80 + cp % 64;
    FourParts(cp);
    assert (cp - 0x10000) / 1024 == high - 0xD800 && (cp - 0x10000) % 1024 == low - 0xDC00;
  }

  lemma DecodeStep(head: Bytes, units: seq<CodeUnit>, rest: Bytes, more: seq<CodeUnit>)
    requires head != [] && DecodeHead(head + rest) == Some((units, |head|)) && Decode(rest) == Some(more)
    ensures Decode(head + rest) == Some(units + more)
  {
    assert (head + rest)[|head|..] == rest;
  }

  lemma {:induction false} DecodeOfEncode(s: seq<CodeUnit>)
    requires WellFormed(s)
    ensures Decode(Encode(s)) == Some(s)
  {
    if PairAt(s) {
      DecodeOfEncode(s[2..]);
      PairDecodes(s[0], s[1], Encode(s[2..]));
      DecodeStep(EncodePair(s[0], s[1]), [s[0], s[1]], Encode(s[2..]), s[2..]);
      assert s == [s[0], s[1]] + s[2..];
    } else if s != [] {
      DecodeOfEncode(s[1..]);
      UnitDecodes(s[0], Encode(s[1..]));
      DecodeStep(EncodeUnit(s[0]), [s[0]], Encode(s[1..]), s[1..]);
      assert s == [s[0]] + s[1..];
    }
  }

  lemma EncodeInjective(a: seq<CodeUnit>, b: seq<CodeUnit>)
    requires WellFormed(a) && WellFormed(b) && Encode(a) == Encode(b)
    ensures a == b
  {
    DecodeOfEncode(a);
    DecodeOfEncode(b);
  }

  predicate IsAscii(s: seq<CodeUnit>) { forall i :: 0 <= i < |s| ==> s[i] < 0x80 }

  lemma {:induction false} AsciiLength(s: seq<CodeUnit>)
    requires IsAscii(s)
    ensures |Encode(s)| == |s| && WellFormed(s)
  {
    if s != [] {
      AsciiLength(s[1..]);
    }
  }

  /** At most three bytes for each code unit. */
  lemma {:induction false} EncodeBound(s: seq<CodeUnit>)
    ensures |s| <= |Encode(s)| <= 3 * |s|
  {
    if s != [] {
      EncodeBound(s[(if PairAt(s) then 2 else 1)..]);
    }
  }

  lemma {:induction false} WellFormedConcat(a: seq<CodeUnit>, b: seq<CodeUnit>)
    requires WellFormed(a)
    ensures WellFormed(a + b) <==> WellFormed(b)
  {
    if a == [] {
      assert a + b == b;
    } else {
      var n := if PairAt(a) then 2 else 1;
      assert (a + b)[n..] == a[n..] + b;
      WellFormedConcat(a[n..], b);
    }
  }

  lemma PairFront(a: seq<CodeUnit>, b: seq<CodeUnit>)
    requires PairAt(a)
    ensures PairAt(a + b) && (a + b)[2..] == a[2..] + b
    ensures Encode(a + b) == EncodePair(a[0], a[1]) + Encode((a + b)[2..])
  {
  }

  lemma UnitFront(a: seq<CodeUnit>, b: seq<CodeUnit>)
    requires a != [] && !Surrogate(a[0])
    ensures (a + b)[1..] == a[1..] + b && Encode(a + b) == EncodeUnit(a[0]) + Encode((a + b)[1..])
  {
  }

  lemma Reassociate(x: Bytes, y: Bytes, z: Bytes)
    ensures x + (y + z) == (x + y) + z
  {
  }

  lemma {:induction false} EncodeConcat(a: seq<CodeUnit>, b: seq<CodeUnit>)
    requires WellFormed(a)
    ensures Encode(a + b) == Encode(a) + Encode(b)
  {
    if a == [] {
      assert a + b == b;
    } else if PairAt(a) {
      PairFront(a, b);
      EncodeConcat(a[2..], b);
      Reassociate(EncodePair(a[0], a[1]), Encode(a[2..]), Encode(b));
    } else {
      UnitFront(a, b);
      EncodeConcat(a[1..], b);
      Reassociate(EncodeUnit(a[0]), Encode(a[1..]), Encode(b));
    }
  }
}
