/** The pipe-joined transcripts of two-machine-proof.mjs, and the bytes a MAC is taken over. */
module Transcripts {
  import opened Identity
  import opened Text

  /** Text in which the 64 hex characters of a SHA-256 digest are one opaque symbol. */
  datatype Symbol = Unit(u: CodeUnit) | DigestHex(of: Bytes)
  type Txt = seq<Symbol>

  function Lit(s: string): (r: Txt)
    requires forall i :: 0 <= i < |s| ==> s[i] as int < 128
    ensures |r| == |s| && forall i :: 0 <= i < |s| ==> r[i] == Unit(s[i] as int)
  {
    seq(|s|, i requires 0 <= i < |s| => Unit(s[i] as int))
  }

  const PIPE := Unit(124)

  predicate HexSymbol(x: Symbol) {
    x.Unit? && (48 <= x.u <= 57 || 97 <= x.u <= 102 || 65 <= x.u <= 70)
  }

  /** validSha256: a digest symbol or 64 hex characters of either case. */
  predicate HashText(t: Txt) {
    (|t| == 1 && t[0].DigestHex?) || (|t| == 64 && forall i :: 0 <= i < |t| ==> HexSymbol(t[i]))
  }

  function LowerSymbol(x: Symbol): (r: Symbol)
    ensures HexSymbol(x) ==> HexSymbol(r)
  {
    if x.Unit? && 65 <= x.u <= 90 then Unit(x.u + 32) else x
  }

  /** toLowerCase on hash text. */
  function Lower(t: Txt): (r: Txt)
    ensures HashText(t) ==> HashText(r)
  {
    seq(|t|, i requires 0 <= i < |t| => LowerSymbol(t[i]))
  }

  /** Length in UTF-16 code units. */
  function Units(t: Txt): nat {
    if t == [] then 0 else (if t[0].Unit? then 1 else 64) + Units(t[1..])
  }

  predicate SessionIdText(t: Txt) {
    |t| == 36 && forall i :: 0 <= i < |t| ==> HexSymbol(t[i]) || t[i] == Unit(45)
  }

  predicate StateIdText(t: Txt) {
    1 <= Units(t) <= 512 && PIPE !in t && Unit(13) !in t && Unit(10) !in t
  }

  function DigitSymbol(d: Digit): Symbol { Unit(d as int + 48) }

  function Number(n: nat): (r: Txt)
    ensures |r| == |Decimal(n)| && forall i :: 0 <= i < |r| ==> r[i] == DigitSymbol(Decimal(n)[i])
  {
    var ds := Decimal(n);
    seq(|ds|, i requires 0 <= i < |ds| => DigitSymbol(ds[i]))
  }

  lemma NumberInjective(a: nat, b: nat)
    requires Number(a) == Number(b)
    ensures a == b
  {
    var da, db := Decimal(a), Decimal(b);
    assert |da| == |Number(a)| == |Number(b)| == |db|;
    forall i | 0 <= i < |da|
      ensures da[i] == db[i]
    {
      assert Number(a)[i] == DigitSymbol(da[i]) && Number(b)[i] == DigitSymbol(db[i]);
    }
    assert da == db;
    DecimalRoundTrip(a);
    DecimalRoundTrip(b);
  }

  function BoolText(b: bool): Txt { if b then Lit("true") else Lit("false") }

  // ---------------------------------------------------------------- encoding to bytes

  predicate HighAt(t: Txt, i: nat) { i < |t| && t[i].Unit? && HighSurrogate(t[i].u) }
  predicate LowAt(t: Txt, i: nat) { i < |t| && t[i].Unit? && LowSurrogate(t[i].u) }

  /** What UTF-8 encoding keeps of a string: every unpaired surrogate becomes U+FFFD. Encoding the
      result is injective, so a MAC over the bytes is a MAC over this. */
  function Scrub(t: Txt): Txt {
    if t == [] then []
    else if HighAt(t, 0) && LowAt(t, 1) then t[..2] + Scrub(t[2..])
    else if t[0].Unit? && Surrogate(t[0].u) then [Unit(0xFFFD)] + Scrub(t[1..])
    else [t[0]] + Scrub(t[1..])
  }

  /** Every surrogate is paired. */
  predicate WellFormed(t: Txt) {
    t == [] || (if HighAt(t, 0) then LowAt(t, 1) && WellFormed(t[2..]) else !LowAt(t, 0) && WellFormed(t[1..]))
  }

  lemma {:induction false} ScrubFixesExactlyWellFormed(t: Txt)
    ensures Scrub(t) == t <==> WellFormed(t)
    ensures |Scrub(t)| == |t|
  {
    if t != [] {
      if HighAt(t, 0) && LowAt(t, 1) {
        ScrubFixesExactlyWellFormed(t[2..]);
        assert t == t[..2] + t[2..];
        assert Scrub(t)[2..] == Scrub(t[2..]);
      } else {
        ScrubFixesExactlyWellFormed(t[1..]);
        assert t == [t[0]] + t[1..];
        assert Scrub(t)[1..] == Scrub(t[1..]);
      }
    }
  }

  lemma ScrubPairFirst(x: Txt, rest: Txt)
    requires HighAt(x, 0) && LowAt(x, 1)
    ensures Scrub(x) == x[..2] + Scrub(x[2..]) && Scrub(x + rest) == x[..2] + Scrub(x[2..] + rest)
  {
    assert (x + rest)[..2] == x[..2] && (x + rest)[2..] == x[2..] + rest;
  }

  /** What a symbol that is half of no pair becomes. */
  function ScrubOne(x: Symbol): Txt { if x.Unit? && Surrogate(x.u) then [Unit(0xFFFD)] else [x] }

  lemma NoPairFirst(x: Txt, rest: Txt)
    requires x != [] && !(HighAt(x, 0) && LowAt(x, 1)) && !LowAt(rest, 0)
    ensures !(HighAt(x + rest, 0) && LowAt(x + rest, 1))
  {
    assert |x| > 1 ==> (x + rest)[1] == x[1];
    assert |x| == 1 && rest != [] ==> (x + rest)[1] == rest[0];
  }

  /** A text that does not start with a pair does not do so either when something plain follows. */
  lemma ScrubOneFirst(x: Txt, rest: Txt)
    requires x != [] && !(HighAt(x, 0) && LowAt(x, 1)) && !LowAt(rest, 0)
    ensures Scrub(x) == ScrubOne(x[0]) + Scrub(x[1..]) && Scrub(x + rest) == ScrubOne(x[0]) + Scrub(x[1..] + rest)
  {
    NoPairFirst(x, rest);
    assert (x + rest)[1..] == x[1..] + rest;
  }

  lemma Reassociate(x: Txt, y: Txt, sep: Symbol, z: Txt)
    ensures x + (y + ([sep] + z)) == (x + y) + ([sep] + z) && x + y + [sep] + z == x + y + ([sep] + z)
  {
  }

  lemma {:induction false} ScrubBeforeSeparator(x: Txt, sep: Symbol, y: Txt)
    requires !(sep.Unit? && Surrogate(sep.u))
    ensures Scrub(x + ([sep] + y)) == Scrub(x) + ([sep] + Scrub(y))
  {
    var rest := [sep] + y;
    if x == [] {
      assert x + rest == rest && rest[1..] == y;
    } else if HighAt(x, 0) && LowAt(x, 1) {
      ScrubPairFirst(x, rest);
      ScrubBeforeSeparator(x[2..], sep, y);
      Reassociate(x[..2], Scrub(x[2..]), sep, Scrub(y));
    } else {
      ScrubOneFirst(x, rest);
      ScrubBeforeSeparator(x[1..], sep, y);
      Reassociate(ScrubOne(x[0]), Scrub(x[1..]), sep, Scrub(y));
    }
  }

  lemma ScrubConcat(x: Txt, sep: Symbol, y: Txt)
    requires !(sep.Unit? && Surrogate(sep.u))
    ensures Scrub(x + [sep] + y) == Scrub(x) + [sep] + Scrub(y)
  {
    ScrubBeforeSeparator(x, sep, y);
    Reassociate([], x, sep, y);
    Reassociate([], Scrub(x), sep, Scrub(y));
    assert [] + x == x && [] + Scrub(x) == Scrub(x);
  }

  function ScrubAll(parts: seq<Txt>): (r: seq<Txt>)
    ensures |r| == |parts| && forall i :: 0 <= i < |parts| ==> r[i] == Scrub(parts[i])
  {
    seq(|parts|, i requires 0 <= i < |parts| => Scrub(parts[i]))
  }

  lemma {:induction false} ScrubOfJoin(parts: seq<Txt>)
    requires parts != []
    ensures Scrub(Join(parts, PIPE)) == Join(ScrubAll(parts), PIPE)
  {
    if |parts| > 1 {
      ScrubConcat(parts[0], PIPE, Join(parts[1..], PIPE));
      ScrubOfJoin(parts[1..]);
      assert ScrubAll(parts)[1..] == ScrubAll(parts[1..]);
    }
  }

  lemma {:induction false} ScrubKeepsPipes(t: Txt)
    ensures PIPE in Scrub(t) <==> PIPE in t
  {
    if t != [] {
      if HighAt(t, 0) && LowAt(t, 1) {
        ScrubKeepsPipes(t[2..]);
        assert t == [t[0], t[1]] + t[2..] && t[..2] == [t[0], t[1]];
      } else {
        ScrubKeepsPipes(t[1..]);
        assert t == [t[0]] + t[1..];
      }
    }
  }

  /** Text without surrogates is its own encoding. */
  lemma {:induction false} PlainIsWellFormed(t: Txt)
    requires forall i :: 0 <= i < |t| ==> !(t[i].Unit? && Surrogate(t[i].u))
    ensures WellFormed(t)
  {
    if t != [] {
      PlainIsWellFormed(t[1..]);
    }
  }

  // ---------------------------------------------------------------- the two transcripts

  const PROOF_SCHEMA: string := "kindred.sdpn.two-host-proof.v2"

  datatype Proof = Proof(
    sessionId: Txt, challenge: Txt, source: Txt, destination: Txt, stateId: Txt, stateHash: Txt,
    generation: nat, payloadSha256: Txt, payloadBytes: nat)

  datatype Receipt = Receipt(
    schemaVersion: Txt, sessionId: Txt, stateId: Txt, stateHash: Txt, generation: nat,
    payloadSha256: Txt, receivedSha256: Txt, payloadBytes: nat, ciphertextBytes: nat,
    source: Txt, destination: Txt, distinctHosts: bool, loopback: bool,
    authenticated: bool, integrity: bool, encrypted: bool, cipher: Txt, transport: Txt,
    twoHost: bool, physical: bool, production: bool, observedAt: Txt)

  function ProofFields(p: Proof): (r: seq<Txt>)
    ensures |r| == 10
  {
    [Lit(PROOF_SCHEMA), p.sessionId, p.challenge, p.source, p.destination, p.stateId, p.stateHash,
     Number(p.generation), p.payloadSha256, Number(p.payloadBytes)]
  }

  /** The fields of a receipt in transcript order, with booleans written by `show`. */
  function FieldsWith(r: Receipt, show: bool -> Txt): (fields: seq<Txt>)
    ensures |fields| == 22
  {
    [r.schemaVersion, r.sessionId, r.stateId, r.stateHash, Number(r.generation), r.payloadSha256, r.receivedSha256,
     Number(r.payloadBytes), Number(r.ciphertextBytes), r.source, r.destination, show(r.distinctHosts),
       show(r.loopback),
     show(r.authenticated), show(r.integrity), show(r.encrypted), r.cipher, r.transport,
     show(r.twoHost), show(r.physical), show(r.production), r.observedAt]
  }

  function ReceiptFields(r: Receipt): (fields: seq<Txt>)
    ensures |fields| == 22
  {
    FieldsWith(r, BoolText)
  }

  /** Positions 11 to 15 and 18 to 20 are the flags. */
  predicate IsFlag(i: nat) { 11 <= i < 16 || 18 <= i < 21 }

  function Flag(r: Receipt, i: nat): bool
    requires IsFlag(i)
  {
    if i == 11 then r.distinctHosts else if i == 12 then r.loopback else if i == 13 then r.authenticated
    else if i == 14 then r.integrity else if i == 15 then r.encrypted
    else if i == 18 then r.twoHost else if i == 19 then r.physical else r.production
  }

  lemma FlagIsShown(r: Receipt, show: bool -> Txt, i: nat)
    requires IsFlag(i)
    ensures FieldsWith(r, show)[i] == show(Flag(r, i))
  {
  }

  lemma OtherFieldsAgree(r: Receipt, show: bool -> Txt, show': bool -> Txt, i: nat)
    requires i < 22 && !IsFlag(i)
    ensures FieldsWith(r, show)[i] == FieldsWith(r, show')[i]
  {
  }

  function ProofTranscript(p: Proof): Txt { Join(ProofFields(p), PIPE) }
  function ReceiptTranscript(r: Receipt): Txt { Join(ReceiptFields(r), PIPE) }

  /** No field hides a separator. */
  ghost predicate Unambiguous(fields: seq<Txt>) {
    forall i :: 0 <= i < |fields| ==> PIPE !in fields[i]
  }

  lemma EncodedFieldsAreDetermined(a: seq<Txt>, b: seq<Txt>)
    requires |a| == |b| > 0 && Unambiguous(b)
    requires Scrub(Join(a, PIPE)) == Scrub(Join(b, PIPE))
    ensures ScrubAll(a) == ScrubAll(b)
  {
    ScrubOfJoin(a);
    ScrubOfJoin(b);
    forall i | 0 <= i < |b|
      ensures PIPE !in ScrubAll(b)[i]
    {
      ScrubKeepsPipes(b[i]);
    }
    JoinInjective(ScrubAll(a), ScrubAll(b), PIPE);
  }

  lemma BoolTextInjective(a: bool, b: bool)
    requires Scrub(BoolText(a)) == Scrub(BoolText(b))
    ensures a == b
  {
    ScrubFixesExactlyWellFormed(BoolText(a));
    ScrubFixesExactlyWellFormed(BoolText(b));
    assert |BoolText(true)| == 4 && |BoolText(false)| == 5;
  }

  lemma ScrubbedNumberInjective(a: nat, b: nat)
    requires Scrub(Number(a)) == Scrub(Number(b))
    ensures a == b
  {
    PlainIsWellFormed(Number(a));
    PlainIsWellFormed(Number(b));
    ScrubFixesExactlyWellFormed(Number(a));
    ScrubFixesExactlyWellFormed(Number(b));
    NumberInjective(a, b);
  }

  /** The same fields once encoded. */
  ghost predicate SameEncodedReceipt(a: Receipt, b: Receipt) {
    && Scrub(a.schemaVersion) == Scrub(b.schemaVersion) && Scrub(a.sessionId) == Scrub(b.sessionId)
    && Scrub(a.stateId) == Scrub(b.stateId) && Scrub(a.stateHash) == Scrub(b.stateHash) && a.generation == b.generation
    && Scrub(a.payloadSha256) == Scrub(b.payloadSha256) && Scrub(a.receivedSha256) == Scrub(b.receivedSha256)
    && a.payloadBytes == b.payloadBytes && a.ciphertextBytes == b.ciphertextBytes
    && Scrub(a.source) == Scrub(b.source) && Scrub(a.destination) == Scrub(b.destination)
    && a.distinctHosts == b.distinctHosts && a.loopback == b.loopback && a.authenticated == b.authenticated
    && a.integrity == b.integrity && a.encrypted == b.encrypted
    && Scrub(a.cipher) == Scrub(b.cipher) && Scrub(a.transport) == Scrub(b.transport)
    && a.twoHost == b.twoHost && a.physical == b.physical && a.production == b.production
    && Scrub(a.observedAt) == Scrub(b.observedAt)
  }

  ghost predicate SameEncodedProof(a: Proof, b: Proof) {
    && Scrub(a.sessionId) == Scrub(b.sessionId) && Scrub(a.challenge) == Scrub(b.challenge)
    && Scrub(a.source) == Scrub(b.source) && Scrub(a.destination) == Scrub(b.destination)
    && Scrub(a.stateId) == Scrub(b.stateId) && Scrub(a.stateHash) == Scrub(b.stateHash) && a.generation == b.generation
    && Scrub(a.payloadSha256) == Scrub(b.payloadSha256) && a.payloadBytes == b.payloadBytes
  }

  lemma EncodedFieldAt(a: seq<Txt>, b: seq<Txt>, i: nat)
    requires ScrubAll(a) == ScrubAll(b) && i < |a|
    ensures |a| == |b| && Scrub(a[i]) == Scrub(b[i])
  {
    assert |ScrubAll(a)| == |a| && |ScrubAll(b)| == |b|;
    assert ScrubAll(a)[i] == Scrub(a[i]) && ScrubAll(b)[i] == Scrub(b[i]);
  }

  lemma BoolFieldAt(a: seq<Txt>, b: seq<Txt>, i: nat, x: bool, y: bool)
    requires ScrubAll(a) == ScrubAll(b) && i < |a| && i < |b| && a[i] == BoolText(x) && b[i] == BoolText(y)
    ensures x == y
  {
    EncodedFieldAt(a, b, i);
    BoolTextInjective(x, y);
  }

  lemma NumberFieldAt(a: seq<Txt>, b: seq<Txt>, i: nat, x: nat, y: nat)
    requires ScrubAll(a) == ScrubAll(b) && i < |a| && i < |b| && a[i] == Number(x) && b[i] == Number(y)
    ensures x == y
  {
    EncodedFieldAt(a, b, i);
    ScrubbedNumberInjective(x, y);
  }

  lemma FlagDetermined(a: Receipt, b: Receipt, i: nat)
    requires ScrubAll(ReceiptFields(a)) == ScrubAll(ReceiptFields(b)) && IsFlag(i)
    ensures Flag(a, i) == Flag(b, i)
  {
    FlagIsShown(a, BoolText, i);
    FlagIsShown(b, BoolText, i);
    BoolFieldAt(ReceiptFields(a), ReceiptFields(b), i, Flag(a, i), Flag(b, i));
  }

  lemma FlagsDetermined(a: Receipt, b: Receipt)
    requires ScrubAll(ReceiptFields(a)) == ScrubAll(ReceiptFields(b))
    ensures a.distinctHosts == b.distinctHosts && a.loopback == b.loopback && a.authenticated == b.authenticated
    ensures a.integrity == b.integrity && a.encrypted == b.encrypted
    ensures a.twoHost == b.twoHost && a.physical == b.physical && a.production == b.production
  {
    FlagDetermined(a, b, 11); FlagDetermined(a, b, 12); FlagDetermined(a, b, 13); FlagDetermined(a, b, 14);
    FlagDetermined(a, b, 15); FlagDetermined(a, b, 18); FlagDetermined(a, b, 19); FlagDetermined(a, b, 20);
  }

  lemma TextsDetermined(a: Receipt, b: Receipt)
    requires ScrubAll(ReceiptFields(a)) == ScrubAll(ReceiptFields(b))
    ensures Scrub(a.schemaVersion) == Scrub(b.schemaVersion) && Scrub(a.sessionId) == Scrub(b.sessionId)
    ensures Scrub(a.stateId) == Scrub(b.stateId) && Scrub(a.stateHash) == Scrub(b.stateHash)
    ensures Scrub(a.payloadSha256) == Scrub(b.payloadSha256) && Scrub(a.receivedSha256) == Scrub(b.receivedSha256)
    ensures Scrub(a.source) == Scrub(b.source) && Scrub(a.destination) == Scrub(b.destination)
    ensures Scrub(a.cipher) == Scrub(b.cipher) && Scrub(a.transport) == Scrub(b.transport)
            && Scrub(a.observedAt) == Scrub(b.observedAt)
  {
    var fa, fb := ReceiptFields(a), ReceiptFields(b);
    EncodedFieldAt(fa, fb, 0); EncodedFieldAt(fa, fb, 1); EncodedFieldAt(fa, fb, 2); EncodedFieldAt(fa, fb, 3);
    EncodedFieldAt(fa, fb, 5); EncodedFieldAt(fa, fb, 6); EncodedFieldAt(fa, fb, 9); EncodedFieldAt(fa, fb, 10);
    EncodedFieldAt(fa, fb, 16); EncodedFieldAt(fa, fb, 17); EncodedFieldAt(fa, fb, 21);
  }

  lemma ReceiptNumbersDetermined(a: Receipt, b: Receipt)
    requires ScrubAll(ReceiptFields(a)) == ScrubAll(ReceiptFields(b))
    ensures a.generation == b.generation && a.payloadBytes == b.payloadBytes && a.ciphertextBytes == b.ciphertextBytes
  {
    var fa, fb := ReceiptFields(a), ReceiptFields(b);
    NumberFieldAt(fa, fb, 4, a.generation, b.generation);
    NumberFieldAt(fa, fb, 7, a.payloadBytes, b.payloadBytes);
    NumberFieldAt(fa, fb, 8, a.ciphertextBytes, b.ciphertextBytes);
  }

  /** Injectivity of the receipt transcript on the bytes under the MAC; `a` may be anything. */
  lemma ReceiptTranscriptInjective(a: Receipt, b: Receipt)
    requires Unambiguous(ReceiptFields(b))
    requires Scrub(ReceiptTranscript(a)) == Scrub(ReceiptTranscript(b))
    ensures SameEncodedReceipt(a, b)
  {
    var fa, fb := ReceiptFields(a), ReceiptFields(b);
    EncodedFieldsAreDetermined(fa, fb);
    FlagsDetermined(a, b);
    ReceiptNumbersDetermined(a, b);
    TextsDetermined(a, b);
  }

  lemma ProofTranscriptInjective(a: Proof, b: Proof)
    requires Unambiguous(ProofFields(b))
    requires Scrub(ProofTranscript(a)) == Scrub(ProofTranscript(b))
    ensures SameEncodedProof(a, b)
  {
    var fa, fb := ProofFields(a), ProofFields(b);
    EncodedFieldsAreDetermined(fa, fb);
    EncodedFieldAt(fa, fb, 1); EncodedFieldAt(fa, fb, 2); EncodedFieldAt(fa, fb, 3); EncodedFieldAt(fa, fb, 4);
    EncodedFieldAt(fa, fb, 5); EncodedFieldAt(fa, fb, 6);
    NumberFieldAt(fa, fb, 7, a.generation, b.generation);
    EncodedFieldAt(fa, fb, 8);
    NumberFieldAt(fa, fb, 9, a.payloadBytes, b.payloadBytes);
  }

  /** The MAC of a proof never verifies as the MAC of a receipt, however odd the receipt. */
  lemma ProofIsNoReceipt(p: Proof, r: Receipt)
    requires Unambiguous(ProofFields(p))
    ensures Scrub(ProofTranscript(p)) != Scrub(ReceiptTranscript(r))
  {
    var fp, fr := ProofFields(p), ReceiptFields(r);
    ScrubOfJoin(fp);
    ScrubOfJoin(fr);
    forall i | 0 <= i < |fp|
      ensures PIPE !in ScrubAll(fp)[i]
    {
      ScrubKeepsPipes(fp[i]);
    }
    SplitOfJoin(ScrubAll(fp), PIPE);
    SplitOfJoin(ScrubAll(fr), PIPE);
  }

  // ---------------------------------------------------------------- when a MAC determines its fields

  ghost predicate WellFormedReceipt(r: Receipt) {
    && WellFormed(r.schemaVersion) && WellFormed(r.sessionId) && WellFormed(r.stateId) && WellFormed(r.stateHash)
    && WellFormed(r.payloadSha256) && WellFormed(r.receivedSha256) && WellFormed(r.source) && WellFormed(r.destination)
    && WellFormed(r.cipher) && WellFormed(r.transport) && WellFormed(r.observedAt)
  }

  ghost predicate WellFormedProof(p: Proof) {
    && WellFormed(p.sessionId) && WellFormed(p.challenge) && WellFormed(p.source) && WellFormed(p.destination)
    && WellFormed(p.stateId) && WellFormed(p.stateHash) && WellFormed(p.payloadSha256)
  }

  lemma ScrubInjective(a: Txt, b: Txt)
    requires WellFormed(a) && WellFormed(b)
    ensures Scrub(a) == Scrub(b) ==> a == b
  {
    ScrubFixesExactlyWellFormed(a);
    ScrubFixesExactlyWellFormed(b);
  }

  /** On well-formed fields the receipt transcript is injective outright. */
  lemma WellFormedReceiptsAreDetermined(a: Receipt, b: Receipt)
    requires WellFormedReceipt(a) && WellFormedReceipt(b) && Unambiguous(ReceiptFields(b))
    ensures Scrub(ReceiptTranscript(a)) == Scrub(ReceiptTranscript(b)) <==> a == b
  {
    if Scrub(ReceiptTranscript(a)) == Scrub(ReceiptTranscript(b)) {
      ReceiptTranscriptInjective(a, b);
      ScrubInjective(a.schemaVersion, b.schemaVersion);
      ScrubInjective(a.sessionId, b.sessionId);
      ScrubInjective(a.stateId, b.stateId);
      ScrubInjective(a.stateHash, b.stateHash);
      ScrubInjective(a.payloadSha256, b.payloadSha256);
      ScrubInjective(a.receivedSha256, b.receivedSha256);
      ScrubInjective(a.source, b.source);
      ScrubInjective(a.destination, b.destination);
      ScrubInjective(a.cipher, b.cipher);
      ScrubInjective(a.transport, b.transport);
      ScrubInjective(a.observedAt, b.observedAt);
    }
  }

  /** And so is the proof transcript. */
  lemma WellFormedProofsAreDetermined(a: Proof, b: Proof)
    requires WellFormedProof(a) && WellFormedProof(b) && Unambiguous(ProofFields(b))
    ensures Scrub(ProofTranscript(a)) == Scrub(ProofTranscript(b)) <==> a == b
  {
    if Scrub(ProofTranscript(a)) == Scrub(ProofTranscript(b)) {
      ProofTranscriptInjective(a, b);
      ScrubInjective(a.sessionId, b.sessionId);
      ScrubInjective(a.challenge, b.challenge);
      ScrubInjective(a.source, b.source);
      ScrubInjective(a.destination, b.destination);
      ScrubInjective(a.stateId, b.stateId);
      ScrubInjective(a.stateHash, b.stateHash);
      ScrubInjective(a.payloadSha256, b.payloadSha256);
    }
  }

  const REPLACEMENT := Unit(0xFFFD)

  /** Text that no other text is encoded like: well formed, and without the replacement character. */
  predicate EncodedUniquely(t: Txt) { WellFormed(t) && REPLACEMENT !in t }

  /** Encoding leaves text without a replacement in it as it was. */
  lemma {:induction false} NothingReplaced(t: Txt)
    requires REPLACEMENT !in Scrub(t)
    ensures Scrub(t) == t
  {
    if HighAt(t, 0) && LowAt(t, 1) {
      assert Scrub(t)[2..] == Scrub(t[2..]);
      NothingReplaced(t[2..]);
      assert t == t[..2] + t[2..];
    } else if t != [] {
      assert Scrub(t)[0] != REPLACEMENT && Scrub(t)[1..] == Scrub(t[1..]);
      NothingReplaced(t[1..]);
      assert t == [t[0]] + t[1..];
    }
  }

  /** Encoded text is well formed, and as good a state identity as the text was. */
  lemma {:induction false} ScrubIsWellFormed(t: Txt)
    ensures WellFormed(Scrub(t)) && Units(Scrub(t)) == Units(t)
    ensures forall x :: x in Scrub(t) ==> x in t || x == REPLACEMENT
  {
    if HighAt(t, 0) && LowAt(t, 1) {
      ScrubIsWellFormed(t[2..]);
      assert Scrub(t)[1..] == [t[1]] + Scrub(t[2..]) && Scrub(t)[1..][1..] == Scrub(t[2..])
             && Scrub(t)[2..] == Scrub(t[2..]);
      assert t[1..][1..] == t[2..];
    } else if t != [] {
      ScrubIsWellFormed(t[1..]);
      assert Scrub(t)[1..] == Scrub(t[1..]);
    }
  }

  /** An unpaired low surrogate in place of a replacement character is encoded back into it. */
  lemma {:induction false} ReplacementHides(t: Txt, i: nat)
    requires WellFormed(t) && i < |t| && t[i] == REPLACEMENT
    ensures Scrub(t[i := Unit(0xDC00)]) == Scrub(t) && Units(t[i := Unit(0xDC00)]) == Units(t)
  {
    var s := t[i := Unit(0xDC00)];
    if i == 0 {
      assert s[1..] == t[1..];
    } else if HighAt(t, 0) {
      assert s[..2] == t[..2] && s[2..] == t[2..][i - 2 := Unit(0xDC00)];
      ReplacementHides(t[2..], i - 2);
      assert s[1..][1..] == s[2..] && t[1..][1..] == t[2..];
    } else {
      assert s[1..] == t[1..][i - 1 := Unit(0xDC00)];
      ReplacementHides(t[1..], i - 1);
    }
  }

  /** Every other state identity has a twin with the same bytes. */
  lemma Twin(t: Txt) returns (s: Txt)
    requires StateIdText(t) && !EncodedUniquely(t)
    ensures StateIdText(s) && s != t && Scrub(s) == Scrub(t)
  {
    if WellFormed(t) {
      var i :| 0 <= i < |t| && t[i] == REPLACEMENT;
      ReplacementHides(t, i);
      s := t[i := Unit(0xDC00)];
      assert s[i] != t[i];
    } else {
      ScrubIsWellFormed(t);
      ScrubFixesExactlyWellFormed(t);
      ScrubFixesExactlyWellFormed(Scrub(t));
      s := Scrub(t);
    }
  }

  lemma UniqueEncoding(s: Txt, t: Txt)
    requires EncodedUniquely(t) && Scrub(s) == Scrub(t)
    ensures s == t
  {
    ScrubFixesExactlyWellFormed(t);
    NothingReplaced(s);
  }

  ghost predicate ProofFixesStateId(p: Proof) {
    forall q: Proof :: StateIdText(q.stateId) && Scrub(ProofTranscript(q)) == Scrub(ProofTranscript(p)) ==>
      q.stateId == p.stateId
  }

  ghost predicate ReceiptFixesStateId(r: Receipt) {
    forall q: Receipt :: StateIdText(q.stateId) && Scrub(ReceiptTranscript(q)) == Scrub(ReceiptTranscript(r)) ==>
      q.stateId == r.stateId
  }

  lemma SameBytesSameJoin(a: seq<Txt>, b: seq<Txt>)
    requires |a| == |b| > 0 && forall i :: 0 <= i < |a| ==> Scrub(a[i]) == Scrub(b[i])
    ensures Scrub(Join(a, PIPE)) == Scrub(Join(b, PIPE))
  {
    ScrubOfJoin(a);
    ScrubOfJoin(b);
    assert ScrubAll(a) == ScrubAll(b);
  }

  lemma SameBytesSameProofBytes(p: Proof, s: Txt)
    requires Scrub(s) == Scrub(p.stateId)
    ensures Scrub(ProofTranscript(p.(stateId := s))) == Scrub(ProofTranscript(p))
  {
    SameBytesSameJoin(ProofFields(p.(stateId := s)), ProofFields(p));
  }

  lemma FrontFields(r: Receipt, show: bool -> Txt)
    ensures var f := FieldsWith(r, show);
            && f[0] == r.schemaVersion && f[1] == r.sessionId && f[2] == r.stateId && f[3] == r.stateHash
            && f[4] == Number(r.generation) && f[5] == r.payloadSha256 && f[6] == r.receivedSha256
  {
  }

  lemma BackFields(r: Receipt, show: bool -> Txt)
    ensures var f := FieldsWith(r, show);
            && f[7] == Number(r.payloadBytes) && f[8] == Number(r.ciphertextBytes) && f[9] == r.source
            && f[10] == r.destination && f[16] == r.cipher && f[17] == r.transport && f[21] == r.observedAt
  {
  }

  /** Receipts that differ in their state identity alone differ in their third field alone. */
  lemma OnlyTheThirdFieldDiffers(a: Receipt, b: Receipt, show: bool -> Txt, i: nat)
    requires i < 22 && i != 2 && b == a.(stateId := b.stateId)
    ensures FieldsWith(a, show)[i] == FieldsWith(b, show)[i]
  {
    if IsFlag(i) {
      FlagIsShown(a, show, i);
      FlagIsShown(b, show, i);
    } else {
      FrontFields(a, show);
      FrontFields(b, show);
      BackFields(a, show);
      BackFields(b, show);
    }
  }

  lemma SameBytesSameReceiptBytes(r: Receipt, s: Txt)
    requires Scrub(s) == Scrub(r.stateId)
    ensures Scrub(ReceiptTranscript(r.(stateId := s))) == Scrub(ReceiptTranscript(r))
  {
    var q := r.(stateId := s);
    forall i | 0 <= i < 22
      ensures Scrub(ReceiptFields(q)[i]) == Scrub(ReceiptFields(r)[i])
    {
      if i == 2 {
        FrontFields(q, BoolText);
        FrontFields(r, BoolText);
      } else {
        OnlyTheThirdFieldDiffers(q, r, BoolText, i);
      }
    }
    SameBytesSameJoin(ReceiptFields(q), ReceiptFields(r));
  }

  /** The bytes under a proof's MAC determine its state identity exactly when that is well formed and
      has no replacement character in it. */
  lemma ProofFixesExactlyUniqueStateIds(p: Proof)
    requires StateIdText(p.stateId) && Unambiguous(ProofFields(p))
    ensures ProofFixesStateId(p) <==> EncodedUniquely(p.stateId)
  {
    if EncodedUniquely(p.stateId) {
      forall q: Proof | StateIdText(q.stateId) && Scrub(ProofTranscript(q)) == Scrub(ProofTranscript(p))
        ensures q.stateId == p.stateId
      {
        ProofTranscriptInjective(q, p);
        UniqueEncoding(q.stateId, p.stateId);
      }
    } else {
      var s := Twin(p.stateId);
      SameBytesSameProofBytes(p, s);
      assert p.(stateId := s).stateId != p.stateId;
    }
  }

  /** And so for receipts. */
  lemma ReceiptFixesExactlyUniqueStateIds(r: Receipt)
    requires StateIdText(r.stateId) && Unambiguous(ReceiptFields(r))
    ensures ReceiptFixesStateId(r) <==> EncodedUniquely(r.stateId)
  {
    if EncodedUniquely(r.stateId) {
      forall q: Receipt | StateIdText(q.stateId) && Scrub(ReceiptTranscript(q)) == Scrub(ReceiptTranscript(r))
        ensures q.stateId == r.stateId
      {
        ReceiptTranscriptInjective(q, r);
        UniqueEncoding(q.stateId, r.stateId);
      }
    } else {
      var s := Twin(r.stateId);
      SameBytesSameReceiptBytes(r, s);
      assert r.(stateId := s).stateId != r.stateId;
    }
  }

  /** Three different state identities whose proofs share their MAC bytes: two with an unpaired
      surrogate, and the replacement character itself, which is well formed. */
  lemma IllFormedStateIdsCollide(p: Proof)
    ensures var a, b, c := p.(stateId := [Unit(0xD800)]), p.(stateId := [Unit(0xD801)]), p.(stateId := [REPLACEMENT]);
            && StateIdText(a.stateId) && StateIdText(b.stateId) && StateIdText(c.stateId) && a != b && b != c && a != c
            && WellFormed(c.stateId)
            && Scrub(ProofTranscript(a)) == Scrub(ProofTranscript(b)) == Scrub(ProofTranscript(c))
  {
    var c := p.(stateId := [REPLACEMENT]);
    assert Scrub([Unit(0xD800)]) == [REPLACEMENT] == Scrub([Unit(0xD801)]) == Scrub([REPLACEMENT]);
    assert Units([Unit(0xD800)]) == 1 && Units([Unit(0xD801)]) == 1 && Units([REPLACEMENT]) == 1;
    SameBytesSameProofBytes(c, [Unit(0xD800)]);
    SameBytesSameProofBytes(c, [Unit(0xD801)]);
    assert c.(stateId := [Unit(0xD800)]) == p.(stateId := [Unit(0xD800)])
           && c.(stateId := [Unit(0xD801)]) == p.(stateId := [Unit(0xD801)]);
  }
}
