/** inspect_receipt of interconnect/evidence.py: the second, independent checker of the receiver's
    receipts. */
module ReceiptInspector {
  import opened Identity
  import opened Text
  import opened Transcripts
  import opened Timestamps
  import opened ProofReceiver

  /** len() of a Python string: paired surrogates of the JSON text arrive as one character. */
  function CodePoints(t: Txt): nat {
    if t == [] then 0
    else if HighAt(t, 0) && LowAt(t, 1) then 1 + CodePoints(t[2..])
    else (if t[0].Unit? then 1 else 64) + CodePoints(t[1..])
  }

  lemma {:induction false} CodePointsBound(t: Txt)
    ensures CodePoints(t) <= Units(t)
    ensures t != [] ==> CodePoints(t) >= 1
  {
    if t != [] {
      if HighAt(t, 0) && LowAt(t, 1) {
        CodePointsBound(t[2..]);
        assert t[1..][1..] == t[2..];
        assert Units(t) == 1 + Units(t[1..]) && Units(t[1..]) == 1 + Units(t[2..]);
      } else {
        CodePointsBound(t[1..]);
      }
    }
  }

  // ---------------------------------------------------------------- the Python transcript

  function LowerAll(t: Txt): (r: Txt) { seq(|t|, i requires 0 <= i < |t| => LowerSymbol(t[i])) }

  /** str() of a Python bool. */
  function PythonBool(b: bool): Txt { if b then Lit("True") else Lit("False") }

  /** str() of every field, then lower() on BOOLS = FIELDS[11:16] + FIELDS[18:21]. */
  function PythonFields(r: Receipt): (fields: seq<Txt>)
    ensures |fields| == 22
    ensures forall i :: 0 <= i < 22 ==>
              fields[i] == (var str := FieldsWith(r, PythonBool)[i]; if IsFlag(i) then LowerAll(str) else str)
  {
    var str := FieldsWith(r, PythonBool);
    seq(22, i requires 0 <= i < 22 => if IsFlag(i) then LowerAll(str[i]) else str[i])
  }

  lemma PythonBoolLowers(b: bool)
    ensures LowerAll(PythonBool(b)) == BoolText(b)
  {
    var x, y := LowerAll(PythonBool(b)), BoolText(b);
    assert forall i :: 0 <= i < |x| ==> x[i] == y[i];
  }

  /** The two programs write the same transcript for every receipt. */
  lemma TranscriptsAgree(r: Receipt)
    ensures PythonFields(r) == ReceiptFields(r)
  {
    var p, f := PythonFields(r), ReceiptFields(r);
    forall i | 0 <= i < 22
      ensures p[i] == f[i]
    {
      FieldAgrees(r, i);
    }
  }

  lemma FieldAgrees(r: Receipt, i: nat)
    requires i < 22
    ensures PythonFields(r)[i] == ReceiptFields(r)[i]
  {
    if IsFlag(i) {
      FlagIsShown(r, BoolText, i);
      FlagIsShown(r, PythonBool, i);
      PythonBoolLowers(Flag(r, i));
    } else {
      OtherFieldsAgree(r, BoolText, PythonBool, i);
    }
  }

  // ---------------------------------------------------------------- the inspector

  datatype Inspection = Inspected(macVerified: bool, payloadVerified: bool) | Rejected

  /** Every check that needs neither secret nor payload. */
  predicate MetadataOk(r: Receipt) {
    && r.schemaVersion == Lit(PROOF_SCHEMA)
    && HashText(r.stateHash) && HashText(r.payloadSha256) && HashText(r.receivedSha256) && HashText(r.source)
       && HashText(r.destination)
    && SessionIdText(r.sessionId)
    && 1 <= CodePoints(r.stateId) <= 512 && PIPE !in r.stateId && Unit(13) !in r.stateId && Unit(10) !in r.stateId
    && r.generation <= 9007199254740991 && r.payloadBytes <= 9007199254740991 && r.ciphertextBytes <= 9007199254740991
    && 1 <= r.payloadBytes <= DEFAULT_MAX_BYTES && r.payloadBytes == r.ciphertextBytes
    && r.stateHash == r.payloadSha256 && r.payloadSha256 == r.receivedSha256
    && r.authenticated && r.integrity && r.encrypted && !r.physical && !r.production
    && r.distinctHosts == (r.source != r.destination)
    && r.twoHost == (r.source != r.destination && !r.loopback)
    && r.cipher == Lit("AES-256-GCM") && r.transport == Lit("HTTP_TCP_AES_256_GCM_BUFFERED")
    && PythonParses(r.observedAt)
  }

  /** str.encode() refuses unpaired surrogates, for the secret and for the text. */
  predicate MacOk(r: Receipt, mac: Mac, secret: Txt) {
    && CodePoints(secret) >= 32
    && WellFormed(secret) && WellFormed(Join(PythonFields(r), PIPE))
    && mac == HmacSha256(secret, Join(PythonFields(r), PIPE))
  }

  predicate PayloadOk(r: Receipt, payload: Bytes) {
    |payload| == r.payloadBytes && Sha256Text(payload) == r.payloadSha256
  }

  function Inspect(r: Receipt, mac: Mac, secret: Option<Txt>, payload: Option<Bytes>): Inspection {
    if !mac.HmacSha256? || !MetadataOk(r) then Rejected
    else if secret.Some? && !MacOk(r, mac, secret.value) then Rejected
    else if payload.Some? && !PayloadOk(r, payload.value) then Rejected
    else Inspected(secret.Some?, payload.Some?)
  }

  /** The chunked read of the payload file: size and digest grow together. */
  method CheckPayload(r: Receipt, payload: Bytes) returns (ok: bool)
    ensures ok == PayloadOk(r, payload)
  {
    var size, hashed, offset := 0, [], 0;
    while offset < |payload|
      invariant 0 <= offset <= |payload| && size == offset <= r.payloadBytes
      invariant hashed == payload[..offset]
      decreases |payload| - offset
    {
      var next := if offset + 65536 < |payload| then offset + 65536 else |payload|;
      var chunk := payload[offset..next];
      size := size + |chunk|;
      if size > r.payloadBytes { return false; }
      hashed := hashed + chunk;
      offset := next;
    }
    assert payload[..offset] == payload;
    ok := size == r.payloadBytes && Sha256Text(hashed) == r.payloadSha256;
  }

  // ---------------------------------------------------------------- reading the JSON object

  /** The names in FIELDS, receiptMac, and any other key. */
  datatype Name =
    | SchemaVersion | SessionId | StateId | StateHash | Generation | PayloadSha256 | ReceivedSha256 | PayloadBytes
    | CiphertextBytes | SourceFingerprint | DestinationFingerprint | DistinctFingerprints | LoopbackObserved
    | AuthenticationVerified | IntegrityVerified | EncryptedOnWire | CipherName | TransportClass | TwoHostProof
    | PhysicalAttestation | ProductionClaim | ObservedAt | ReceiptMac | OtherName(text: string)

  const FIELDS: set<Name> :=
    {SchemaVersion, SessionId, StateId, StateHash, Generation, PayloadSha256, ReceivedSha256, PayloadBytes,
     CiphertextBytes, SourceFingerprint, DestinationFingerprint, DistinctFingerprints, LoopbackObserved,
     AuthenticationVerified, IntegrityVerified, EncryptedOnWire, CipherName, TransportClass, TwoHostProof,
     PhysicalAttestation, ProductionClaim, ObservedAt, ReceiptMac}

  /** A JSON value as json.loads types it: text (a MAC is text), an int, a bool, or anything else. */
  datatype Value = Text(t: Txt) | MacText(mac: Mac) | Whole(n: nat) | Negative | Truth(b: bool) | OtherValue

  type Object = map<Name, Value>

  datatype Kind = TextKind | NumberKind | FlagKind | MacKind | NoKind

  /** What type each field must have. */
  function KindOf(f: Name): Kind {
    match f
    case SchemaVersion | SessionId | StateId | StateHash | PayloadSha256 | ReceivedSha256 => TextKind
    case SourceFingerprint | DestinationFingerprint | CipherName | TransportClass | ObservedAt => TextKind
    case Generation | PayloadBytes | CiphertextBytes => NumberKind
    case ReceiptMac => MacKind
    case OtherName(_) => NoKind
    case _ => FlagKind
  }

  /** A bool is no int, and an int no bool. */
  predicate HasKind(v: Value, kind: Kind) {
    match kind
    case TextKind => v.Text?
    case NumberKind => v.Whole?
    case FlagKind => v.Truth?
    case MacKind => v.MacText?
    case NoKind => false
  }

  /** Exactly the known fields, each of its type. */
  predicate Typed(m: Object) { m.Keys == FIELDS && forall f :: f in FIELDS ==> HasKind(m[f], KindOf(f)) }

  function ReadReceipt(m: Object): Receipt
    requires Typed(m)
  {
    Receipt(m[SchemaVersion].t, m[SessionId].t, m[StateId].t, m[StateHash].t, m[Generation].n, m[PayloadSha256].t,
            m[ReceivedSha256].t, m[PayloadBytes].n, m[CiphertextBytes].n, m[SourceFingerprint].t,
            m[DestinationFingerprint].t, m[DistinctFingerprints].b, m[LoopbackObserved].b, m[AuthenticationVerified].b,
            m[IntegrityVerified].b, m[EncryptedOnWire].b, m[CipherName].t, m[TransportClass].t, m[TwoHostProof].b,
            m[PhysicalAttestation].b, m[ProductionClaim].b, m[ObservedAt].t)
  }

  /** What the receiver's JSON object holds under each name. */
  function FieldValue(r: Receipt, mac: Mac, f: Name): Value {
    match f
    case SchemaVersion => Text(r.schemaVersion)
    case SessionId => Text(r.sessionId)
    case StateId => Text(r.stateId)
    case StateHash => Text(r.stateHash)
    case Generation => Whole(r.generation)
    case PayloadSha256 => Text(r.payloadSha256)
    case ReceivedSha256 => Text(r.receivedSha256)
    case PayloadBytes => Whole(r.payloadBytes)
    case CiphertextBytes => Whole(r.ciphertextBytes)
    case SourceFingerprint => Text(r.source)
    case DestinationFingerprint => Text(r.destination)
    case DistinctFingerprints => Truth(r.distinctHosts)
    case LoopbackObserved => Truth(r.loopback)
    case AuthenticationVerified => Truth(r.authenticated)
    case IntegrityVerified => Truth(r.integrity)
    case EncryptedOnWire => Truth(r.encrypted)
    case CipherName => Text(r.cipher)
    case TransportClass => Text(r.transport)
    case TwoHostProof => Truth(r.twoHost)
    case PhysicalAttestation => Truth(r.physical)
    case ProductionClaim => Truth(r.production)
    case ObservedAt => Text(r.observedAt)
    case ReceiptMac => MacText(mac)
    case OtherName(_) => OtherValue
  }

  function WriteReceipt(r: Receipt, mac: Mac): Object { map f | f in FIELDS :: FieldValue(r, mac, f) }

  lemma FieldIsRead(m: Object, f: Name)
    requires Typed(m) && f in FIELDS
    ensures m[f] == FieldValue(ReadReceipt(m), m[ReceiptMac].mac, f)
  {
    assert HasKind(m[f], KindOf(f)) && HasKind(m[ReceiptMac], MacKind);
  }

  lemma ValuesHaveTheirKind(r: Receipt, mac: Mac, f: Name)
    requires !f.OtherName?
    ensures HasKind(FieldValue(r, mac, f), KindOf(f))
  {
  }

  lemma WrittenIsTyped(r: Receipt, mac: Mac)
    ensures Typed(WriteReceipt(r, mac))
  {
    var m := WriteReceipt(r, mac);
    forall f | f in FIELDS
      ensures HasKind(m[f], KindOf(f))
    {
      ValuesHaveTheirKind(r, mac, f);
    }
  }

  lemma WrittenTextsAreRead(r: Receipt, mac: Mac)
    requires Typed(WriteReceipt(r, mac))
    ensures var q := ReadReceipt(WriteReceipt(r, mac));
            && q.schemaVersion == r.schemaVersion && q.sessionId == r.sessionId && q.stateId == r.stateId
            && q.stateHash == r.stateHash && q.payloadSha256 == r.payloadSha256 && q.receivedSha256 == r.receivedSha256
            && q.source == r.source && q.destination == r.destination && q.cipher == r.cipher
            && q.transport == r.transport && q.observedAt == r.observedAt
  {
  }

  lemma WrittenNumbersAreRead(r: Receipt, mac: Mac)
    requires Typed(WriteReceipt(r, mac))
    ensures var q := ReadReceipt(WriteReceipt(r, mac));
            q.generation == r.generation && q.payloadBytes == r.payloadBytes && q.ciphertextBytes == r.ciphertextBytes
    ensures WriteReceipt(r, mac)[ReceiptMac].mac == mac
  {
  }

  lemma WrittenFlagsAreRead(r: Receipt, mac: Mac)
    requires Typed(WriteReceipt(r, mac))
    ensures var q := ReadReceipt(WriteReceipt(r, mac));
            && q.distinctHosts == r.distinctHosts && q.loopback == r.loopback && q.authenticated == r.authenticated
            && q.integrity == r.integrity
  {
  }

  lemma WrittenClaimsAreRead(r: Receipt, mac: Mac)
    requires Typed(WriteReceipt(r, mac))
    ensures var q := ReadReceipt(WriteReceipt(r, mac));
            q.encrypted == r.encrypted && q.twoHost == r.twoHost
  {
  }

  lemma WrittenPromotionsAreRead(r: Receipt, mac: Mac)
    requires Typed(WriteReceipt(r, mac))
    ensures var q := ReadReceipt(WriteReceipt(r, mac));
            q.physical == r.physical && q.production == r.production
  {
  }

  lemma ReadMeansWritten(m: Object)
    requires Typed(m)
    ensures m == WriteReceipt(ReadReceipt(m), m[ReceiptMac].mac)
  {
    forall f | f in FIELDS
      ensures m[f] == FieldValue(ReadReceipt(m), m[ReceiptMac].mac, f)
    {
      FieldIsRead(m, f);
    }
  }

  lemma WrittenIsReadBack(r: Receipt, mac: Mac)
    ensures var m := WriteReceipt(r, mac); Typed(m) && ReadReceipt(m) == r && m[ReceiptMac].mac == mac
  {
    WrittenIsTyped(r, mac);
    WrittenTextsAreRead(r, mac);
    WrittenNumbersAreRead(r, mac);
    WrittenFlagsAreRead(r, mac);
    WrittenClaimsAreRead(r, mac);
    WrittenPromotionsAreRead(r, mac);
  }

  /** What is read is exactly what the receiver writes: every written receipt is typed and read back,
      and nothing else is typed. */
  lemma ReadsExactlyWhatIsWritten(m: Object, r: Receipt, mac: Mac)
    ensures Typed(m) && ReadReceipt(m) == r && m[ReceiptMac].mac == mac <==> m == WriteReceipt(r, mac)
  {
    WrittenIsReadBack(r, mac);
    if Typed(m) { ReadMeansWritten(m); }
  }

  /** inspect_receipt: the field set and the types first, then everything else. */
  function InspectObject(m: Object, secret: Option<Txt>, payload: Option<Bytes>): Inspection {
    if !Typed(m) then Rejected else Inspect(ReadReceipt(m), m[ReceiptMac].mac, secret, payload)
  }

  method InspectReceipt(m: Object, secret: Option<Txt>, payload: Option<Bytes>) returns (result: Inspection)
    ensures result == InspectObject(m, secret, payload)
    ensures result.Inspected? && secret.Some? ==>
              ReceiptMac in m
              && m[ReceiptMac] == MacText(HmacSha256(secret.value, ReceiptTranscript(ReadReceipt(m))))
  {
    if !Typed(m) { return Rejected; }
    result := InspectFields(ReadReceipt(m), m[ReceiptMac].mac, secret, payload);
  }

  method InspectFields(r: Receipt, mac: Mac, secret: Option<Txt>, payload: Option<Bytes>) returns (result: Inspection)
    ensures result == Inspect(r, mac, secret, payload)
    ensures result.Inspected? && secret.Some? ==> mac == HmacSha256(secret.value, ReceiptTranscript(r))
    ensures result.Inspected? && payload.Some? ==>
              |payload.value| == r.payloadBytes && [DigestHex(payload.value)] == r.payloadSha256
  {
    TranscriptsAgree(r);
    if !mac.HmacSha256? || !MetadataOk(r) { return Rejected; }
    var macVerified, payloadVerified := false, false;
    if secret.Some? {
      if CodePoints(secret.value) < 32 || !WellFormed(secret.value) { return Rejected; }
      var text := Join(PythonFields(r), PIPE);
      if !WellFormed(text) || mac != HmacSha256(secret.value, text) { return Rejected; }
      macVerified := true;
    }
    if payload.Some? {
      var ok := CheckPayload(r, payload.value);
      if !ok { return Rejected; }
      payloadVerified := true;
    }
    result := Inspected(macVerified, payloadVerified);
  }

  /** unique_pairs: the dictionary of the pairs, or an error at the first repeated key. */
  method UniquePairs(pairs: seq<(Name, Value)>) returns (result: Option<Object>)
    ensures result.Some? <==> forall i, j :: 0 <= i < j < |pairs| ==> pairs[i].0 != pairs[j].0
    ensures result.Some? ==> forall f :: f in result.value <==> exists i :: 0 <= i < |pairs| && pairs[i].0 == f
    ensures result.Some? ==> forall i :: 0 <= i < |pairs| ==> result.value[pairs[i].0] == pairs[i].1
  {
    var m: Object := map[];
    for n := 0 to |pairs|
      invariant forall i, j :: 0 <= i < j < n ==> pairs[i].0 != pairs[j].0
      invariant forall f :: f in m <==> exists i :: 0 <= i < n && pairs[i].0 == f
      invariant forall i :: 0 <= i < n ==> m[pairs[i].0] == pairs[i].1
    {
      if pairs[n].0 in m { return None; }
      m := m[pairs[n].0 := pairs[n].1];
    }
    return Some(m);
  }

  // ---------------------------------------------------------------- agreement

  /** Only the state identity of a plain receipt can be ill formed. */
  lemma {:induction false} JoinWellFormed(parts: seq<Txt>)
    requires parts != []
    ensures WellFormed(Join(parts, PIPE)) <==> forall i :: 0 <= i < |parts| ==> WellFormed(parts[i])
  {
    if |parts| > 1 {
      JoinWellFormed(parts[1..]);
      var rest := Join(parts[1..], PIPE);
      ScrubConcat(parts[0], PIPE, rest);
      ScrubFixesExactlyWellFormed(parts[0]);
      ScrubFixesExactlyWellFormed(rest);
      var whole := parts[0] + [PIPE] + rest;
      ScrubFixesExactlyWellFormed(whole);
      assert whole[..|parts[0]|] == parts[0] && whole[|parts[0]| + 1..] == rest;
      var scrubbed := Scrub(whole);
      assert scrubbed[..|parts[0]|] == Scrub(parts[0]) && scrubbed[|parts[0]| + 1..] == Scrub(rest);
      assert parts == [parts[0]] + parts[1..];
    }
  }

  lemma SurrogateFree(t: Txt)
    requires HashText(t) || SessionIdText(t)
    ensures WellFormed(t)
  {
    PlainIsWellFormed(t);
  }

  lemma NumberSurrogateFree(n: nat)
    ensures WellFormed(Number(n))
  {
    PlainIsWellFormed(Number(n));
  }

  lemma LiteralSurrogateFree(s: string)
    requires forall i :: 0 <= i < |s| ==> s[i] as int < 128
    ensures WellFormed(Lit(s))
  {
    PlainIsWellFormed(Lit(s));
  }

  lemma BoolSurrogateFree(b: bool)
    ensures WellFormed(BoolText(b))
  {
    LiteralSurrogateFree("true");
    LiteralSurrogateFree("false");
  }

  lemma HashFieldWellFormed(r: Receipt, i: nat)
    requires MetadataOk(r) && i in {1, 3, 5, 6, 9, 10}
    ensures WellFormed(ReceiptFields(r)[i])
  {
    SurrogateFree(if i == 1 then r.sessionId else if i == 3 then r.stateHash else if i == 5 then r.payloadSha256
                  else if i == 6 then r.receivedSha256 else if i == 9 then r.source else r.destination);
  }

  lemma SchemaIsWellFormed()
    ensures WellFormed(Lit(PROOF_SCHEMA))
  {
    LiteralSurrogateFree(PROOF_SCHEMA);
  }

  lemma CipherIsWellFormed()
    ensures WellFormed(Lit("AES-256-GCM"))
  {
    LiteralSurrogateFree("AES-256-GCM");
  }

  lemma TransportIsWellFormed()
    ensures WellFormed(Lit("HTTP_TCP_AES_256_GCM_BUFFERED"))
  {
    LiteralSurrogateFree("HTTP_TCP_AES_256_GCM_BUFFERED");
  }

  lemma LiteralFieldWellFormed(r: Receipt, i: nat)
    requires MetadataOk(r) && i in {0, 16, 17}
    ensures WellFormed(ReceiptFields(r)[i])
  {
    SchemaIsWellFormed();
    CipherIsWellFormed();
    TransportIsWellFormed();
  }

  lemma NumberFieldWellFormed(r: Receipt, i: nat)
    requires i in {4, 7, 8}
    ensures WellFormed(ReceiptFields(r)[i])
  {
    NumberSurrogateFree(if i == 4 then r.generation else if i == 7 then r.payloadBytes else r.ciphertextBytes);
  }

  lemma FlagFieldWellFormed(r: Receipt, i: nat)
    requires IsFlag(i)
    ensures WellFormed(ReceiptFields(r)[i])
  {
    FlagIsShown(r, BoolText, i);
    BoolSurrogateFree(Flag(r, i));
  }

  lemma FieldWellFormed(r: Receipt, i: nat)
    requires MetadataOk(r) && WellFormed(r.observedAt) && i < 22 && i != 2
    ensures WellFormed(ReceiptFields(r)[i])
  {
    if IsFlag(i) {
      FlagFieldWellFormed(r, i);
    } else if i in {4, 7, 8} {
      NumberFieldWellFormed(r, i);
    } else if i in {0, 16, 17} {
      LiteralFieldWellFormed(r, i);
    } else if i != 21 {
      HashFieldWellFormed(r, i);
    }
  }

  lemma TranscriptWellFormed(r: Receipt)
    requires MetadataOk(r) && WellFormed(r.observedAt)
    ensures WellFormed(ReceiptTranscript(r)) <==> WellFormed(r.stateId)
  {
    var f := ReceiptFields(r);
    JoinWellFormed(f);
    assert f[2] == r.stateId;
    forall i | 0 <= i < 22 && i != 2
      ensures WellFormed(f[i])
    {
      FieldWellFormed(r, i);
    }
  }

  /** The metadata of every 200 receipt of the receiver passes, under the default size limit. */
  lemma IssuedMetadataOk(cfg: Settings, s: State, k: nat)
    requires Inv(cfg, s) && k < |s.receipts| && s.receipts[k].receipt.integrity
    requires HashText(cfg.destination) && cfg.maxBytes <= DEFAULT_MAX_BYTES
    ensures MetadataOk(s.receipts[k].receipt) && WellFormed(s.receipts[k].receipt.observedAt)
    ensures PayloadOk(s.receipts[k].receipt, s.receipts[k].payload)
  {
    var i := s.receipts[k];
    assert GoodIssued(cfg, s, i);
    assert GoodSession(cfg, i.receipt.sessionId, s.begun[i.receipt.sessionId]);
    CodePointsBound(i.receipt.stateId);
    var t :| ValidInstant(t) && i.receipt.observedAt == IsoText(t);
    IsoTextParses(t);
    IsoTextIsPlain(t);
  }

  /** What a caller can check beforehand: the state identity and the secret are well-formed text, and
      the secret has 32 characters by Python's count. */
  predicate Interoperable(stateId: Txt, secret: Txt) {
    WellFormed(stateId) && WellFormed(secret) && CodePoints(secret) >= 32
  }

  /** MAC check of the inspector against the MAC the receiver computes. */
  lemma MacVerdict(r: Receipt, secret: Txt)
    requires MetadataOk(r) && WellFormed(r.observedAt)
    ensures MacOk(r, HmacSha256(Scrub(secret), Scrub(ReceiptTranscript(r))), secret) <==>
            Interoperable(r.stateId, secret)
  {
    TranscriptsAgree(r);
    TranscriptWellFormed(r);
    ScrubFixesExactlyWellFormed(secret);
    ScrubFixesExactlyWellFormed(ReceiptTranscript(r));
  }

  lemma IssuedMac(cfg: Settings, s: State, k: nat)
    requires Inv(cfg, s) && k < |s.receipts|
    ensures s.receipts[k].mac == HmacSha256(cfg.secret, Scrub(ReceiptTranscript(s.receipts[k].receipt)))
  {
    assert GoodIssued(cfg, s, s.receipts[k]);
  }

  lemma IssuedReceiptVerdict(cfg: Settings, s: State, k: nat, secret: Txt)
    requires Inv(cfg, s) && k < |s.receipts| && s.receipts[k].receipt.integrity
    requires HashText(cfg.destination) && cfg.maxBytes <= DEFAULT_MAX_BYTES && cfg.secret == Scrub(secret)
    ensures var i := s.receipts[k];
            && (Inspect(i.receipt, i.mac, Some(secret), Some(i.payload)) == Inspected(true, true) <==>
               Interoperable(i.receipt.stateId, secret))
            && Inspect(i.receipt, i.mac, None, Some(i.payload)) == Inspected(false, true)
  {
    IssuedMetadataOk(cfg, s, k);
    MacVerdict(s.receipts[k].receipt, secret);
    IssuedMac(cfg, s, k);
  }

  /** Every success receipt the receiver can issue under the default limit is accepted by the
      inspector, MAC and payload both verified, exactly when the identity and the secret
      are interoperable. */
  lemma InspectorAcceptsIssuedReceipts(cfg: Settings, events: seq<Event>, k: nat, secret: Txt)
    requires AdmissibleRun(cfg, events) && HashText(cfg.destination) && cfg.maxBytes <= DEFAULT_MAX_BYTES
    requires cfg.secret == Scrub(secret)
    requires k < |Run(cfg, events).receipts| && Run(cfg, events).receipts[k].receipt.integrity
    ensures var i := Run(cfg, events).receipts[k];
            var m := WriteReceipt(i.receipt, i.mac);
            && (InspectObject(m, Some(secret), Some(i.payload)) == Inspected(true, true) <==>
               Interoperable(i.receipt.stateId, secret))
            && InspectObject(m, None, Some(i.payload)) == Inspected(false, true)
  {
    RunKeepsInv(cfg, events);
    var i := Run(cfg, events).receipts[k];
    IssuedReceiptVerdict(cfg, Run(cfg, events), k, secret);
    WrittenIsReadBack(i.receipt, i.mac);
  }
}
