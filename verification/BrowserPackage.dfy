/** sealFile and openPackage of public/app-core.mjs. AES-GCM, PBKDF2 and SHA-256 are parameters. */
module BrowserPackage {
  import opened Identity
  import opened Text
  import opened J = Json
  import Base64
  import Utf8

  const MAX_FILE_BYTES: nat := 16 * 1024 * 1024

  datatype Key = Key(id: nat)

  /** crypto.subtle and the digest in hex; decrypt is None when authentication fails. */
  datatype Crypto = Crypto(
    derive: (Bytes, Bytes) -> Key, encrypt: (Key, Bytes, Bytes) -> Bytes,
    decrypt: (Key, Bytes, Bytes) -> Option<Bytes>, sha: Bytes -> Str)

  predicate LowerHexUnit(u: CodeUnit) { 48 <= u <= 57 || 97 <= u <= 102 }

  predicate HexDigest(s: Str) { |s| == 64 && forall i :: 0 <= i < 64 ==> LowerHexUnit(s[i]) }

  /** AES-GCM decrypts what it encrypted and adds a 16-byte tag; a digest is 64 hex digits. */
  ghost predicate Sound(c: Crypto) {
    && (forall k, iv, m :: c.decrypt(k, iv, c.encrypt(k, iv, m)) == Some(m))
    && (forall k, iv, m :: |c.encrypt(k, iv, m)| == |m| + 16)
    && (forall m :: HexDigest(c.sha(m)))
  }

  datatype Error =
    | ChooseFile | InvalidName | FileChanged | WeakPassphrase | PackageTooLarge | InvalidJson | UnsupportedFormat
    | InvalidEncoding | InvalidParameters | CannotOpen | InvalidContents | InvalidMetadata | IntegrityFailed

  datatype Result<+T> = Ok(value: T) | Err(error: Error)

  // ---------------------------------------------------------------- names and framing

  predicate NameUnit(u: CodeUnit) { u != 92 && u != 47 && u >= 32 && u != 127 }

  /** safeName: no separator, no control character, not a dot or two. */
  predicate SafeName(name: Str) {
    1 <= |name| <= 255 && (forall i :: 0 <= i < |name| ==> NameUnit(name[i])) && name != [46] && name != [46, 46]
  }

  /** DataView.setUint32 and getUint32, big-endian. */
  function U32(n: nat): Bytes { [n / 0x100_0000 % 256, n / 0x1_0000 % 256, n / 256 % 256, n % 256] }

  function ReadU32(b: Bytes): nat
    requires |b| >= 4
  {
    b[0] as int * 0x100_0000 + b[1] as int * 0x1_0000 + b[2] as int * 256 + b[3] as int
  }

  lemma U32RoundTrip(n: nat, rest: Bytes)
    requires n < 0x1_0000_0000
    ensures ReadU32(U32(n) + rest) == n
  {
    var b := U32(n) + rest;
    var m := n / 256;
    assert n == m * 256 + n % 256 && m == m / 256 * 256 + m % 256 && m / 256 == n / 0x1_0000
           && m / 256 / 256 == n / 0x100_0000;
    assert b[0] as int == n / 0x100_0000 % 256 && b[1] as int == n / 0x1_0000 % 256 && b[2] as int == n / 256 % 256
           && b[3] as int == n % 256;
  }

  /** Length of the metadata, metadata, data. */
  function Frame(meta: Bytes, data: Bytes): Bytes { U32(|meta|) + meta + data }

  /** TypedArray.prototype.set. */
  method SetBytes(target: array<Byte>, at: nat, source: Bytes)
    requires at + |source| <= target.Length
    modifies target
    ensures target[..] == old(target[..at]) + source + old(target[at + |source|..])
  {
    for i := 0 to |source|
      invariant target[at..at + i] == source[..i]
      invariant target[..at] == old(target[..at])
      invariant target[at + |source|..] == old(target[at + |source|..])
    {
      target[at + i] := source[i];
    }
    assert target[..] == target[..at] + target[at..at + |source|] + target[at + |source|..];
  }

  /** The buffer that sealFile fills in place. */
  method FillFrame(meta: Bytes, data: Bytes) returns (clear: array<Byte>)
    ensures fresh(clear) && clear[..] == Frame(meta, data)
  {
    clear := new Byte[4 + |meta| + |data|];
    SetBytes(clear, 0, U32(|meta|));
    SetBytes(clear, 4, meta);
    SetBytes(clear, 4 + |meta|, data);
  }

  // ---------------------------------------------------------------- sealing

  /** What the browser hands over: type is None when it is not a string, size what the file claims. */
  datatype File = File(name: Str, mime: Option<Str>, size: int, data: Bytes)

  // name, mime, size, sha256
  const NAME: Str := [110, 97, 109, 101]
  const MIME: Str := [109, 105, 109, 101]
  const SIZE: Str := [115, 105, 122, 101]
  const SHA256: Str := [115, 104, 97, 50, 53, 54]

  /** The first 128 code units of a string type, otherwise nothing. */
  function MimeOf(file: File): (r: Str)
    ensures |r| <= 128
  {
    if file.mime.None? then [] else if |file.mime.value| > 128 then file.mime.value[..128] else file.mime.value
  }

  function MetaFields(name: Str, mime: Str, size: nat, sha: Str): Fields {
    Field(NAME, Json.Str(name), Field(MIME, Json.Str(mime),
      Field(SIZE, Num(size), Field(SHA256, Json.Str(sha), NoFields))))
  }

  function MetaBytes(c: Crypto, file: File): Bytes {
    Utf8.Encode(Print(Obj(MetaFields(file.name, MimeOf(file), |file.data|, c.sha(file.data)))))
  }

  predicate GoodPassphrase(p: Str) { 12 <= |p| <= 1024 }

  // version, kdf, cipher, salt, iv, ciphertext
  const VERSION: Str := [118, 101, 114, 115, 105, 111, 110]
  const KDF: Str := [107, 100, 102]
  const CIPHER: Str := [99, 105, 112, 104, 101, 114]
  const SALT: Str := [115, 97, 108, 116]
  const IV: Str := [105, 118]
  const CIPHERTEXT: Str := [99, 105, 112, 104, 101, 114, 116, 101, 120, 116]

  function PackageVersion(): (r: Str) ensures |r| == 31 { Ascii("kindred.sdpn.browser-package.v1") }
  function KdfName(): (r: Str) ensures |r| == 20 { Ascii("PBKDF2-SHA256-310000") }
  function CipherName(): (r: Str) ensures |r| == 11 { Ascii("AES-256-GCM") }

  function SixFields(version: Str, kdf: Str, cipher: Str, salt: Str, iv: Str, ciphertext: Str): Fields {
    Field(VERSION, Json.Str(version), Field(KDF, Json.Str(kdf), Field(CIPHER, Json.Str(cipher),
    Field(SALT, Json.Str(salt), Field(IV, Json.Str(iv), Field(CIPHERTEXT, Json.Str(ciphertext), NoFields))))))
  }

  function PackageFields(salt: Bytes, iv: Bytes, ciphertext: Bytes): Fields {
    SixFields(PackageVersion(), KdfName(), CipherName(), Base64.Encode(salt), Base64.Encode(iv),
      Base64.Encode(ciphertext))
  }

  function Ciphertext(c: Crypto, file: File, passphrase: Str, salt: Bytes, iv: Bytes): Bytes {
    c.encrypt(c.derive(Utf8.Encode(passphrase), salt), iv, Frame(MetaBytes(c, file), file.data))
  }

  /** sealFile; salt and iv are the fresh random bytes. */
  function Seal(c: Crypto, file: File, passphrase: Str, salt: Bytes, iv: Bytes): Result<Json> {
    if file.size < 0 || file.size > MAX_FILE_BYTES then Err(ChooseFile)
    else if !SafeName(file.name) then Err(InvalidName)
    else if |file.data| != file.size then Err(FileChanged)
    else if !GoodPassphrase(passphrase) then Err(WeakPassphrase)
    else Ok(Obj(PackageFields(salt, iv, Ciphertext(c, file, passphrase, salt, iv))))
  }

  // ---------------------------------------------------------------- opening

  datatype Contents = Contents(name: Str, mime: Str, bytes: Bytes, sha256: Str)

  /** The object JSON.parse builds: of a repeated key the last value counts. */
  function AsMap(fields: Fields): map<Str, Json> {
    if fields.NoFields? then map[]
    else
      var rest := AsMap(fields.rest);
      if fields.key in rest then rest else rest[fields.key := fields.value]
  }

  predicate IsText(m: map<Str, Json>, key: Str) { key in m && m[key].Str? }

  /** base64ToBytes on a field. */
  function ReadField(m: map<Str, Json>, key: Str, maximum: nat): Result<Bytes> {
    if !IsText(m, key) then Err(InvalidEncoding)
    else match Base64.FromText(m[key].s, maximum)
      case BadEncoding => Err(InvalidEncoding)
      case TooLarge => Err(PackageTooLarge)
      case Bytes(bytes) => Ok(bytes)
  }

  predicate Supported(m: map<Str, Json>) {
    && m.Keys == {VERSION, KDF, CIPHER, SALT, IV, CIPHERTEXT}
    && m[VERSION] == Json.Str(PackageVersion()) && m[KDF] == Json.Str(KdfName()) && m[CIPHER] == Json.Str(CipherName())
  }

  /** The checks on the parsed metadata, in their order. */
  function CheckMeta(c: Crypto, meta: Json, bytes: Bytes): Result<Contents> {
    if meta == Null || meta == Bool(false) || meta == Num(0) || meta == Json.Str([]) then Err(IntegrityFailed)
    else
      var m := if meta.Obj? then AsMap(meta.fields) else map[];
      if !IsText(m, NAME) || !SafeName(m[NAME].s) then Err(InvalidName)
      else if !IsText(m, MIME) || |m[MIME].s| > 128 || SIZE !in m || m[SIZE] != Num(|bytes|) || |bytes| > MAX_FILE_BYTES
              || !IsText(m, SHA256) || !HexDigest(m[SHA256].s) || c.sha(bytes) != m[SHA256].s then Err(IntegrityFailed)
      else Ok(Contents(m[NAME].s, m[MIME].s, bytes, m[SHA256].s))
  }

  function ParseMeta(bytes: Bytes): Option<Json> {
    match Utf8.Decode(bytes)
    case None => None
    case Some(text) => Parse(text)
  }

  /** What happens once the ciphertext is decrypted. */
  function Unframe(c: Crypto, clear: Bytes): Result<Contents> {
    if |clear| < 6 then Err(InvalidContents)
    else
      var size := ReadU32(clear);
      if size < 2 || size > 1024 || 4 + size > |clear| then Err(InvalidMetadata)
      else match ParseMeta(clear[4..4 + size])
        case None => Err(InvalidMetadata)
        case Some(meta) => CheckMeta(c, meta, clear[4 + size..])
  }

  function Decrypt(c: Crypto, salt: Bytes, iv: Bytes, ciphertext: Bytes, passphrase: Str): Result<Contents> {
    if !GoodPassphrase(passphrase) then Err(WeakPassphrase)
    else match c.decrypt(c.derive(Utf8.Encode(passphrase), salt), iv, ciphertext)
      case None => Err(CannotOpen)
      case Some(clear) => Unframe(c, clear)
  }

  function OpenParsed(c: Crypto, value: Json, passphrase: Str): Result<Contents> {
    var m := if value.Obj? then AsMap(value.fields) else map[];
    if !Supported(m) then Err(UnsupportedFormat)
    else match ReadField(m, SALT, 16)
      case Err(e) => Err(e)
      case Ok(salt) => match ReadField(m, IV, 12)
        case Err(e) => Err(e)
        case Ok(iv) =>
          if |salt| != 16 || |iv| != 12 then Err(InvalidParameters)
          else match ReadField(m, CIPHERTEXT, MAX_FILE_BYTES + 4096)
            case Err(e) => Err(e)
            case Ok(ciphertext) => Decrypt(c, salt, iv, ciphertext, passphrase)
  }

  /** openPackage. */
  function Open(c: Crypto, text: Str, passphrase: Str): Result<Contents> {
    if |text| > 24 * 1024 * 1024 then Err(PackageTooLarge)
    else match Parse(text)
      case None => Err(InvalidJson)
      case Some(value) => OpenParsed(c, value, passphrase)
  }

  // ---------------------------------------------------------------- how long the metadata is

  /** Printable ASCII that JSON writes as it is. */
  predicate Plain(s: Str) { forall i :: 0 <= i < |s| ==> 32 <= s[i] < 127 && s[i] != 34 && s[i] != 92 }

  lemma {:induction false} PlainNeedsNoEscape(s: Str)
    requires Plain(s)
    ensures EscapeAll(s) == s && Utf8.IsAscii(s)
  {
    if s != [] {
      PlainNeedsNoEscape(s[1..]);
      assert s == [s[0]] + s[1..];
    }
  }

  lemma {:induction false} EscapeBound(s: Str)
    ensures |EscapeAll(s)| <= 6 * |s|
  {
    if s != [] { EscapeBound(s[(if Utf8.PairAt(s) then 2 else 1)..]); }
  }

  /** A well-formed name costs at most three bytes for each code unit. */
  lemma {:induction false} NameLength(name: Str)
    requires Utf8.WellFormed(name) && forall i :: 0 <= i < |name| ==> NameUnit(name[i])
    ensures |Utf8.Encode(EscapeAll(name))| <= 3 * |name|
  {
    if name != [] {
      if Utf8.PairAt(name) {
        NameLength(name[2..]);
        Utf8.EncodeConcat(name[..2], EscapeAll(name[2..]));
        Utf8.EncodeBound(name[..2]);
      } else {
        NameLength(name[1..]);
        UnitLength(name[0]);
        Utf8.EncodeConcat(EscapeUnit(name[0]), EscapeAll(name[1..]));
      }
    }
  }

  lemma UnitLength(u: CodeUnit)
    requires NameUnit(u) && !Surrogate(u)
    ensures Utf8.WellFormed(EscapeUnit(u)) && |Utf8.Encode(EscapeUnit(u))| <= 3
  {
    if u == 34 {
      Utf8.AsciiLength([92, 34]);
    } else {
      assert EscapeUnit(u) == [u] && Utf8.Encode([u]) == Utf8.EncodeUnit(u) + Utf8.Encode([]);
    }
  }

  lemma AsciiSuffix(a: Str, b: Str)
    requires Utf8.WellFormed(a) && Utf8.IsAscii(b)
    ensures Utf8.WellFormed(a + b) && |Utf8.Encode(a + b)| == |Utf8.Encode(a)| + |b|
  {
    Utf8.AsciiLength(b);
    Utf8.WellFormedConcat(a, b);
    Utf8.EncodeConcat(a, b);
  }

  lemma WellFormedSuffix(a: Str, b: Str)
    requires Utf8.WellFormed(a) && Utf8.WellFormed(b)
    ensures Utf8.WellFormed(a + b) && |Utf8.Encode(a + b)| == |Utf8.Encode(a)| + |Utf8.Encode(b)|
  {
    Utf8.WellFormedConcat(a, b);
    Utf8.EncodeConcat(a, b);
  }

  /** The exact size of the metadata, from what a caller knows before sealing. */
  function MetaLength(file: File): nat {
    |Utf8.Encode(EscapeAll(file.name))| + |Utf8.Encode(EscapeAll(MimeOf(file)))| + |PrintNumber(|file.data|)| + 105
  }

  lemma NumbersAreAscii(n: nat)
    ensures Utf8.IsAscii(PrintNumber(n))
  {
  }

  lemma QuoteBytes(s: Str)
    ensures Utf8.WellFormed(Quote(s)) && |Utf8.Encode(Quote(s))| == |Utf8.Encode(EscapeAll(s))| + 2
  {
    EscapedIsWellFormed(s);
    Utf8.AsciiLength([34]);
    WellFormedSuffix([34], EscapeAll(s));
    WellFormedSuffix([34] + EscapeAll(s), [34]);
  }

  lemma PlainBytes(s: Str)
    requires Plain(s)
    ensures |Utf8.Encode(EscapeAll(s))| == |s|
  {
    PlainNeedsNoEscape(s);
    Utf8.AsciiLength(s);
  }

  /** The bytes of one field and of those after it. */
  lemma FieldBytes(key: Str, value: Json, rest: Fields)
    requires Plain(key)
    ensures |Utf8.Encode(PrintFields(Field(key, value, rest)))|
            == |key| + 3 + |Utf8.Encode(Print(value))| + if rest.NoFields? then 0
              else 1 + |Utf8.Encode(PrintFields(rest))|
  {
    var q, p, f := Quote(key), Print(value), PrintFields(rest);
    QuoteBytes(key);
    PlainBytes(key);
    PrintIsWellFormed(value);
    FieldsAreWellFormed(rest);
    AsciiSuffix(q, [58]);
    WellFormedSuffix(q + [58], p);
    AsciiSuffix(q + [58] + p, [44]);
    WellFormedSuffix(q + [58] + p + [44], f);
  }

  lemma ObjectBytes(fields: Fields)
    ensures |Utf8.Encode(Print(Obj(fields)))| == |Utf8.Encode(PrintFields(fields))| + 2
  {
    FieldsAreWellFormed(fields);
    Utf8.AsciiLength([123]);
    WellFormedSuffix([123], PrintFields(fields));
    AsciiSuffix([123] + PrintFields(fields), [125]);
  }

  lemma NumberBytes(n: nat)
    ensures |Utf8.Encode(Print(Num(n)))| == |PrintNumber(n)|
  {
    NumbersAreAscii(n);
    Utf8.AsciiLength(PrintNumber(n));
  }

  /** The bytes of a string's characters inside a literal. */
  function TextCost(s: Str): nat { |Utf8.Encode(EscapeAll(s))| }

  function ValueCost(v: Json): nat {
    match v
    case Str(s) => TextCost(s) + 2
    case Num(n) => |PrintNumber(n)|
    case _ => |Utf8.Encode(Print(v))|
  }

  predicate PlainKeys(fields: Fields) { fields.Field? ==> Plain(fields.key) && PlainKeys(fields.rest) }

  function FieldsCost(fields: Fields): nat {
    if fields.NoFields? then 0
    else |fields.key| + 3 + ValueCost(fields.value) + if fields.rest.NoFields? then 0 else 1 + FieldsCost(fields.rest)
  }

  lemma ValueBytes(v: Json)
    requires v.Str? || (v.Num? && v.n >= 0)
    ensures |Utf8.Encode(Print(v))| == ValueCost(v)
  {
    if v.Str? { QuoteBytes(v.s); } else { NumberBytes(v.n); }
  }

  predicate PlainValues(fields: Fields) {
    fields.Field? ==> (fields.value.Str? || (fields.value.Num? && fields.value.n >= 0)) && PlainValues(fields.rest)
  }

  lemma {:induction false} FieldsBytes(fields: Fields)
    requires PlainKeys(fields) && PlainValues(fields)
    ensures |Utf8.Encode(PrintFields(fields))| == FieldsCost(fields)
  {
    if fields.Field? {
      ValueBytes(fields.value);
      FieldBytes(fields.key, fields.value, fields.rest);
      FieldsBytes(fields.rest);
    }
  }

  lemma KeysArePlain()
    ensures Plain(NAME) && Plain(MIME) && Plain(SIZE) && Plain(SHA256)
    ensures Plain(VERSION) && Plain(KDF) && Plain(CIPHER) && Plain(SALT) && Plain(IV) && Plain(CIPHERTEXT)
  {
  }

  lemma MetaCost(name: Str, mime: Str, size: nat, sha: Str)
    ensures FieldsCost(MetaFields(name, mime, size, sha))
            == TextCost(name) + TextCost(mime) + |PrintNumber(size)| + TextCost(sha) + 39
    ensures PlainKeys(MetaFields(name, mime, size, sha)) && PlainValues(MetaFields(name, mime, size, sha))
  {
    KeysArePlain();
    var f4 := Field(SHA256, Json.Str(sha), NoFields);
    var f3 := Field(SIZE, Num(size), f4);
    var f2 := Field(MIME, Json.Str(mime), f3);
    assert FieldsCost(f4) == TextCost(sha) + 11 && PlainKeys(f4) && PlainValues(f4);
    assert FieldsCost(f3) == |PrintNumber(size)| + 8 + FieldsCost(f4) && PlainKeys(f3) && PlainValues(f3);
    assert FieldsCost(f2) == TextCost(mime) + 10 + FieldsCost(f3) && PlainKeys(f2) && PlainValues(f2);
  }

  lemma MetaLengthIsExact(c: Crypto, file: File)
    requires Sound(c)
    ensures |MetaBytes(c, file)| == MetaLength(file)
  {
    var sha := c.sha(file.data);
    var fields := MetaFields(file.name, MimeOf(file), |file.data|, sha);
    MetaCost(file.name, MimeOf(file), |file.data|, sha);
    PlainBytes(sha);
    FieldsBytes(fields);
    ObjectBytes(fields);
  }

  lemma {:induction false} DecimalLength(n: nat, digits: nat)
    requires digits >= 1 && n < Power(digits)
    ensures |Decimal(n)| <= digits
  {
    if n >= 10 { DecimalLength(n / 10, digits - 1); }
  }

  function Power(digits: nat): nat { if digits == 0 then 1 else 10 * Power(digits - 1) }

  /** A well-formed safe name with a plain type always stays within what openPackage reads. */
  lemma OrdinaryMetadataFits(file: File)
    requires SafeName(file.name) && Utf8.WellFormed(file.name) && Plain(MimeOf(file)) && |file.data| <= MAX_FILE_BYTES
    ensures MetaLength(file) <= 1006
  {
    NameLength(file.name);
    PlainNeedsNoEscape(MimeOf(file));
    Utf8.AsciiLength(MimeOf(file));
    assert Power(8) == 100_000_000 by {
      assert Power(2) == 100;
      assert Power(4) == 10_000;
      assert Power(6) == 1_000_000;
    }
    DecimalLength(|file.data|, 8);
  }

  lemma MetaLengthBound(file: File)
    requires SafeName(file.name) && |file.data| <= MAX_FILE_BYTES
    ensures MetaLength(file) <= 10_000
  {
    EscapeBound(file.name);
    EscapeBound(MimeOf(file));
    Utf8.EncodeBound(EscapeAll(file.name));
    Utf8.EncodeBound(EscapeAll(MimeOf(file)));
    assert Power(8) == 100_000_000 by {
      assert Power(2) == 100;
      assert Power(4) == 10_000;
      assert Power(6) == 1_000_000;
    }
    DecimalLength(|file.data|, 8);
  }

  // ---------------------------------------------------------------- opening what was sealed

  lemma MetaMap(name: Str, mime: Str, size: nat, sha: Str)
    ensures AsMap(MetaFields(name, mime, size, sha))
            == map[NAME := Json.Str(name), MIME := Json.Str(mime), SIZE := Num(size), SHA256 := Json.Str(sha)]
  {
    var f4 := Field(SHA256, Json.Str(sha), NoFields);
    var f3 := Field(SIZE, Num(size), f4);
    var f2 := Field(MIME, Json.Str(mime), f3);
    assert AsMap(f4) == map[SHA256 := Json.Str(sha)];
    assert AsMap(f3) == map[SHA256 := Json.Str(sha), SIZE := Num(size)];
    assert AsMap(f2) == map[SHA256 := Json.Str(sha), SIZE := Num(size), MIME := Json.Str(mime)];
  }

  lemma PrintedMetaParses(v: Json)
    ensures ParseMeta(Utf8.Encode(Print(v))) == Some(v)
  {
    PrintIsWellFormed(v);
    Utf8.DecodeOfEncode(Print(v));
    ParseOfPrint(v);
  }

  lemma MetaChecks(c: Crypto, name: Str, mime: Str, bytes: Bytes)
    requires Sound(c) && SafeName(name) && |mime| <= 128 && |bytes| <= MAX_FILE_BYTES
    ensures CheckMeta(c, Obj(MetaFields(name, mime, |bytes|, c.sha(bytes))), bytes)
            == Ok(Contents(name, mime, bytes, c.sha(bytes)))
  {
    MetaMap(name, mime, |bytes|, c.sha(bytes));
  }

  lemma MetaIsAccepted(c: Crypto, file: File)
    requires Sound(c) && SafeName(file.name) && |file.data| <= MAX_FILE_BYTES
    ensures ParseMeta(MetaBytes(c, file)).Some?
    ensures CheckMeta(c, ParseMeta(MetaBytes(c, file)).value, file.data)
            == Ok(Contents(file.name, MimeOf(file), file.data, c.sha(file.data)))
  {
    PrintedMetaParses(Obj(MetaFields(file.name, MimeOf(file), |file.data|, c.sha(file.data))));
    MetaChecks(c, file.name, MimeOf(file), file.data);
  }

  lemma FrameParts(meta: Bytes, data: Bytes)
    requires |meta| < 0x1_0000_0000
    ensures var clear := Frame(meta, data);
            |clear| == 4 + |meta| + |data| && ReadU32(clear) == |meta| && clear[4..4 + |meta|] == meta
              && clear[4 + |meta|..] == data
  {
    var size := U32(|meta|);
    U32RoundTrip(|meta|, meta + data);
    assert Frame(meta, data) == size + (meta + data);
  }

  lemma UnframeOfFrame(c: Crypto, file: File)
    requires Sound(c) && SafeName(file.name) && |file.data| <= MAX_FILE_BYTES
    ensures var r := Unframe(c, Frame(MetaBytes(c, file), file.data));
            if MetaLength(file) <= 1024 then r == Ok(Contents(file.name, MimeOf(file), file.data, c.sha(file.data)))
            else r == Err(InvalidMetadata)
  {
    MetaLengthIsExact(c, file);
    MetaLengthBound(file);
    FrameParts(MetaBytes(c, file), file.data);
    MetaIsAccepted(c, file);
  }

  lemma PackageMap(salt: Bytes, iv: Bytes, ciphertext: Bytes)
    ensures var m := AsMap(PackageFields(salt, iv, ciphertext));
            && Supported(m) && m[SALT] == Json.Str(Base64.Encode(salt)) && m[IV] == Json.Str(Base64.Encode(iv))
            && m[CIPHERTEXT] == Json.Str(Base64.Encode(ciphertext))
  {
    var s, i, t := Json.Str(Base64.Encode(salt)), Json.Str(Base64.Encode(iv)), Json.Str(Base64.Encode(ciphertext));
    var f6 := Field(CIPHERTEXT, t, NoFields);
    var f5 := Field(IV, i, f6);
    var f4 := Field(SALT, s, f5);
    var f3 := Field(CIPHER, Json.Str(CipherName()), f4);
    var f2 := Field(KDF, Json.Str(KdfName()), f3);
    assert AsMap(f6) == map[CIPHERTEXT := t];
    assert AsMap(f5) == map[CIPHERTEXT := t, IV := i];
    assert AsMap(f4) == map[CIPHERTEXT := t, IV := i, SALT := s];
    assert AsMap(f3) == map[CIPHERTEXT := t, IV := i, SALT := s, CIPHER := Json.Str(CipherName())];
    assert AsMap(f2) == map[CIPHERTEXT := t, IV := i, SALT := s, CIPHER := Json.Str(CipherName()),
           KDF := Json.Str(KdfName())];
  }

  lemma TextCostBound(s: Str)
    ensures TextCost(s) <= 18 * |s|
  {
    EscapeBound(s);
    Utf8.EncodeBound(EscapeAll(s));
  }

  predicate AllSymbols(t: Str) { forall i :: 0 <= i < |t| ==> Base64.IsSymbol(t[i]) || t[i] == Base64.PAD }

  lemma SymbolsArePlain(t: Str)
    requires AllSymbols(t)
    ensures TextCost(t) == |t|
  {
    assert Plain(t);
    PlainBytes(t);
  }

  lemma EncodedIsSymbols(bytes: Bytes)
    ensures AllSymbols(Base64.Encode(bytes))
  {
    Base64.EncodedUnits(bytes);
  }

  predicate Costs(fields: Fields, most: nat) { PlainKeys(fields) && PlainValues(fields) && FieldsCost(fields) <= most }

  lemma OneMoreField(key: Str, s: Str, rest: Fields, most: nat, text: nat)
    requires Plain(key) && Costs(rest, most) && TextCost(s) <= text
    ensures Costs(Field(key, Json.Str(s), rest), |key| + text + 6 + most)
  {
  }

  /** Three text fields in front of others; k bounds the keys together, n the texts. */
  lemma ThreeFields(k1: Str, s1: Str, k2: Str, s2: Str, k3: Str, s3: Str, rest: Fields, most: nat, k: nat, n: nat)
    requires Plain(k1) && Plain(k2) && Plain(k3) && Costs(rest, most)
    requires |k1| + |k2| + |k3| == k && TextCost(s1) + TextCost(s2) + TextCost(s3) <= n
    ensures Costs(Field(k1, Json.Str(s1), Field(k2, Json.Str(s2), Field(k3, Json.Str(s3), rest))), most + k + n + 18)
  {
    var f3 := Field(k3, Json.Str(s3), rest);
    var f2 := Field(k2, Json.Str(s2), f3);
    var m3 := |k3| + TextCost(s3) + 6 + most;
    OneMoreField(k3, s3, rest, most, TextCost(s3));
    OneMoreField(k2, s2, f3, m3, TextCost(s2));
    OneMoreField(k1, s1, f2, |k2| + TextCost(s2) + 6 + m3, TextCost(s1));
  }

  lemma SixFieldsCost(v: Str, k: Str, c: Str, s: Str, i: Str, t: Str, n: nat)
    requires TextCost(v) + TextCost(k) + TextCost(c) <= 1116 && TextCost(s) + TextCost(i) + TextCost(t) <= n
    ensures Costs(SixFields(v, k, c, s, i, t), n + 1184)
  {
    KeysArePlain();
    var last := Field(SALT, Json.Str(s), Field(IV, Json.Str(i), Field(CIPHERTEXT, Json.Str(t), NoFields)));
    ThreeFields(SALT, s, IV, i, CIPHERTEXT, t, NoFields, 0, 16, n);
    ThreeFields(VERSION, v, KDF, k, CIPHER, c, last, n + 34, 16, 1116);
  }

  lemma SixFieldsLength(v: Str, k: Str, c: Str, s: Str, i: Str, t: Str, n: nat)
    requires |v| == 31 && |k| == 20 && |c| == 11 && TextCost(s) + TextCost(i) + TextCost(t) <= n
    ensures |Print(Obj(SixFields(v, k, c, s, i, t)))| <= n + 1186
  {
    TextCostBound(v);
    TextCostBound(k);
    TextCostBound(c);
    SixFieldsCost(v, k, c, s, i, t, n);
    CostBoundsText(SixFields(v, k, c, s, i, t), n + 1184);
  }

  lemma CostBoundsText(fields: Fields, most: nat)
    requires Costs(fields, most)
    ensures |Print(Obj(fields))| <= most + 2
  {
    FieldsBytes(fields);
    ObjectBytes(fields);
    Utf8.EncodeBound(Print(Obj(fields)));
  }

  lemma TextFits(v: Str, k: Str, c: Str, s: Str, i: Str, t: Str)
    requires |v| == 31 && |k| == 20 && |c| == 11
    requires AllSymbols(s) && AllSymbols(i) && AllSymbols(t) && |s| == 24 && |i| == 16 && |t| <= 22_375_084
    ensures |Print(Obj(SixFields(v, k, c, s, i, t)))| <= 24 * 1024 * 1024
  {
    SymbolsArePlain(s);
    SymbolsArePlain(i);
    SymbolsArePlain(t);
    SixFieldsLength(v, k, c, s, i, t, |t| + 40);
  }

  lemma PackageTextFits(salt: Bytes, iv: Bytes, ciphertext: Bytes)
    requires |salt| == 16 && |iv| == 12 && |ciphertext| <= MAX_FILE_BYTES + 4096
    ensures |Print(Obj(PackageFields(salt, iv, ciphertext)))| <= 24 * 1024 * 1024
  {
    EncodedIsSymbols(salt);
    EncodedIsSymbols(iv);
    EncodedIsSymbols(ciphertext);
    TextFits(PackageVersion(), KdfName(), CipherName(), Base64.Encode(salt), Base64.Encode(iv),
      Base64.Encode(ciphertext));
  }

  lemma FieldReads(m: map<Str, Json>, key: Str, bytes: Bytes, maximum: nat)
    requires key in m && m[key] == Json.Str(Base64.Encode(bytes))
    ensures ReadField(m, key, maximum).Ok? <==> |bytes| <= maximum
    ensures |bytes| <= maximum ==> ReadField(m, key, maximum) == Ok(bytes)
  {
    Base64.ReadsBackWithinMaximum(bytes, maximum);
  }

  lemma OpenOfPackage(c: Crypto, salt: Bytes, iv: Bytes, ciphertext: Bytes, passphrase: Str)
    requires |salt| == 16 && |iv| == 12
    ensures var r := Open(c, Print(Obj(PackageFields(salt, iv, ciphertext))), passphrase);
            if |ciphertext| <= MAX_FILE_BYTES + 4096 then r == Decrypt(c, salt, iv, ciphertext, passphrase) else r.Err?
  {
    var value := Obj(PackageFields(salt, iv, ciphertext));
    ParsedOpens(c, value, salt, iv, ciphertext, passphrase);
    ParseOfPrint(value);
    if |ciphertext| <= MAX_FILE_BYTES + 4096 { PackageTextFits(salt, iv, ciphertext); }
  }

  lemma ParsedOpens(c: Crypto, value: Json, salt: Bytes, iv: Bytes, ciphertext: Bytes, passphrase: Str)
    requires |salt| == 16 && |iv| == 12 && value == Obj(PackageFields(salt, iv, ciphertext))
    ensures var r := OpenParsed(c, value, passphrase);
            if |ciphertext| <= MAX_FILE_BYTES + 4096 then r == Decrypt(c, salt, iv, ciphertext, passphrase) else r.Err?
  {
    var m := AsMap(value.fields);
    PackageMap(salt, iv, ciphertext);
    FieldReads(m, SALT, salt, 16);
    FieldReads(m, IV, iv, 12);
    FieldReads(m, CIPHERTEXT, ciphertext, MAX_FILE_BYTES + 4096);
  }

  /** Opening a sealed package with its passphrase succeeds exactly when its metadata takes at most
      1024 bytes, and then returns the exact name, the truncated type and the exact bytes. */
  lemma OpenOfSeal(c: Crypto, file: File, passphrase: Str, salt: Bytes, iv: Bytes)
    requires Sound(c) && |salt| == 16 && |iv| == 12 && Seal(c, file, passphrase, salt, iv).Ok?
    ensures var r := Open(c, Print(Seal(c, file, passphrase, salt, iv).value), passphrase);
            && (r.Ok? <==> MetaLength(file) <= 1024)
            && (r.Ok? ==> r.value == Contents(file.name, MimeOf(file), file.data, c.sha(file.data)))
  {
    UnframeOfFrame(c, file);
    MetaLengthIsExact(c, file);
    var clear := Frame(MetaBytes(c, file), file.data);
    assert |clear| == 4 + MetaLength(file) + |file.data|;
    OpenOfPackage(c, salt, iv, Ciphertext(c, file, passphrase, salt, iv), passphrase);
  }

  lemma UnframedContentsAreChecked(c: Crypto, clear: Bytes)
    requires Unframe(c, clear).Ok?
    ensures var v := Unframe(c, clear).value;
            && SafeName(v.name) && |v.mime| <= 128 && |v.bytes| <= MAX_FILE_BYTES && v.sha256 == c.sha(v.bytes)
            && 6 <= |v.bytes| + 4 + ReadU32(clear) == |clear|
  {
  }

  /** Whatever text is opened, with any cipher: what comes out has a safe name, a bounded type and
      size, and the digest its metadata announced. */
  lemma OpenedContentsAreChecked(c: Crypto, text: Str, passphrase: Str)
    requires Open(c, text, passphrase).Ok?
    ensures var v := Open(c, text, passphrase).value;
            SafeName(v.name) && |v.mime| <= 128 && |v.bytes| <= MAX_FILE_BYTES && v.sha256 == c.sha(v.bytes)
  {
    OpenedThroughUnframe(c, Parse(text).value, passphrase);
  }

  lemma OpenedThroughUnframe(c: Crypto, value: Json, passphrase: Str)
    requires OpenParsed(c, value, passphrase).Ok?
    ensures var v := OpenParsed(c, value, passphrase).value;
            SafeName(v.name) && |v.mime| <= 128 && |v.bytes| <= MAX_FILE_BYTES && v.sha256 == c.sha(v.bytes)
  {
    var m := AsMap(value.fields);
    var salt, iv := ReadField(m, SALT, 16).value, ReadField(m, IV, 12).value;
    var ciphertext := ReadField(m, CIPHERTEXT, MAX_FILE_BYTES + 4096).value;
    var clear := c.decrypt(c.derive(Utf8.Encode(passphrase), salt), iv, ciphertext).value;
    assert OpenParsed(c, value, passphrase) == Unframe(c, clear);
    UnframedContentsAreChecked(c, clear);
  }

  /** Every file that sealFile takes with a well-formed name and a plain type can be opened again. */
  lemma OrdinaryFilesReopen(c: Crypto, file: File, passphrase: Str, salt: Bytes, iv: Bytes)
    requires Sound(c) && |salt| == 16 && |iv| == 12
    requires Seal(c, file, passphrase, salt, iv).Ok? && Utf8.WellFormed(file.name) && Plain(MimeOf(file))
    ensures Open(c, Print(Seal(c, file, passphrase, salt, iv).value), passphrase)
            == Ok(Contents(file.name, MimeOf(file), file.data, c.sha(file.data)))
  {
    OrdinaryMetadataFits(file);
    OpenOfSeal(c, file, passphrase, salt, iv);
  }

  function Repeat(u: CodeUnit, n: nat): (r: Str)
    ensures |r| == n && forall i :: 0 <= i < n ==> r[i] == u
  {
    seq(n, i => u)
  }

  lemma RepeatStep(u: CodeUnit, n: nat)
    requires n > 0 && !Surrogate(u) && Utf8.WellFormed(EscapeUnit(u))
    ensures TextCost(Repeat(u, n)) == |Utf8.Encode(EscapeUnit(u))| + TextCost(Repeat(u, n - 1))
  {
    var s := Repeat(u, n);
    assert s[1..] == Repeat(u, n - 1);
    assert EscapeAll(s) == EscapeUnit(u) + EscapeAll(s[1..]);
    Utf8.EncodeConcat(EscapeUnit(u), EscapeAll(s[1..]));
  }

  lemma OneMoreTime(n: int, cost: int)
    ensures n * cost == cost + (n - 1) * cost
  {
  }

  /** Text of one repeated unit costs as many bytes as the unit does, that many times. */
  lemma {:induction false} RepeatCost(u: CodeUnit, n: nat, cost: nat)
    requires !Surrogate(u) && Utf8.WellFormed(EscapeUnit(u)) && |Utf8.Encode(EscapeUnit(u))| == cost
    ensures TextCost(Repeat(u, n)) == n * cost
  {
    if n > 0 {
      RepeatStep(u, n);
      RepeatCost(u, n - 1, cost);
      OneMoreTime(n, cost);
    }
  }

  /** A name of 255 characters of three bytes each, and a type of 128 quotation marks. */
  function LongFile(): File { File(Repeat(0x4E00, 255), Some(Repeat(34, 128)), 0, []) }

  lemma LongFileIsLong()
    ensures SafeName(LongFile().name) && Utf8.WellFormed(LongFile().name) && MimeOf(LongFile()) == Repeat(34, 128)
    ensures MetaLength(LongFile()) == 1127
  {
    RepeatIsWellFormed(0x4E00, 255);
    ThreeBytes();
    RepeatCost(0x4E00, 255, 3);
    Utf8.AsciiLength([92, 34]);
    RepeatCost(34, 128, 2);
    assert |PrintNumber(0)| == 1;
  }

  lemma ThreeBytes()
    ensures Utf8.WellFormed(EscapeUnit(0x4E00)) && |Utf8.Encode(EscapeUnit(0x4E00))| == 3
  {
    assert Utf8.Encode([0x4E00]) == Utf8.EncodeUnit(0x4E00) + Utf8.Encode([]);
  }

  lemma {:induction false} RepeatIsWellFormed(u: CodeUnit, n: nat)
    requires !Surrogate(u)
    ensures Utf8.WellFormed(Repeat(u, n))
  {
    if n > 0 {
      RepeatIsWellFormed(u, n - 1);
      assert Repeat(u, n)[1..] == Repeat(u, n - 1);
    }
  }

  /** A well-formed file that sealFile accepts and whose package nobody can open. */
  lemma SealedButNeverOpened(c: Crypto, passphrase: Str, salt: Bytes, iv: Bytes)
    requires Sound(c) && |salt| == 16 && |iv| == 12 && GoodPassphrase(passphrase)
    ensures var sealed := Seal(c, LongFile(), passphrase, salt, iv);
            sealed.Ok? && Open(c, Print(sealed.value), passphrase).Err?
  {
    LongFileIsLong();
    OpenOfSeal(c, LongFile(), passphrase, salt, iv);
  }
}
