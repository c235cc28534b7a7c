/** Which files sealFile takes and which texts openPackage opens, with every test written out. */
module BrowserOutcomes {
  import opened Identity
  import opened Text
  import opened J = Json
  import opened BrowserPackage
  import Base64
  import Utf8

  /** 1 to 255 code units, none a control character, slash or backslash, and not "." or "..". */
  ghost predicate NameAllowed(name: Str) {
    && 1 <= |name| <= 255 && name != Ascii(".") && name != Ascii("..")
    && forall u :: u in name ==> 32 <= u && u != 127 && u != '/' as int && u != '\\' as int
  }

  lemma NamesFit(name: Str)
    ensures SafeName(name) <==> NameAllowed(name)
  {
    assert forall i :: 0 <= i < |name| ==> name[i] in name;
    assert Ascii(".") == [46] && Ascii("..") == [46, 46];
  }

  /** A file is sealed exactly when it claims a size from 0 to 16 MiB and has it, its name is allowed, and
      the passphrase has 12 to 1024 code units. */
  lemma SealsExactlyWhen(c: Crypto, file: File, passphrase: Str, salt: Bytes, iv: Bytes)
    ensures Seal(c, file, passphrase, salt, iv).Ok? <==>
              && 0 <= file.size <= 16777216 && |file.data| == file.size && NameAllowed(file.name)
              && 12 <= |passphrase| <= 1024
  {
    NamesFit(file.name);
  }

  // ---------------------------------------------------------------- base64

  ghost predicate AllSymbolic(t: Str) { forall i :: 0 <= i < |t| ==> Base64.IsSymbol(t[i]) }

  /** Whole groups of four: symbols, with at most two '=' in place of the last of them. */
  ghost predicate Base64Pattern(t: Str, pads: nat) {
    && |t| % 4 == 0 && pads <= 2 && pads <= |t| && AllSymbolic(t[..|t| - pads])
    && forall i :: |t| - pads <= i < |t| ==> t[i] == '=' as int
  }

  lemma ShortPattern(t: Str)
    requires |t| == 4
    ensures Base64.WellFormed(t) <==> Base64Pattern(t, 0) || Base64Pattern(t, 1) || Base64Pattern(t, 2)
  {
    assert Base64.WellFormed([]) && t[4..] == [];
    assert t[..4] == t;
  }

  lemma PatternTail(t: Str, pads: nat)
    requires |t| >= 8
    ensures Base64Pattern(t, pads) <==> AllSymbolic(t[..4]) && Base64Pattern(t[4..], pads)
  {
    var rest := t[4..];
    if pads <= 2 {
      assert forall i :: 0 <= i < |rest| ==> rest[i] == t[i + 4];
      var a, b := t[..|t| - pads], rest[..|rest| - pads];
      assert forall i :: 0 <= i < |b| ==> b[i] == a[i + 4];
      assert forall i :: 4 <= i < |a| ==> a[i] == b[i - 4];
      assert forall i :: 0 <= i < 4 ==> a[i] == t[..4][i];
      assert forall i :: |t| - pads <= i < |t| ==> t[i] == rest[i - 4];
    }
  }

  lemma {:induction false} Base64Fits(t: Str)
    ensures Base64.WellFormed(t) <==> Base64Pattern(t, 0) || Base64Pattern(t, 1) || Base64Pattern(t, 2)
    decreases |t|
  {
    if |t| == 4 {
      ShortPattern(t);
    } else if |t| >= 8 {
      PatternTail(t, 0);
      PatternTail(t, 1);
      PatternTail(t, 2);
      Base64Fits(t[4..]);
    }
  }

  // ---------------------------------------------------------------- the JSON object

  function Append(fields: Fields, key: Str, value: Json): Fields {
    if fields.NoFields? then Field(key, value, NoFields)
    else Field(fields.key, fields.value, Append(fields.rest, key, value))
  }

  /** Reading one more field overrides what was read under its key before. */
  lemma {:induction false} LastValueCounts(fields: Fields, key: Str, value: Json)
    ensures AsMap(Append(fields, key, value)) == AsMap(fields)[key := value]
  {
    if fields.Field? { LastValueCounts(fields.rest, key, value); }
  }

  // ---------------------------------------------------------------- opening

  /** Exactly the six fields, the three constants among them. */
  ghost predicate SixEntries(m: map<Str, Json>, s: Str, i: Str, t: Str) {
    m == map[VERSION := Json.Str(Ascii("kindred.sdpn.browser-package.v1")),
             KDF := Json.Str(Ascii("PBKDF2-SHA256-310000")), CIPHER := Json.Str(Ascii("AES-256-GCM")),
             SALT := Json.Str(s), IV := Json.Str(i), CIPHERTEXT := Json.Str(t)]
  }

  ghost predicate Encoded(t: Str, maximum: nat, bytes: Bytes) {
    Base64.FromText(t, maximum) == Base64.Read.Bytes(bytes)
  }

  /** An object with those fields that holds a salt of 16 bytes, an iv of 12, and a ciphertext. */
  ghost predicate PackageObject(value: Json, salt: Bytes, iv: Bytes, ciphertext: Bytes) {
    && value.Obj? && |salt| == 16 && |iv| == 12
    && exists s, i, t :: SixEntries(AsMap(value.fields), s, i, t) && Encoded(s, 16, salt) && Encoded(i, 12, iv)
         && Encoded(t, 16781312, ciphertext)
  }

  ghost predicate DigestText(t: Str) {
    |t| == 64 && forall u :: u in t ==> '0' as int <= u <= '9' as int || 'a' as int <= u <= 'f' as int
  }

  /** Four bytes of length, that many of metadata, and the file: the metadata is an object that gives an
      allowed name, a type of up to 128 code units, and the size and digest of the file. */
  ghost predicate FrameHolds(c: Crypto, clear: Bytes, size: nat, v: Contents) {
    && 2 <= size <= 1024 && |clear| >= 4 + size && |clear| >= 6
    && size == clear[0] as int * 16777216 + clear[1] as int * 65536 + clear[2] as int * 256 + clear[3] as int
    && v.bytes == clear[4 + size..] && |v.bytes| <= 16777216 && v.sha256 == c.sha(v.bytes)
    && NameAllowed(v.name) && |v.mime| <= 128
    && DigestText(v.sha256)
    && exists text, meta :: Utf8.Decode(clear[4..4 + size]) == Some(text) && Parse(text) == Some(Obj(meta))
         && MetaSays(AsMap(meta), v)
  }

  ghost predicate MetaSays(m: map<Str, Json>, v: Contents) {
    && NAME in m && m[NAME] == Json.Str(v.name) && MIME in m && m[MIME] == Json.Str(v.mime)
    && SIZE in m && m[SIZE] == Num(|v.bytes|) && SHA256 in m && m[SHA256] == Json.Str(v.sha256)
  }

  /** The text opens to v: at most 24 MiB of JSON for a package whose ciphertext decrypts, under the key of
      a passphrase of 12 to 1024 code units, to a frame that holds v. */
  ghost predicate Opens(c: Crypto, text: Str, passphrase: Str, v: Contents) {
    && |text| <= 25165824 && 12 <= |passphrase| <= 1024
    && Parse(text).Some?
    && exists salt, iv, ciphertext :: Holds(c, Parse(text).value, passphrase, salt, iv, ciphertext, v)
  }

  ghost predicate Holds(c: Crypto, value: Json, passphrase: Str, salt: Bytes, iv: Bytes, ciphertext: Bytes,
      v: Contents) {
    && PackageObject(value, salt, iv, ciphertext)
    && exists clear, size :: FrameHolds(c, clear, size, v)
         && c.decrypt(c.derive(Utf8.Encode(passphrase), salt), iv, ciphertext) == Some(clear)
  }

  lemma ReadsEncoded(m: map<Str, Json>, key: Str, maximum: nat, bytes: Bytes)
    ensures ReadField(m, key, maximum) == Ok(bytes) <==> key in m && m[key].Str? && Encoded(m[key].s, maximum, bytes)
  {
  }

  lemma SupportedEntries(m: map<Str, Json>, s: Str, i: Str, t: Str)
    ensures Supported(m) && m[SALT] == Json.Str(s) && m[IV] == Json.Str(i) && m[CIPHERTEXT] == Json.Str(t)
            <==> SixEntries(m, s, i, t)
  {
    var six := map[VERSION := Json.Str(PackageVersion()), KDF := Json.Str(KdfName()),
                   CIPHER := Json.Str(CipherName()), SALT := Json.Str(s), IV := Json.Str(i),
                   CIPHERTEXT := Json.Str(t)];
    assert six.Keys == {VERSION, KDF, CIPHER, SALT, IV, CIPHERTEXT};
    if Supported(m) && m[SALT] == Json.Str(s) && m[IV] == Json.Str(i) && m[CIPHERTEXT] == Json.Str(t) {
      assert m == six;
    }
  }

  lemma DigestsFit(t: Str)
    ensures HexDigest(t) <==> DigestText(t)
  {
    assert forall i :: 0 <= i < |t| ==> t[i] in t;
  }

  lemma MetaIsChecked(c: Crypto, meta: Json, bytes: Bytes, v: Contents)
    ensures CheckMeta(c, meta, bytes) == Ok(v) <==>
              && meta.Obj? && MetaSays(AsMap(meta.fields), v) && NameAllowed(v.name) && |v.mime| <= 128
              && v.bytes == bytes && |bytes| <= 16777216 && v.sha256 == c.sha(bytes) && DigestText(v.sha256)
  {
    NamesFit(v.name);
    DigestsFit(v.sha256);
    if meta.Obj? && IsText(AsMap(meta.fields), NAME) { NamesFit(AsMap(meta.fields)[NAME].s); }
  }

  /** Of refused metadata, what JavaScript counts as false fails the integrity check, anything else without an
      allowed name fails for its name, and the rest fails the integrity check again. */
  lemma MetaIsRefused(c: Crypto, meta: Json, bytes: Bytes)
    ensures var named := meta.Obj? && NAME in AsMap(meta.fields) && AsMap(meta.fields)[NAME].Str?
              && NameAllowed(AsMap(meta.fields)[NAME].s);
            var falsy := meta in {Null, Bool(false), Num(0), Json.Str([])};
            && (CheckMeta(c, meta, bytes) == Err(InvalidName) <==> !falsy && !named)
            && (falsy ==> CheckMeta(c, meta, bytes) == Err(IntegrityFailed))
            && (CheckMeta(c, meta, bytes).Err? ==> CheckMeta(c, meta, bytes).error in {InvalidName, IntegrityFailed})
  {
    if meta.Obj? && IsText(AsMap(meta.fields), NAME) { NamesFit(AsMap(meta.fields)[NAME].s); }
  }

  lemma FrameIsUnframed(c: Crypto, clear: Bytes, v: Contents)
    ensures Unframe(c, clear) == Ok(v) <==> |clear| >= 4 && FrameHolds(c, clear, ReadU32(clear), v)
  {
    if |clear| >= 6 && 2 <= ReadU32(clear) <= 1024 && 4 + ReadU32(clear) <= |clear| {
      var size := ReadU32(clear);
      var meta := ParseMeta(clear[4..4 + size]);
      if meta.Some? { MetaIsChecked(c, meta.value, clear[4 + size..], v); }
    }
  }

  lemma DecryptedHolds(c: Crypto, salt: Bytes, iv: Bytes, ciphertext: Bytes, passphrase: Str, v: Contents)
    ensures Decrypt(c, salt, iv, ciphertext, passphrase) == Ok(v) <==>
              && 12 <= |passphrase| <= 1024
              && exists clear, size :: FrameHolds(c, clear, size, v)
                   && c.decrypt(c.derive(Utf8.Encode(passphrase), salt), iv, ciphertext) == Some(clear)
  {
    var plain := c.decrypt(c.derive(Utf8.Encode(passphrase), salt), iv, ciphertext);
    if plain.Some? { FrameIsUnframed(c, plain.value, v); }
  }

  lemma ObjectIsRead(c: Crypto, value: Json, passphrase: Str, salt: Bytes, iv: Bytes, ciphertext: Bytes)
    requires PackageObject(value, salt, iv, ciphertext)
    ensures OpenParsed(c, value, passphrase) == Decrypt(c, salt, iv, ciphertext, passphrase)
  {
    var m := AsMap(value.fields);
    var s, i, t :| SixEntries(m, s, i, t) && Encoded(s, 16, salt) && Encoded(i, 12, iv)
      && Encoded(t, 16781312, ciphertext);
    SupportedEntries(m, s, i, t);
    ReadsEncoded(m, SALT, 16, salt);
    ReadsEncoded(m, IV, 12, iv);
    ReadsEncoded(m, CIPHERTEXT, 16781312, ciphertext);
  }

  lemma ReadIsObject(c: Crypto, value: Json, passphrase: Str) returns (salt: Bytes, iv: Bytes, ciphertext: Bytes)
    requires OpenParsed(c, value, passphrase).Ok?
    ensures PackageObject(value, salt, iv, ciphertext)
  {
    var m := AsMap(value.fields);
    salt, iv, ciphertext := ReadField(m, SALT, 16).value, ReadField(m, IV, 12).value,
      ReadField(m, CIPHERTEXT, MAX_FILE_BYTES + 4096).value;
    SupportedEntries(m, m[SALT].s, m[IV].s, m[CIPHERTEXT].s);
    ReadsEncoded(m, SALT, 16, salt);
    ReadsEncoded(m, IV, 12, iv);
    ReadsEncoded(m, CIPHERTEXT, 16781312, ciphertext);
  }

  /** For every text, passphrase and cipher: openPackage returns v exactly when the text opens to v. */
  lemma OpensExactlyWhen(c: Crypto, text: Str, passphrase: Str, v: Contents)
    ensures Open(c, text, passphrase) == Ok(v) <==> Opens(c, text, passphrase, v)
  {
    if Open(c, text, passphrase) == Ok(v) {
      var value := Parse(text).value;
      var salt, iv, ciphertext := ReadIsObject(c, value, passphrase);
      ObjectIsRead(c, value, passphrase, salt, iv, ciphertext);
      DecryptedHolds(c, salt, iv, ciphertext, passphrase, v);
      assert Holds(c, value, passphrase, salt, iv, ciphertext, v);
    }
    if Opens(c, text, passphrase, v) {
      var value := Parse(text).value;
      var salt, iv, ciphertext :| Holds(c, value, passphrase, salt, iv, ciphertext, v);
      ObjectIsRead(c, value, passphrase, salt, iv, ciphertext);
      DecryptedHolds(c, salt, iv, ciphertext, passphrase, v);
    }
  }
}
