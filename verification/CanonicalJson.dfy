/** canonicalBytes of native-port-identity.mjs: order the keys, print, encode; and what signing,
    verifying and storing such a body does to it. */
module CanonicalJson {
  import opened Identity
  import opened Json
  import Utf8

  // ---------------------------------------------------------------- the order of object keys

  predicate LexLess(a: Str, b: Str) {
    b != [] && (a == [] || a[0] < b[0] || (a[0] == b[0] && LexLess(a[1..], b[1..])))
  }

  /** A canonical array index: a decimal numeral without leading zero, at most 2^32 - 2. JavaScript
      lists such keys first, by value, whatever order they were inserted in. */
  predicate IndexKey(k: Str) {
    && k != [] && |k| <= 10 && (forall i :: 0 <= i < |k| ==> IsDigit(k[i]))
    && (k[0] == 48 ==> |k| == 1)
    && (|k| == 10 ==> LexLess(k, [52, 50, 57, 52, 57, 54, 55, 50, 57, 53]))
  }

  /** The order Object.keys gives once the sorted entries are back in an object. */
  predicate KeyLess(a: Str, b: Str) {
    if IndexKey(a) && IndexKey(b) then |a| < |b| || (|a| == |b| && LexLess(a, b))
    else if IndexKey(a) || IndexKey(b) then IndexKey(a)
    else LexLess(a, b)
  }

  lemma {:induction false} LexTotal(a: Str, b: Str)
    ensures LexLess(a, b) || a == b || LexLess(b, a)
    ensures !(LexLess(a, b) && LexLess(b, a)) && !LexLess(a, a)
  {
    if a != [] && b != [] && a[0] == b[0] {
      LexTotal(a[1..], b[1..]);
      assert a == [a[0]] + a[1..] && b == [b[0]] + b[1..];
    }
    if a != [] { LexTotal(a[1..], a[1..]); }
  }

  lemma {:induction false} LexTransitive(a: Str, b: Str, c: Str)
    requires LexLess(a, b) && LexLess(b, c)
    ensures LexLess(a, c)
  {
    if a != [] && a[0] == b[0] && b[0] == c[0] {
      LexTransitive(a[1..], b[1..], c[1..]);
    }
  }

  lemma KeyTotal(a: Str, b: Str)
    ensures KeyLess(a, b) || a == b || KeyLess(b, a)
    ensures !(KeyLess(a, b) && KeyLess(b, a)) && !KeyLess(a, a)
  {
    LexTotal(a, b);
    LexTotal(a, a);
  }

  lemma KeyTransitive(a: Str, b: Str, c: Str)
    requires KeyLess(a, b) && KeyLess(b, c)
    ensures KeyLess(a, c)
  {
    if LexLess(a, b) && LexLess(b, c) { LexTransitive(a, b, c); }
  }

  // ---------------------------------------------------------------- ordered(v)

  function Insert(key: Str, value: Json, fields: Fields): Fields {
    if fields.NoFields? || KeyLess(key, fields.key) then Field(key, value, fields)
    else Field(fields.key, fields.value, Insert(key, value, fields.rest))
  }

  function Ordered(v: Json): Json
    decreases v, 0
  {
    match v
    case Arr(items) => Arr(OrderedItems(items))
    case Obj(fields) => Obj(OrderedFields(fields))
    case _ => v
  }

  function OrderedItems(items: Items): Items
    decreases items, 1
  {
    if items.NoItems? then NoItems else Item(Ordered(items.head), OrderedItems(items.tail))
  }

  function OrderedFields(fields: Fields): Fields
    decreases fields, 1
  {
    if fields.NoFields? then NoFields else Insert(fields.key, Ordered(fields.value), OrderedFields(fields.rest))
  }

  predicate HasKey(fields: Fields, key: Str) { fields.Field? && (fields.key == key || HasKey(fields.rest, key)) }

  /** A value canonicalBytes accepts: safe integers only; object keys are distinct, as in any object. */
  predicate Acceptable(v: Json)
    decreases v, 0
  {
    match v
    case Num(n) => SafeInteger(n)
    case Arr(items) => AcceptableItems(items)
    case Obj(fields) => AcceptableFields(fields)
    case _ => true
  }

  predicate AcceptableItems(items: Items)
    decreases items, 1
  {
    items.NoItems? || (Acceptable(items.head) && AcceptableItems(items.tail))
  }

  predicate AcceptableFields(fields: Fields)
    decreases fields, 1
  {
    fields.NoFields? || (Acceptable(fields.value) && !HasKey(fields.rest, fields.key) && AcceptableFields(fields.rest))
  }

  /** canonicalBytes; a TypeError where a number is not a safe integer. */
  function CanonicalBytes(v: Json): Option<Bytes> {
    if Acceptable(v) then Some(Utf8.Encode(Print(Ordered(v)))) else None
  }

  // ---------------------------------------------------------------- what a value means

  /** JSON values with objects as maps: no key order at all. */
  datatype Meaning = MNull | MBool(b: bool) | MNum(n: int) | MStr(s: Str) | MArr(items: seq<Meaning>)
    | MObj(fields: map<Str, Meaning>)

  function MeaningOf(v: Json): Meaning
    decreases v, 0
  {
    match v
    case Null => MNull
    case Bool(b) => MBool(b)
    case Num(n) => MNum(n)
    case Str(s) => MStr(s)
    case Arr(items) => MArr(ItemsMeaning(items))
    case Obj(fields) => MObj(FieldsMeaning(fields))
  }

  function ItemsMeaning(items: Items): seq<Meaning>
    decreases items, 1
  {
    if items.NoItems? then [] else [MeaningOf(items.head)] + ItemsMeaning(items.tail)
  }

  function FieldsMeaning(fields: Fields): map<Str, Meaning>
    decreases fields, 1
  {
    if fields.NoFields? then map[] else FieldsMeaning(fields.rest)[fields.key := MeaningOf(fields.value)]
  }

  lemma {:induction false} MeaningKeys(fields: Fields, key: Str)
    ensures key in FieldsMeaning(fields) <==> HasKey(fields, key)
  {
    if fields.Field? { MeaningKeys(fields.rest, key); }
  }

  // ---------------------------------------------------------------- ordering keeps the meaning

  lemma {:induction false} InsertMeaning(key: Str, value: Json, fields: Fields)
    requires !HasKey(fields, key)
    ensures FieldsMeaning(Insert(key, value, fields)) == FieldsMeaning(fields)[key := MeaningOf(value)]
    ensures forall k :: HasKey(Insert(key, value, fields), k) <==> k == key || HasKey(fields, k)
  {
    if fields.Field? && !KeyLess(key, fields.key) {
      InsertMeaning(key, value, fields.rest);
    }
  }

  lemma {:induction false} OrderedKeepsMeaning(v: Json)
    requires Acceptable(v)
    ensures MeaningOf(Ordered(v)) == MeaningOf(v)
    decreases v, 0
  {
    match v
    case Arr(items) => OrderedItemsKeepMeaning(items);
    case Obj(fields) => OrderedFieldsKeepMeaning(fields);
    case _ =>
  }

  lemma {:induction false} OrderedItemsKeepMeaning(items: Items)
    requires AcceptableItems(items)
    ensures ItemsMeaning(OrderedItems(items)) == ItemsMeaning(items)
    decreases items, 1
  {
    if items.Item? {
      OrderedKeepsMeaning(items.head);
      OrderedItemsKeepMeaning(items.tail);
    }
  }

  lemma {:induction false} OrderedFieldsKeepMeaning(fields: Fields)
    requires AcceptableFields(fields)
    ensures FieldsMeaning(OrderedFields(fields)) == FieldsMeaning(fields)
    ensures forall k :: HasKey(OrderedFields(fields), k) <==> HasKey(fields, k)
    decreases fields, 1
  {
    if fields.Field? {
      OrderedKeepsMeaning(fields.value);
      OrderedFieldsKeepMeaning(fields.rest);
      InsertMeaning(fields.key, Ordered(fields.value), OrderedFields(fields.rest));
    }
  }

  // ---------------------------------------------------------------- ordered values are unique

  /** Keys strictly ascending, at every level. */
  ghost predicate Canonical(v: Json)
    decreases v, 0
  {
    match v
    case Arr(items) => CanonicalItems(items)
    case Obj(fields) => CanonicalFields(fields)
    case _ => true
  }

  ghost predicate CanonicalItems(items: Items)
    decreases items, 1
  {
    items.NoItems? || (Canonical(items.head) && CanonicalItems(items.tail))
  }

  ghost predicate CanonicalFields(fields: Fields)
    decreases fields, 1
  {
    fields.NoFields? || (Canonical(fields.value) && CanonicalFields(fields.rest) && Below(fields.key, fields.rest))
  }

  /** `key` comes before every key of `fields`. */
  ghost predicate Below(key: Str, fields: Fields) {
    forall k :: HasKey(fields, k) ==> KeyLess(key, k)
  }

  lemma {:induction false} InsertIsCanonical(key: Str, value: Json, fields: Fields)
    requires CanonicalFields(fields) && Canonical(value) && !HasKey(fields, key)
    ensures CanonicalFields(Insert(key, value, fields))
    ensures forall k :: HasKey(Insert(key, value, fields), k) <==> k == key || HasKey(fields, k)
  {
    InsertMeaning(key, value, fields);
    if fields.NoFields? {
    } else if KeyLess(key, fields.key) {
      forall k | HasKey(fields, k)
        ensures KeyLess(key, k)
      {
        if k != fields.key { KeyTransitive(key, fields.key, k); }
      }
    } else {
      KeyTotal(key, fields.key);
      InsertIsCanonical(key, value, fields.rest);
    }
  }

  lemma {:induction false} OrderedIsCanonical(v: Json)
    requires Acceptable(v)
    ensures Canonical(Ordered(v))
    decreases v, 0
  {
    match v
    case Arr(items) => OrderedItemsAreCanonical(items);
    case Obj(fields) => OrderedFieldsAreCanonical(fields);
    case _ =>
  }

  lemma {:induction false} OrderedItemsAreCanonical(items: Items)
    requires AcceptableItems(items)
    ensures CanonicalItems(OrderedItems(items))
    decreases items, 1
  {
    if items.Item? {
      OrderedIsCanonical(items.head);
      OrderedItemsAreCanonical(items.tail);
    }
  }

  lemma {:induction false} OrderedFieldsAreCanonical(fields: Fields)
    requires AcceptableFields(fields)
    ensures CanonicalFields(OrderedFields(fields))
    decreases fields, 1
  {
    if fields.Field? {
      OrderedIsCanonical(fields.value);
      OrderedFieldsAreCanonical(fields.rest);
      OrderedFieldsKeepMeaning(fields.rest);
      InsertIsCanonical(fields.key, Ordered(fields.value), OrderedFields(fields.rest));
    }
  }

  /** Two canonical values with one meaning are one value. */
  lemma {:induction false} CanonicalUnique(a: Json, b: Json)
    requires Canonical(a) && Canonical(b) && MeaningOf(a) == MeaningOf(b)
    ensures a == b
    decreases a, 0
  {
    match a
    case Arr(items) => ItemsUnique(items, b.items);
    case Obj(fields) => FieldsUnique(fields, b.fields);
    case _ =>
  }

  lemma {:induction false} ItemsUnique(a: Items, b: Items)
    requires CanonicalItems(a) && CanonicalItems(b) && ItemsMeaning(a) == ItemsMeaning(b)
    ensures a == b
    decreases a, 1
  {
    var x, y := ItemsMeaning(a), ItemsMeaning(b);
    assert a.NoItems? <==> |x| == 0;
    assert b.NoItems? <==> |y| == 0;
    if a.Item? {
      assert x[0] == MeaningOf(a.head) && y[0] == MeaningOf(b.head);
      assert x[1..] == ItemsMeaning(a.tail) && y[1..] == ItemsMeaning(b.tail);
      CanonicalUnique(a.head, b.head);
      ItemsUnique(a.tail, b.tail);
    }
  }

  lemma {:induction false} FieldsUnique(a: Fields, b: Fields)
    requires CanonicalFields(a) && CanonicalFields(b) && FieldsMeaning(a) == FieldsMeaning(b)
    ensures a == b
    decreases a, 1
  {
    NoMeaning(a);
    NoMeaning(b);
    if a.Field? {
      SameFirstKey(a, b);
      RestMeaning(a);
      RestMeaning(b);
      CanonicalUnique(a.value, b.value);
      FieldsUnique(a.rest, b.rest);
    }
  }

  lemma NoMeaning(a: Fields)
    ensures FieldsMeaning(a) == map[] <==> a.NoFields?
  {
    if a.Field? { MeaningKeys(a, a.key); }
  }

  lemma SameFirstKey(a: Fields, b: Fields)
    requires a.Field? && b.Field? && CanonicalFields(a) && CanonicalFields(b) && FieldsMeaning(a) == FieldsMeaning(b)
    ensures a.key == b.key
  {
    MeaningKeys(a, a.key); MeaningKeys(b, a.key);
    MeaningKeys(a, b.key); MeaningKeys(b, b.key);
    KeyTotal(a.key, b.key);
  }

  lemma RestMeaning(a: Fields)
    requires a.Field? && CanonicalFields(a)
    ensures FieldsMeaning(a.rest) == FieldsMeaning(a) - {a.key} && FieldsMeaning(a)[a.key] == MeaningOf(a.value)
  {
    MeaningKeys(a.rest, a.key);
    KeyTotal(a.key, a.key);
  }

  // ---------------------------------------------------------------- main results

  /** Canonical bytes are independent of key order and determine the value up to key order. */
  lemma CanonicalTextIsTheValue(a: Json, b: Json)
    requires Acceptable(a) && Acceptable(b)
    ensures CanonicalBytes(a) == CanonicalBytes(b) <==> MeaningOf(a) == MeaningOf(b)
  {
    OrderedKeepsMeaning(a);
    OrderedKeepsMeaning(b);
    OrderedIsCanonical(a);
    OrderedIsCanonical(b);
    if MeaningOf(a) == MeaningOf(b) {
      CanonicalUnique(Ordered(a), Ordered(b));
    }
    if CanonicalBytes(a) == CanonicalBytes(b) {
      PrintIsWellFormed(Ordered(a));
      PrintIsWellFormed(Ordered(b));
      Utf8.EncodeInjective(Print(Ordered(a)), Print(Ordered(b)));
      ParseOfPrint(Ordered(a));
      ParseOfPrint(Ordered(b));
    }
  }

  /** JSON.parse(bytes). */
  function ParseBytes(bytes: Bytes): Option<Json> {
    match Utf8.Decode(bytes)
    case None => None
    case Some(text) => Parse(text)
  }

  /** Parsing canonical bytes gives the ordered value, and ordering again changes nothing. */
  lemma ParseAndReprintIsStable(v: Json)
    requires Acceptable(v)
    ensures ParseBytes(CanonicalBytes(v).value) == Some(Ordered(v))
    ensures Acceptable(Ordered(v)) && Ordered(Ordered(v)) == Ordered(v)
            && CanonicalBytes(Ordered(v)) == CanonicalBytes(v)
  {
    PrintIsWellFormed(Ordered(v));
    Utf8.DecodeOfEncode(Print(Ordered(v)));
    ParseOfPrint(Ordered(v));
    OrderedIsAcceptable(v);
    OrderedKeepsMeaning(v);
    OrderedKeepsMeaning(Ordered(v));
    OrderedIsCanonical(v);
    OrderedIsCanonical(Ordered(v));
    CanonicalUnique(Ordered(v), Ordered(Ordered(v)));
  }

  lemma {:induction false} InsertIsAcceptable(key: Str, value: Json, fields: Fields)
    requires AcceptableFields(fields) && Acceptable(value) && !HasKey(fields, key)
    ensures AcceptableFields(Insert(key, value, fields))
  {
    if fields.Field? && !KeyLess(key, fields.key) {
      InsertIsAcceptable(key, value, fields.rest);
      InsertMeaning(key, value, fields.rest);
    }
  }

  lemma {:induction false} OrderedIsAcceptable(v: Json)
    requires Acceptable(v)
    ensures Acceptable(Ordered(v))
    decreases v, 0
  {
    match v
    case Arr(items) => OrderedItemsAreAcceptable(items);
    case Obj(fields) => OrderedFieldsAreAcceptable(fields);
    case _ =>
  }

  lemma {:induction false} OrderedItemsAreAcceptable(items: Items)
    requires AcceptableItems(items)
    ensures AcceptableItems(OrderedItems(items))
    decreases items, 1
  {
    if items.Item? {
      OrderedIsAcceptable(items.head);
      OrderedItemsAreAcceptable(items.tail);
    }
  }

  lemma {:induction false} OrderedFieldsAreAcceptable(fields: Fields)
    requires AcceptableFields(fields)
    ensures AcceptableFields(OrderedFields(fields))
    decreases fields, 1
  {
    if fields.Field? {
      OrderedIsAcceptable(fields.value);
      OrderedFieldsAreAcceptable(fields.rest);
      OrderedFieldsKeepMeaning(fields.rest);
      InsertIsAcceptable(fields.key, Ordered(fields.value), OrderedFields(fields.rest));
    }
  }

  // ---------------------------------------------------------------- signed bodies

  /** An Ed25519 signature, named by its key and the bytes it covers. */
  datatype Signature = Ed25519Sig(key: SigningKey, over: Bytes) | OtherBytes

  datatype Envelope = Envelope(body: Json, signature: Signature)

  /** identity.sign: copy through canonical bytes, sign the copy. */
  function Sign(key: SigningKey, body: Json): Option<Envelope> {
    match CanonicalBytes(body)
    case None => None
    case Some(bytes) =>
      match ParseBytes(bytes)
      case None => None
      case Some(copy) =>
        match CanonicalBytes(copy)
        case None => None
        case Some(over) => Some(Envelope(copy, Ed25519Sig(key, over)))
  }

  /** verifyEnvelope, once the envelope's fields and the key's identity are checked: the body it returns. */
  function VerifyEnvelope(key: SigningKey, e: Envelope): Option<Json> {
    match CanonicalBytes(e.body)
    case None => None
    case Some(bytes) => if e.signature == Ed25519Sig(key, bytes) then ParseBytes(bytes) else None
  }

  /** The body that is signed, returned by verification, and stored by a directory is one value; and
      with that signature a body verifies exactly when it means the same as the one signed. */
  lemma SignedBodyIsOneValue(key: SigningKey, body: Json, other: Json)
    requires Acceptable(body) && Acceptable(other)
    ensures var e := Sign(key, body);
            && e.Some? && e.value.body == Ordered(body)
            && VerifyEnvelope(key, e.value) == Some(Ordered(body))
            && ParseBytes(CanonicalBytes(e.value.body).value) == Some(Ordered(body))
            && (VerifyEnvelope(key, Envelope(other, e.value.signature)).Some? <==> MeaningOf(other) == MeaningOf(body))
            && (MeaningOf(other) == MeaningOf(body) ==>
               VerifyEnvelope(key, Envelope(other, e.value.signature)) == Some(Ordered(body)))
  {
    ParseAndReprintIsStable(body);
    ParseAndReprintIsStable(other);
    CanonicalTextIsTheValue(body, other);
    var e := Sign(key, body);
    assert e.value.signature == Ed25519Sig(key, CanonicalBytes(body).value);
    assert VerifyEnvelope(key, e.value) == Some(Ordered(body));
  }
}
