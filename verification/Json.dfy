/** JSON.stringify and JSON.parse on the values the control plane signs: compact text, integers,
    the string escapes of section 7 of RFC 8259. */
module Json {
  import opened Identity
  import opened Text
  import Utf8

  type Str = seq<CodeUnit>

  /** Objects keep their fields in insertion order. */
  datatype Json = Null | Bool(b: bool) | Num(n: int) | Str(s: Str) | Arr(items: Items) | Obj(fields: Fields)
  datatype Items = NoItems | Item(head: Json, tail: Items)
  datatype Fields = NoFields | Field(key: Str, value: Json, rest: Fields)

  // ---------------------------------------------------------------- printing

  function HexDigit(n: int): CodeUnit
    requires 0 <= n < 16
  {
    if n < 10 then 48 + n else 87 + n
  }

  /** backslash u and four lower-case hex digits */
  function UnicodeEscape(u: CodeUnit): Str {
    [92, 117, HexDigit(u / 4096), HexDigit(u / 256 % 16), HexDigit(u / 16 % 16), HexDigit(u % 16)]
  }

  function EscapeUnit(u: CodeUnit): (r: Str)
    ensures 1 <= |r| <= 6
  {
    if u == 34 then [92, 34] else if u == 92 then [92, 92]
    else if u == 8 then [92, 98] else if u == 12 then [92, 102] else if u == 10 then [92, 110]
    else if u == 13 then [92, 114] else if u == 9 then [92, 116]
    else if u < 32 then UnicodeEscape(u) else [u]
  }

  /** The inside of a string literal: unpaired surrogates are escaped too. */
  function EscapeAll(s: Str): Str {
    if s == [] then []
    else if Utf8.PairAt(s) then s[..2] + EscapeAll(s[2..])
    else if Surrogate(s[0]) then UnicodeEscape(s[0]) + EscapeAll(s[1..])
    else EscapeUnit(s[0]) + EscapeAll(s[1..])
  }

  function Quote(s: Str): Str { [34] + EscapeAll(s) + [34] }

  function DigitUnit(d: Digit): (u: CodeUnit)
    ensures 48 <= u <= 57
  {
    d as int + 48
  }

  function DigitUnits(ds: seq<Digit>): (r: Str)
    ensures |r| == |ds| && forall i :: 0 <= i < |r| ==> r[i] == DigitUnit(ds[i])
  {
    seq(|ds|, i requires 0 <= i < |ds| => DigitUnit(ds[i]))
  }

  function PrintNumber(n: int): Str {
    if n < 0 then [45] + DigitUnits(Decimal(-n)) else DigitUnits(Decimal(n))
  }

  const NULL_TEXT: Str := [110, 117, 108, 108]
  const TRUE_TEXT: Str := [116, 114, 117, 101]
  const FALSE_TEXT: Str := [102, 97, 108, 115, 101]

  function Print(v: Json): Str {
    match v
    case Null => NULL_TEXT
    case Bool(b) => if b then TRUE_TEXT else FALSE_TEXT
    case Num(n) => PrintNumber(n)
    case Str(s) => Quote(s)
    case Arr(items) => [91] + PrintItems(items) + [93]
    case Obj(fields) => [123] + PrintFields(fields) + [125]
  }

  function PrintItems(items: Items): Str {
    match items
    case NoItems => []
    case Item(head, NoItems) => Print(head)
    case Item(head, tail) => Print(head) + [44] + PrintItems(tail)
  }

  function PrintFields(fields: Fields): Str {
    match fields
    case NoFields => []
    case Field(key, value, NoFields) => Quote(key) + [58] + Print(value)
    case Field(key, value, rest) => Quote(key) + [58] + Print(value) + [44] + PrintFields(rest)
  }

  // ---------------------------------------------------------------- parsing

  datatype Parsed<+T> = Failed | Parsed(value: T, rest: Str)

  function HexValue(u: CodeUnit): int {
    if 48 <= u <= 57 then u - 48 else if 97 <= u <= 102 then u - 87 else if 65 <= u <= 70 then u - 55 else -1
  }

  function SimpleEscape(u: CodeUnit): (r: Option<CodeUnit>) {
    if u == 34 || u == 92 || u == 47 then Some(u)
    else if u == 98 then Some(8) else if u == 102 then Some(12) else if u == 110 then Some(10)
    else if u == 114 then Some(13) else if u == 116 then Some(9) else None
  }

  /** One character of a string literal, raw or escaped. */
  function ParseUnit(t: Str): (r: Parsed<CodeUnit>)
    ensures r.Parsed? ==> |r.rest| < |t|
  {
    if t == [] || t[0] < 32 || t[0] == 34 then Failed
    else if t[0] != 92 then Parsed(t[0], t[1..])
    else if |t| >= 2 && SimpleEscape(t[1]).Some? then Parsed(SimpleEscape(t[1]).value, t[2..])
    else if |t| >= 6 && t[1] == 117 && HexValue(t[2]) >= 0 && HexValue(t[3]) >= 0 && HexValue(t[4]) >= 0
      && HexValue(t[5]) >= 0
    then Parsed(HexValue(t[2]) * 4096 + HexValue(t[3]) * 256 + HexValue(t[4]) * 16 + HexValue(t[5]), t[6..])
    else Failed
  }

  /** The rest of a string literal, after its opening quote. */
  function ParseString(t: Str): (r: Parsed<Str>)
    ensures r.Parsed? ==> |r.rest| < |t|
    decreases |t|
  {
    if t != [] && t[0] == 34 then Parsed([], t[1..])
    else match ParseUnit(t)
      case Failed => Failed
      case Parsed(u, t') =>
        match ParseString(t')
        case Failed => Failed
        case Parsed(s, rest) => Parsed([u] + s, rest)
  }

  predicate IsDigit(u: CodeUnit) { 48 <= u <= 57 }

  /** How many digits t starts with. */
  function DigitRun(t: Str): (n: nat)
    ensures n <= |t| && forall i :: 0 <= i < n ==> IsDigit(t[i])
  {
    if t == [] || !IsDigit(t[0]) then 0 else 1 + DigitRun(t[1..])
  }

  function DigitOf(u: CodeUnit): Digit
    requires IsDigit(u)
  {
    var n: int := u as int; n - 48
  }

  function DigitsOf(t: Str): (ds: seq<Digit>)
    requires forall i :: 0 <= i < |t| ==> IsDigit(t[i])
    ensures |ds| == |t|
  {
    seq(|t|, i requires 0 <= i < |t| => DigitOf(t[i]))
  }

  function ParseNatural(t: Str): (r: Parsed<nat>)
    ensures r.Parsed? ==> |r.rest| < |t|
  {
    var n := DigitRun(t);
    if n == 0 || (n > 1 && t[0] == 48) then Failed else Parsed(DecimalValue(DigitsOf(t[..n])), t[n..])
  }

  function ParseNumber(t: Str): (r: Parsed<int>)
    ensures r.Parsed? ==> |r.rest| < |t|
  {
    if t != [] && t[0] == 45 then
      match ParseNatural(t[1..])
      case Failed => Failed
      case Parsed(n, rest) => Parsed(-(n as int), rest)
    else
      match ParseNatural(t)
      case Failed => Failed
      case Parsed(n, rest) => Parsed(n, rest)
  }

  predicate StartsWith(t: Str, word: Str) { |t| >= |word| && forall i :: 0 <= i < |word| ==> t[i] == word[i] }

  function ParseValue(t: Str): (r: Parsed<Json>)
    ensures r.Parsed? ==> |r.rest| < |t|
    decreases |t|, 0
  {
    if t == [] then Failed
    else if t[0] == 34 then
      (match ParseString(t[1..]) case Failed => Failed case Parsed(s, rest) => Parsed(Str(s), rest))
    else if t[0] == 91 then
      if |t| >= 2 && t[1] == 93 then Parsed(Arr(NoItems), t[2..])
      else (match ParseItems(t[1..]) case Failed => Failed case Parsed(items, rest) => Parsed(Arr(items), rest))
    else if t[0] == 123 then
      if |t| >= 2 && t[1] == 125 then Parsed(Obj(NoFields), t[2..])
      else (match ParseFields(t[1..]) case Failed => Failed case Parsed(fields, rest) => Parsed(Obj(fields), rest))
    else if StartsWith(t, NULL_TEXT) then Parsed(Null, t[4..])
    else if StartsWith(t, TRUE_TEXT) then Parsed(Bool(true), t[4..])
    else if StartsWith(t, FALSE_TEXT) then Parsed(Bool(false), t[5..])
    else (match ParseNumber(t) case Failed => Failed case Parsed(n, rest) => Parsed(Num(n), rest))
  }

  /** One or more values and the closing bracket. */
  function ParseItems(t: Str): (r: Parsed<Items>)
    ensures r.Parsed? ==> |r.rest| < |t|
    decreases |t|, 1
  {
    match ParseValue(t)
    case Failed => Failed
    case Parsed(head, t') =>
      if t' == [] then Failed
      else if t'[0] == 93 then Parsed(Item(head, NoItems), t'[1..])
      else if t'[0] == 44 then
        (match ParseItems(t'[1..]) case Failed => Failed case Parsed(tail, rest) => Parsed(Item(head, tail), rest))
      else Failed
  }

  /** One or more fields and the closing brace. */
  function ParseFields(t: Str): (r: Parsed<Fields>)
    ensures r.Parsed? ==> |r.rest| < |t|
    decreases |t|, 1
  {
    if t == [] || t[0] != 34 then Failed else
    match ParseString(t[1..])
    case Failed => Failed
    case Parsed(key, t1) =>
      if t1 == [] || t1[0] != 58 then Failed else
      match ParseValue(t1[1..])
      case Failed => Failed
      case Parsed(value, t') =>
        if t' == [] then Failed
        else if t'[0] == 125 then Parsed(Field(key, value, NoFields), t'[1..])
        else if t'[0] == 44 then
          (match ParseFields(t'[1..])
           case Failed => Failed
           case Parsed(rest, after) => Parsed(Field(key, value, rest), after))
        else Failed
  }

  /** JSON.parse: one value and nothing after it. */
  function Parse(t: Str): Option<Json> {
    match ParseValue(t)
    case Failed => None
    case Parsed(v, rest) => if rest == [] then Some(v) else None
  }

  // ---------------------------------------------------------------- parse undoes print

  lemma HexDigitValue(n: int)
    requires 0 <= n < 16
    ensures HexValue(HexDigit(n)) == n
  {
  }

  lemma UnicodeEscapeParses(u: CodeUnit, rest: Str)
    ensures ParseUnit(UnicodeEscape(u) + rest) == Parsed(u, rest)
  {
    var t := UnicodeEscape(u) + rest;
    var a, b, c, d := u / 4096, u / 256 % 16, u / 16 % 16, u % 16;
    HexDigitValue(a); HexDigitValue(b); HexDigitValue(c); HexDigitValue(d);
    assert t[2] == HexDigit(a) && t[3] == HexDigit(b) && t[4] == HexDigit(c) && t[5] == HexDigit(d);
    assert u == u / 16 * 16 + d && u / 16 == u / 256 * 16 + c && u / 256 == a * 16 + b;
    assert t[6..] == rest;
  }

  lemma EscapeUnitParses(u: CodeUnit, rest: Str)
    ensures ParseUnit(EscapeUnit(u) + rest) == Parsed(u, rest)
  {
    var t := EscapeUnit(u) + rest;
    if |EscapeUnit(u)| == 6 {
      UnicodeEscapeParses(u, rest);
    } else if |EscapeUnit(u)| == 2 {
      assert t[0] == 92 && SimpleEscape(t[1]) == Some(u) && t[2..] == rest;
    } else {
      assert t[0] == u && t[1..] == rest;
    }
  }

  /** One more character in front of a literal that already parses. */
  lemma StringStep(head: Str, u: CodeUnit, t1: Str, s: Str, rest: Str)
    requires head != [] && head[0] != 34 && ParseUnit(head + t1) == Parsed(u, t1) && ParseString(t1) == Parsed(s, rest)
    ensures ParseString(head + t1) == Parsed([u] + s, rest)
  {
    assert (head + t1)[0] == head[0];
  }

  lemma RawUnitParses(u: CodeUnit, rest: Str)
    requires Surrogate(u)
    ensures ParseUnit([u] + rest) == Parsed(u, rest)
  {
    assert ([u] + rest)[1..] == rest;
  }

  lemma PairStep(high: CodeUnit, low: CodeUnit, t2: Str, s: Str, rest: Str)
    requires Surrogate(high) && Surrogate(low) && ParseString(t2) == Parsed(s, rest)
    ensures ParseString([high] + ([low] + t2)) == Parsed([high] + ([low] + s), rest)
  {
    RawUnitParses(low, t2);
    StringStep([low], low, t2, s, rest);
    RawUnitParses(high, [low] + t2);
    StringStep([high], high, [low] + t2, [low] + s, rest);
  }

  lemma EscapeStep(u: CodeUnit, t1: Str, s: Str, rest: Str)
    requires ParseString(t1) == Parsed(s, rest)
    ensures ParseString((if Surrogate(u) then UnicodeEscape(u) else EscapeUnit(u)) + t1) == Parsed([u] + s, rest)
  {
    if Surrogate(u) {
      UnicodeEscapeParses(u, t1);
      StringStep(UnicodeEscape(u), u, t1, s, rest);
    } else {
      EscapeUnitParses(u, t1);
      StringStep(EscapeUnit(u), u, t1, s, rest);
    }
  }

  lemma FirstTwo(s: Str)
    requires |s| >= 2
    ensures s == [s[0]] + ([s[1]] + s[2..])
  {
  }

  lemma EscapePair(s: Str, close: Str)
    requires Utf8.PairAt(s)
    ensures EscapeAll(s) + close == [s[0]] + ([s[1]] + (EscapeAll(s[2..]) + close))
  {
  }

  lemma EscapeOne(s: Str, close: Str)
    requires s != [] && !Utf8.PairAt(s)
    ensures EscapeAll(s) + close
            == (if Surrogate(s[0]) then UnicodeEscape(s[0]) else EscapeUnit(s[0])) + (EscapeAll(s[1..]) + close)
    ensures s == [s[0]] + s[1..]
  {
  }

  lemma {:induction false} StringParses(s: Str, rest: Str)
    ensures ParseString(EscapeAll(s) + ([34] + rest)) == Parsed(s, rest)
  {
    var close := [34] + rest;
    if s == [] {
      assert EscapeAll(s) + close == close && close[1..] == rest;
    } else if Utf8.PairAt(s) {
      StringParses(s[2..], rest);
      PairStep(s[0], s[1], EscapeAll(s[2..]) + close, s[2..], rest);
      EscapePair(s, close);
      FirstTwo(s);
    } else {
      StringParses(s[1..], rest);
      EscapeStep(s[0], EscapeAll(s[1..]) + close, s[1..], rest);
      EscapeOne(s, close);
    }
  }

  predicate NoDigit(rest: Str) { rest == [] || !IsDigit(rest[0]) }

  lemma {:induction false} DigitRunOf(ds: Str, rest: Str)
    requires (forall i :: 0 <= i < |ds| ==> IsDigit(ds[i])) && NoDigit(rest)
    ensures DigitRun(ds + rest) == |ds|
  {
    if ds == [] {
      assert ds + rest == rest;
    } else {
      assert (ds + rest)[1..] == ds[1..] + rest;
      DigitRunOf(ds[1..], rest);
    }
  }

  lemma NaturalParses(n: nat, rest: Str)
    requires NoDigit(rest)
    ensures ParseNatural(DigitUnits(Decimal(n)) + rest) == Parsed(n, rest)
  {
    var ds := Decimal(n);
    var u := DigitUnits(ds);
    var t := u + rest;
    DigitRunOf(u, rest);
    DecimalRoundTrip(n);
    assert t[..|u|] == u && t[|u|..] == rest;
    assert DigitsOf(u) == ds;
    assert t[0] == DigitUnit(ds[0]);
  }

  lemma AfterMinus(u: Str, rest: Str)
    ensures [45] + u + rest == [45] + (u + rest) && ([45] + (u + rest))[1..] == u + rest
  {
  }

  lemma NegativeParses(n: int, rest: Str)
    requires NoDigit(rest) && n < 0
    ensures ParseNumber(PrintNumber(n) + rest) == Parsed(n, rest)
  {
    var u := DigitUnits(Decimal(-n));
    NaturalParses(-n, rest);
    AfterMinus(u, rest);
    assert PrintNumber(n) == [45] + u;
  }

  lemma PositiveParses(n: nat, rest: Str)
    requires NoDigit(rest)
    ensures ParseNumber(PrintNumber(n) + rest) == Parsed(n, rest)
  {
    NaturalParses(n, rest);
    assert (PrintNumber(n) + rest)[0] == DigitUnit(Decimal(n)[0]);
  }

  lemma NumberParses(n: int, rest: Str)
    requires NoDigit(rest)
    ensures ParseNumber(PrintNumber(n) + rest) == Parsed(n, rest)
  {
    if n < 0 { NegativeParses(n, rest); } else { PositiveParses(n, rest); }
  }

  lemma NumberValueParses(n: int, rest: Str)
    requires NoDigit(rest)
    ensures ParseValue(PrintNumber(n) + rest) == Parsed(Num(n), rest)
  {
    NumberParses(n, rest);
    var t := PrintNumber(n) + rest;
    assert n >= 0 ==> PrintNumber(n)[0] == DigitUnit(Decimal(n)[0]);
    assert t[0] == PrintNumber(n)[0];
    WordsDontStartNumbers(t);
  }

  lemma WordsDontStartNumbers(t: Str)
    requires t != [] && (t[0] == 45 || IsDigit(t[0]))
    ensures !StartsWith(t, NULL_TEXT) && !StartsWith(t, TRUE_TEXT) && !StartsWith(t, FALSE_TEXT)
  {
    assert NULL_TEXT[0] == 110 && TRUE_TEXT[0] == 116 && FALSE_TEXT[0] == 102;
  }

  lemma FirstUnit(v: Json)
    ensures Print(v) != [] && Print(v)[0] != 93 && Print(v)[0] != 125
  {
    if v.Num? {
      assert v.n >= 0 ==> PrintNumber(v.n)[0] == DigitUnit(Decimal(v.n)[0]);
    }
  }

  lemma WordParses(v: Json, rest: Str)
    requires v.Null? || v.Bool?
    ensures ParseValue(Print(v) + rest) == Parsed(v, rest)
  {
    var w := Print(v);
    var t := w + rest;
    assert t[..|w|] == w && t[|w|..] == rest && t[0] == w[0];
    assert NULL_TEXT[0] == 110 && TRUE_TEXT[0] == 116 && FALSE_TEXT[0] == 102;
  }

  lemma StrParses(s: Str, rest: Str)
    ensures ParseValue(Quote(s) + rest) == Parsed(Json.Str(s), rest)
  {
    var t := Quote(s) + rest;
    assert t[1..] == EscapeAll(s) + ([34] + rest);
    StringParses(s, rest);
  }

  lemma EmptyParses(rest: Str)
    ensures ParseValue([91, 93] + rest) == Parsed(Arr(NoItems), rest)
    ensures ParseValue([123, 125] + rest) == Parsed(Obj(NoFields), rest)
  {
    assert ([91, 93] + rest)[2..] == rest && ([123, 125] + rest)[2..] == rest;
  }

  lemma ArrayParses(inner: Str, items: Items, rest: Str)
    requires inner != [] && inner[0] != 93 && ParseItems(inner) == Parsed(items, rest)
    ensures ParseValue([91] + inner) == Parsed(Arr(items), rest)
  {
    assert ([91] + inner)[1..] == inner;
  }

  lemma ObjectParses(inner: Str, fields: Fields, rest: Str)
    requires inner != [] && inner[0] != 125 && ParseFields(inner) == Parsed(fields, rest)
    ensures ParseValue([123] + inner) == Parsed(Obj(fields), rest)
  {
    assert ([123] + inner)[1..] == inner;
  }

  lemma Reassociate(first: CodeUnit, inner: Str, last: CodeUnit, rest: Str)
    ensures [first] + inner + [last] + rest == [first] + (inner + [last] + rest)
  {
  }

  /** The parser reads back exactly what was printed and stops right after it. */
  lemma {:induction false} ValueParses(v: Json, rest: Str)
    requires NoDigit(rest)
    ensures ParseValue(Print(v) + rest) == Parsed(v, rest)
    decreases v, 0
  {
    match v
    case Null => WordParses(v, rest);
    case Bool(_) => WordParses(v, rest);
    case Num(n) => NumberValueParses(n, rest);
    case Str(s) => StrParses(s, rest);
    case Arr(items) =>
      if items.Item? {
        ItemsParse(items, rest);
        FirstUnit(items.head);
        ArrayParses(PrintItems(items) + [93] + rest, items, rest);
        Reassociate(91, PrintItems(items), 93, rest);
      } else {
        EmptyParses(rest);
      }
    case Obj(fields) =>
      if fields.Field? {
        FieldsParse(fields, rest);
        ObjectParses(PrintFields(fields) + [125] + rest, fields, rest);
        Reassociate(123, PrintFields(fields), 125, rest);
      } else {
        EmptyParses(rest);
      }
  }

  lemma ItemStep(head: Json, after: Str)
    requires ParseValue(Print(head) + after) == Parsed(head, after) && after != []
    ensures after[0] == 93 ==> ParseItems(Print(head) + after) == Parsed(Item(head, NoItems), after[1..])
    ensures after[0] == 44 && ParseItems(after[1..]).Parsed? ==>
              ParseItems(Print(head) + after)
                == Parsed(Item(head, ParseItems(after[1..]).value), ParseItems(after[1..]).rest)
  {
  }

  lemma ItemsText(items: Items, rest: Str)
    requires items.Item?
    ensures var after := if items.tail.NoItems? then [93] + rest else [44] + (PrintItems(items.tail) + [93] + rest);
            PrintItems(items) + [93] + rest == Print(items.head) + after
  {
  }

  lemma {:induction false} ItemsParse(items: Items, rest: Str)
    requires items.Item?
    ensures ParseItems(PrintItems(items) + [93] + rest) == Parsed(items, rest)
    decreases items, 1
  {
    var after := if items.tail.NoItems? then [93] + rest else [44] + (PrintItems(items.tail) + [93] + rest);
    ItemsText(items, rest);
    ValueParses(items.head, after);
    if items.tail.NoItems? {
      assert after[1..] == rest;
    } else {
      assert after[1..] == PrintItems(items.tail) + [93] + rest;
      ItemsParse(items.tail, rest);
    }
    ItemStep(items.head, after);
  }

  /** Opening quote, key, colon, and where the value starts. */
  lemma KeyParses(key: Str, t1: Str)
    ensures var t := Quote(key) + t1;
            t[0] == 34 && ParseString(t[1..]) == Parsed(key, t1)
  {
    var t := Quote(key) + t1;
    assert t[1..] == EscapeAll(key) + ([34] + t1);
    StringParses(key, t1);
  }

  /** One field, given that what follows its value is already known to parse. */
  lemma FieldStep(key: Str, value: Json, after: Str)
    requires ParseValue(Print(value) + after) == Parsed(value, after) && after != []
    ensures after[0] == 125 ==>
              ParseFields(Quote(key) + ([58] + (Print(value) + after)))
              == Parsed(Field(key, value, NoFields), after[1..])
    ensures after[0] == 44 && ParseFields(after[1..]).Parsed? ==>
              ParseFields(Quote(key) + ([58] + (Print(value) + after)))
              == Parsed(Field(key, value, ParseFields(after[1..]).value), ParseFields(after[1..]).rest)
  {
    var t1 := [58] + (Print(value) + after);
    KeyParses(key, t1);
    assert t1[0] == 58 && t1[1..] == Print(value) + after;
  }

  lemma {:induction false} FieldsParse(fields: Fields, rest: Str)
    requires fields.Field?
    ensures ParseFields(PrintFields(fields) + [125] + rest) == Parsed(fields, rest)
    decreases fields, 1
  {
    var t := PrintFields(fields) + [125] + rest;
    var after := if fields.rest.NoFields? then [125] + rest else [44] + (PrintFields(fields.rest) + [125] + rest);
    assert t == Quote(fields.key) + ([58] + (Print(fields.value) + after));
    ValueParses(fields.value, after);
    if fields.rest.NoFields? {
      assert after[1..] == rest;
    } else {
      assert after[1..] == PrintFields(fields.rest) + [125] + rest;
      FieldsParse(fields.rest, rest);
    }
    FieldStep(fields.key, fields.value, after);
  }

  lemma ParseOfPrint(v: Json)
    ensures Parse(Print(v)) == Some(v)
  {
    ValueParses(v, []);
    assert Print(v) + [] == Print(v);
  }

  /** Two printed texts in a row can only be cut in one place: the session binding hashes two. */
  lemma ConcatenationInjective(a: Json, b: Json, c: Json, d: Json)
    requires NoDigit(Print(b)) && NoDigit(Print(d)) && Print(a) + Print(b) == Print(c) + Print(d)
    ensures a == c && b == d
  {
    ValueParses(a, Print(b));
    ValueParses(c, Print(d));
    ParseOfPrint(b);
    ParseOfPrint(d);
  }

  // ---------------------------------------------------------------- printed text is well formed

  lemma UnicodeEscapeIsAscii(u: CodeUnit)
    ensures Utf8.IsAscii(UnicodeEscape(u))
  {
  }

  lemma {:induction false} EscapedIsWellFormed(s: Str)
    ensures Utf8.WellFormed(EscapeAll(s))
  {
    if s != [] {
      if Utf8.PairAt(s) {
        EscapedIsWellFormed(s[2..]);
        var t := EscapeAll(s);
        assert t == [s[0], s[1]] + EscapeAll(s[2..]);
        assert t[2..] == EscapeAll(s[2..]);
      } else {
        EscapedIsWellFormed(s[1..]);
        var head := if Surrogate(s[0]) then UnicodeEscape(s[0]) else EscapeUnit(s[0]);
        if |head| == 1 {
          assert head[1..] == [];
        } else {
          Utf8.AsciiLength(head);
        }
        Utf8.WellFormedConcat(head, EscapeAll(s[1..]));
      }
    }
  }

  lemma QuoteIsWellFormed(s: Str)
    ensures Utf8.WellFormed(Quote(s))
  {
    EscapedIsWellFormed(s);
    Utf8.AsciiLength([34]);
    Utf8.WellFormedConcat([34], EscapeAll(s));
    Utf8.WellFormedConcat([34] + EscapeAll(s), [34]);
  }

  lemma {:induction false} PrintIsWellFormed(v: Json)
    ensures Utf8.WellFormed(Print(v))
    decreases v, 0
  {
    match v
    case Null => Utf8.AsciiLength(Print(v));
    case Bool(_) => Utf8.AsciiLength(Print(v));
    case Num(n) => Utf8.AsciiLength(Print(v));
    case Str(s) => QuoteIsWellFormed(s);
    case Arr(items) => ItemsAreWellFormed(items); Bracketed(91, PrintItems(items), 93);
    case Obj(fields) => FieldsAreWellFormed(fields); Bracketed(123, PrintFields(fields), 125);
  }

  lemma Bracketed(open: CodeUnit, body: Str, close: CodeUnit)
    requires open < 0x80 && close < 0x80 && Utf8.WellFormed(body)
    ensures Utf8.WellFormed([open] + body + [close])
  {
    Utf8.AsciiLength([open]);
    Utf8.AsciiLength([close]);
    Utf8.WellFormedConcat([open], body);
    Utf8.WellFormedConcat([open] + body, [close]);
  }

  lemma Separated(a: Str, sep: CodeUnit, b: Str)
    requires sep < 0x80 && Utf8.WellFormed(a) && Utf8.WellFormed(b)
    ensures Utf8.WellFormed(a + [sep] + b)
  {
    Utf8.AsciiLength([sep]);
    Utf8.WellFormedConcat(a, [sep]);
    Utf8.WellFormedConcat(a + [sep], b);
  }

  lemma {:induction false} ItemsAreWellFormed(items: Items)
    ensures Utf8.WellFormed(PrintItems(items))
    decreases items, 1
  {
    if items.Item? {
      PrintIsWellFormed(items.head);
      if items.tail.Item? {
        ItemsAreWellFormed(items.tail);
        Separated(Print(items.head), 44, PrintItems(items.tail));
      }
    }
  }

  lemma {:induction false} FieldsAreWellFormed(fields: Fields)
    ensures Utf8.WellFormed(PrintFields(fields))
    decreases fields, 1
  {
    if fields.Field? {
      QuoteIsWellFormed(fields.key);
      PrintIsWellFormed(fields.value);
      Separated(Quote(fields.key), 58, Print(fields.value));
      if fields.rest.Field? {
        FieldsAreWellFormed(fields.rest);
        Separated(Quote(fields.key) + [58] + Print(fields.value), 44, PrintFields(fields.rest));
      }
    }
  }
}
