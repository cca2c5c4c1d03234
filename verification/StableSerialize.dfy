/** The canonical serializer of model configs, on JavaScript strings (sequences of UTF-16 code units). */
module StableSerialize {
  import opened Sorting

  newtype CodeUnit = x: int | 0 <= x < 0x1_0000

  type Text = seq<CodeUnit>

  function Ascii(s: string): Text
    requires forall i :: 0 <= i < |s| ==> s[i] < 128 as char
  {
    seq(|s|, i requires 0 <= i < |s| => s[i] as int as CodeUnit)
  }

  // Punctuation
  const QUOTE: CodeUnit := 0x22
  const COMMA: CodeUnit := 0x2C
  const COLON: CodeUnit := 0x3A
  const BACKSLASH: CodeUnit := 0x5C
  const OPEN_BRACKET: CodeUnit := 0x5B
  const CLOSE_BRACKET: CodeUnit := 0x5D
  const OPEN_BRACE: CodeUnit := 0x7B
  const CLOSE_BRACE: CodeUnit := 0x7D
  const NULL: Text := [0x6E, 0x75, 0x6C, 0x6C]
  const TRUE: Text := [0x74, 0x72, 0x75, 0x65]
  const FALSE: Text := [0x66, 0x61, 0x6C, 0x73, 0x65]

  /** A finite double, by its place among the finite doubles in ascending order: 0 is both zeros, n > 0 is the
      positive double with bit pattern n, and -n its negation. */
  type Double = n: int | -0x7FEF_FFFF_FFFF_FFFF <= n <= 0x7FEF_FFFF_FFFF_FFFF

  /** A value as `stableSerialize` sees it: JSON values, plus what `typeof` also admits. Object fields stand
      in property order. `NonFinite` is NaN or an infinity; `Other` is any remaining value (undefined, a
      function, a symbol, a bigint), with its `String(value)`. */
  datatype Value =
    | Null
    | Bool(flag: bool)
    | Number(number: Double)
    | NonFinite
    | Str(text: Text)
    | Arr(items: seq<Value>)
    | Obj(fields: seq<Field>)
    | Other(shown: Text)

  datatype Field = Field(key: Text, value: Value)

  /** Property names of an object are distinct. */
  ghost predicate WellFormed(v: Value) {
    match v
    case Arr(items) => forall i :: 0 <= i < |items| ==> WellFormed(items[i])
    case Obj(fields) =>
      && DistinctKeys(fields)
      && (forall i :: 0 <= i < |fields| ==> WellFormed(fields[i].value))
    case _ => true
  }

  ghost predicate DistinctKeys(fields: seq<Field>) {
    forall i, j :: 0 <= i < j < |fields| ==> fields[i].key != fields[j].key
  }

  /** `JSON.stringify` of a finite number: some numeral, different for different numbers. */
  ghost predicate Numerals(numeral: Double -> Text) {
    && (forall x, y :: numeral(x) == numeral(y) ==> x == y)
    && (forall x :: IsNumeral(numeral(x)))
  }

  predicate NumeralUnit(c: CodeUnit) {
    0x30 <= c <= 0x39 || c == 0x2B || c == 0x2D || c == 0x2E || c == 0x65
  }

  ghost predicate IsNumeral(t: Text) {
    && t != [] && (0x30 <= t[0] <= 0x39 || t[0] == 0x2D)
    && forall i :: 0 <= i < |t| ==> NumeralUnit(t[i])
  }

  // ----- String literals, as `JSON.stringify` writes them

  predicate High(c: CodeUnit) {
    0xD800 <= c <= 0xDBFF
  }

  predicate Low(c: CodeUnit) {
    0xDC00 <= c <= 0xDFFF
  }

  function HexDigit(n: CodeUnit): CodeUnit
    requires n < 16
  {
    if n < 10 then 0x30 + n else 0x57 + n
  }

  function UnicodeEscape(c: CodeUnit): Text {
    [BACKSLASH, 0x75, HexDigit(c / 16 / 16 / 16), HexDigit(c / 16 / 16 % 16), HexDigit(c / 16 % 16), HexDigit(c % 16)]
  }

  function EscapeUnit(c: CodeUnit): Text {
    if c == QUOTE || c == BACKSLASH then [BACKSLASH, c]
    else if c == 8 then [BACKSLASH, 0x62]
    else if c == 9 then [BACKSLASH, 0x74]
    else if c == 10 then [BACKSLASH, 0x6E]
    else if c == 12 then [BACKSLASH, 0x66]
    else if c == 13 then [BACKSLASH, 0x72]
    else if c < 0x20 || High(c) || Low(c) then UnicodeEscape(c)
    else [c]
  }

  /** Surrogate pairs are kept, lone surrogates are escaped. */
  function Escape(s: Text): Text {
    if s == [] then []
    else if High(s[0]) && |s| > 1 && Low(s[1]) then [s[0], s[1]] + Escape(s[2..])
    else EscapeUnit(s[0]) + Escape(s[1..])
  }

  function Quote(s: Text): Text {
    [QUOTE] + Escape(s) + [QUOTE]
  }

  // ----- The serializer. `compare` is `localeCompare(left, right) <= 0`.

  function Serialize(compare: (Text, Text) -> bool, numeral: Double -> Text, v: Value): Text
    decreases v, 1
  {
    match v
    case Null => NULL
    case Str(text) => Quote(text)
    case Number(n) => numeral(n)
    case NonFinite => NULL
    case Bool(b) => if b then TRUE else FALSE
    case Arr(items) => [OPEN_BRACKET] + Join(SerializeItems(compare, numeral, items)) + [CLOSE_BRACKET]
    case Obj(fields) =>
      var sorted := StableSort(ByKey(compare), SerializeFields(compare, numeral, fields));
      [OPEN_BRACE] + Join(Entries(sorted)) + [CLOSE_BRACE]
    case Other(shown) => Quote(shown)
  }

  function SerializeItems(compare: (Text, Text) -> bool, numeral: Double -> Text, items: seq<Value>): (r: seq<Text>)
    ensures |r| == |items|
    decreases items, 0
  {
    if items == [] then []
    else [Serialize(compare, numeral, items[0])] + SerializeItems(compare, numeral, items[1..])
  }

  /** A key with the text of its value. Pairing keys with their values' texts before sorting by key gives
      what the source gets by sorting the keys first. */
  datatype Entry = Entry(key: Text, text: Text)

  function SerializeFields(compare: (Text, Text) -> bool, numeral: Double -> Text, fields: seq<Field>): (r: seq<Entry>)
    ensures |r| == |fields| && forall i :: 0 <= i < |r| ==> r[i].key == fields[i].key
    decreases fields, 0
  {
    if fields == [] then []
    else [Entry(fields[0].key, Serialize(compare, numeral, fields[0].value))]
         + SerializeFields(compare, numeral, fields[1..])
  }

  function ByKey(compare: (Text, Text) -> bool): (Entry, Entry) -> bool {
    (a: Entry, b: Entry) => compare(a.key, b.key)
  }

  function Entries(entries: seq<Entry>): (r: seq<Text>)
    ensures |r| == |entries|
  {
    if entries == [] then [] else [Quote(entries[0].key) + [COLON] + entries[0].text] + Entries(entries[1..])
  }

  /** `parts.join(',')` */
  function Join(parts: seq<Text>): Text {
    if parts == [] then []
    else if |parts| == 1 then parts[0]
    else parts[0] + [COMMA] + Join(parts[1..])
  }
}
