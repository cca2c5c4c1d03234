/** The text that the serializer writes, character by character. */
module SerializedText {
  import opened Sorting
  import opened StableSerialize
  import opened SerializerLaw

  ghost predicate ItemTexts(compare: (Text, Text) -> bool, numeral: Double -> Text, items: seq<Value>,
                            parts: seq<Text>) {
    |parts| == |items| && forall i :: 0 <= i < |parts| ==> parts[i] == Serialize(compare, numeral, items[i])
  }

  ghost predicate FieldTexts(compare: (Text, Text) -> bool, numeral: Double -> Text, fields: seq<Field>,
                             entries: seq<Entry>) {
    && |entries| == |fields|
    && forall i :: 0 <= i < |entries| ==>
         entries[i] == Entry(fields[i].key, Serialize(compare, numeral, fields[i].value))
  }

  /** Entries in key order, each written as a quoted key, a colon and its value's text. */
  ghost predicate Members(compare: (Text, Text) -> bool, entries: seq<Entry>, parts: seq<Text>) {
    exists sorted: seq<Entry> ::
      && IsStableSortOf((a: Entry, b: Entry) => compare(a.key, b.key), sorted, entries) && |parts| == |sorted|
      && forall i :: 0 <= i < |parts| ==>
           parts[i] == Ascii("\"") + Escape(sorted[i].key) + Ascii("\":") + sorted[i].text
  }

  ghost predicate Joined(parts: seq<Text>, t: Text) {
    match |parts|
    case 0 => t == []
    case 1 => t == parts[0]
    case _ => exists rest :: Joined(parts[1..], rest) && t == parts[0] + Ascii(",") + rest
  }

  ghost predicate Writes(compare: (Text, Text) -> bool, numeral: Double -> Text, v: Value, t: Text) {
    match v
    case Null => t == Ascii("null")
    case NonFinite => t == Ascii("null")
    case Bool(flag) => t == if flag then Ascii("true") else Ascii("false")
    case Number(n) => t == numeral(n)
    case Str(text) => t == Ascii("\"") + Escape(text) + Ascii("\"")
    case Other(shown) => t == Ascii("\"") + Escape(shown) + Ascii("\"")
    case Arr(items) => exists parts, inner ::
      ItemTexts(compare, numeral, items, parts) && Joined(parts, inner) && t == Ascii("[") + inner + Ascii("]")
    case Obj(fields) => exists entries, parts, inner ::
      && FieldTexts(compare, numeral, fields, entries) && Members(compare, entries, parts)
      && Joined(parts, inner) && t == Ascii("{") + inner + Ascii("}")
  }

  lemma {:induction false} JoinJoins(parts: seq<Text>)
    ensures Joined(parts, Join(parts))
  {
    if |parts| > 1 { JoinJoins(parts[1..]); }
  }

  lemma {:induction false} ItemTextsWritten(compare: (Text, Text) -> bool, numeral: Double -> Text, items: seq<Value>)
    ensures ItemTexts(compare, numeral, items, SerializeItems(compare, numeral, items))
  {
    hide Serialize;
    if items != [] { ItemTextsWritten(compare, numeral, items[1..]); }
  }

  lemma FieldTextsWritten(compare: (Text, Text) -> bool, numeral: Double -> Text, fields: seq<Field>)
    ensures FieldTexts(compare, numeral, fields, SerializeFields(compare, numeral, fields))
  {
    hide Serialize;
    var entries := SerializeFields(compare, numeral, fields);
    forall i | 0 <= i < |entries|
      ensures entries[i] == Entry(fields[i].key, Serialize(compare, numeral, fields[i].value))
    {
      SerializedFieldsAt(compare, numeral, fields, i);
    }
  }

  lemma {:induction false} EntryWritten(entries: seq<Entry>, i: nat)
    requires i < |entries|
    ensures Entries(entries)[i] == Ascii("\"") + Escape(entries[i].key) + Ascii("\":") + entries[i].text
  {
    if i > 0 { EntryWritten(entries[1..], i - 1); }
  }

  lemma MembersWritten(compare: (Text, Text) -> bool, entries: seq<Entry>)
    requires TotalPreorder(compare)
    ensures Members(compare, entries, Entries(StableSort(ByKey(compare), entries)))
  {
    hide Ascii, Escape, Entries, StableSort;
    var le := (a: Entry, b: Entry) => compare(a.key, b.key);
    var sorted := StableSort(ByKey(compare), entries);
    assert forall a, b :: ByKey(compare)(a, b) == le(a, b);
    ByKeyPreorder(compare);
    StableSortCorrect(ByKey(compare), entries);
    assert IsStableSortOf(le, sorted, entries);
    forall i | 0 <= i < |sorted|
      ensures Entries(sorted)[i] == Ascii("\"") + Escape(sorted[i].key) + Ascii("\":") + sorted[i].text
    {
      EntryWritten(sorted, i);
    }
  }

  /** What is written for each kind of value. */
  lemma SerializeWrites(compare: (Text, Text) -> bool, numeral: Double -> Text, v: Value)
    requires TotalPreorder(compare)
    ensures Writes(compare, numeral, v, Serialize(compare, numeral, v))
  {
    assert Ascii("[") == [OPEN_BRACKET] && Ascii("]") == [CLOSE_BRACKET];
    assert Ascii("{") == [OPEN_BRACE] && Ascii("}") == [CLOSE_BRACE] && Ascii("\"") == [QUOTE];
    match v {
      case Arr(items) =>
        ItemTextsWritten(compare, numeral, items);
        JoinJoins(SerializeItems(compare, numeral, items));
      case Obj(fields) =>
        var entries := SerializeFields(compare, numeral, fields);
        FieldTextsWritten(compare, numeral, fields);
        MembersWritten(compare, entries);
        JoinJoins(Entries(StableSort(ByKey(compare), entries)));
      case _ =>
    }
  }

  /** The characters that a numeral may have. */
  lemma NumeralUnitsAre(c: CodeUnit)
    ensures NumeralUnit(c) <==> c in Ascii("0123456789+-.e")
  {
    var units := Ascii("0123456789+-.e");
    if '0' as int <= c as int <= '9' as int { assert units[c as int - '0' as int] == c; }
    assert units[10] == 0x2B && units[11] == 0x2D && units[12] == 0x2E && units[13] == 0x65;
  }

  // ----- Escapes

  predicate HexUnit(c: CodeUnit) {
    '0' as int <= c as int <= '9' as int || 'a' as int <= c as int <= 'f' as int
  }

  function HexValue(c: CodeUnit): int
    requires HexUnit(c)
  {
    if c as int <= '9' as int then c as int - '0' as int else c as int - 'a' as int + 10
  }

  /** A backslash, a `u`, and four lower-case hexadecimal digits of that value. */
  ghost predicate EscapesUnicode(t: Text, c: CodeUnit) {
    && |t| == 6 && t[..2] == Ascii("\\u") && (forall i :: 2 <= i < 6 ==> HexUnit(t[i]))
    && ((HexValue(t[2]) * 16 + HexValue(t[3])) * 16 + HexValue(t[4])) * 16 + HexValue(t[5]) == c as int
  }

  /** How a single code unit is escaped: quotes, backslashes, control characters and lone surrogates. */
  lemma EscapesUnit(c: CodeUnit)
    ensures var t := EscapeUnit(c);
      if c == 0x22 then t == Ascii("\\\"")
      else if c == 0x5C then t == Ascii("\\\\")
      else if c == 0x8 then t == Ascii("\\b")
      else if c == 0x9 then t == Ascii("\\t")
      else if c == 0xA then t == Ascii("\\n")
      else if c == 0xC then t == Ascii("\\f")
      else if c == 0xD then t == Ascii("\\r")
      else if c < 0x20 || 0xD800 <= c < 0xE000 then EscapesUnicode(t, c)
      else t == [c]
  {
    if c < 0x20 || 0xD800 <= c < 0xE000 {
      FourDigits(c);
    }
  }

  lemma FourDigits(c: CodeUnit)
    ensures EscapesUnicode(UnicodeEscape(c), c)
  {
    var t := UnicodeEscape(c);
    HexDigitMeans(c / 16 / 16 / 16);
    HexDigitMeans(c / 16 / 16 % 16);
    HexDigitMeans(c / 16 % 16);
    HexDigitMeans(c % 16);
    assert t[2..] == [t[2], t[3], t[4], t[5]];
  }

  lemma HexDigitMeans(n: CodeUnit)
    requires n < 16
    ensures HexUnit(HexDigit(n)) && HexValue(HexDigit(n)) == n as int
  {
  }

  /** A surrogate pair stands as it is; any other code unit is escaped for itself. */
  lemma EscapesText(s: Text)
    ensures Escape(s) ==
      if s == [] then []
      else if |s| > 1 && 0xD800 <= s[0] < 0xDC00 && 0xDC00 <= s[1] < 0xE000 then s[..2] + Escape(s[2..])
      else EscapeUnit(s[0]) + Escape(s[1..])
  {
    hide EscapeUnit;
  }
}
