/** Equal texts mean equal configs, and the other way round: exactly for configs without tied keys. */
module SerializerLaw {
  import opened Sorting
  import opened StableSerialize

  /** The two values that `JSON.stringify` itself does not tell apart from JSON values. */
  function Plain(v: Value): Value {
    if v.NonFinite? then Null else if v.Other? then Str(v.shown) else v
  }

  /** The same JSON value, up to the order of object fields. */
  ghost predicate Same(a: Value, b: Value)
    decreases a
  {
    match a
    case Arr(xs) => b.Arr? && |xs| == |b.items| && forall i :: 0 <= i < |xs| ==> Same(xs[i], b.items[i])
    case Obj(fs) =>
      && b.Obj? && |fs| == |b.fields|
      && (forall k :: HasKey(fs, k) <==> HasKey(b.fields, k))
      && (forall i, j :: 0 <= i < |fs| && 0 <= j < |b.fields| && fs[i].key == b.fields[j].key
            ==> Same(fs[i].value, b.fields[j].value))
    case _ => Plain(a) == Plain(b)
  }

  ghost predicate HasKey(fields: seq<Field>, k: Text) {
    exists i :: 0 <= i < |fields| && fields[i].key == k
  }

  /** What may follow a serialized value. */
  predicate Ends(s: Text) {
    s == [] || s[0] == COMMA || s[0] == CLOSE_BRACKET || s[0] == CLOSE_BRACE
  }

  // ----- String literals are prefix-free

  lemma HexDigitInjective(m: CodeUnit, n: CodeUnit)
    requires m < 16 && n < 16 && HexDigit(m) == HexDigit(n)
    ensures m == n
  {
  }

  lemma SameQuotientAndRemainder(c: CodeUnit, d: CodeUnit)
    requires c / 16 == d / 16 && HexDigit(c % 16) == HexDigit(d % 16)
    ensures c == d
  {
    HexDigitInjective(c % 16, d % 16);
    assert c == 16 * (c / 16) + c % 16 && d == 16 * (d / 16) + d % 16;
  }

  lemma UnicodeEscapeInjective(c: CodeUnit, d: CodeUnit)
    requires UnicodeEscape(c) == UnicodeEscape(d)
    ensures c == d
  {
    hide HexDigit;
    var x, y := UnicodeEscape(c), UnicodeEscape(d);
    assert x[2] == y[2] && x[3] == y[3] && x[4] == y[4] && x[5] == y[5];
    HexDigitInjective(c / 16 / 16 / 16, d / 16 / 16 / 16);
    SameQuotientAndRemainder(c / 16 / 16, d / 16 / 16);
    SameQuotientAndRemainder(c / 16, d / 16);
    SameQuotientAndRemainder(c, d);
  }

  lemma EscapeUnitPrefixFree(c: CodeUnit, d: CodeUnit, s: Text, t: Text)
    requires EscapeUnit(c) + s == EscapeUnit(d) + t
    ensures c == d && s == t
  {
    var x, y := EscapeUnit(c), EscapeUnit(d);
    assert (x + s)[0] == (y + t)[0];
    if x[0] == BACKSLASH {
      assert (x + s)[1] == (y + t)[1];
      if |x| == 6 {
        assert x == (x + s)[..6] && y == (y + t)[..6];
        UnicodeEscapeInjective(c, d);
      }
    }
    assert c == d;
    assert s == (x + s)[|x|..] && t == (y + t)[|y|..];
  }

  /** How many units of a nonempty string its first escape stands for, and that escape. */
  function HeadLength(s: Text): nat
    requires s != []
  {
    if High(s[0]) && |s| > 1 && Low(s[1]) then 2 else 1
  }

  function HeadText(s: Text): Text
    requires s != []
  {
    if HeadLength(s) == 2 then [s[0], s[1]] else EscapeUnit(s[0])
  }

  lemma HeadPrefixFree(a: Text, b: Text, x: Text, y: Text)
    requires a != [] && b != [] && HeadText(a) + x == HeadText(b) + y
    ensures HeadLength(a) == HeadLength(b) && a[..HeadLength(a)] == b[..HeadLength(b)] && x == y
  {
    var p, q := HeadText(a) + x, HeadText(b) + y;
    assert p[0] == q[0] && p[1..] == q[1..];
    if HeadLength(a) == 2 || HeadLength(b) == 2 {
      assert HeadLength(a) == HeadLength(b) == 2;
      assert p[1] == q[1];
      assert x == p[2..] && y == q[2..];
    } else {
      EscapeUnitPrefixFree(a[0], b[0], x, y);
    }
  }

  lemma Cancel(a: Text, b: Text, s: Text, t: Text)
    requires a + s == b + t && |a| == |b|
    ensures a == b && s == t
  {
    assert a == (a + s)[..|a|] && b == (b + t)[..|b|];
    assert s == (a + s)[|a|..] && t == (b + t)[|b|..];
  }

  lemma EscapeSplit(a: Text, tail: Text)
    requires a != []
    ensures Escape(a) + tail == HeadText(a) + (Escape(a[HeadLength(a)..]) + tail)
    ensures (Escape(a) + tail)[0] != QUOTE
  {
    var head, rest := HeadText(a), Escape(a[HeadLength(a)..]);
    assert Escape(a) == head + rest;
    assert (head + rest) + tail == head + (rest + tail);
  }

  lemma {:induction false} EscapePrefixFree(a: Text, b: Text, s: Text, t: Text)
    requires Escape(a) + ([QUOTE] + s) == Escape(b) + ([QUOTE] + t)
    ensures a == b && s == t
  {
    if a != [] { EscapeSplit(a, [QUOTE] + s); }
    if b != [] { EscapeSplit(b, [QUOTE] + t); }
    if a == [] || b == [] {
      EscapeEmpty(a, b, s, t);
    } else {
      var n, m := HeadLength(a), HeadLength(b);
      HeadPrefixFree(a, b, Escape(a[n..]) + ([QUOTE] + s), Escape(b[m..]) + ([QUOTE] + t));
      EscapePrefixFree(a[n..], b[m..], s, t);
      assert a == a[..n] + a[n..] && b == b[..m] + b[m..];
    }
  }

  lemma EscapeEmpty(a: Text, b: Text, s: Text, t: Text)
    requires Escape(a) + ([QUOTE] + s) == Escape(b) + ([QUOTE] + t)
    requires a != [] ==> (Escape(a) + ([QUOTE] + s))[0] != QUOTE
    requires b != [] ==> (Escape(b) + ([QUOTE] + t))[0] != QUOTE
    requires a == [] || b == []
    ensures a == b && s == t
  {
    assert a == b == [];
    assert Escape([]) + ([QUOTE] + s) == [QUOTE] + s && Escape([]) + ([QUOTE] + t) == [QUOTE] + t;
    Cancel([QUOTE], [QUOTE], s, t);
  }

  lemma QuotePrefixFree(a: Text, b: Text, s: Text, t: Text)
    requires Quote(a) + s == Quote(b) + t
    ensures a == b && s == t
  {
    assert (Quote(a) + s)[1..] == Escape(a) + ([QUOTE] + s);
    assert (Quote(b) + t)[1..] == Escape(b) + ([QUOTE] + t);
    EscapePrefixFree(a, b, s, t);
  }

  function NumeralLength(s: Text): nat {
    if s == [] || !NumeralUnit(s[0]) then 0 else 1 + NumeralLength(s[1..])
  }

  lemma {:induction false} NumeralEndsThere(x: Text, s: Text)
    requires (forall i :: 0 <= i < |x| ==> NumeralUnit(x[i])) && Ends(s)
    ensures NumeralLength(x + s) == |x|
  {
    if x == [] {
      assert x + s == s;
    } else {
      assert (x + s)[1..] == x[1..] + s;
      NumeralEndsThere(x[1..], s);
    }
  }

  lemma NumeralPrefixFree(x: Text, y: Text, s: Text, t: Text)
    requires IsNumeral(x) && IsNumeral(y) && Ends(s) && Ends(t) && x + s == y + t
    ensures x == y && s == t
  {
    NumeralEndsThere(x, s);
    NumeralEndsThere(y, t);
    assert x == (x + s)[..|x|] && y == (y + t)[..|y|];
    assert s == (x + s)[|x|..] && t == (y + t)[|y|..];
  }

  /** What follows the first part of a nonempty joined list. */
  function JoinRest(parts: seq<Text>, tail: Text): Text
    requires parts != []
  {
    if |parts| == 1 then tail else [COMMA] + (Join(parts[1..]) + tail)
  }

  lemma JoinSplit(parts: seq<Text>, tail: Text)
    requires parts != []
    ensures Join(parts) + tail == parts[0] + JoinRest(parts, tail)
  {
    if |parts| > 1 {
      var rest := Join(parts[1..]);
      Reassociate(parts[0], [COMMA], rest, tail);
    }
  }

  lemma Reassociate(a: Text, b: Text, c: Text, d: Text)
    ensures (a + b + c) + d == a + (b + (c + d))
  {
  }

  // ----- What is asked of number printing can be had

  function Decimal(n: nat): Text {
    if n < 10 then [0x30 + n as CodeUnit] else Decimal(n / 10) + [0x30 + (n % 10) as CodeUnit]
  }

  lemma {:induction false} DecimalIsNumeral(n: nat)
    ensures IsNumeral(Decimal(n)) && Decimal(n)[0] != 0x2D
  {
    if n >= 10 { DecimalIsNumeral(n / 10); }
  }

  lemma {:induction false} DecimalInjective(m: nat, n: nat)
    requires Decimal(m) == Decimal(n)
    ensures m == n
  {
    var x, y := Decimal(m), Decimal(n);
    assert x[|x| - 1] == y[|y| - 1];
    assert m % 10 == n % 10;
    if m >= 10 || n >= 10 {
      assert m >= 10 ==> x[..|x| - 1] == Decimal(m / 10) && |Decimal(m / 10)| >= 1 by { DecimalIsNumeral(m / 10); }
      assert n >= 10 ==> y[..|y| - 1] == Decimal(n / 10) && |Decimal(n / 10)| >= 1 by { DecimalIsNumeral(n / 10); }
      assert m >= 10 && n >= 10;
      DecimalInjective(m / 10, n / 10);
    }
  }

  function PlainNumeral(n: Double): Text {
    if n < 0 then [0x2D] + Decimal(-n) else Decimal(n)
  }

  /** There is a way of printing doubles as the laws below ask for. */
  lemma NumeralsExist()
    ensures Numerals(PlainNumeral)
  {
    forall x: Double ensures IsNumeral(PlainNumeral(x)) {
      DecimalIsNumeral(if x < 0 then -x else x);
    }
    forall x: Double, y: Double | PlainNumeral(x) == PlainNumeral(y) ensures x == y {
      DecimalIsNumeral(if x < 0 then -x else x);
      DecimalIsNumeral(if y < 0 then -y else y);
      assert PlainNumeral(x)[0] == PlainNumeral(y)[0];
      if x < 0 {
        assert PlainNumeral(x)[1..] == Decimal(-x) && PlainNumeral(y)[1..] == Decimal(-y);
      }
      DecimalInjective(if x < 0 then -x else x, if y < 0 then -y else y);
    }
  }

  // ----- Serialized values are prefix-free, whatever the key order

  predicate StartsValue(c: CodeUnit) {
    c == 0x6E || c == 0x74 || c == 0x66 || c == QUOTE || c == OPEN_BRACKET || c == OPEN_BRACE
    || 0x30 <= c <= 0x39 || c == 0x2D
  }

  lemma FirstUnit(compare: (Text, Text) -> bool, numeral: Double -> Text, v: Value)
    requires Numerals(numeral)
    ensures var x := Serialize(compare, numeral, v);
      && x != [] && StartsValue(x[0])
      && (x[0] == OPEN_BRACKET <==> v.Arr?) && (x[0] == OPEN_BRACE <==> v.Obj?)
      && (x[0] == QUOTE <==> Plain(v).Str?) && (x[0] == 0x6E <==> Plain(v).Null?)
      && (x[0] == 0x74 <==> v == Bool(true)) && (x[0] == 0x66 <==> v == Bool(false))
  {
    if v.Number? { assert IsNumeral(numeral(v.number)); }
  }

  /** The shapes of two values whose texts continue equally are the same. */
  lemma SameShape(compare: (Text, Text) -> bool, numeral: Double -> Text, a: Value, b: Value, s: Text, t: Text)
    requires Numerals(numeral)
    requires Serialize(compare, numeral, a) + s == Serialize(compare, numeral, b) + t
    ensures (a.Arr? <==> b.Arr?) && (a.Obj? <==> b.Obj?) && (Plain(a).Str? <==> Plain(b).Str?)
    ensures (a.Number? <==> b.Number?)
    ensures Plain(a).Null? || Plain(a).Bool? ==> Plain(a) == Plain(b)
  {
    var x, y := Serialize(compare, numeral, a), Serialize(compare, numeral, b);
    FirstUnit(compare, numeral, a);
    FirstUnit(compare, numeral, b);
    hide Serialize;
    assert x[0] == (x + s)[0] == (y + t)[0] == y[0];
  }

  lemma LeafPrefixFree(compare: (Text, Text) -> bool, numeral: Double -> Text, a: Value, b: Value, s: Text, t: Text)
    requires Numerals(numeral) && Ends(s) && Ends(t) && !a.Arr? && !a.Obj?
    requires Serialize(compare, numeral, a) + s == Serialize(compare, numeral, b) + t
    ensures Same(a, b) && s == t
  {
    SameShape(compare, numeral, a, b, s, t);
    if a.Number? {
      NumeralPrefixFree(numeral(a.number), numeral(b.number), s, t);
    } else if Plain(a).Str? {
      QuotePrefixFree(Plain(a).text, Plain(b).text, s, t);
    } else {
      Cancel(Serialize(compare, numeral, a), Serialize(compare, numeral, b), s, t);
    }
  }

  lemma {:induction false} ValuePrefixFree(compare: (Text, Text) -> bool, numeral: Double -> Text,
                                           a: Value, b: Value, s: Text, t: Text)
    requires Numerals(numeral) && WellFormed(a) && WellFormed(b) && Ends(s) && Ends(t)
    requires Serialize(compare, numeral, a) + s == Serialize(compare, numeral, b) + t
    ensures Same(a, b) && s == t
    decreases a, 1, 0
  {
    hide Numerals, Ends;
    SameShape(compare, numeral, a, b, s, t);
    if a.Arr? {
      ArrayText(compare, numeral, a, s);
      ArrayText(compare, numeral, b, t);
      hide Serialize;
      ItemsPrefixFree(compare, numeral, a.items, b.items, s, t);
    } else if a.Obj? {
      ObjectPrefixFree(compare, numeral, a, b, s, t);
    } else {
      LeafPrefixFree(compare, numeral, a, b, s, t);
    }
  }

  lemma ArrayText(compare: (Text, Text) -> bool, numeral: Double -> Text, v: Value, s: Text)
    requires v.Arr?
    ensures var inner := Join(SerializeItems(compare, numeral, v.items)) + ([CLOSE_BRACKET] + s);
      var text := Serialize(compare, numeral, v) + s;
      text == [OPEN_BRACKET] + inner && text[1..] == inner
  {
    var inner := Join(SerializeItems(compare, numeral, v.items));
    assert Serialize(compare, numeral, v) == [OPEN_BRACKET] + inner + [CLOSE_BRACKET];
    assert ([OPEN_BRACKET] + inner + [CLOSE_BRACKET]) + s == [OPEN_BRACKET] + (inner + ([CLOSE_BRACKET] + s));
  }

  lemma {:induction false} ItemsPrefixFree(compare: (Text, Text) -> bool, numeral: Double -> Text,
                                           xs: seq<Value>, ys: seq<Value>, s: Text, t: Text)
    requires Numerals(numeral)
    requires forall i :: 0 <= i < |xs| ==> WellFormed(xs[i])
    requires forall i :: 0 <= i < |ys| ==> WellFormed(ys[i])
    requires Join(SerializeItems(compare, numeral, xs)) + ([CLOSE_BRACKET] + s)
          == Join(SerializeItems(compare, numeral, ys)) + ([CLOSE_BRACKET] + t)
    ensures |xs| == |ys| && s == t && forall i :: 0 <= i < |xs| ==> Same(xs[i], ys[i])
    decreases xs, 0, 0
  {
    var px, py := SerializeItems(compare, numeral, xs), SerializeItems(compare, numeral, ys);
    var s', t' := [CLOSE_BRACKET] + s, [CLOSE_BRACKET] + t;
    if xs != [] { FirstUnit(compare, numeral, xs[0]); JoinSplit(px, s'); }
    if ys != [] { FirstUnit(compare, numeral, ys[0]); JoinSplit(py, t'); }
    assert (Join(px) + s')[0] == (Join(py) + t')[0];
    if xs == [] || ys == [] {
      assert xs == ys == [];
      assert (Join(px) + s')[1..] == s && (Join(py) + t')[1..] == t;
    } else {
      ValuePrefixFree(compare, numeral, xs[0], ys[0], JoinRest(px, s'), JoinRest(py, t'));
      assert JoinRest(px, s')[0] == JoinRest(py, t')[0];
      if |xs| == 1 || |ys| == 1 {
        assert s'[1..] == s && t'[1..] == t;
      } else {
        assert JoinRest(px, s')[1..] == Join(px[1..]) + s' && JoinRest(py, t')[1..] == Join(py[1..]) + t';
        ItemsPrefixFree(compare, numeral, xs[1..], ys[1..], s, t);
      }
    }
  }

  /** An entry belongs to an object when it is one of its keys with the text of that key's value. */
  ghost predicate EntryOf(compare: (Text, Text) -> bool, numeral: Double -> Text, e: Entry, fields: seq<Field>) {
    exists i :: 0 <= i < |fields| && e == Entry(fields[i].key, Serialize(compare, numeral, fields[i].value))
  }

  lemma {:induction false} SerializedFieldsAt(compare: (Text, Text) -> bool, numeral: Double -> Text,
                                              fields: seq<Field>, i: nat)
    requires i < |fields|
    ensures SerializeFields(compare, numeral, fields)[i]
         == Entry(fields[i].key, Serialize(compare, numeral, fields[i].value))
  {
    if i > 0 { SerializedFieldsAt(compare, numeral, fields[1..], i - 1); }
  }

  function Sorted(compare: (Text, Text) -> bool, numeral: Double -> Text, fields: seq<Field>): (r: seq<Entry>)
    ensures |r| == |fields|
  {
    StableSort(ByKey(compare), SerializeFields(compare, numeral, fields))
  }

  lemma SortedEntries(compare: (Text, Text) -> bool, numeral: Double -> Text, fields: seq<Field>)
    ensures forall e :: e in Sorted(compare, numeral, fields) <==> EntryOf(compare, numeral, e, fields)
  {
    var entries := SerializeFields(compare, numeral, fields);
    forall e ensures e in Sorted(compare, numeral, fields) <==> EntryOf(compare, numeral, e, fields) {
      assert e in Sorted(compare, numeral, fields) <==> e in multiset(Sorted(compare, numeral, fields));
      assert e in entries <==> e in multiset(entries);
      if e in entries {
        var i :| 0 <= i < |entries| && entries[i] == e;
        SerializedFieldsAt(compare, numeral, fields, i);
      }
      if EntryOf(compare, numeral, e, fields) {
        var i :| 0 <= i < |fields| && e == Entry(fields[i].key, Serialize(compare, numeral, fields[i].value));
        SerializedFieldsAt(compare, numeral, fields, i);
      }
    }
  }

  lemma ObjectText(compare: (Text, Text) -> bool, numeral: Double -> Text, v: Value, s: Text)
    requires v.Obj?
    ensures Serialize(compare, numeral, v) + s
         == [OPEN_BRACE] + (Join(Entries(Sorted(compare, numeral, v.fields))) + ([CLOSE_BRACE] + s))
  {
    var inner := Join(Entries(Sorted(compare, numeral, v.fields)));
    assert Serialize(compare, numeral, v) == [OPEN_BRACE] + inner + [CLOSE_BRACE];
    assert ([OPEN_BRACE] + inner + [CLOSE_BRACE]) + s == [OPEN_BRACE] + (inner + ([CLOSE_BRACE] + s));
  }

  lemma {:induction false} ObjectPrefixFree(compare: (Text, Text) -> bool, numeral: Double -> Text,
                                            a: Value, b: Value, s: Text, t: Text)
    requires Numerals(numeral) && a.Obj? && b.Obj? && WellFormed(a) && WellFormed(b)
    requires Serialize(compare, numeral, a) + s == Serialize(compare, numeral, b) + t
    ensures Same(a, b) && s == t
    decreases a, 0, 0
  {
    var ea, eb := Sorted(compare, numeral, a.fields), Sorted(compare, numeral, b.fields);
    ObjectText(compare, numeral, a, s);
    ObjectText(compare, numeral, b, t);
    Cancel([OPEN_BRACE], [OPEN_BRACE], Join(Entries(ea)) + ([CLOSE_BRACE] + s),
           Join(Entries(eb)) + ([CLOSE_BRACE] + t));
    SortedEntries(compare, numeral, a.fields);
    SortedEntries(compare, numeral, b.fields);
    EntriesPrefixFree(compare, numeral, a.fields, b.fields, ea, eb, s, t);
    EqualEntriesSame(compare, numeral, a.fields, b.fields);
  }

  lemma {:induction false} EqualEntriesSame(compare: (Text, Text) -> bool, numeral: Double -> Text,
                                            fs: seq<Field>, gs: seq<Field>)
    requires Numerals(numeral) && WellFormed(Obj(fs)) && WellFormed(Obj(gs))
    requires Sorted(compare, numeral, fs) == Sorted(compare, numeral, gs)
    ensures Same(Obj(fs), Obj(gs))
    decreases fs, 2, 0
  {
    SortedEntries(compare, numeral, fs);
    SortedEntries(compare, numeral, gs);
    EqualEntries(compare, numeral, fs, gs, Sorted(compare, numeral, fs));
    EqualEntries(compare, numeral, gs, fs, Sorted(compare, numeral, gs));
    forall i, j | 0 <= i < |fs| && 0 <= j < |gs| && fs[i].key == gs[j].key
      ensures Same(fs[i].value, gs[j].value)
    {
      ValuePrefixFree(compare, numeral, fs[i].value, gs[j].value, [], []);
    }
  }

  /** Objects with the same entries have the same keys, with the same texts. */
  lemma EqualEntries(compare: (Text, Text) -> bool, numeral: Double -> Text, fs: seq<Field>, gs: seq<Field>,
                     entries: seq<Entry>)
    requires WellFormed(Obj(gs))
    requires forall e :: e in entries <==> EntryOf(compare, numeral, e, fs)
    requires forall e :: e in entries <==> EntryOf(compare, numeral, e, gs)
    ensures forall k :: HasKey(fs, k) ==> HasKey(gs, k)
    ensures forall i, j :: 0 <= i < |fs| && 0 <= j < |gs| && fs[i].key == gs[j].key ==>
      Serialize(compare, numeral, fs[i].value) + [] == Serialize(compare, numeral, gs[j].value) + []
  {
    forall i | 0 <= i < |fs|
      ensures exists j :: 0 <= j < |gs| && Entry(fs[i].key, Serialize(compare, numeral, fs[i].value))
                                        == Entry(gs[j].key, Serialize(compare, numeral, gs[j].value))
    {
      var e := Entry(fs[i].key, Serialize(compare, numeral, fs[i].value));
      assert EntryOf(compare, numeral, e, fs);
      assert e in entries;
      assert EntryOf(compare, numeral, e, gs);
    }
  }

  lemma {:induction false} EntriesPrefixFree(compare: (Text, Text) -> bool, numeral: Double -> Text, fs: seq<Field>,
                                             gs: seq<Field>, ea: seq<Entry>, eb: seq<Entry>, s: Text, t: Text)
    requires Numerals(numeral)
    requires forall i :: 0 <= i < |fs| ==> WellFormed(fs[i].value)
    requires forall i :: 0 <= i < |gs| ==> WellFormed(gs[i].value)
    requires forall e :: e in ea ==> EntryOf(compare, numeral, e, fs)
    requires forall e :: e in eb ==> EntryOf(compare, numeral, e, gs)
    requires Join(Entries(ea)) + ([CLOSE_BRACE] + s) == Join(Entries(eb)) + ([CLOSE_BRACE] + t)
    ensures ea == eb && s == t
    decreases fs, 1, |ea|
  {
    hide Serialize, WellFormed, Numerals;
    var px, py := Entries(ea), Entries(eb);
    var s', t' := [CLOSE_BRACE] + s, [CLOSE_BRACE] + t;
    if ea != [] { JoinSplit(px, s'); }
    if eb != [] { JoinSplit(py, t'); }
    assert (Join(px) + s')[0] == (Join(py) + t')[0];
    if ea == [] || eb == [] {
      assert ea == eb == [];
      assert (Join(px) + s')[1..] == s && (Join(py) + t')[1..] == t;
    } else {
      var s'', t'' := JoinRest(px, s'), JoinRest(py, t');
      assert ea[0] in ea && eb[0] in eb;
      var i :| 0 <= i < |fs| && ea[0] == Entry(fs[i].key, Serialize(compare, numeral, fs[i].value));
      var j :| 0 <= j < |gs| && eb[0] == Entry(gs[j].key, Serialize(compare, numeral, gs[j].value));
      FirstEntryPrefixFree(compare, numeral, fs[i], gs[j], ea[0], eb[0], s'', t'');
      assert s''[0] == t''[0];
      if |ea| == 1 || |eb| == 1 {
        assert s'[1..] == s && t'[1..] == t;
      } else {
        assert s''[1..] == Join(px[1..]) + s' && t''[1..] == Join(py[1..]) + t';
        EntriesPrefixFree(compare, numeral, fs, gs, ea[1..], eb[1..], s, t);
        assert ea == [ea[0]] + ea[1..] && eb == [eb[0]] + eb[1..];
      }
    }
  }

  lemma {:induction false} FirstEntryPrefixFree(compare: (Text, Text) -> bool, numeral: Double -> Text, f: Field,
                                                g: Field, d: Entry, e: Entry, s: Text, t: Text)
    requires Numerals(numeral) && Ends(s) && Ends(t) && WellFormed(f.value) && WellFormed(g.value)
    requires d == Entry(f.key, Serialize(compare, numeral, f.value))
    requires e == Entry(g.key, Serialize(compare, numeral, g.value))
    requires Quote(d.key) + [COLON] + d.text + s == Quote(e.key) + [COLON] + e.text + t
    ensures d == e && s == t
    decreases f, 0, 0
  {
    EntryParts(d, s);
    EntryParts(e, t);
    QuotePrefixFree(d.key, e.key, [COLON] + (d.text + s), [COLON] + (e.text + t));
    Cancel([COLON], [COLON], d.text + s, e.text + t);
    ValuePrefixFree(compare, numeral, f.value, g.value, s, t);
    Cancel(d.text, e.text, s, t);
  }

  lemma EntryParts(e: Entry, s: Text)
    ensures Quote(e.key) + [COLON] + e.text + s == Quote(e.key) + ([COLON] + (e.text + s))
  {
  }

  // ----- The other direction

  /** No object inside the value holds two keys that the key order does not tell apart. */
  ghost predicate NoTies(compare: (Text, Text) -> bool, v: Value) {
    match v
    case Arr(items) => forall i :: 0 <= i < |items| ==> NoTies(compare, items[i])
    case Obj(fields) =>
      && NoTiedKeys(compare, fields)
      && (forall i :: 0 <= i < |fields| ==> NoTies(compare, fields[i].value))
    case _ => true
  }

  ghost predicate NoTiedKeys(compare: (Text, Text) -> bool, fields: seq<Field>) {
    forall i, j :: 0 <= i < j < |fields| ==> !Tie(compare, fields[i].key, fields[j].key)
  }

  ghost predicate EqualTexts(compare: (Text, Text) -> bool, numeral: Double -> Text, fs: seq<Field>, gs: seq<Field>) {
    forall i, j :: 0 <= i < |fs| && 0 <= j < |gs| && fs[i].key == gs[j].key ==>
      Serialize(compare, numeral, fs[i].value) == Serialize(compare, numeral, gs[j].value)
  }

  lemma EqualTextsSymmetric(compare: (Text, Text) -> bool, numeral: Double -> Text, fs: seq<Field>, gs: seq<Field>)
    requires EqualTexts(compare, numeral, fs, gs)
    ensures EqualTexts(compare, numeral, gs, fs)
  {
    hide Serialize;
  }

  lemma {:induction false} SameSerializesEqually(compare: (Text, Text) -> bool, numeral: Double -> Text, a: Value,
                                                 b: Value)
    requires TotalPreorder(compare) && WellFormed(a) && WellFormed(b) && Same(a, b) && NoTies(compare, a)
    ensures Serialize(compare, numeral, a) == Serialize(compare, numeral, b)
    decreases a
  {
    match a {
      case Arr(items) =>
        forall i | 0 <= i < |items|
          ensures Serialize(compare, numeral, items[i]) == Serialize(compare, numeral, b.items[i])
        {
          SameSerializesEqually(compare, numeral, items[i], b.items[i]);
        }
        EqualItems(compare, numeral, items, b.items);
      case Obj(fields) =>
        forall i, j | 0 <= i < |fields| && 0 <= j < |b.fields| && fields[i].key == b.fields[j].key
          ensures Serialize(compare, numeral, fields[i].value) == Serialize(compare, numeral, b.fields[j].value)
        {
          SameSerializesEqually(compare, numeral, fields[i].value, b.fields[j].value);
        }
        EqualFields(compare, numeral, fields, b.fields);
      case _ =>
    }
  }

  lemma {:induction false} EqualItems(compare: (Text, Text) -> bool, numeral: Double -> Text, xs: seq<Value>,
                                      ys: seq<Value>)
    requires |xs| == |ys|
    requires forall i :: 0 <= i < |xs| ==> Serialize(compare, numeral, xs[i]) == Serialize(compare, numeral, ys[i])
    ensures SerializeItems(compare, numeral, xs) == SerializeItems(compare, numeral, ys)
  {
    if xs != [] { EqualItems(compare, numeral, xs[1..], ys[1..]); }
  }

  lemma ByKeyPreorder(compare: (Text, Text) -> bool)
    requires TotalPreorder(compare)
    ensures TotalPreorder(ByKey(compare))
  {
    var le := ByKey(compare);
    forall x, y ensures le(x, y) || le(y, x) { assert compare(x.key, y.key) || compare(y.key, x.key); }
    forall x, y, z | le(x, y) && le(y, z) ensures le(x, z) {
      assert compare(x.key, y.key) && compare(y.key, z.key);
    }
  }

  lemma EqualFields(compare: (Text, Text) -> bool, numeral: Double -> Text, fs: seq<Field>, gs: seq<Field>)
    requires TotalPreorder(compare) && WellFormed(Obj(fs)) && WellFormed(Obj(gs)) && |fs| == |gs|
    requires NoTiedKeys(compare, fs)
    requires forall k :: HasKey(fs, k) <==> HasKey(gs, k)
    requires EqualTexts(compare, numeral, fs, gs)
    ensures Sorted(compare, numeral, fs) == Sorted(compare, numeral, gs)
  {
    var le := ByKey(compare);
    var ea, eb := SerializeFields(compare, numeral, fs), SerializeFields(compare, numeral, gs);
    EntriesPermuted(compare, numeral, fs, gs);
    ByKeyPreorder(compare);
    StableSortCorrect(le, ea);
    StableSortCorrect(le, eb);
    NoTiedEntries(compare, numeral, fs);
    SortedPermutationsEqual(le, Sorted(compare, numeral, fs), Sorted(compare, numeral, gs));
  }

  lemma NoTiedEntries(compare: (Text, Text) -> bool, numeral: Double -> Text, fs: seq<Field>)
    requires WellFormed(Obj(fs)) && NoTiedKeys(compare, fs)
    ensures var le := ByKey(compare); var sorted := Sorted(compare, numeral, fs);
      forall x, y :: x in sorted && y in sorted && Tie(le, x, y) ==> x == y
  {
    hide Serialize, SerializeFields, DistinctKeys;
    var le := ByKey(compare);
    var entries, sorted := SerializeFields(compare, numeral, fs), Sorted(compare, numeral, fs);
    forall x, y | x in sorted && y in sorted && Tie(le, x, y) ensures x == y {
      assert x in multiset(sorted) && y in multiset(sorted);
      var i :| 0 <= i < |entries| && entries[i] == x;
      var j :| 0 <= j < |entries| && entries[j] == y;
      assert Tie(compare, fs[i].key, fs[j].key) && Tie(compare, fs[j].key, fs[i].key);
    }
  }

  lemma EntriesPermuted(compare: (Text, Text) -> bool, numeral: Double -> Text, fs: seq<Field>, gs: seq<Field>)
    requires DistinctKeys(fs) && DistinctKeys(gs)
    requires forall k :: HasKey(fs, k) <==> HasKey(gs, k)
    requires EqualTexts(compare, numeral, fs, gs)
    ensures multiset(SerializeFields(compare, numeral, fs)) == multiset(SerializeFields(compare, numeral, gs))
  {
    hide Serialize, SerializeFields, HasKey, DistinctKeys, EqualTexts, Once;
    EqualTextsSymmetric(compare, numeral, fs, gs);
    var ea, eb := SerializeFields(compare, numeral, fs), SerializeFields(compare, numeral, gs);
    EntriesDistinct(compare, numeral, fs);
    EntriesDistinct(compare, numeral, gs);
    FieldsIncluded(compare, numeral, fs, gs);
    FieldsIncluded(compare, numeral, gs, fs);
    SameElementsOnce(ea, eb);
  }

  ghost predicate Once<T(!new)>(s: seq<T>) {
    forall x :: multiset(s)[x] <= 1
  }

  lemma SameElementsOnce<T(!new)>(a: seq<T>, b: seq<T>)
    requires Once(a) && Once(b)
    requires forall x :: x in a <==> x in b
    ensures multiset(a) == multiset(b)
  {
    forall x ensures multiset(a)[x] == multiset(b)[x] {
      assert x in a <==> x in multiset(a);
      assert x in b <==> x in multiset(b);
    }
  }

  lemma {:induction false} EntriesDistinct(compare: (Text, Text) -> bool, numeral: Double -> Text, fs: seq<Field>)
    requires DistinctKeys(fs)
    ensures var entries := SerializeFields(compare, numeral, fs);
      && (forall x, y :: x in entries && y in entries && x.key == y.key ==> x == y)
      && Once(entries)
  {
    hide Serialize;
    if fs != [] {
      EntriesDistinct(compare, numeral, fs[1..]);
      var entries := SerializeFields(compare, numeral, fs);
      assert entries == [entries[0]] + entries[1..];
      forall x | x in entries[1..] ensures x.key != entries[0].key {
        var i :| 0 <= i < |entries[1..]| && entries[1..][i] == x;
        assert entries[i + 1].key == fs[i + 1].key;
      }
    }
  }

  lemma FieldsIncluded(compare: (Text, Text) -> bool, numeral: Double -> Text, fs: seq<Field>, gs: seq<Field>)
    requires forall k :: HasKey(fs, k) ==> HasKey(gs, k)
    requires EqualTexts(compare, numeral, fs, gs)
    ensures forall e :: e in SerializeFields(compare, numeral, fs) ==> e in SerializeFields(compare, numeral, gs)
  {
    var ea, eb := SerializeFields(compare, numeral, fs), SerializeFields(compare, numeral, gs);
    forall e | e in ea ensures e in eb {
      var i :| 0 <= i < |ea| && ea[i] == e;
      SerializedFieldsAt(compare, numeral, fs, i);
      assert HasKey(fs, fs[i].key);
      var j :| 0 <= j < |gs| && gs[j].key == fs[i].key;
      SerializedFieldsAt(compare, numeral, gs, j);
    }
  }

  /** Equal texts are equal values, for any way of ordering keys. */
  lemma EqualTextsMeanSame(compare: (Text, Text) -> bool, numeral: Double -> Text, a: Value, b: Value)
    requires Numerals(numeral) && WellFormed(a) && WellFormed(b)
    requires Serialize(compare, numeral, a) == Serialize(compare, numeral, b)
    ensures Same(a, b)
  {
    assert Serialize(compare, numeral, a) + [] == Serialize(compare, numeral, b) + [];
    ValuePrefixFree(compare, numeral, a, b, [], []);
  }

  // ----- Exactly which values have one text

  lemma {:induction false} SameAsItself(v: Value)
    requires WellFormed(v)
    ensures Same(v, v)
  {
    match v {
      case Arr(items) =>
        forall i | 0 <= i < |items| ensures Same(items[i], items[i]) { SameAsItself(items[i]); }
      case Obj(fields) =>
        forall i, j | 0 <= i < |fields| && 0 <= j < |fields| && fields[i].key == fields[j].key
          ensures Same(fields[i].value, fields[j].value)
        {
          SameAsItself(fields[i].value);
        }
      case _ =>
    }
  }

  lemma {:induction false} SameSymmetric(a: Value, b: Value)
    requires Same(a, b)
    ensures Same(b, a)
    decreases a
  {
    match a {
      case Arr(items) =>
        forall i | 0 <= i < |items| ensures Same(b.items[i], items[i]) { SameSymmetric(items[i], b.items[i]); }
      case Obj(fields) =>
        forall i, j | 0 <= i < |b.fields| && 0 <= j < |fields| && b.fields[i].key == fields[j].key
          ensures Same(b.fields[i].value, fields[j].value)
        {
          SameSymmetric(fields[j].value, b.fields[i].value);
        }
      case _ =>
    }
  }

  lemma {:induction false} JoinOneChanged(before: seq<Text>, x: Text, y: Text, after: seq<Text>)
    requires Join(before + [x] + after) == Join(before + [y] + after)
    ensures x == y
  {
    var px, py := before + [x] + after, before + [y] + after;
    JoinSplit(px, []);
    JoinSplit(py, []);
    assert Join(px) + [] == Join(px) && Join(py) + [] == Join(py);
    if before == [] {
      assert px[1..] == after == py[1..];
      Cancelled(x, y, JoinRest(px, []));
    } else {
      assert px[1..] == before[1..] + [x] + after && py[1..] == before[1..] + [y] + after;
      var rx, ry := JoinRest(px, []), JoinRest(py, []);
      assert rx == ry by { assert rx == Join(px)[|before[0]|..] && ry == Join(py)[|before[0]|..]; }
      assert rx[1..] == Join(px[1..]) + [] == Join(px[1..]) && ry[1..] == Join(py[1..]) + [] == Join(py[1..]);
      JoinOneChanged(before[1..], x, y, after);
    }
  }

  lemma Cancelled(x: Text, y: Text, s: Text)
    requires x + s == y + s
    ensures x == y
  {
    assert |x| == |y|;
    assert x == (x + s)[..|x|] && y == (y + s)[..|y|];
  }

  /** Another value that is the same but for the order of two tied keys, and has another text. */
  lemma {:induction false} Scrambled(compare: (Text, Text) -> bool, numeral: Double -> Text, a: Value)
      returns (b: Value)
    requires TotalPreorder(compare) && Numerals(numeral) && WellFormed(a) && !NoTies(compare, a)
    ensures WellFormed(b) && Same(a, b) && Serialize(compare, numeral, a) != Serialize(compare, numeral, b)
    decreases a
  {
    hide TotalPreorder, Numerals, Serialize;
    match a {
      case Arr(items) =>
        var i :| 0 <= i < |items| && !NoTies(compare, items[i]);
        var item := Scrambled(compare, numeral, items[i]);
        b := Arr(items[i := item]);
        ItemReplaced(compare, numeral, items, i, item);
      case Obj(fields) =>
        if NoTiedKeys(compare, fields) {
          var i :| 0 <= i < |fields| && !NoTies(compare, fields[i].value);
          var value := Scrambled(compare, numeral, fields[i].value);
          b := Obj(fields[i := Field(fields[i].key, value)]);
          ValueReplaced(compare, numeral, fields, i, value);
        } else {
          var i, j := FirstTiedKeys(compare, fields);
          b := Obj(fields[i := fields[j]][j := fields[i]]);
          FieldsSwapped(compare, numeral, fields, i, j);
        }
    }
  }

  lemma {:induction false} SerializedItemsReplaced(compare: (Text, Text) -> bool, numeral: Double -> Text,
                                                   items: seq<Value>, i: nat, item: Value)
    requires i < |items|
    ensures var parts := SerializeItems(compare, numeral, items);
      && parts == parts[..i] + [Serialize(compare, numeral, items[i])] + parts[i + 1..]
      && SerializeItems(compare, numeral, items[i := item])
         == parts[..i] + [Serialize(compare, numeral, item)] + parts[i + 1..]
  {
    hide Serialize;
    var other := items[i := item];
    if i == 0 {
      assert other[1..] == items[1..];
    } else {
      assert other[1..] == items[1..][i - 1 := item];
      SerializedItemsReplaced(compare, numeral, items[1..], i - 1, item);
    }
  }

  lemma ItemReplaced(compare: (Text, Text) -> bool, numeral: Double -> Text, items: seq<Value>, i: nat, item: Value)
    requires i < |items| && WellFormed(Arr(items)) && WellFormed(item) && Same(items[i], item)
    requires Serialize(compare, numeral, items[i]) != Serialize(compare, numeral, item)
    ensures var a, b := Arr(items), Arr(items[i := item]);
      WellFormed(b) && Same(a, b) && Serialize(compare, numeral, a) != Serialize(compare, numeral, b)
  {
    var other := items[i := item];
    forall k | 0 <= k < |items| ensures Same(items[k], other[k]) { SameAsItself(items[k]); }
    SerializedItemsReplaced(compare, numeral, items, i, item);
    var parts := SerializeItems(compare, numeral, items);
    ArrayText(compare, numeral, Arr(items), []);
    ArrayText(compare, numeral, Arr(other), []);
    var x, y := Serialize(compare, numeral, Arr(items)), Serialize(compare, numeral, Arr(other));
    assert x + [] == x && y + [] == y;
    if x == y {
      hide Serialize, SerializeItems;
      Cancelled(Join(parts), Join(SerializeItems(compare, numeral, other)), [CLOSE_BRACKET] + []);
      JoinOneChanged(parts[..i], Serialize(compare, numeral, items[i]), Serialize(compare, numeral, item),
                     parts[i + 1..]);
    }
  }

  /** Objects of one text have the same sorted entries. */
  lemma EqualObjectsEntries(compare: (Text, Text) -> bool, numeral: Double -> Text, fs: seq<Field>, gs: seq<Field>)
    requires Numerals(numeral) && WellFormed(Obj(fs)) && WellFormed(Obj(gs))
    requires Serialize(compare, numeral, Obj(fs)) == Serialize(compare, numeral, Obj(gs))
    ensures Sorted(compare, numeral, fs) == Sorted(compare, numeral, gs)
  {
    ObjectText(compare, numeral, Obj(fs), []);
    ObjectText(compare, numeral, Obj(gs), []);
    hide Serialize, Numerals;
    var ea, eb := Sorted(compare, numeral, fs), Sorted(compare, numeral, gs);
    Cancel([OPEN_BRACE], [OPEN_BRACE], Join(Entries(ea)) + ([CLOSE_BRACE] + []),
           Join(Entries(eb)) + ([CLOSE_BRACE] + []));
    SortedEntries(compare, numeral, fs);
    SortedEntries(compare, numeral, gs);
    EntriesPrefixFree(compare, numeral, fs, gs, ea, eb, [], []);
  }

  lemma ValueReplaced(compare: (Text, Text) -> bool, numeral: Double -> Text, fields: seq<Field>, i: nat, value: Value)
    requires Numerals(numeral) && i < |fields| && WellFormed(Obj(fields)) && WellFormed(value)
    requires Same(fields[i].value, value)
    requires Serialize(compare, numeral, fields[i].value) != Serialize(compare, numeral, value)
    ensures var a, b := Obj(fields), Obj(fields[i := Field(fields[i].key, value)]);
      WellFormed(b) && Same(a, b) && Serialize(compare, numeral, a) != Serialize(compare, numeral, b)
  {
    hide Numerals, Serialize;
    var other := fields[i := Field(fields[i].key, value)];
    forall k | 0 <= k < |fields| ensures other[k].key == fields[k].key && Same(fields[k].value, other[k].value) {
      SameAsItself(fields[k].value);
    }
    SameKeysSame(fields, other);
    if Serialize(compare, numeral, Obj(fields)) == Serialize(compare, numeral, Obj(other)) {
      EqualObjectsEntries(compare, numeral, fields, other);
      EntriesCarryTexts(compare, numeral, fields, other, i);
    }
  }

  lemma EntriesCarryTexts(compare: (Text, Text) -> bool, numeral: Double -> Text, fs: seq<Field>, gs: seq<Field>,
                          i: nat)
    requires DistinctKeys(fs) && Sorted(compare, numeral, fs) == Sorted(compare, numeral, gs)
    requires i < |fs| && i < |gs| && fs[i].key == gs[i].key
    ensures Serialize(compare, numeral, fs[i].value) == Serialize(compare, numeral, gs[i].value)
  {
    hide Serialize, Sorted;
    SortedEntries(compare, numeral, fs);
    SortedEntries(compare, numeral, gs);
    assert EntryOf(compare, numeral, Entry(gs[i].key, Serialize(compare, numeral, gs[i].value)), gs);
    assert EntryOf(compare, numeral, Entry(gs[i].key, Serialize(compare, numeral, gs[i].value)), fs);
  }

  lemma SameKeysSame(fs: seq<Field>, gs: seq<Field>)
    requires |fs| == |gs| && DistinctKeys(fs)
    requires forall k :: 0 <= k < |fs| ==> gs[k].key == fs[k].key && Same(fs[k].value, gs[k].value)
    ensures DistinctKeys(gs) && Same(Obj(fs), Obj(gs))
  {
    forall x ensures HasKey(fs, x) <==> HasKey(gs, x) {
      if HasKey(fs, x) { var k :| 0 <= k < |fs| && fs[k].key == x; assert gs[k].key == x; }
      if HasKey(gs, x) { var k :| 0 <= k < |gs| && gs[k].key == x; assert fs[k].key == x; }
    }
  }

  /** The first key that ties with a later one. */
  lemma FirstTiedKeys(compare: (Text, Text) -> bool, fields: seq<Field>) returns (i: nat, j: nat)
    requires !NoTiedKeys(compare, fields)
    ensures i < j < |fields| && Tie(compare, fields[i].key, fields[j].key)
    ensures forall k :: 0 <= k < i ==> !Tie(compare, fields[i].key, fields[k].key)
  {
    i, j :| 0 <= i < j < |fields| && Tie(compare, fields[i].key, fields[j].key);
    while exists k :: 0 <= k < i && Tie(compare, fields[i].key, fields[k].key)
      invariant i < j < |fields| && Tie(compare, fields[i].key, fields[j].key)
      decreases i
    {
      var k :| 0 <= k < i && Tie(compare, fields[i].key, fields[k].key);
      i, j := k, i;
    }
  }

  lemma FieldsSwapped(compare: (Text, Text) -> bool, numeral: Double -> Text, fields: seq<Field>, i: nat, j: nat)
    requires TotalPreorder(compare) && Numerals(numeral) && WellFormed(Obj(fields))
    requires i < j < |fields| && Tie(compare, fields[i].key, fields[j].key)
    requires forall k :: 0 <= k < i ==> !Tie(compare, fields[i].key, fields[k].key)
    ensures var a, b := Obj(fields), Obj(fields[i := fields[j]][j := fields[i]]);
      WellFormed(b) && Same(a, b) && Serialize(compare, numeral, a) != Serialize(compare, numeral, b)
  {
    var other := fields[i := fields[j]][j := fields[i]];
    assert fields[i].key != fields[j].key;
    TiesItself(compare, fields[i].key);
    hide TotalPreorder, Numerals, Serialize, Ties, Same, WellFormed, Sorted;
    SwappedSame(fields, i, j);
    FirstOfTies(compare, numeral, fields, fields[i].key, i);
    FirstOfTies(compare, numeral, other, fields[i].key, i);
    if Serialize(compare, numeral, Obj(fields)) == Serialize(compare, numeral, Obj(other)) {
      EqualObjectsEntries(compare, numeral, fields, other);
    }
  }

  lemma TiesItself(compare: (Text, Text) -> bool, key: Text)
    requires TotalPreorder(compare)
    ensures Tie(compare, key, key)
  {
  }

  lemma SwappedSame(fields: seq<Field>, i: nat, j: nat)
    requires i < j < |fields| && WellFormed(Obj(fields))
    ensures var other := fields[i := fields[j]][j := fields[i]]; WellFormed(Obj(other)) && Same(Obj(fields), Obj(other))
  {
    var other := fields[i := fields[j]][j := fields[i]];
    forall x ensures HasKey(fields, x) <==> HasKey(other, x) {
      if HasKey(fields, x) {
        var k :| 0 <= k < |fields| && fields[k].key == x;
        assert other[if k == i then j else if k == j then i else k].key == x;
      }
      if HasKey(other, x) {
        var k :| 0 <= k < |other| && other[k].key == x;
        assert fields[if k == i then j else if k == j then i else k].key == x;
      }
    }
    forall k, l | 0 <= k < |fields| && 0 <= l < |other| && fields[k].key == other[l].key
      ensures Same(fields[k].value, other[l].value)
    {
      assert other[l] == fields[if l == i then j else if l == j then i else l];
      SameAsItself(fields[k].value);
    }
  }

  /** Stability: among the entries that tie with a key, the earliest comes first in the sorted ones. */
  lemma FirstOfTies(compare: (Text, Text) -> bool, numeral: Double -> Text, fields: seq<Field>, key: Text, i: nat)
    requires TotalPreorder(compare) && i < |fields| && Tie(compare, key, fields[i].key)
    requires forall k :: 0 <= k < i ==> !Tie(compare, key, fields[k].key)
    ensures var ties := Ties(ByKey(compare), Entry(key, []), Sorted(compare, numeral, fields));
      ties != [] && ties[0].key == fields[i].key
  {
    hide Serialize, SerializeFields, TotalPreorder;
    var le, entries, c := ByKey(compare), SerializeFields(compare, numeral, fields), Entry(key, []);
    ByKeyPreorder(compare);
    StableSortCorrect(le, entries);
    TiesMember(le, c, entries, i);
    TiesAreTies(le, c, entries);
    var r := FirstTie(le, c, entries);
    assert Tie(le, c, entries[r]);
  }

  /** A value's text decides equality up to key order, against every value, if and only if no object inside it
      holds two tied keys. */
  lemma OneTextExactlyWithoutTies(compare: (Text, Text) -> bool, numeral: Double -> Text, a: Value)
    requires TotalPreorder(compare) && Numerals(numeral) && WellFormed(a)
    ensures NoTies(compare, a) <==> forall b ::
      WellFormed(b) ==> (Serialize(compare, numeral, a) == Serialize(compare, numeral, b) <==> Same(a, b))
  {
    hide Serialize, Same, WellFormed, Numerals, TotalPreorder, NoTies;
    if NoTies(compare, a) {
      forall b | WellFormed(b)
        ensures Serialize(compare, numeral, a) == Serialize(compare, numeral, b) <==> Same(a, b)
      {
        if Same(a, b) { SameSerializesEqually(compare, numeral, a, b); }
        if Serialize(compare, numeral, a) == Serialize(compare, numeral, b) {
          EqualTextsMeanSame(compare, numeral, a, b);
        }
      }
    } else {
      var b := Scrambled(compare, numeral, a);
    }
  }

  lemma {:induction false} StrictOrderNoTies(compare: (Text, Text) -> bool, v: Value)
    requires AntiSymmetric(compare) && WellFormed(v)
    ensures NoTies(compare, v)
  {
    match v {
      case Arr(items) =>
        forall i | 0 <= i < |items| ensures NoTies(compare, items[i]) { StrictOrderNoTies(compare, items[i]); }
      case Obj(fields) =>
        forall i | 0 <= i < |fields|
          ensures NoTies(compare, fields[i].value)
        {
          StrictOrderNoTies(compare, fields[i].value);
        }
      case _ =>
    }
  }

  ghost predicate IsCanonical(compare: (Text, Text) -> bool, numeral: Double -> Text) {
    forall a, b :: WellFormed(a) && WellFormed(b) ==>
      (Serialize(compare, numeral, a) == Serialize(compare, numeral, b) <==> Same(a, b))
  }

  /** Two keys that the collation does not tell apart keep their insertion order in the text. */
  lemma TiedKeysBreakIt(compare: (Text, Text) -> bool, numeral: Double -> Text, j: Text, k: Text)
    requires Tie(compare, j, k) && j != k
    ensures var a, b := Obj([Field(j, Null), Field(k, Null)]), Obj([Field(k, Null), Field(j, Null)]);
      && WellFormed(a) && WellFormed(b) && Same(a, b)
      && Serialize(compare, numeral, a) != Serialize(compare, numeral, b)
  {
    SwappedIsSame(j, k);
    TiedPairText(compare, numeral, j, k);
    TiedPairText(compare, numeral, k, j);
    if Serialize(compare, numeral, Obj([Field(j, Null), Field(k, Null)]))
       == Serialize(compare, numeral, Obj([Field(k, Null), Field(j, Null)])) {
      QuotePrefixFree(j, k, PairRest(k), PairRest(j));
    }
  }

  lemma SwappedIsSame(j: Text, k: Text)
    requires j != k
    ensures var a, b := Obj([Field(j, Null), Field(k, Null)]), Obj([Field(k, Null), Field(j, Null)]);
      WellFormed(a) && WellFormed(b) && Same(a, b)
  {
    var fs, gs := [Field(j, Null), Field(k, Null)], [Field(k, Null), Field(j, Null)];
    forall x ensures HasKey(fs, x) <==> HasKey(gs, x) {
      assert fs[0].key == gs[1].key && fs[1].key == gs[0].key;
    }
  }

  function PairRest(k: Text): Text {
    [COLON] + NULL + ([COMMA] + Quote(k) + [COLON] + NULL + [CLOSE_BRACE])
  }

  lemma TiedPairText(compare: (Text, Text) -> bool, numeral: Double -> Text, j: Text, k: Text)
    requires compare(j, k)
    ensures var text := Serialize(compare, numeral, Obj([Field(j, Null), Field(k, Null)]));
      text != [] && text[1..] == Quote(j) + PairRest(k)
  {
    TiedPairStays(compare, numeral, j, k);
    PairParts(j, k);
    ObjectText(compare, numeral, Obj([Field(j, Null), Field(k, Null)]), []);
    var pair := [Entry(j, NULL), Entry(k, NULL)];
    var text := Serialize(compare, numeral, Obj([Field(j, Null), Field(k, Null)]));
    assert text + [] == text;
    assert text[1..] == Join(Entries(pair)) + ([CLOSE_BRACE] + []);
  }

  lemma PairParts(j: Text, k: Text)
    ensures Join(Entries([Entry(j, NULL), Entry(k, NULL)])) + ([CLOSE_BRACE] + []) == Quote(j) + PairRest(k)
  {
    hide Quote;
    var one, two := [Entry(k, NULL)], [Entry(j, NULL), Entry(k, NULL)];
    var p, q := Quote(j) + [COLON] + NULL, Quote(k) + [COLON] + NULL;
    assert one[1..] == [] && two[1..] == one;
    assert Entries(one) == [q] && Entries(two) == [p, q];
    JoinPair(p, q);
    hide Join, Entries;
    assert (p + [COMMA] + q) + ([CLOSE_BRACE] + []) == Quote(j) + PairRest(k);
  }

  lemma JoinPair(p: Text, q: Text)
    ensures Join([p, q]) == p + [COMMA] + q
  {
    assert [p, q][1..] == [q];
  }

  lemma TiedPairStays(compare: (Text, Text) -> bool, numeral: Double -> Text, j: Text, k: Text)
    requires compare(j, k)
    ensures Sorted(compare, numeral, [Field(j, Null), Field(k, Null)]) == [Entry(j, NULL), Entry(k, NULL)]
  {
    var fs := [Field(j, Null), Field(k, Null)];
    SerializedFieldsAt(compare, numeral, fs, 0);
    SerializedFieldsAt(compare, numeral, fs, 1);
    var es := SerializeFields(compare, numeral, fs);
    assert es == [Entry(j, NULL), Entry(k, NULL)];
    var le := ByKey(compare);
    assert es[1..] == [es[1]] && es[1..][1..] == [];
    assert StableSort(le, es[1..][1..]) == [];
    assert StableSort(le, es[1..]) == Insert(le, es[1], []) == [es[1]];
    assert StableSort(le, es) == Insert(le, es[0], [es[1]]);
  }

  /** The serializer is canonical exactly when the collation never ties two different keys. */
  lemma CanonicalExactlyWithoutTies(compare: (Text, Text) -> bool, numeral: Double -> Text)
    requires TotalPreorder(compare) && Numerals(numeral)
    ensures IsCanonical(compare, numeral) <==> AntiSymmetric(compare)
  {
    hide Serialize, Same, WellFormed, Numerals, TotalPreorder;
    if AntiSymmetric(compare) {
      forall a, b | WellFormed(a) && WellFormed(b)
        ensures Serialize(compare, numeral, a) == Serialize(compare, numeral, b) <==> Same(a, b)
      {
        StrictOrderNoTies(compare, a);
        OneTextExactlyWithoutTies(compare, numeral, a);
      }
    } else {
      var j, k :| compare(j, k) && compare(k, j) && j != k;
      TiedKeysBreakIt(compare, numeral, j, k);
    }
  }

  // ----- An order that never ties

  predicate TextLeq(a: Text, b: Text) {
    a == [] || (b != [] && (a[0] < b[0] || (a[0] == b[0] && TextLeq(a[1..], b[1..]))))
  }

  lemma {:induction false} TextLeqTotal(a: Text, b: Text)
    ensures TextLeq(a, b) || TextLeq(b, a)
    ensures TextLeq(a, b) && TextLeq(b, a) ==> a == b
  {
    if a != [] && b != [] && a[0] == b[0] {
      TextLeqTotal(a[1..], b[1..]);
      assert a == [a[0]] + a[1..] && b == [b[0]] + b[1..];
    }
  }

  lemma {:induction false} TextLeqTransitive(a: Text, b: Text, c: Text)
    requires TextLeq(a, b) && TextLeq(b, c)
    ensures TextLeq(a, c)
  {
    if a != [] && a[0] == b[0] == c[0] { TextLeqTransitive(a[1..], b[1..], c[1..]); }
  }

  /** Ordering keys by code units instead of by collation would make the serializer canonical. */
  lemma CodeUnitOrderIsCanonical(numeral: Double -> Text)
    requires Numerals(numeral)
    ensures TotalPreorder(TextLeq) && AntiSymmetric(TextLeq) && IsCanonical(TextLeq, numeral)
  {
    hide IsCanonical, Numerals;
    forall a, b
      ensures (TextLeq(a, b) || TextLeq(b, a)) && (TextLeq(a, b) && TextLeq(b, a) ==> a == b)
    {
      TextLeqTotal(a, b);
    }
    forall a, b, c | TextLeq(a, b) && TextLeq(b, c) ensures TextLeq(a, c) { TextLeqTransitive(a, b, c); }
    CanonicalExactlyWithoutTies(TextLeq, numeral);
  }
}
