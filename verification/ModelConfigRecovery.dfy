/** Finding the stored model config that a failed create request meant. */
module ModelConfigRecovery {
  import opened Options
  import opened Sorting
  import opened StableSerialize
  import opened SerializerLaw

  datatype Descriptor = Descriptor(modelFamily: Text, config: seq<Field>)

  datatype ModelConfig = ModelConfig(id: string, modelFamily: Text, config: seq<Field>, updatedAt: Option<Text>)

  /** The library functions the search relies on: `localeCompare(l, r) <= 0`, number printing, `toLowerCase()`,
      and `Date.parse` (None for NaN). */
  datatype Library = Library(
    compare: (Text, Text) -> bool,
    numeral: Double -> Text,
    lower: Text -> Text,
    parseDate: Text -> Option<int>)

  const BAR: CodeUnit := 0x7C

  /** What `trim()` removes: white space and line terminators. */
  predicate Space(c: CodeUnit) {
    9 <= c <= 13 || c == 0x20 || c == 0xA0 || c == 0x1680 || 0x2000 <= c <= 0x200A
    || c == 0x2028 || c == 0x2029 || c == 0x202F || c == 0x205F || c == 0x3000 || c == 0xFEFF
  }

  function TrimStart(t: Text): Text {
    if t != [] && Space(t[0]) then TrimStart(t[1..]) else t
  }

  function TrimEnd(t: Text): Text {
    if t != [] && Space(t[|t| - 1]) then TrimEnd(t[..|t| - 1]) else t
  }

  /** `value.trim().toLowerCase()` */
  function Normalize(lib: Library, t: Text): Text {
    lib.lower(TrimEnd(TrimStart(t)))
  }

  function IdentityKeys(): seq<Text> {
    [Ascii("name"), Ascii("version"), Ascii("task_type"), Ascii("subtask_type"), Ascii("data_profile"),
     Ascii("data_type")]
  }

  function Property(config: seq<Field>, key: Text): Option<Value> {
    if config == [] then None
    else if config[0].key == key then Some(config[0].value)
    else Property(config[1..], key)
  }

  function NormalizeIdentityValue(lib: Library, v: Option<Value>): Text {
    if v.Some? && v.value.Str? then Normalize(lib, v.value.text) else []
  }

  function ConfigIdentity(lib: Library, family: Text, config: seq<Field>): Text {
    JoinBars([Normalize(lib, family)] + Identities(lib, config, IdentityKeys()))
  }

  function Identities(lib: Library, config: seq<Field>, keys: seq<Text>): seq<Text> {
    seq(|keys|, i requires 0 <= i < |keys| => NormalizeIdentityValue(lib, Property(config, keys[i])))
  }

  function JoinBars(parts: seq<Text>): Text {
    if parts == [] then []
    else if |parts| == 1 then parts[0]
    else parts[0] + [BAR] + JoinBars(parts[1..])
  }

  /** The date of an item, if it has a valid one. */
  function DateOf(lib: Library, item: ModelConfig): Option<int> {
    if item.updatedAt == None || item.updatedAt == Some([]) then None else lib.parseDate(item.updatedAt.value)
  }

  function CompareByUpdatedAtDescending(lib: Library, left: ModelConfig, right: ModelConfig): int {
    var l, r := DateOf(lib, left), DateOf(lib, right);
    if l.None? && r.None? then 0
    else if l.None? then 1
    else if r.None? then -1
    else r.value - l.value
  }

  function NewestFirst(lib: Library): (ModelConfig, ModelConfig) -> bool {
    (l: ModelConfig, r: ModelConfig) => CompareByUpdatedAtDescending(lib, l, r) <= 0
  }

  predicate IsExact(lib: Library, item: ModelConfig, desired: Descriptor) {
    && Normalize(lib, item.modelFamily) == Normalize(lib, desired.modelFamily)
    && Serialize(lib.compare, lib.numeral, Obj(item.config)) == Serialize(lib.compare, lib.numeral, Obj(desired.config))
  }

  predicate IsIdentical(lib: Library, item: ModelConfig, desired: Descriptor) {
    ConfigIdentity(lib, item.modelFamily, item.config) == ConfigIdentity(lib, desired.modelFamily, desired.config)
  }

  function FindExact(lib: Library, items: seq<ModelConfig>, desired: Descriptor): Option<ModelConfig> {
    if items == [] then None
    else if IsExact(lib, items[0], desired) then Some(items[0])
    else FindExact(lib, items[1..], desired)
  }

  function IdentityMatches(lib: Library, items: seq<ModelConfig>, desired: Descriptor): seq<ModelConfig> {
    if items == [] then []
    else
      var n := |items| - 1;
      IdentityMatches(lib, items[..n], desired) + (if IsIdentical(lib, items[n], desired) then [items[n]] else [])
  }

  function FindEquivalent(lib: Library, items: seq<ModelConfig>, desired: Descriptor): Option<ModelConfig> {
    var exact := FindExact(lib, items, desired);
    if exact.Some? then exact
    else
      var matches := StableSort(NewestFirst(lib), IdentityMatches(lib, items, desired));
      if matches == [] then None else Some(matches[0])
  }

  // ----- What it finds

  ghost predicate SameConfig(lib: Library, item: ModelConfig, desired: Descriptor) {
    && Normalize(lib, item.modelFamily) == Normalize(lib, desired.modelFamily)
    && Same(Obj(item.config), Obj(desired.config))
  }

  /** `l` is strictly more recent than `r`; an item without a valid date is older than any with one. */
  ghost predicate Fresher(lib: Library, l: ModelConfig, r: ModelConfig) {
    && Dated(lib, l)
    && (!Dated(lib, r) || lib.parseDate(l.updatedAt.value).value > lib.parseDate(r.updatedAt.value).value)
  }

  ghost predicate Dated(lib: Library, item: ModelConfig) {
    item.updatedAt.Some? && item.updatedAt.value != [] && lib.parseDate(item.updatedAt.value).Some?
  }

  ghost predicate IsAnswer(lib: Library, items: seq<ModelConfig>, desired: Descriptor, i: nat)
    requires i < |items|
  {
    if exists j :: 0 <= j < |items| && SameConfig(lib, items[j], desired) then
      && SameConfig(lib, items[i], desired)
      && forall j :: 0 <= j < i ==> !SameConfig(lib, items[j], desired)
    else
      && IsIdentical(lib, items[i], desired)
      && (forall j :: 0 <= j < |items| && IsIdentical(lib, items[j], desired) ==> !Fresher(lib, items[j], items[i]))
      && (forall j :: 0 <= j < i && IsIdentical(lib, items[j], desired) ==> Fresher(lib, items[i], items[j]))
  }

  lemma {:induction false} FindExactFirst(lib: Library, items: seq<ModelConfig>, desired: Descriptor)
    ensures var r := FindExact(lib, items, desired);
      if r.None? then forall j :: 0 <= j < |items| ==> !IsExact(lib, items[j], desired)
      else exists i :: 0 <= i < |items| && r.value == items[i] && IsExact(lib, items[i], desired)
                       && forall j :: 0 <= j < i ==> !IsExact(lib, items[j], desired)
  {
    if items != [] && !IsExact(lib, items[0], desired) {
      FindExactFirst(lib, items[1..], desired);
      var r := FindExact(lib, items[1..], desired);
      if r.Some? {
        var i :| 0 <= i < |items[1..]| && r.value == items[1..][i] && IsExact(lib, items[1..][i], desired)
                 && forall j :: 0 <= j < i ==> !IsExact(lib, items[1..][j], desired);
        assert items[i + 1] == items[1..][i];
        forall j | 0 <= j < i + 1 ensures !IsExact(lib, items[j], desired) {
          if j > 0 { assert items[j] == items[1..][j - 1]; }
        }
      } else {
        forall j | 0 <= j < |items| ensures !IsExact(lib, items[j], desired) {
          if j > 0 { assert items[j] == items[1..][j - 1]; }
        }
      }
    }
  }

  /** Where a match stands among the items, and that the matches before it are the earlier ones. */
  lemma {:induction false} MatchPosition(lib: Library, items: seq<ModelConfig>, desired: Descriptor, k: nat)
      returns (i: nat)
    requires k < |IdentityMatches(lib, items, desired)|
    ensures i < |items| && items[i] == IdentityMatches(lib, items, desired)[k] && IsIdentical(lib, items[i], desired)
    ensures IdentityMatches(lib, items[..i], desired) == IdentityMatches(lib, items, desired)[..k]
  {
    var n := |items| - 1;
    var front := IdentityMatches(lib, items[..n], desired);
    if k < |front| {
      i := MatchPosition(lib, items[..n], desired, k);
      assert items[..n][..i] == items[..i];
    } else {
      i := n;
    }
  }

  lemma {:induction false} IsAMatch(lib: Library, items: seq<ModelConfig>, desired: Descriptor, j: nat)
    requires j < |items| && IsIdentical(lib, items[j], desired)
    ensures items[j] in IdentityMatches(lib, items, desired)
  {
    var n := |items| - 1;
    if j < n { IsAMatch(lib, items[..n], desired, j); }
  }

  lemma NewestFirstIsPreorder(lib: Library)
    ensures TotalPreorder(NewestFirst(lib))
  {
    var le := NewestFirst(lib);
    assert forall x, y :: le(x, y) <==> !Fresher(lib, y, x);
  }

  /** For a desired config without tied keys, whatever the stored ones are like: the search returns the first item
      with the same config up to key order; failing that, among the items
      of the same identity the earliest of the most recently updated; and nothing only if there is neither. */
  lemma FindEquivalentAnswers(lib: Library, items: seq<ModelConfig>, desired: Descriptor)
    requires TotalPreorder(lib.compare) && Numerals(lib.numeral) && NoTies(lib.compare, Obj(desired.config))
    requires WellFormed(Obj(desired.config)) && forall j :: 0 <= j < |items| ==> WellFormed(Obj(items[j].config))
    ensures var r := FindEquivalent(lib, items, desired);
      && (r.Some? ==> exists i :: 0 <= i < |items| && r.value == items[i] && IsAnswer(lib, items, desired, i))
      && (r.None? <==> forall j :: 0 <= j < |items| ==>
            !SameConfig(lib, items[j], desired) && !IsIdentical(lib, items[j], desired))
  {
    hide IsIdentical, Same, Serialize, WellFormed, Numerals, TotalPreorder, NoTies, IdentityMatches;
    ExactMeansSame(lib, items, desired);
    FindExactFirst(lib, items, desired);
    if FindExact(lib, items, desired).None? {
      forall j | 0 <= j < |items| ensures !SameConfig(lib, items[j], desired) {
        assert !IsExact(lib, items[j], desired);
      }
      FallbackAnswers(lib, items, desired);
    }
  }

  /** The exact match is never wrong, and finds every equal config when the desired one has no tied keys. */
  lemma ExactMeansSame(lib: Library, items: seq<ModelConfig>, desired: Descriptor)
    requires TotalPreorder(lib.compare) && Numerals(lib.numeral)
    requires WellFormed(Obj(desired.config)) && forall j :: 0 <= j < |items| ==> WellFormed(Obj(items[j].config))
    ensures forall j :: 0 <= j < |items| && IsExact(lib, items[j], desired) ==> SameConfig(lib, items[j], desired)
    ensures NoTies(lib.compare, Obj(desired.config)) ==>
              forall j :: 0 <= j < |items| && SameConfig(lib, items[j], desired) ==> IsExact(lib, items[j], desired)
  {
    hide Serialize, Same, WellFormed, Numerals, TotalPreorder, NoTies;
    var b := Obj(desired.config);
    forall j | 0 <= j < |items|
      ensures IsExact(lib, items[j], desired) ==> SameConfig(lib, items[j], desired)
      ensures NoTies(lib.compare, b) && SameConfig(lib, items[j], desired) ==> IsExact(lib, items[j], desired)
    {
      var a := Obj(items[j].config);
      if Serialize(lib.compare, lib.numeral, a) == Serialize(lib.compare, lib.numeral, b) {
        EqualTextsMeanSame(lib.compare, lib.numeral, a, b);
      }
      if NoTies(lib.compare, b) && Same(a, b) {
        SameSymmetric(a, b);
        SameSerializesEqually(lib.compare, lib.numeral, b, a);
      }
    }
  }

  /** Exactly then: for a desired config with two tied keys in some object, some equal config is not found. */
  lemma ExactMatchExact(lib: Library, desired: Descriptor)
    requires TotalPreorder(lib.compare) && Numerals(lib.numeral) && WellFormed(Obj(desired.config))
    ensures NoTies(lib.compare, Obj(desired.config)) <==> forall item: ModelConfig ::
      WellFormed(Obj(item.config)) ==> (IsExact(lib, item, desired) <==> SameConfig(lib, item, desired))
  {
    hide Serialize, WellFormed, Numerals, TotalPreorder, NoTies;
    var a := Obj(desired.config);
    if NoTies(lib.compare, a) {
      forall item: ModelConfig | WellFormed(Obj(item.config))
        ensures IsExact(lib, item, desired) <==> SameConfig(lib, item, desired)
      {
        ExactMeansSame(lib, [item], desired);
        assert [item][0] == item;
      }
    } else {
      var b := Scrambled(lib.compare, lib.numeral, a);
      SameSymmetric(a, b);
      var item := ModelConfig("", desired.modelFamily, b.fields, None);
      assert !IsExact(lib, item, desired) && SameConfig(lib, item, desired);
    }
  }

  lemma FallbackAnswers(lib: Library, items: seq<ModelConfig>, desired: Descriptor)
    requires forall j :: 0 <= j < |items| ==> !SameConfig(lib, items[j], desired)
    ensures var sorted := StableSort(NewestFirst(lib), IdentityMatches(lib, items, desired));
      if sorted == [] then forall j :: 0 <= j < |items| ==> !IsIdentical(lib, items[j], desired)
      else exists i :: 0 <= i < |items| && sorted[0] == items[i] && IsAnswer(lib, items, desired, i)
  {
    var le, matches := NewestFirst(lib), IdentityMatches(lib, items, desired);
    assert forall x, y :: le(x, y) <==> !Fresher(lib, y, x);
    NewestFirstIsPreorder(lib);
    if matches == [] {
      forall j | 0 <= j < |items| ensures !IsIdentical(lib, items[j], desired) {
        if IsIdentical(lib, items[j], desired) { IsAMatch(lib, items, desired, j); }
      }
    } else {
      var k := StableSortHead(le, matches);
      var i := MatchPosition(lib, items, desired, k);
      forall j | 0 <= j < |items| && IsIdentical(lib, items[j], desired)
        ensures !Fresher(lib, items[j], items[i]) && (j < i ==> Fresher(lib, items[i], items[j]))
      {
        IsAMatch(lib, items, desired, j);
        if j < i {
          assert items[..i][j] == items[j];
          IsAMatch(lib, items[..i], desired, j);
        }
      }
      assert IsAnswer(lib, items, desired, i);
    }
  }

  // ----- Normalized texts

  predicate Trimmed(t: Text) {
    t == [] || (!Space(t[0]) && !Space(t[|t| - 1]))
  }

  lemma {:induction false} TrimEndTrims(t: Text)
    requires t != [] ==> !Space(t[0])
    ensures Trimmed(TrimEnd(t))
    ensures Trimmed(t) ==> TrimEnd(t) == t
  {
    if t != [] && Space(t[|t| - 1]) { TrimEndTrims(t[..|t| - 1]); }
  }

  lemma {:induction false} TrimTrims(t: Text)
    ensures Trimmed(TrimEnd(TrimStart(t)))
    ensures Trimmed(t) ==> TrimEnd(TrimStart(t)) == t
  {
    if t != [] && Space(t[0]) {
      TrimTrims(t[1..]);
    } else {
      TrimEndTrims(t);
    }
  }

  /** What `trim()` takes for space, one code unit at a time. */
  lemma SpacesAre(c: CodeUnit)
    ensures Space(c) <==> c in [0x9, 0xA, 0xB, 0xC, 0xD, 0x20, 0xA0, 0x1680, 0x2000, 0x2001, 0x2002, 0x2003, 0x2004,
                                0x2005, 0x2006, 0x2007, 0x2008, 0x2009, 0x200A, 0x2028, 0x2029, 0x202F, 0x205F,
                                0x3000, 0xFEFF]
  {
  }

  ghost predicate AllSpace(t: Text) {
    forall i :: 0 <= i < |t| ==> Space(t[i])
  }

  /** Normalizing drops the space around a text and lower-cases what is left. */
  lemma {:induction false} NormalizeMeans(lib: Library, before: Text, t: Text, after: Text)
    requires AllSpace(before) && Trimmed(t) && AllSpace(after)
    ensures Normalize(lib, before + t + after) == lib.lower(t)
    decreases |before| + |after|
  {
    var all := before + t + after;
    if before != [] {
      assert all[1..] == before[1..] + t + after;
      NormalizeMeans(lib, before[1..], t, after);
    } else if t == [] && after != [] {
      assert all[1..] == [] + t + after[1..];
      NormalizeMeans(lib, [], t, after[1..]);
    } else {
      assert all == t + after;
      TrimEndDrops(t, after);
    }
  }

  lemma {:induction false} TrimEndDrops(t: Text, after: Text)
    requires AllSpace(after) && Trimmed(t)
    ensures TrimEnd(t + after) == t
  {
    if after == [] {
      assert t + after == t;
    } else {
      assert (t + after)[..|t + after| - 1] == t + after[..|after| - 1];
      TrimEndDrops(t, after[..|after| - 1]);
    }
  }

  /** What `toLowerCase` does that matters here: once is enough, it puts no space at the ends, and whether a
      text is already in lower case is decided between its bars. */
  ghost predicate LowerCases(lower: Text -> Text) {
    && lower([]) == []
    && (forall t :: lower(lower(t)) == lower(t))
    && (forall t :: Trimmed(t) ==> Trimmed(lower(t)))
    && (forall a, b :: lower(a + [BAR] + b) == a + [BAR] + b <==> lower(a) == a && lower(b) == b)
  }

  function AsciiLower(t: Text): Text {
    seq(|t|, i requires 0 <= i < |t| => if 0x41 <= t[i] <= 0x5A then t[i] + 0x20 else t[i])
  }

  lemma AsciiLowerMeans(c: CodeUnit)
    ensures AsciiLower([c]) ==
      [if 'A' as int <= c as int <= 'Z' as int then (c as int - 'A' as int + 'a' as int) as CodeUnit else c]
  {
  }

  /** Lower-casing the letters A to Z is such a function. */
  lemma LowerCasingExists()
    ensures LowerCases(AsciiLower)
  {
    forall a, b ensures AsciiLower(a + [BAR] + b) == a + [BAR] + b <==> AsciiLower(a) == a && AsciiLower(b) == b {
      var t := a + [BAR] + b;
      assert AsciiLower(t) == AsciiLower(a) + [BAR] + AsciiLower(b);
      assert |AsciiLower(a)| == |a|;
      assert AsciiLower(t)[..|a|] == AsciiLower(a) && t[..|a|] == a;
      assert AsciiLower(t)[|a| + 1..] == AsciiLower(b) && t[|a| + 1..] == b;
    }
  }

  ghost predicate Normalized(lib: Library, t: Text) {
    Trimmed(t) && lib.lower(t) == t
  }

  /** Normalized texts are exactly what normalizing gives. */
  lemma NormalizedMeans(lib: Library, t: Text)
    requires LowerCases(lib.lower)
    ensures Normalized(lib, t) <==> exists raw :: Normalize(lib, raw) == t
    ensures Normalized(lib, t) ==> Normalize(lib, t) == t
  {
    if Normalized(lib, t) {
      TrimTrims(t);
      assert Normalize(lib, t) == t;
    }
    forall raw | Normalize(lib, raw) == t ensures Normalized(lib, t) {
      TrimTrims(raw);
      assert t == lib.lower(TrimEnd(TrimStart(raw)));
    }
  }

  // ----- What an identity identifies

  /** A bar that could be taken for a separator: no space stands directly on either side of it. */
  predicate FreeBar(t: Text, k: nat)
    requires k < |t|
  {
    t[k] == BAR && (k == 0 || !Space(t[k - 1])) && (k + 1 == |t| || !Space(t[k + 1]))
  }

  ghost predicate NoFreeBar(parts: seq<Text>) {
    forall i, k :: 0 <= i < |parts| && 0 <= k < |parts[i]| ==> !FreeBar(parts[i], k)
  }

  ghost predicate AllNormalized(lib: Library, parts: seq<Text>) {
    forall i :: 0 <= i < |parts| ==> Normalized(lib, parts[i])
  }

  predicate CleanStart(t: Text) {
    t == [] || !Space(t[0])
  }

  predicate CleanEnd(t: Text) {
    t == [] || !Space(t[|t| - 1])
  }

  /** No space directly before or after a separator. */
  ghost predicate CleanSeparators(parts: seq<Text>) {
    && (forall i :: 0 <= i < |parts| - 1 ==> CleanEnd(parts[i]))
    && (forall i :: 1 <= i < |parts| ==> CleanStart(parts[i]))
  }

  /** Different lists that join equally: some separator of the longer one is a free bar in the other. */
  lemma {:induction false} HiddenSeparator(p: seq<Text>, q: seq<Text>) returns (i: nat, k: nat)
    requires 1 <= |p| <= |q| && p != q && JoinBars(p) == JoinBars(q) && CleanSeparators(q)
    ensures i < |p| && k < |p[i]| && FreeBar(p[i], k)
    decreases |p|
  {
    var jp, jq, m, n := JoinBars(p), JoinBars(q), |p[0]|, |q[0]|;
    assert |q| > 1;
    if |p| == 1 || n < m {
      i, k := 0, n;
      SeparatorInside(p, q);
    } else {
      assert jp == p[0] + [BAR] + JoinBars(p[1..]) && jq == q[0] + [BAR] + JoinBars(q[1..]);
      if m == n {
        assert p[0] == jp[..m] == q[0];
        assert JoinBars(p[1..]) == jp[m + 1..] == JoinBars(q[1..]);
        assert p == [p[0]] + p[1..] && q == [q[0]] + q[1..];
        assert CleanSeparators(q[1..]) by { TailClean(q); }
        i, k := HiddenSeparator(p[1..], q[1..]);
      } else {
        var split := [q[0][m + 1..]] + q[1..];
        SplitHead(p, q, split);
        i, k := HiddenSeparator(p[1..], split);
      }
      i := i + 1;
    }
  }

  lemma TailClean(q: seq<Text>)
    requires CleanSeparators(q) && q != []
    ensures CleanSeparators(q[1..])
  {
  }

  lemma JoinBarsHead(parts: seq<Text>)
    requires parts != []
    ensures var j := JoinBars(parts);
      |parts[0]| <= |j| && j[..|parts[0]|] == parts[0] && (|parts| == 1 ==> j == parts[0])
  {
  }

  lemma SeparatorInside(p: seq<Text>, q: seq<Text>)
    requires |p| >= 1 && |q| > 1 && JoinBars(p) == JoinBars(q) && CleanSeparators(q)
    requires |p| == 1 || |q[0]| < |p[0]|
    ensures |q[0]| < |p[0]| && FreeBar(p[0], |q[0]|)
  {
    hide JoinBars;
    var j, n, rest := JoinBars(p), |q[0]|, JoinBars(q[1..]);
    JoinBarsStep(q);
    JoinBarsHead(p);
    assert j == q[0] + [BAR] + rest;
    assert n < |p[0]|;
    assert p[0][n] == j[n] == BAR;
    assert CleanEnd(q[0]) && CleanStart(q[1]);
    if n > 0 { assert p[0][n - 1] == j[n - 1] == q[0][n - 1]; }
    if n + 1 < |p[0]| {
      assert p[0][n + 1] == j[n + 1] == rest[0];
      FirstJoinedUnit(q[1..]);
    }
  }

  lemma FirstJoinedUnit(parts: seq<Text>)
    requires parts != [] && CleanStart(parts[0]) && JoinBars(parts) != []
    ensures !Space(JoinBars(parts)[0])
  {
  }

  lemma SplitHead(p: seq<Text>, q: seq<Text>, split: seq<Text>)
    requires |p| > 1 && |q| > 1 && |p[0]| < |q[0]| && JoinBars(p) == JoinBars(q) && CleanSeparators(q)
    requires split == [q[0][|p[0]| + 1..]] + q[1..]
    ensures JoinBars(p[1..]) == JoinBars(split) && CleanSeparators(split)
  {
    hide JoinBars, CleanSeparators;
    JoinBarsStep(p);
    JoinBarsStep(q);
    JoinBarsStep(split);
    assert split[1..] == q[1..];
    CutHead(p[0], JoinBars(p[1..]), q[0], JoinBars(q[1..]));
    SplitClean(q, split, |p[0]| + 1);
  }

  lemma CutHead(x: Text, xs: Text, y: Text, ys: Text)
    requires |x| < |y| && x + [BAR] + xs == y + [BAR] + ys
    ensures xs == y[|x| + 1..] + [BAR] + ys
  {
    var j := x + [BAR] + xs;
    assert xs == j[|x| + 1..];
    assert j[|x| + 1..] == y[|x| + 1..] + [BAR] + ys;
  }

  lemma SplitClean(q: seq<Text>, split: seq<Text>, m: nat)
    requires |q| > 1 && m <= |q[0]| && split == [q[0][m..]] + q[1..] && CleanSeparators(q)
    ensures CleanSeparators(split)
  {
    assert CleanEnd(q[0]) && forall i :: 1 <= i < |split| ==> split[i] == q[i];
  }

  lemma NormalizedAroundBar(lib: Library, x: Text, y: Text)
    requires LowerCases(lib.lower)
    ensures Normalized(lib, x) && Normalized(lib, y) ==> Normalized(lib, x + [BAR] + y)
    ensures Normalized(lib, x + [BAR] + y) && FreeBar(x + [BAR] + y, |x|) ==> Normalized(lib, x) && Normalized(lib, y)
  {
    var t := x + [BAR] + y;
    if Normalized(lib, t) && FreeBar(t, |x|) {
      assert x != [] ==> x[0] == t[0] && x[|x| - 1] == t[|x| - 1];
      assert y != [] ==> y[0] == t[|x| + 1] && y[|y| - 1] == t[|t| - 1];
    }
  }

  /** Normalized parts that join like `parts`, with a free bar taken for a separator. */
  lemma {:induction false} Confusable(lib: Library, parts: seq<Text>, i: nat, k: nat) returns (other: seq<Text>)
    requires LowerCases(lib.lower) && AllNormalized(lib, parts)
    requires |parts| > 1 && i < |parts| && k < |parts[i]| && FreeBar(parts[i], k)
    ensures |other| == |parts| && other != parts && JoinBars(other) == JoinBars(parts) && AllNormalized(lib, other)
  {
    hide LowerCases, Normalized;
    var x, y := parts[i][..k], parts[i][k + 1..];
    assert parts[i] == x + [BAR] + y;
    NormalizedAroundBar(lib, x, y);
    if i == 0 {
      NormalizedAroundBar(lib, y, parts[1]);
      other := [x, y + [BAR] + parts[1]] + parts[2..];
      assert |other[0]| < |parts[0]|;
      assert other[1..] == [y + [BAR] + parts[1]] + parts[2..];
      FirstJoined(y, parts[1], parts[2..]);
      assert parts[1..] == [parts[1]] + parts[2..];
      assert JoinBars(other) == x + [BAR] + (y + [BAR] + JoinBars(parts[1..]));
    } else if |parts| == 2 {
      NormalizedAroundBar(lib, parts[0], x);
      other := [parts[0] + [BAR] + x, y];
      assert |other[0]| > |parts[0]|;
      assert JoinBars(other) == parts[0] + [BAR] + x + [BAR] + y;
      assert parts[1..] == [parts[1]];
      assert JoinBars(parts) == parts[0] + [BAR] + parts[1];
    } else {
      var rest := Confusable(lib, parts[1..], i - 1, k);
      other := [parts[0]] + rest;
      assert other[1..] == rest;
    }
  }

  lemma FirstJoined(y: Text, p: Text, rest: seq<Text>)
    ensures JoinBars([y + [BAR] + p] + rest) == y + [BAR] + JoinBars([p] + rest)
  {
    assert ([y + [BAR] + p] + rest)[1..] == rest && ([p] + rest)[1..] == rest;
    if rest != [] {
      assert y + [BAR] + p + [BAR] + JoinBars(rest) == y + [BAR] + (p + [BAR] + JoinBars(rest));
    }
  }

  ghost predicate JoinsAlike(lib: Library, a: seq<Text>, b: seq<Text>) {
    |a| == |b| && AllNormalized(lib, a) && JoinBars(a) == JoinBars(b)
  }

  /** Among normalized parts, joining with bars tells them apart exactly when none of them has a free bar. */
  lemma JoinBarsExact(lib: Library, parts: seq<Text>)
    requires LowerCases(lib.lower) && AllNormalized(lib, parts) && |parts| > 1
    ensures NoFreeBar(parts) <==>
      forall other: seq<Text> :: JoinsAlike(lib, other, parts) ==> other == parts
  {
    hide LowerCases;
    if NoFreeBar(parts) {
      forall other: seq<Text> | JoinsAlike(lib, other, parts) ensures other == parts {
        if other != parts { var i, k := HiddenSeparator(parts, other); }
      }
    } else {
      var i, k :| 0 <= i < |parts| && 0 <= k < |parts[i]| && FreeBar(parts[i], k);
      var other := Confusable(lib, parts, i, k);
      assert JoinsAlike(lib, other, parts);
    }
  }

  /** The seven parts of an identity. */
  function IdentityParts(lib: Library, family: Text, config: seq<Field>): seq<Text> {
    [Normalize(lib, family)] + Identities(lib, config, IdentityKeys())
  }

  lemma PartsNormalized(lib: Library, family: Text, config: seq<Field>)
    requires LowerCases(lib.lower)
    ensures AllNormalized(lib, IdentityParts(lib, family, config)) && |IdentityParts(lib, family, config)| == 7
  {
    hide LowerCases, Normalized, Normalize;
    NormalizedMeans(lib, Normalize(lib, family));
    var parts, keys := IdentityParts(lib, family, config), IdentityKeys();
    forall i | 1 <= i < 7 ensures Normalized(lib, parts[i]) {
      var v := Property(config, keys[i - 1]);
      if v.Some? && v.value.Str? { NormalizedMeans(lib, parts[i]); } else { NothingNormalized(lib); }
    }
  }

  lemma NothingNormalized(lib: Library)
    requires LowerCases(lib.lower)
    ensures Normalized(lib, [])
  {
  }

  lemma {:induction false} PropertyAt(config: seq<Field>, i: nat)
    requires DistinctKeys(config) && i < |config|
    ensures Property(config, config[i].key) == Some(config[i].value)
  {
    if i > 0 { PropertyAt(config[1..], i - 1); }
  }

  lemma IdentityKeysDiffer()
    ensures |IdentityKeys()| == 6 && forall i, j :: 0 <= i < j < 6 ==> IdentityKeys()[i] != IdentityKeys()[j]
  {
    var keys := IdentityKeys();
    assert |keys[0]| == 4 && |keys[1]| == 7 && |keys[2]| == 9 && |keys[3]| == 12 && |keys[4]| == 12 && |keys[5]| == 9;
    assert keys[2][0] == 0x74 && keys[5][0] == 0x64 && keys[3][0] == 0x73 && keys[4][0] == 0x64;
  }

  /** Every list of seven normalized parts is the identity of some config. */
  lemma PartsReachable(lib: Library, parts: seq<Text>) returns (config: seq<Field>)
    requires LowerCases(lib.lower) && AllNormalized(lib, parts) && |parts| == 7
    ensures WellFormed(Obj(config)) && IdentityParts(lib, parts[0], config) == parts
  {
    hide LowerCases, Normalized, Normalize, IdentityKeys;
    IdentityKeysDiffer();
    var keys := IdentityKeys();
    config := seq(6, i requires 0 <= i < 6 => Field(keys[i], Str(parts[i + 1])));
    NormalizedMeans(lib, parts[0]);
    var built := IdentityParts(lib, parts[0], config);
    forall i | 1 <= i < 7 ensures built[i] == parts[i] {
      PropertyAt(config, i - 1);
      assert Property(config, keys[i - 1]) == Some(Str(parts[i]));
      NormalizedMeans(lib, parts[i]);
    }
    assert built == parts;
  }

  /** The text of a field of the config in an identity; empty if there is none or it is not a string. */
  ghost function FieldText(lib: Library, config: seq<Field>, name: string): Text
    requires forall i :: 0 <= i < |name| ==> name[i] < 128 as char
  {
    if exists i :: 0 <= i < |config| && config[i].key == Ascii(name) && config[i].value.Str? then
      var i :| 0 <= i < |config| && config[i].key == Ascii(name) && config[i].value.Str?;
      Normalize(lib, config[i].value.text)
    else []
  }

  lemma FieldTextMeans(lib: Library, config: seq<Field>, name: string)
    requires forall i :: 0 <= i < |name| ==> name[i] < 128 as char
    requires DistinctKeys(config)
    ensures FieldText(lib, config, name) == NormalizeIdentityValue(lib, Property(config, Ascii(name)))
  {
    hide Normalize, Ascii;
    if i :| 0 <= i < |config| && config[i].key == Ascii(name) {
      PropertyAt(config, i);
    } else {
      PropertyMissing(config, Ascii(name));
    }
  }

  /** The texts that make up an identity. */
  ghost function IdentityTexts(lib: Library, d: Descriptor): seq<Text> {
    [Normalize(lib, d.modelFamily), FieldText(lib, d.config, "name"), FieldText(lib, d.config, "version"),
     FieldText(lib, d.config, "task_type"), FieldText(lib, d.config, "subtask_type"),
     FieldText(lib, d.config, "data_profile"), FieldText(lib, d.config, "data_type")]
  }

  lemma PartsAreTexts(lib: Library, d: Descriptor)
    requires DistinctKeys(d.config)
    ensures IdentityParts(lib, d.modelFamily, d.config) == IdentityTexts(lib, d)
  {
    hide Normalize, Ascii, FieldText, Property, NormalizeIdentityValue, DistinctKeys;
    FieldTextMeans(lib, d.config, "name");
    FieldTextMeans(lib, d.config, "version");
    FieldTextMeans(lib, d.config, "task_type");
    FieldTextMeans(lib, d.config, "subtask_type");
    FieldTextMeans(lib, d.config, "data_profile");
    FieldTextMeans(lib, d.config, "data_type");
  }

  /** Family and identity fields agree, up to letter case and surrounding space. */
  ghost predicate SameFields(lib: Library, item: ModelConfig, desired: Descriptor) {
    IdentityTexts(lib, Descriptor(item.modelFamily, item.config)) == IdentityTexts(lib, desired)
  }

  /** What equal identities mean, exactly: an item has the same identity just when family and identity fields agree,
      if and only if no text of the desired identity has a free bar. */
  lemma IdentityExact(lib: Library, desired: Descriptor)
    requires LowerCases(lib.lower) && WellFormed(Obj(desired.config))
    ensures NoFreeBar(IdentityTexts(lib, desired)) <==>
      forall item: ModelConfig :: WellFormed(Obj(item.config)) ==>
        (IsIdentical(lib, item, desired) <==> SameFields(lib, item, desired))
  {
    hide LowerCases, AllNormalized, NoFreeBar, JoinBars, Normalize, IdentityKeys, IdentityTexts, DistinctKeys;
    var parts := IdentityParts(lib, desired.modelFamily, desired.config);
    PartsNormalized(lib, desired.modelFamily, desired.config);
    PartsAreTexts(lib, desired);
    JoinBarsExact(lib, parts);
    if NoFreeBar(parts) {
      forall item: ModelConfig | WellFormed(Obj(item.config))
        ensures IsIdentical(lib, item, desired) <==> SameFields(lib, item, desired)
      {
        PartsNormalized(lib, item.modelFamily, item.config);
        PartsAreTexts(lib, Descriptor(item.modelFamily, item.config));
        assert IsIdentical(lib, item, desired) ==>
            JoinsAlike(lib, IdentityParts(lib, item.modelFamily, item.config), parts);
      }
    } else {
      var other: seq<Text> :| JoinsAlike(lib, other, parts) && other != parts;
      var config := PartsReachable(lib, other);
      var item := ModelConfig("", other[0], config, None);
      PartsAreTexts(lib, Descriptor(item.modelFamily, item.config));
      assert IsIdentical(lib, item, desired) && !SameFields(lib, item, desired);
    }
  }

  /** Two configs with different names and versions and the same identity. */
  lemma IdentitiesCollide(lib: Library, family: Text)
    requires LowerCases(lib.lower) && lib.lower(Ascii("a|b")) == Ascii("a|b")
    ensures var one := [Field(Ascii("name"), Str(Ascii("a|b")))];
      var two := [Field(Ascii("name"), Str(Ascii("a"))), Field(Ascii("version"), Str(Ascii("b|")))];
      && WellFormed(Obj(one)) && WellFormed(Obj(two))
      && ConfigIdentity(lib, family, one) == ConfigIdentity(lib, family, two)
      && IdentityParts(lib, family, one) != IdentityParts(lib, family, two)
  {
    var a, b, ab, bar := Ascii("a"), Ascii("b"), Ascii("a|b"), Ascii("b|");
    NormalizedNames(lib);
    NamedKeys();
    hide LowerCases, Normalize, IdentityKeys, JoinBars, Ascii, Identities;
    NamedParts(lib, [Field(IdentityKeys()[0], Str(ab))]);
    NamedParts(lib, [Field(IdentityKeys()[0], Str(a)), Field(IdentityKeys()[1], Str(bar))]);
    var f := Normalize(lib, family);
    assert [f] + [ab, [], [], [], [], []] == [f, ab, [], [], [], [], []];
    assert [f] + [a, bar, [], [], [], []] == [f, a, bar, [], [], [], []];
    MovedBar(f, a, b);
  }

  lemma NormalizedNames(lib: Library)
    requires LowerCases(lib.lower) && lib.lower(Ascii("a|b")) == Ascii("a|b")
    ensures var a, b, ab, bar := Ascii("a"), Ascii("b"), Ascii("a|b"), Ascii("b|");
      && ab == a + [BAR] + b && bar == b + [BAR] + [] && ab != a
      && Normalize(lib, a) == a && Normalize(lib, ab) == ab && Normalize(lib, bar) == bar
  {
    var a, b, ab, bar := Ascii("a"), Ascii("b"), Ascii("a|b"), Ascii("b|");
    assert ab == a + [BAR] + b && bar == b + [BAR] + [] && ab != a;
    NormalizedMeans(lib, a);
    NormalizedMeans(lib, ab);
    NormalizedMeans(lib, bar);
  }

  /** The identity fields of a config that has a name and perhaps a version. */
  lemma NamedParts(lib: Library, config: seq<Field>)
    requires 1 <= |config| <= 2
    requires forall i :: 0 <= i < |config| ==> config[i].key == IdentityKeys()[i] && config[i].value.Str?
    ensures WellFormed(Obj(config))
    ensures Identities(lib, config, IdentityKeys()) ==
            [Normalize(lib, config[0].value.text), if |config| == 2 then Normalize(lib, config[1].value.text) else [],
             [], [], [], []]
  {
    hide IdentityKeys, Normalize;
    IdentityKeysDiffer();
    var keys := IdentityKeys();
    forall j | 0 <= j < 6
      ensures j < |config| ==> Property(config, keys[j]) == Some(config[j].value)
      ensures j >= |config| ==> Property(config, keys[j]) == None
    {
      if j < |config| { PropertyAt(config, j); } else { PropertyMissing(config, keys[j]); }
    }
  }

  lemma NamedKeys()
    ensures IdentityKeys()[0] == Ascii("name") && IdentityKeys()[1] == Ascii("version")
  {
  }

  lemma {:induction false} PropertyMissing(config: seq<Field>, key: Text)
    requires forall i :: 0 <= i < |config| ==> config[i].key != key
    ensures Property(config, key) == None
  {
    if config != [] { PropertyMissing(config[1..], key); }
  }

  lemma MovedBar(f: Text, a: Text, b: Text)
    ensures JoinBars([f, a + [BAR] + b, [], [], [], [], []]) == JoinBars([f, a, b + [BAR] + [], [], [], [], []])
  {
    var rest: seq<Text> := [[], [], [], []];
    var x, y := [f, a + [BAR] + b, [], [], [], [], []], [f, a, b + [BAR] + [], [], [], [], []];
    hide JoinBars;
    var tail := JoinBars(rest);
    assert x[1..][1..][1..] == rest && y[1..][1..][1..] == rest;
    JoinBarsStep(x);
    JoinBarsStep(x[1..]);
    JoinBarsStep(x[1..][1..]);
    JoinBarsStep(y);
    JoinBarsStep(y[1..]);
    JoinBarsStep(y[1..][1..]);
    assert (a + [BAR] + b) + [BAR] + ([] + [BAR] + tail) == a + [BAR] + ((b + [BAR] + []) + [BAR] + tail);
  }

  lemma JoinBarsStep(parts: seq<Text>)
    requires |parts| > 1
    ensures JoinBars(parts) == parts[0] + [BAR] + JoinBars(parts[1..])
  {
  }
}
