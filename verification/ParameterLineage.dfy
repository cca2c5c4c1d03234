/** Parameter sets and their clone lineage. */
module ParameterLineage {
  import opened Options

  type SetId = string

  datatype Row = Row(id: SetId, modelConfigId: string, name: string, parameters: string, versionTag: string,
                     parent: Option<SetId>, provenance: string)

  /** What a clone request may override; a missing name or tag is made up from the source's. */
  datatype Clone = Clone(name: Option<string>, versionTag: Option<string>, parameters: Option<string>,
                         provenance: Option<string>)

  /** A path of parents, each the parent of the next, from a set whose own parent is none or not stored. */
  ghost predicate IsLineage(rows: map<SetId, Row>, chain: seq<Row>, id: SetId) {
    && chain != [] && chain[|chain| - 1].id == id && IsTop(rows, chain[0])
    && (forall i :: 0 <= i < |chain| ==> chain[i].id in rows && rows[chain[i].id] == chain[i])
    && (forall i :: 0 <= i < |chain| - 1 ==> chain[i + 1].parent == Some(chain[i].id))
    && (forall i, j :: 0 <= i < j < |chain| ==> chain[i].id != chain[j].id)
  }

  predicate IsTop(rows: map<SetId, Row>, row: Row) {
    row.parent.Some? ==> row.parent.value !in rows
  }

  ghost predicate HasLineage(rows: map<SetId, Row>, id: SetId) {
    exists chain: seq<Row> :: IsLineage(rows, chain, id)
  }

  /** Rows are stored under their ids, and the walk up from each of them ends. */
  ghost predicate WellFounded(rows: map<SetId, Row>) {
    && (forall id :: id in rows ==> rows[id].id == id)
    && (forall id :: id in rows ==> HasLineage(rows, id))
  }

  ghost predicate ParentsKnown(rows: map<SetId, Row>) {
    forall id :: id in rows && rows[id].parent.Some? ==> rows[id].parent.value in rows
  }

  /** The top of the lineage of `id` has a missing parent, `missing`. */
  ghost predicate TopNames(rows: map<SetId, Row>, id: SetId, missing: SetId) {
    exists chain: seq<Row> :: IsLineage(rows, chain, id) && chain[0].parent == Some(missing)
  }

  /** A new row is its own parent, or the missing parent at the top of its parent's lineage. */
  ghost predicate ClosesCycle(rows: map<SetId, Row>, row: Row) {
    row.parent.Some? && (row.parent.value == row.id || TopNames(rows, row.parent.value, row.id))
  }

  /** What storing a row does: refused when the id exists or, if the foreign key is enforced, the parent does
      not, the row itself included. */
  function Stored(enforced: bool, rows: map<SetId, Row>, row: Row): map<SetId, Row> {
    if Accepts(enforced, rows, row) then rows[row.id := row] else rows
  }

  predicate Accepts(enforced: bool, rows: map<SetId, Row>, row: Row) {
    row.id !in rows && (enforced && row.parent.Some? ==> row.parent.value in rows || row.parent.value == row.id)
  }

  function Reversed<T>(s: seq<T>): (r: seq<T>)
    ensures |r| == |s| && forall i :: 0 <= i < |s| ==> r[i] == s[|s| - 1 - i]
  {
    seq(|s|, i requires 0 <= i < |s| => s[|s| - 1 - i])
  }

  class Repository {
    /** Whether the database enforces the foreign key on the parent. */
    const enforced: bool
    var rows: map<SetId, Row>

    ghost predicate Valid()
      reads this
    {
      WellFounded(rows) && (enforced ==> ParentsKnown(rows))
    }

    constructor (enforced: bool)
      ensures Valid() && rows == map[] && this.enforced == enforced
    {
      this.enforced, rows := enforced, map[];
    }

    /** Nothing is asked of the caller: every walk still ends exactly unless the stored row closes a cycle, which
        under an enforced foreign key only its own parent does. */
    method Create(row: Row) returns (ok: bool)
      modifies this
      ensures ok == Accepts(enforced, old(rows), row) && rows == Stored(enforced, old(rows), row)
      ensures old(Valid()) ==> (Valid() <==> !(ok && ClosesCycle(old(rows), row)))
      ensures old(Valid()) && enforced ==> (Valid() <==> !(ok && row.parent == Some(row.id)))
    {
      hide WellFounded, ClosesCycle, ParentsKnown;
      ok := row.id !in rows
            && (!enforced || row.parent.None? || row.parent.value in rows || row.parent.value == row.id);
      if ok {
        ghost var before := rows;
        rows := rows[row.id := row];
        if WellFounded(before) {
          StoreKeepsLineages(before, row);
          if enforced && ParentsKnown(before) { OnlyItselfCloses(before, row); }
        }
      }
    }

    /** `clone_parameter_set`, with a fresh id: no row has it, or names it as its parent. */
    method CloneSet(source: SetId, request: Clone, freshId: SetId, defaultTag: string) returns (row: Option<Row>)
      requires Valid() && freshId !in rows && freshId != source
      requires forall id :: id in rows ==> rows[id].parent != Some(freshId)
      modifies this
      ensures Valid()
      ensures row.None? <==> source !in old(rows)
      ensures row.None? ==> rows == old(rows)
      ensures row.Some? ==>
        && rows == old(rows)[freshId := row.value] && row.value.id == freshId
        && row.value.parent == Some(source) && row.value.modelConfigId == old(rows)[source].modelConfigId
        && row.value.name == (if request.name.Some? then request.name.value else old(rows)[source].name + " (clone)")
        && row.value.versionTag == (if request.versionTag.Some? then request.versionTag.value else defaultTag)
        && row.value.parameters == (if request.parameters.Some? then request.parameters.value
                                      else old(rows)[source].parameters)
        && row.value.provenance == (if request.provenance.Some? then request.provenance.value
                                      else old(rows)[source].provenance)
    {
      if source !in rows {
        return None;
      }
      var was := rows[source];
      var copy := Row(
        freshId,
        was.modelConfigId,
        if request.name.Some? then request.name.value else was.name + " (clone)",
        if request.parameters.Some? then request.parameters.value else was.parameters,
        if request.versionTag.Some? then request.versionTag.value else defaultTag,
        Some(was.id),
        if request.provenance.Some? then request.provenance.value else was.provenance);
      FreshClosesNoCycle(rows, copy);
      var ok := Create(copy);
      return Some(copy);
    }

    /** The walk up the parents ends, and read backwards is the lineage from the top. */
    method ListLineage(id: SetId) returns (lineage: seq<Row>)
      requires Valid()
      ensures id !in rows ==> lineage == []
      ensures id in rows ==> IsLineage(rows, lineage, id)
      ensures id in rows && enforced ==> lineage[0].parent == None
    {
      lineage := [];
      ghost var chain: seq<Row> := [];
      if id in rows {
        assert HasLineage(rows, id);
        chain :| IsLineage(rows, chain, id);
      }
      hide WellFounded, ParentsKnown, IsLineage, IsTop, Reversed;
      var cursor := Some(id);
      ghost var left: nat := |chain|;
      if id in rows { LineageEnd(rows, chain, id); }
      while cursor.Some?
        invariant left <= |chain| && lineage == Reversed(chain[left..])
        invariant (id in rows <==> chain != []) && (chain != [] ==> IsLineage(rows, chain, id))
        invariant cursor.Some? && cursor.value in rows <==> left > 0
        invariant left > 0 ==> cursor.value == chain[left - 1].id
        decreases left
      {
        if cursor.value !in rows {
          break;
        }
        WalkStep(rows, chain, id, left);
        var row := rows[cursor.value];
        lineage := lineage + [row];
        left := left - 1;
        cursor := row.parent;
      }
      assert chain[0..] == chain;
      lineage := Reversed(lineage);
      assert lineage == chain;
      if id in rows { TopIsRoot(rows, chain, id); }
    }
  }

  lemma LineageEnd(rows: map<SetId, Row>, chain: seq<Row>, id: SetId)
    requires IsLineage(rows, chain, id)
    ensures chain != [] && chain[|chain| - 1].id == id && id in rows
  {
  }

  /** One step of the walk, at a row with `left - 1` rows above it. */
  lemma WalkStep(rows: map<SetId, Row>, chain: seq<Row>, id: SetId, left: nat)
    requires IsLineage(rows, chain, id) && 0 < left <= |chain|
    ensures var row := chain[left - 1];
      && row.id in rows && rows[row.id] == row
      && Reversed(chain[left - 1..]) == Reversed(chain[left..]) + [row]
      && (row.parent.Some? && row.parent.value in rows <==> left > 1)
      && (left > 1 ==> row.parent.value == chain[left - 2].id)
  {
    assert left > 1 ==> chain[left - 2 + 1].parent == Some(chain[left - 2].id);
  }

  lemma TopIsRoot(rows: map<SetId, Row>, chain: seq<Row>, id: SetId)
    requires IsLineage(rows, chain, id)
    ensures ParentsKnown(rows) ==> chain[0].parent == None
  {
  }

  // ----- When storing a row keeps every walk finite

  /** The part of a lineage down to one of its rows is the lineage of that row. */
  lemma LineagePrefix(rows: map<SetId, Row>, chain: seq<Row>, id: SetId, k: nat)
    requires IsLineage(rows, chain, id) && k < |chain|
    ensures IsLineage(rows, chain[..k + 1], chain[k].id)
  {
  }

  /** Lineages that share a row have the same top. */
  lemma SharedTop(rows: map<SetId, Row>, a: seq<Row>, b: seq<Row>, x: SetId, y: SetId, i: nat, j: nat)
    requires IsLineage(rows, a, x) && IsLineage(rows, b, y) && i < |a| && j < |b| && a[i].id == b[j].id
    ensures a[0] == b[0]
  {
    LineagePrefix(rows, a, x, i);
    LineagePrefix(rows, b, y, j);
    LineageUnique(rows, a[..i + 1], b[..j + 1], a[i].id);
    assert a[0] == a[..i + 1][0] == b[..j + 1][0] == b[0];
  }

  lemma LineageGrows(rows: map<SetId, Row>, chain: seq<Row>, id: SetId, row: Row)
    requires IsLineage(rows, chain, id) && row.id !in rows && chain[0].parent != Some(row.id)
    ensures IsLineage(rows[row.id := row], chain, id)
  {
  }

  /** Putting a lineage above another one whose top names its last row. */
  lemma LineagesJoin(rows: map<SetId, Row>, above: seq<Row>, middle: SetId, below: seq<Row>, id: SetId,
                     was: map<SetId, Row>)
    requires IsLineage(rows, above, middle) && IsLineage(was, below, id) && below[0].parent == Some(middle)
    requires forall x :: x in was ==> x in rows && rows[x] == was[x]
    requires forall i, j :: 0 <= i < |above| && 0 <= j < |below| ==> above[i].id != below[j].id
    ensures IsLineage(rows, above + below, id)
  {
    var chain := above + below;
    forall i | 0 <= i < |chain| - 1 ensures chain[i + 1].parent == Some(chain[i].id) {
      if i < |above| - 1 {
        assert above[i + 1].parent == Some(above[i].id);
      } else if i >= |above| {
        assert below[i - |above| + 1].parent == Some(below[i - |above|].id);
      }
    }
  }

  lemma BelowParent(rows: map<SetId, Row>, row: Row, above: seq<Row>)
    requires row.id !in rows && row.parent.Some? && IsLineage(rows, above, row.parent.value)
    requires above[0].parent != Some(row.id)
    ensures IsLineage(rows[row.id := row], above + [row], row.id)
  {
    var after, chain := rows[row.id := row], above + [row];
    LineageGrows(rows, above, row.parent.value, row);
    forall i | 0 <= i < |chain| - 1 ensures chain[i + 1].parent == Some(chain[i].id) {
      if i < |above| - 1 { assert above[i + 1].parent == Some(above[i].id); }
    }
  }

  /** Without a cycle the new row has a lineage: itself, under its parent's if that is stored. */
  lemma NewRowLineage(rows: map<SetId, Row>, row: Row) returns (above: seq<Row>)
    requires WellFounded(rows) && row.id !in rows && !ClosesCycle(rows, row)
    ensures IsLineage(rows[row.id := row], above + [row], row.id)
    ensures above != [] ==>
      row.parent.Some? && IsLineage(rows, above, row.parent.value) && above[0].parent != Some(row.id)
  {
    if row.parent.Some? && row.parent.value in rows {
      assert HasLineage(rows, row.parent.value);
      above :| IsLineage(rows, above, row.parent.value);
      assert above[0].parent != Some(row.id);
      BelowParent(rows, row, above);
    } else {
      above := [];
      assert [] + [row] == [row];
    }
  }

  lemma OldRowLineage(rows: map<SetId, Row>, row: Row, id: SetId)
    requires WellFounded(rows) && row.id !in rows && !ClosesCycle(rows, row) && id in rows
    ensures HasLineage(rows[row.id := row], id)
  {
    assert HasLineage(rows, id);
    var below: seq<Row> :| IsLineage(rows, below, id);
    if below[0].parent != Some(row.id) {
      LineageGrows(rows, below, id, row);
    } else {
      BelowNewRow(rows, row, below, id);
    }
  }

  /** A lineage whose top named the new row goes on with the new row's. */
  lemma BelowNewRow(rows: map<SetId, Row>, row: Row, below: seq<Row>, id: SetId)
    requires WellFounded(rows) && row.id !in rows && !ClosesCycle(rows, row)
    requires IsLineage(rows, below, id) && below[0].parent == Some(row.id)
    ensures HasLineage(rows[row.id := row], id)
  {
    hide IsLineage, WellFounded, ClosesCycle;
    LineageKnown(rows, below, id);
    var above := NewRowLineage(rows, row);
    if above != [] { NoSharedRows(rows, above, row.parent.value, below, id); }
    LineagesJoin(rows[row.id := row], above + [row], row.id, below, id, rows);
    assert IsLineage(rows[row.id := row], (above + [row]) + below, id);
  }

  lemma NoSharedRows(rows: map<SetId, Row>, a: seq<Row>, x: SetId, b: seq<Row>, y: SetId)
    requires a != [] && b != [] && IsLineage(rows, a, x) && IsLineage(rows, b, y) && a[0].parent != b[0].parent
    ensures forall i, j :: 0 <= i < |a| && 0 <= j < |b| ==> a[i].id != b[j].id
  {
    hide IsLineage;
    forall i, j | 0 <= i < |a| && 0 <= j < |b| ensures a[i].id != b[j].id {
      if a[i].id == b[j].id { SharedTop(rows, a, b, x, y, i, j); }
    }
  }

  lemma LineageKnown(rows: map<SetId, Row>, chain: seq<Row>, id: SetId)
    requires IsLineage(rows, chain, id)
    ensures chain != [] && forall i :: 0 <= i < |chain| ==> chain[i].id in rows
  {
  }

  /** If the top of a lineage names the new row, then every lineage of the same set passes through it. */
  lemma {:induction false} PassesThrough(rows: map<SetId, Row>, row: Row, chain: seq<Row>, id: SetId, other: seq<Row>)
    requires IsLineage(rows, chain, id) && row.id !in rows && chain[0].parent == Some(row.id)
    requires IsLineage(rows[row.id := row], other, id)
    ensures exists k :: 0 <= k < |other| && other[k].id == row.id
    decreases |chain|
  {
    var after, n, m := rows[row.id := row], |chain| - 1, |other| - 1;
    assert chain[n] == rows[id] == after[id] == other[m];
    assert n > 0 ==> chain[n - 1 + 1].parent == Some(chain[n - 1].id);
    assert other[m].parent.Some? && other[m].parent.value in after;
    assert m > 0;
    assert other[m - 1 + 1].parent == Some(other[m - 1].id);
    if n > 0 {
      LineagePrefix(rows, chain, id, n - 1);
      LineagePrefix(after, other, id, m - 1);
      PassesThrough(rows, row, chain[..n], chain[n - 1].id, other[..m]);
    }
  }

  lemma CycleHasNoLineage(rows: map<SetId, Row>, row: Row, chain: seq<Row>)
    requires row.id !in rows && ClosesCycle(rows, row)
    ensures !IsLineage(rows[row.id := row], chain, row.id)
  {
    var after := rows[row.id := row];
    if row.parent.value == row.id {
      if IsLineage(after, chain, row.id) { NeverBack(after, chain, row.id); }
    } else {
      var above: seq<Row> :| IsLineage(rows, above, row.parent.value) && above[0].parent == Some(row.id);
      if IsLineage(after, chain, row.id) { NeverThrough(rows, row, above, chain); }
    }
  }

  /** In a lineage, a set is not its own parent. */
  lemma NeverBack(rows: map<SetId, Row>, chain: seq<Row>, id: SetId)
    requires IsLineage(rows, chain, id)
    ensures rows[id].parent != Some(id)
  {
    var n := |chain| - 1;
    assert n > 0 ==> chain[n - 1 + 1].parent == Some(chain[n - 1].id);
  }

  lemma NeverThrough(rows: map<SetId, Row>, row: Row, above: seq<Row>, chain: seq<Row>)
    requires row.id !in rows && row.parent.Some? && IsLineage(rows, above, row.parent.value)
    requires IsLineage(rows[row.id := row], chain, row.id)
    ensures above[0].parent != Some(row.id)
  {
    var after, n := rows[row.id := row], |chain| - 1;
    assert row.parent.value in rows;
    assert chain[n] == row;
    assert n > 0;
    assert chain[n - 1 + 1].parent == Some(chain[n - 1].id);
    LineagePrefix(after, chain, row.id, n - 1);
    if above[0].parent == Some(row.id) { PassesThrough(rows, row, above, row.parent.value, chain[..n]); }
  }

  /** With every walk finite before: after storing a new row every walk still ends if and only if the row does
      not close a cycle. */
  lemma StoreKeepsLineages(rows: map<SetId, Row>, row: Row)
    requires WellFounded(rows) && row.id !in rows
    ensures WellFounded(rows[row.id := row]) <==> !ClosesCycle(rows, row)
  {
    hide ClosesCycle, IsLineage;
    var after := rows[row.id := row];
    if ClosesCycle(rows, row) {
      forall chain: seq<Row> ensures !IsLineage(after, chain, row.id) { CycleHasNoLineage(rows, row, chain); }
      assert !HasLineage(after, row.id);
    } else {
      var above := NewRowLineage(rows, row);
      assert HasLineage(after, row.id);
      forall id | id in rows ensures HasLineage(after, id) { OldRowLineage(rows, row, id); }
    }
  }

  /** Under an enforced foreign key no parent is ever missing, so only a row that is its own parent closes a cycle. */
  lemma OnlyItselfCloses(rows: map<SetId, Row>, row: Row)
    requires ParentsKnown(rows) && row.id !in rows
    ensures ClosesCycle(rows, row) <==> row.parent == Some(row.id)
    ensures Accepts(true, rows, row) ==> ParentsKnown(rows[row.id := row])
  {
    if row.parent.Some? && TopNames(rows, row.parent.value, row.id) {
      var chain: seq<Row> :| IsLineage(rows, chain, row.parent.value) && chain[0].parent == Some(row.id);
      TopIsRoot(rows, chain, row.parent.value);
    }
  }

  lemma FreshClosesNoCycle(rows: map<SetId, Row>, row: Row)
    requires row.parent != Some(row.id) && forall id :: id in rows ==> rows[id].parent != Some(row.id)
    ensures !ClosesCycle(rows, row)
  {
  }

  /** It happens without the foreign key: store a set under a missing parent, then a set with that id under the
      first. Both are accepted, and the walk from either goes round for ever. */
  lemma TwoStoresCloseCycle(one: Row, other: Row)
    requires one.id != other.id && one.parent == Some(other.id) && other.parent == Some(one.id)
    ensures var first := Stored(false, map[], one); var second := Stored(false, first, other);
      && second == map[one.id := one, other.id := other]
      && WellFounded(first) && ClosesCycle(first, other) && !HasLineage(second, other.id)
  {
    var first := map[one.id := one];
    assert Stored(false, map[], one) == first;
    assert IsLineage(first, [one], one.id);
    assert HasLineage(first, one.id);
    assert ClosesCycle(first, other);
    var second := first[other.id := other];
    forall chain: seq<Row> ensures !IsLineage(second, chain, other.id) { CycleHasNoLineage(first, other, chain); }
  }

  /** A top, or a set that has its parent's model config, as every clone does. */
  predicate IsCloneOf(rows: map<SetId, Row>, row: Row) {
    row.parent.Some? && row.parent.value in rows ==> row.modelConfigId == rows[row.parent.value].modelConfigId
  }

  /** Along links made by cloning, everything shares the model config of the top. */
  lemma {:induction false} ClonesShareTheirModelConfig(rows: map<SetId, Row>, chain: seq<Row>, id: SetId, i: nat)
    requires IsLineage(rows, chain, id) && i < |chain|
    requires forall row :: row in chain ==> IsCloneOf(rows, row)
    ensures chain[i].modelConfigId == chain[0].modelConfigId
  {
    if i > 0 {
      ClonesShareTheirModelConfig(rows, chain, id, i - 1);
      assert chain[i] in chain;
      assert chain[i - 1 + 1].parent == Some(chain[i - 1].id);
    }
  }

  /** A set has only one lineage. */
  lemma {:induction false} LineageUnique(rows: map<SetId, Row>, a: seq<Row>, b: seq<Row>, id: SetId)
    requires IsLineage(rows, a, id) && IsLineage(rows, b, id)
    ensures a == b
  {
    var m, n := |a| - 1, |b| - 1;
    assert a[m] == rows[id] == b[n];
    assert m > 0 ==> a[m - 1 + 1].parent == Some(a[m - 1].id);
    assert n > 0 ==> b[n - 1 + 1].parent == Some(b[n - 1].id);
    assert m > 0 <==> n > 0 by {
      assert m > 0 ==> a[m - 1].id in rows;
      assert n > 0 ==> b[n - 1].id in rows;
    }
    if m > 0 {
      LineageUnique(rows, a[..m], b[..n], a[m - 1].id);
      assert a == a[..m] + [a[m]] && b == b[..n] + [b[n]];
    } else {
      assert a == [a[0]] && b == [b[0]];
    }
  }
}
