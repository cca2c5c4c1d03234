/** The run artifact table: deduplication by checksum and pruning of old intermediates. */
module RunArtifacts {
  import opened Options

  datatype Row = Row(
    id: nat,
    runId: string,
    runType: string,
    jobId: string,
    artifactRef: string,
    checksum: string,
    sizeBytes: nat,
    metrics: string,
    notes: Option<string>,
    lastAccessed: int,
    retentionClass: string,
    createdAt: int)

  datatype Summary = Summary(
    runId: string,
    runType: string,
    jobId: string,
    artifactRef: string,
    checksum: Option<string>,
    sizeBytes: Option<nat>,
    metrics: string,
    notes: Option<string>,
    retentionClass: string)

  /** Rows of one run, run type and checksum are the same row; rows of one checksum share their reference. */
  ghost predicate Deduplicated(rows: seq<Row>) {
    && (forall i, j :: 0 <= i < |rows| && 0 <= j < |rows| && SameArtifact(rows[i], rows[j]) ==> i == j)
    && (forall i, j :: 0 <= i < |rows| && 0 <= j < |rows| && rows[i].checksum == rows[j].checksum ==>
          rows[i].artifactRef == rows[j].artifactRef)
    && (forall i, j :: 0 <= i < j < |rows| ==> rows[i].id < rows[j].id)
  }

  predicate SameArtifact(a: Row, b: Row) {
    a.runId == b.runId && a.runType == b.runType && a.checksum == b.checksum
  }

  predicate Stale(row: Row, cutoff: int) {
    row.retentionClass == "intermediate" && row.lastAccessed < cutoff
  }

  function Kept(rows: seq<Row>, cutoff: int): seq<Row> {
    if rows == [] then []
    else
      var n := |rows| - 1;
      Kept(rows[..n], cutoff) + (if Stale(rows[n], cutoff) then [] else [rows[n]])
  }

  function StaleCount(rows: seq<Row>, cutoff: int): nat {
    if rows == [] then 0
    else StaleCount(rows[..|rows| - 1], cutoff) + (if Stale(rows[|rows| - 1], cutoff) then 1 else 0)
  }

  lemma {:induction false} KeptAreTheFresh(rows: seq<Row>, cutoff: int)
    ensures forall row :: row in Kept(rows, cutoff) <==> row in rows && !Stale(row, cutoff)
    ensures |Kept(rows, cutoff)| + StaleCount(rows, cutoff) == |rows|
  {
    if rows != [] {
      var n := |rows| - 1;
      KeptAreTheFresh(rows[..n], cutoff);
      assert rows == rows[..n] + [rows[n]];
    }
  }

  /** Where a kept row stood. */
  lemma {:induction false} KeptFrom(rows: seq<Row>, cutoff: int, k: nat) returns (i: nat)
    requires k < |Kept(rows, cutoff)|
    ensures i < |rows| && rows[i] == Kept(rows, cutoff)[k] && Kept(rows[..i], cutoff) == Kept(rows, cutoff)[..k]
  {
    var n := |rows| - 1;
    var front := Kept(rows[..n], cutoff);
    if k < |front| {
      i := KeptFrom(rows[..n], cutoff, k);
      assert rows[..n][..i] == rows[..i];
    } else {
      i := n;
    }
  }

  lemma {:induction false} KeptDeduplicated(rows: seq<Row>, cutoff: int)
    requires Deduplicated(rows)
    ensures Deduplicated(Kept(rows, cutoff))
  {
    var kept := Kept(rows, cutoff);
    forall i, j | 0 <= i < j < |kept| ensures kept[i].id < kept[j].id && !SameArtifact(kept[i], kept[j]) {
      var b := KeptFrom(rows, cutoff, j);
      assert kept[i] == kept[..j][i];
      var a := KeptFrom(rows[..b], cutoff, i);
      assert rows[a] == kept[i] && a < b;
    }
    forall i, j | 0 <= i < |kept| && 0 <= j < |kept| && kept[i].checksum == kept[j].checksum
      ensures kept[i].artifactRef == kept[j].artifactRef
    {
      var a := KeptFrom(rows, cutoff, i);
      var b := KeptFrom(rows, cutoff, j);
      assert rows[a].checksum == rows[b].checksum;
    }
  }

  lemma RefreshedDeduplicated(rows: seq<Row>, i: nat, row: Row)
    requires Deduplicated(rows) && i < |rows|
    requires SameArtifact(rows[i], row) && row.id == rows[i].id && row.artifactRef == rows[i].artifactRef
    ensures Deduplicated(rows[i := row])
  {
  }

  lemma AddedDeduplicated(rows: seq<Row>, row: Row)
    requires Deduplicated(rows) && forall i :: 0 <= i < |rows| ==> rows[i].id < row.id && !SameArtifact(rows[i], row)
    requires forall i :: 0 <= i < |rows| && rows[i].checksum == row.checksum ==> rows[i].artifactRef == row.artifactRef
    ensures Deduplicated(rows + [row])
  {
  }

  lemma SharedReference(rows: seq<Row>, i: nat)
    requires Deduplicated(rows) && i < |rows|
    ensures forall j :: 0 <= j < |rows| && rows[j].checksum == rows[i].checksum ==>
                rows[j].artifactRef == rows[i].artifactRef
  {
  }

  /** A kept row is one of the rows. */
  lemma KeptKnown(rows: seq<Row>, cutoff: int, nextId: nat)
    requires forall i :: 0 <= i < |rows| ==> rows[i].id < nextId
    ensures forall k :: 0 <= k < |Kept(rows, cutoff)| ==> Kept(rows, cutoff)[k].id < nextId
  {
    hide Kept;
    forall k | 0 <= k < |Kept(rows, cutoff)| ensures Kept(rows, cutoff)[k].id < nextId {
      var i := KeptFrom(rows, cutoff, k);
    }
  }

  /** What a repeated summary changes: a size of zero, like a missing one, keeps the old size. */
  function Refreshed(was: Row, s: Summary, now: int): Row {
    was.(lastAccessed := now, metrics := s.metrics, notes := s.notes, retentionClass := s.retentionClass,
         sizeBytes := if s.sizeBytes.Some? && s.sizeBytes.value != 0 then s.sizeBytes.value else was.sizeBytes)
  }

  /** The `DELETE`: which rows stay, and how many go. */
  method DeleteStale(rows: seq<Row>, cutoff: int) returns (kept: seq<Row>, removed: nat)
    ensures kept == Kept(rows, cutoff) && removed == StaleCount(rows, cutoff)
  {
    kept, removed := [], 0;
    for i := 0 to |rows|
      invariant kept == Kept(rows[..i], cutoff) && removed == StaleCount(rows[..i], cutoff)
    {
      assert rows[..i + 1][..i] == rows[..i];
      if Stale(rows[i], cutoff) {
        removed := removed + 1;
      } else {
        kept := kept + [rows[i]];
      }
    }
    assert rows[..|rows|] == rows;
  }

  class Artifacts {
    const strip: string -> string
    const sha256: string -> string
    var rows: seq<Row>
    var nextId: nat

    ghost predicate Valid()
      reads this
    {
      Deduplicated(rows) && forall i :: 0 <= i < |rows| ==> rows[i].id < nextId
    }

    constructor (strip: string -> string, sha256: string -> string)
      ensures Valid() && rows == [] && this.strip == strip && this.sha256 == sha256
    {
      this.strip, this.sha256, rows, nextId := strip, sha256, [], 0;
    }

    function Resolved(s: Summary): (checksum: string)
      ensures s.checksum.Some? && strip(s.checksum.value) != "" ==> checksum == strip(s.checksum.value)
      ensures s.checksum.Some? && strip(s.checksum.value) == "" ==> checksum == sha256(s.artifactRef)
      ensures s.checksum.None? && strip("") == "" ==> checksum == sha256(s.artifactRef)
    {
      var given := strip(if s.checksum.Some? then s.checksum.value else "");
      if given != "" then given else sha256(s.artifactRef)
    }

    predicate IsFor(row: Row, s: Summary) {
      row.runId == s.runId && row.runType == s.runType && row.checksum == Resolved(s)
    }

    ghost predicate Known(s: Summary)
      reads this
    {
      exists i :: 0 <= i < |rows| && rows[i].runId == s.runId && rows[i].runType == s.runType
                  && rows[i].checksum == Resolved(s)
    }

    lemma OnlyOneFor(s: Summary, i: nat)
      requires Valid() && i < |rows| && IsFor(rows[i], s)
      ensures forall j :: 0 <= j < |rows| && IsFor(rows[j], s) ==> j == i
    {
      forall j | 0 <= j < |rows| && IsFor(rows[j], s) ensures j == i { assert SameArtifact(rows[i], rows[j]); }
    }

    /** Which row a query without an order returns does not matter: there is at most one of the run, and any
        row of the checksum has the same reference. */
    method AddSummary(s: Summary, now: int)
      requires Valid()
      modifies this
      ensures Valid()
      ensures old(Known(s)) ==>
        && |rows| == |old(rows)| && nextId == old(nextId)
        && (forall i :: 0 <= i < |rows| ==>
              var was, row := old(rows)[i], rows[i];
              if was.runId == s.runId && was.runType == s.runType && was.checksum == Resolved(s) then
                && row == was.(sizeBytes := row.sizeBytes, metrics := s.metrics, notes := s.notes, lastAccessed := now,
                               retentionClass := s.retentionClass)
                && (s.sizeBytes.Some? && s.sizeBytes.value > 0 ==> row.sizeBytes == s.sizeBytes.value)
                && (s.sizeBytes.None? || s.sizeBytes.value == 0 ==> row.sizeBytes == was.sizeBytes)
              else row == was)
      ensures !old(Known(s)) ==>
        && |rows| == |old(rows)| + 1 && rows[..|old(rows)|] == old(rows) && nextId == old(nextId) + 1
        && (var row := rows[|old(rows)|];
            && row == Row(old(nextId), s.runId, s.runType, s.jobId, row.artifactRef, Resolved(s),
                          if s.sizeBytes.Some? then s.sizeBytes.value else 0,
                          s.metrics, s.notes, now, s.retentionClass, now)
            && (forall i :: 0 <= i < |old(rows)| && old(rows)[i].checksum == Resolved(s) ==>
                    row.artifactRef == old(rows)[i].artifactRef)
            && ((forall i :: 0 <= i < |old(rows)| ==> old(rows)[i].checksum != Resolved(s)) ==>
                    row.artifactRef == s.artifactRef))
    {
      hide Deduplicated;
      var checksum := Resolved(s);
      if i :| 0 <= i < |rows| && IsFor(rows[i], s) {
        RefreshedDeduplicated(rows, i, Refreshed(rows[i], s, now));
        OnlyOneFor(s, i);
        rows := rows[i := Refreshed(rows[i], s, now)];
        return;
      }
      var ref := s.artifactRef;
      if i :| 0 <= i < |rows| && rows[i].checksum == checksum {
        SharedReference(rows, i);
        ref := rows[i].artifactRef;
      }
      var row := Row(nextId, s.runId, s.runType, s.jobId, ref, checksum,
                     if s.sizeBytes.Some? then s.sizeBytes.value else 0,
                     s.metrics, s.notes, now, s.retentionClass, now);
      AddedDeduplicated(rows, row);
      rows := rows + [row];
      nextId := nextId + 1;
    }

    /** Removes exactly the intermediate rows last accessed before the cutoff, and reports how many. */
    method PruneOldIntermediates(now: int, retentionDays: int, day: int) returns (removed: nat)
      requires Valid()
      modifies this`rows
      ensures Valid()
      ensures var cutoff := now - (if retentionDays < 1 then 1 else retentionDays) * day;
        && rows == Kept(old(rows), cutoff)
        && removed == StaleCount(old(rows), cutoff)
        && (forall row :: row in rows <==>
              row in old(rows) && (row.retentionClass != "intermediate" || row.lastAccessed >= cutoff))
        && |rows| + removed == |old(rows)|
    {
      hide Kept, StaleCount, Deduplicated;
      var cutoff := now - (if retentionDays < 1 then 1 else retentionDays) * day;
      KeptDeduplicated(rows, cutoff);
      KeptAreTheFresh(rows, cutoff);
      KeptKnown(rows, cutoff, nextId);
      rows, removed := DeleteStale(rows, cutoff);
    }

    /** `get_for_job` touches the row it returns. */
    method GetForJob(jobId: string, id: nat, now: int) returns (row: Option<Row>)
      requires Valid()
      modifies this`rows
      ensures Valid() && |rows| == |old(rows)|
      ensures row.None? <==> forall i :: 0 <= i < |old(rows)| ==>
                  !(old(rows)[i].id == id && old(rows)[i].jobId == jobId)
      ensures forall i :: 0 <= i < |rows| ==>
        rows[i] == if old(rows)[i].id == id && old(rows)[i].jobId == jobId then old(rows)[i].(lastAccessed := now)
                   else old(rows)[i]
      ensures row.Some? ==> row.value in rows && row.value.id == id && row.value.jobId == jobId
    {
      if i :| 0 <= i < |rows| && rows[i].id == id && rows[i].jobId == jobId {
        rows := rows[i := rows[i].(lastAccessed := now)];
        row := Some(rows[i]);
      } else {
        row := None;
      }
    }
  }
}
