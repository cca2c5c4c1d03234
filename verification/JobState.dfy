/** Job status: the process-local cache in front of the job event table, under the job handlers. A method
    here is one stretch of a handler between `await`s; `now` is the clock it reads. */
module JobState {
  import opened Options

  type JobId = string

  datatype Status = Queued | WaitingForData | Running | Success | Failed | Cancelled

  datatype Event = Event(
    jobId: JobId,
    traceId: string,
    status: Status,
    detail: string,
    runId: Option<string>,
    runType: Option<string>,
    progress: real,
    message: string,
    resultRef: Option<string>,
    updatedAt: int)

  datatype Envelope = Envelope(jobId: JobId, traceId: string, jobType: string, payload: string,
                               runId: Option<string>, runType: Option<string>, queuedAt: int)

  datatype Update = Update(status: Status, detail: string, runId: Option<string>, runType: Option<string>,
                           progress: real, message: string, resultRef: Option<string>)

  /** `int(progress_pct)`, truncating toward zero. */
  function Truncated(x: real): (k: int)
    ensures x >= 0.0 ==> k as real <= x < k as real + 1.0
    ensures x <= 0.0 ==> k as real - 1.0 < x <= k as real
  {
    if x >= 0.0 then x.Floor else -(-x).Floor
  }

  /** An event as the table keeps it. */
  function Persisted(e: Event): (p: Event)
    ensures p.(progress := e.progress) == e && p.progress == Truncated(e.progress) as real
  {
    e.(progress := Truncated(e.progress) as real)
  }

  lemma PersistedTwice(e: Event)
    ensures Persisted(Persisted(e)) == Persisted(e)
  {
    var k := Truncated(e.progress);
    assert (k as real).Floor == k && (-k as real).Floor == -k;
    assert -(k as real) == -k as real;
  }

  /** The row ids are the positions in the table; the latest event of a job is the greatest by
      (updated_at, id). */
  function Latest(rows: seq<Event>, job: JobId): Option<Event> {
    if rows == [] then None
    else
      var n := |rows| - 1;
      var before := Latest(rows[..n], job);
      if rows[n].jobId == job && (before.None? || rows[n].updatedAt >= before.value.updatedAt) then Some(rows[n])
      else before
  }

  ghost predicate IsGreatest(rows: seq<Event>, job: JobId, i: nat)
    requires i < |rows|
  {
    forall j :: 0 <= j < |rows| && rows[j].jobId == job ==>
      rows[j].updatedAt < rows[i].updatedAt || (rows[j].updatedAt == rows[i].updatedAt && j <= i)
  }

  lemma {:induction false} LatestIsGreatest(rows: seq<Event>, job: JobId)
    ensures match Latest(rows, job)
      case None => forall i :: 0 <= i < |rows| ==> rows[i].jobId != job
      case Some(e) => e.jobId == job && exists i :: 0 <= i < |rows| && rows[i] == e && IsGreatest(rows, job, i)
  {
    if rows != [] {
      var n := |rows| - 1;
      LatestIsGreatest(rows[..n], job);
      if Latest(rows, job).Some? && Latest(rows, job) != Some(rows[n]) {
        var e := Latest(rows, job).value;
        var i :| 0 <= i < n && rows[..n][i] == e && IsGreatest(rows[..n], job, i);
        assert IsGreatest(rows, job, i);
      }
    }
  }

  /** A persisted event becomes the latest of its job exactly when no earlier one is later on the clock. */
  lemma AppendedIsLatest(rows: seq<Event>, e: Event)
    ensures Latest(rows + [e], e.jobId) == Some(e) <==>
      (forall i :: 0 <= i < |rows| && rows[i].jobId == e.jobId ==> rows[i].updatedAt <= e.updatedAt)
      || Latest(rows, e.jobId) == Some(e)
    ensures forall job :: job != e.jobId ==> Latest(rows + [e], job) == Latest(rows, job)
  {
    assert (rows + [e])[..|rows|] == rows;
    LatestIsGreatest(rows, e.jobId);
  }

  predicate Cancelable(s: Status) {
    s == Queued || s == WaitingForData || s == Running
  }

  predicate Retryable(s: Status) {
    s == Failed || s == Cancelled
  }

  /** The success gate is asked about a finished training or backtest run. */
  predicate Gated(e: Event) {
    e.status == Success && e.runId.Some? && (e.runType == Some("training") || e.runType == Some("backtest"))
  }

  datatype Answer = NotFound | Conflict | BadRequest | Done(event: Event)

  class Jobs {
    var cache: map<JobId, Event>
    var submissions: map<JobId, Envelope>
    var rows: seq<Event>
    /** The latest reading of the clock. */
    ghost var clock: int

    /** What a job's status is by the table alone. */
    ghost function Stored(job: JobId): Option<Event>
      reads this
    {
      Latest(rows, job)
    }

    /** Every cached event is the latest stored one, up to the truncation of its progress. */
    ghost predicate Valid()
      reads this
    {
      && (forall job :: job in cache ==> Latest(rows, job) == Some(Persisted(cache[job])))
      && (forall i :: 0 <= i < |rows| ==> rows[i].updatedAt <= clock && rows[i] == Persisted(rows[i]))
    }

    constructor ()
      ensures Valid() && rows == [] && cache == map[] && submissions == map[]
    {
      cache, submissions, rows, clock := map[], map[], [], 0;
    }

    /** `job_state_store.upsert(event)` and `persist_event(event)`, with nothing awaited in between. */
    method Record(e: Event)
      requires Valid() && e.updatedAt >= clock
      modifies this`cache, this`rows, this`clock
      ensures Valid() && clock == e.updatedAt && rows == old(rows) + [Persisted(e)]
      ensures cache == old(cache)[e.jobId := e]
      ensures Stored(e.jobId) == Some(Persisted(e))
      ensures forall job :: job != e.jobId ==> Stored(job) == old(Stored(job))
    {
      PersistedTwice(e);
      AppendedIsLatest(rows, Persisted(e));
      cache := cache[e.jobId := e];
      rows := rows + [Persisted(e)];
      clock := e.updatedAt;
    }

    /** `create_job`, for a fresh job id; `known` is whether the job runner accepts the job type. */
    method Create(job: JobId, trace: string, jobType: string, payload: string, runId: Option<string>,
                  runType: Option<string>, known: bool, now: int) returns (answer: Answer)
      requires Valid() && now >= clock
      modifies this
      ensures Valid() && (answer.Done? <==> known)
      ensures !known ==>
        answer == BadRequest && rows == old(rows) && cache == old(cache) && submissions == old(submissions)
      ensures known ==>
        && answer.event == Event(job, trace, Queued, "job accepted by api-control-plane", runId, runType, 0.0, "queued",
                                 None, now)
        && Stored(job) == Some(Persisted(answer.event)) && cache == old(cache)[job := answer.event]
        && submissions == old(submissions)[job := Envelope(job, trace, jobType, payload, runId, runType, now)]
      ensures forall j :: j != job ==> Stored(j) == old(Stored(j))
    {
      if !known {
        return BadRequest;
      }
      var e := Event(job, trace, Queued, "job accepted by api-control-plane", runId, runType, 0.0, "queued", None, now);
      Record(e);
      submissions := submissions[job := Envelope(job, trace, jobType, payload, runId, runType, now)];
      return Done(e);
    }

    /** Look in the cache, then in the table. */
    method Find(job: JobId) returns (e: Option<Event>)
      requires Valid()
      ensures e.None? <==> Stored(job).None?
      ensures e.Some? ==> Some(Persisted(e.value)) == Stored(job) && e.value.jobId == job
    {
      if job in cache {
        e := Some(cache[job]);
        LatestIsGreatest(rows, job);
      } else {
        e := Latest(rows, job);
        LatestIsGreatest(rows, job);
      }
    }

    /** `get_job`, which warms the cache. Its answer does not depend on the cache. */
    method Get(job: JobId) returns (e: Option<Event>)
      requires Valid()
      modifies this`cache
      ensures Valid() && rows == old(rows)
      ensures e.None? <==> Stored(job).None?
      ensures e.Some? ==> Some(Persisted(e.value)) == Stored(job)
      ensures cache == if e.Some? then old(cache)[job := e.value] else old(cache)
    {
      e := Find(job);
      if e.Some? {
        cache := cache[job := e.value];
      }
    }

    /** The first stretch of `publish_job_event`. */
    method Publish(job: JobId, u: Update, now: int) returns (answer: Answer)
      requires Valid() && now >= clock
      modifies this`cache, this`rows, this`clock
      ensures Valid()
      ensures answer == NotFound <==> old(Stored(job)).None?
      ensures answer == NotFound ==> rows == old(rows) && cache == old(cache)
      ensures answer != NotFound ==>
        var was := old(Stored(job)).value;
        && answer == Done(Event(job, was.traceId, u.status, u.detail,
                                  if u.runId.Some? then u.runId else was.runId,
                                  if u.runType.Some? then u.runType else was.runType,
                                  u.progress, u.message, u.resultRef, now))
        && Stored(job) == Some(Persisted(answer.event)) && cache == old(cache)[job := answer.event]
      ensures forall j :: j != job ==> Stored(j) == old(Stored(j))
    {
      var existing := Find(job);
      if existing.None? {
        return NotFound;
      }
      var e := Event(job, existing.value.traceId, u.status, u.detail,
                     if u.runId.Some? then u.runId else existing.value.runId,
                     if u.runType.Some? then u.runType else existing.value.runType,
                     u.progress, u.message, u.resultRef, now);
      Record(e);
      return Done(e);
    }

    /** Its second stretch: when the success gate finds fault with the run of a successful training or backtest
        job, the status is forced to failed. Other handlers may have run since the first stretch, whose event
        is `first`. */
    method FinishPublish(first: Event, gateFailure: Option<(string, string)>, now: int) returns (e: Event)
      requires Valid() && now >= clock
      modifies this`cache, this`rows, this`clock
      ensures Valid()
      ensures (e != first || rows != old(rows) || cache != old(cache)) ==>
        && first.status == Success && first.runId.Some? && gateFailure.Some?
        && (first.runType == Some("training") || first.runType == Some("backtest"))
      ensures first.status == Success && first.runId.Some? && gateFailure.Some? && first.runType.Some?
              && first.runType.value in ["training", "backtest"] ==>
        && e == first.(status := Failed, detail := "success gate failed: " + gateFailure.value.0,
                       message := gateFailure.value.1, updatedAt := now)
        && Stored(first.jobId) == Some(Persisted(e)) && cache == old(cache)[first.jobId := e]
      ensures forall j :: j != first.jobId ==> Stored(j) == old(Stored(j))
    {
      e := first;
      if Gated(first) && gateFailure.Some? {
        e := first.(status := Failed, detail := "success gate failed: " + gateFailure.value.0,
                    message := gateFailure.value.1, updatedAt := now);
        Record(e);
      }
    }

    method Cancel(job: JobId, now: int) returns (answer: Answer)
      requires Valid() && now >= clock
      modifies this`cache, this`rows, this`clock
      ensures Valid()
      ensures answer == NotFound <==> old(Stored(job)).None?
      ensures answer == Conflict <==>
        old(Stored(job)).Some? && old(Stored(job)).value.status !in [Queued, WaitingForData, Running]
      ensures answer.Done? ==>
        && answer.event.status == Cancelled && Stored(job) == Some(Persisted(answer.event))
        && job in cache && cache[job] == answer.event
        && Persisted(answer.event) == old(Stored(job)).value.(
             status := Cancelled, detail := "job cancelled by operator", message := "cancelled", updatedAt := now)
      ensures !answer.Done? ==> answer != BadRequest && rows == old(rows)
      ensures forall j :: j != job ==> Stored(j) == old(Stored(j))
    {
      var existing := Get(job);
      if existing.None? {
        return NotFound;
      }
      if !Cancelable(existing.value.status) {
        return Conflict;
      }
      var was := existing.value;
      LatestIsGreatest(rows, job);
      var e := Event(job, was.traceId, Cancelled, "job cancelled by operator", was.runId, was.runType, was.progress,
                     "cancelled", was.resultRef, now);
      Record(e);
      return Done(e);
    }

    /** The remembered submission; failing that, for a training job, an envelope rebuilt from its run's row. */
    ghost function RetryEnvelope(job: JobId, latest: Event, trainingRuns: map<string, string>): Option<Envelope>
      reads this`submissions
    {
      if job in submissions then Some(submissions[job])
      else if latest.runType == Some("training") && latest.runId.Some? && latest.runId.value in trainingRuns then
        Some(Envelope(job, latest.traceId, "training", trainingRuns[latest.runId.value], latest.runId,
                      Some("training"), 0))
      else None
    }

    method ResolveRetryEnvelope(job: JobId, latest: Event, trainingRuns: map<string, string>)
        returns (prior: Option<Envelope>)
      ensures prior == RetryEnvelope(job, latest, trainingRuns)
    {
      if job in submissions {
        return Some(submissions[job]);
      }
      if latest.runType != Some("training") || latest.runId.None? {
        return None;
      }
      var run := latest.runId.value;
      if run !in trainingRuns {
        return None;
      }
      return Some(Envelope(job, latest.traceId, "training", trainingRuns[run], Some(run), Some("training"), 0));
    }

    method Requeue(job: JobId, prior: Envelope, retryId: JobId, trace: string, now: int) returns (e: Event)
      requires Valid() && now >= clock
      modifies this
      ensures Valid()
      ensures e == Event(retryId, trace, Queued, "retry requested for prior job " + job, prior.runId, prior.runType,
                         0.0, "queued", None, now)
      ensures Stored(retryId) == Some(Persisted(e)) && cache == old(cache)[retryId := e]
      ensures submissions == old(submissions)[retryId := prior.(jobId := retryId, traceId := trace, queuedAt := now)]
      ensures forall j :: j != retryId ==> Stored(j) == old(Stored(j))
    {
      hide Latest, Truncated;
      e := Event(retryId, trace, Queued, "retry requested for prior job " + job, prior.runId, prior.runType,
                 0.0, "queued", None, now);
      Record(e);
      submissions := submissions[retryId := prior.(jobId := retryId, traceId := trace, queuedAt := now)];
    }

    /** `trainingRuns` holds the payload of each training run; `known` is as for `Create`; `retryId` is fresh. */
    method Retry(job: JobId, trainingRuns: map<string, string>, known: bool, retryId: JobId, trace: string, now: int)
        returns (answer: Answer)
      requires Valid() && now >= clock && retryId != job
      modifies this
      ensures Valid()
      ensures answer == NotFound <==> old(Stored(job)).None?
      ensures answer == Conflict <==>
        && old(Stored(job)).Some?
        && (old(Stored(job)).value.status !in [Failed, Cancelled]
            || old(RetryEnvelope(job, Stored(job).value, trainingRuns)).None?)
      ensures answer == BadRequest ==> !known
      ensures !answer.Done? ==> rows == old(rows) && submissions == old(submissions)
      ensures answer.Done? ==>
        var prior := old(RetryEnvelope(job, Stored(job).value, trainingRuns)).value;
        && known
        && answer.event == Event(retryId, trace, Queued, "retry requested for prior job " + job, prior.runId,
                                 prior.runType, 0.0, "queued", None, now)
        && Stored(retryId) == Some(Persisted(answer.event)) && retryId in cache && cache[retryId] == answer.event
        && submissions == old(submissions)[retryId := prior.(jobId := retryId, traceId := trace, queuedAt := now)]
      ensures forall j :: j != retryId ==> Stored(j) == old(Stored(j))
    {
      hide Latest, Truncated;
      var existing := Get(job);
      if existing.None? {
        return NotFound;
      }
      if !Retryable(existing.value.status) {
        return Conflict;
      }
      var prior := ResolveRetryEnvelope(job, existing.value, trainingRuns);
      if prior.None? {
        return Conflict;
      }
      if !known {
        return BadRequest;
      }
      var e := Requeue(job, prior.value, retryId, trace, now);
      return Done(e);
    }

    /** A restarted process starts with an empty cache. */
    method Restart()
      requires Valid()
      modifies this`cache, this`submissions
      ensures Valid() && cache == map[] && submissions == map[] && rows == old(rows)
    {
      cache, submissions := map[], map[];
    }
  }

  /** Should the clock step back, the cache and the table disagree: the write is cached, but is not the
      latest stored event. */
  lemma ClockStepsBack(rows: seq<Event>, e: Event)
    requires Latest(rows, e.jobId).Some? && e.updatedAt < Latest(rows, e.jobId).value.updatedAt
    ensures Latest(rows + [Persisted(e)], e.jobId) == Latest(rows, e.jobId) != Some(Persisted(e))
  {
    assert (rows + [Persisted(e)])[..|rows|] == rows;
    LatestIsGreatest(rows, e.jobId);
  }
}
