/**
 * The job table and the execution-history log kept by `JobManager`
 * (job_manager.py). The two JSON files become two sequences held by the
 * class; every method that loads, changes and saves a file here changes
 * the corresponding field.
 */
module JobStore {
  import opened Wrappers
  import opened Text

  /** Job and record identifiers; the source draws them from `uuid4`, the model from a counter. */
  type JobId = nat
  /** An ISO-format time stamp supplied by the caller's clock. */
  type Timestamp = string
  type Headers = map<string, string>

  /** The history keeps at most this many records. */
  const MaxHistory: nat := 1000
  /** A stored response body keeps at most this many characters. */
  const MaxContent: nat := 1000

  /**
   * A job record. `httpMethod`, `headers` and `active` are `None` when the
   * stored record lacks the key: readers fall back to "GET", `{}` and true.
   */
  datatype Job = Job(
    id: JobId,
    name: string,
    url: string,
    cronExpression: string,
    httpMethod: Option<string>,
    headers: Option<Headers>,
    payload: Option<string>,
    active: Option<bool>,
    createdAt: Timestamp,
    lastRun: Option<Timestamp>,
    lastStatus: Option<string>)

  /** One entry of the execution history (the elapsed time is not modelled). */
  datatype ExecutionRecord = ExecutionRecord(
    id: nat,
    jobId: JobId,
    timestamp: Timestamp,
    statusCode: Option<int>,
    success: bool,
    errorMessage: Option<string>,
    responseContent: Option<string>)

  /** The counts of `get_job_stats`. */
  datatype JobStats = JobStats(total: nat, successful: nat, failed: nat)

  function Min(a: int, b: int): int {
    if a <= b then a else b
  }

  function Max(a: int, b: int): int {
    if a <= b then b else a
  }

  // ------------------------------------------------------------ the job table

  /** `k` is the position of the first job whose id is `id`. */
  ghost predicate IsFirst(jobs: seq<Job>, id: JobId, k: int) {
    0 <= k < |jobs| && jobs[k].id == id && forall j :: 0 <= j < k ==> jobs[j].id != id
  }

  /** The position of the first job with id `id`, if any. */
  function FirstIndex(jobs: seq<Job>, id: JobId): (r: Option<nat>)
    ensures r.Some? ==> IsFirst(jobs, id, r.value)
    ensures r.None? <==> forall k :: 0 <= k < |jobs| ==> jobs[k].id != id
  {
    if jobs == [] then None
    else if jobs[0].id == id then Some(0)
    else
      match FirstIndex(jobs[1..], id)
      case None => None
      case Some(k) => Some(k + 1)
  }

  /** Two tables whose ids agree position by position find the same first match. */
  lemma {:induction false} FirstIndexSameIds(a: seq<Job>, b: seq<Job>, id: JobId)
    requires |a| == |b|
    requires forall k :: 0 <= k < |a| ==> a[k].id == b[k].id
    ensures FirstIndex(a, id) == FirstIndex(b, id)
  {
    if a != [] && a[0].id != id {
      FirstIndexSameIds(a[1..], b[1..], id);
    }
  }

  /** The table after `update_job_status`: only the first job with `id` has its flag set. */
  function WithActive(jobs: seq<Job>, id: JobId, active: bool): (r: seq<Job>)
    ensures |r| == |jobs|
    ensures forall k :: 0 <= k < |jobs| ==>
      r[k] == if IsFirst(jobs, id, k) then jobs[k].(active := Some(active)) else jobs[k]
    ensures (forall k :: 0 <= k < |jobs| ==> jobs[k].id != id) ==> r == jobs
  {
    match FirstIndex(jobs, id)
    case None => jobs
    case Some(k) => jobs[k := jobs[k].(active := Some(active))]
  }

  /** The label `update_job_last_run` stores for an outcome. */
  function StatusLabel(success: bool): (r: string)
    ensures r == "success" <==> success
    ensures r == "success" || r == "failed"
  {
    if success then "success" else "failed"
  }

  /** The table after `update_job_last_run`: only the first job with `id` records the run. */
  function WithLastRun(jobs: seq<Job>, id: JobId, now: Timestamp, success: bool): (r: seq<Job>)
    ensures |r| == |jobs|
    ensures forall k :: 0 <= k < |jobs| ==>
      r[k] == if IsFirst(jobs, id, k)
              then jobs[k].(lastRun := Some(now), lastStatus := Some(StatusLabel(success)))
              else jobs[k]
    ensures (forall k :: 0 <= k < |jobs| ==> jobs[k].id != id) ==> r == jobs
  {
    match FirstIndex(jobs, id)
    case None => jobs
    case Some(k) => jobs[k := jobs[k].(lastRun := Some(now), lastStatus := Some(StatusLabel(success)))]
  }

  /** `[job for job in jobs if job['id'] != id]` */
  function Without(jobs: seq<Job>, id: JobId): (r: seq<Job>)
    ensures |r| <= |jobs|
    ensures forall j :: j in r <==> j in jobs && j.id != id
  {
    if jobs == [] then []
    else
      assert jobs == [jobs[0]] + jobs[1..];
      (if jobs[0].id == id then [] else [jobs[0]]) + Without(jobs[1..], id)
  }

  /** Deleting distributes over concatenation, so the kept jobs stay in their order. */
  lemma {:induction false} WithoutConcat(a: seq<Job>, b: seq<Job>, id: JobId)
    ensures Without(a + b, id) == Without(a, id) + Without(b, id)
  {
    if a == [] {
      assert a + b == b;
    } else {
      assert (a + b)[1..] == a[1..] + b;
      WithoutConcat(a[1..], b, id);
    }
  }

  /** Deleting an id no job has leaves the table as it was. */
  lemma {:induction false} WithoutAbsent(jobs: seq<Job>, id: JobId)
    requires forall k :: 0 <= k < |jobs| ==> jobs[k].id != id
    ensures Without(jobs, id) == jobs
  {
    if jobs != [] {
      WithoutAbsent(jobs[1..], id);
    }
  }

  // ------------------------------------------------------- the history log

  /**
   * The log after `add_execution_history` appends `rec`: the new record is
   * last, the length is capped, and the retained older records are the most
   * recent ones, in their order.
   */
  function Appended(h: seq<ExecutionRecord>, rec: ExecutionRecord): (r: seq<ExecutionRecord>)
    ensures |r| == Min(|h| + 1, MaxHistory)
    ensures r[|r| - 1] == rec
    ensures forall i :: 0 <= i < |r| - 1 ==> r[i] == h[|h| + 1 - |r| + i]
    ensures |h| < MaxHistory ==> r == h + [rec]
    ensures |h| == MaxHistory ==> r == h[1..] + [rec]
  {
    var grown := h + [rec];
    if |grown| > MaxHistory then grown[|grown| - MaxHistory..] else grown
  }

  /** `content[:1000] if content else None` */
  function Excerpt(content: Option<string>): (r: Option<string>)
    ensures r.None? <==> content.None? || content.value == []
    ensures r.Some? ==> |r.value| == Min(|content.value|, MaxContent)
    ensures r.Some? ==> StartsWith(content.value, r.value)
  {
    match content
    case None => None
    case Some(text) =>
      if text == [] then None
      else if |text| <= MaxContent then Some(text)
      else Some(text[..MaxContent])
  }

  /** `s` read from its end. */
  function Reverse<T>(s: seq<T>): (r: seq<T>)
    ensures |r| == |s|
    ensures forall i :: 0 <= i < |s| ==> r[i] == s[|s| - 1 - i]
  {
    if s == [] then [] else [s[|s| - 1]] + Reverse(s[..|s| - 1])
  }

  /** `[r for r in h if r['job_id'] == id]` */
  function RecordsOf(h: seq<ExecutionRecord>, id: JobId): (r: seq<ExecutionRecord>)
    ensures |r| <= |h|
    ensures forall x :: x in r <==> x in h && x.jobId == id
  {
    if h == [] then []
    else
      assert h == [h[0]] + h[1..];
      (if h[0].jobId == id then [h[0]] else []) + RecordsOf(h[1..], id)
  }

  /** `[r for r in h if r['success']]` */
  function Successes(h: seq<ExecutionRecord>): (r: seq<ExecutionRecord>)
    ensures |r| <= |h|
    ensures forall x :: x in r <==> x in h && x.success
  {
    if h == [] then []
    else
      assert h == [h[0]] + h[1..];
      (if h[0].success then [h[0]] else []) + Successes(h[1..])
  }

  lemma {:induction false} RecordsOfConcat(a: seq<ExecutionRecord>, b: seq<ExecutionRecord>, id: JobId)
    ensures RecordsOf(a + b, id) == RecordsOf(a, id) + RecordsOf(b, id)
  {
    if a == [] {
      assert a + b == b;
    } else {
      assert (a + b)[1..] == a[1..] + b;
      RecordsOfConcat(a[1..], b, id);
    }
  }

  lemma {:induction false} SuccessesConcat(a: seq<ExecutionRecord>, b: seq<ExecutionRecord>)
    ensures Successes(a + b) == Successes(a) + Successes(b)
  {
    if a == [] {
      assert a + b == b;
    } else {
      assert (a + b)[1..] == a[1..] + b;
      SuccessesConcat(a[1..], b);
    }
  }

  /** The counts of `get_job_stats` over the records `h` retains for `id`. */
  function Stats(h: seq<ExecutionRecord>, id: JobId): (s: JobStats)
    ensures s.successful + s.failed == s.total
    ensures s.total == |RecordsOf(h, id)| && s.successful == |Successes(RecordsOf(h, id))|
    ensures s.total == 0 <==> forall x :: x in h ==> x.jobId != id
    ensures s.total == 0 ==> s == JobStats(0, 0, 0)
  {
    var mine := RecordsOf(h, id);
    var ok := |Successes(mine)|;
    assert mine != [] ==> mine[0] in mine;
    JobStats(|mine|, ok, |mine| - ok)
  }

  /** Appending one record to the log moves the counts of its job by one and no others. */
  lemma StatsAfterRecord(h: seq<ExecutionRecord>, rec: ExecutionRecord, id: JobId)
    ensures Stats(h + [rec], id).total == Stats(h, id).total + (if rec.jobId == id then 1 else 0)
    ensures Stats(h + [rec], id).successful
         == Stats(h, id).successful + (if rec.jobId == id && rec.success then 1 else 0)
  {
    RecordsOfConcat(h, [rec], id);
    assert RecordsOf([rec], id) == if rec.jobId == id then [rec] else [];
    SuccessesConcat(RecordsOf(h, id), RecordsOf([rec], id));
  }

  // ------------------------------------------------------------- the manager

  class JobManager {
    /** The contents of the jobs file. */
    var jobs: seq<Job>
    /** The contents of the history file, oldest first. */
    var history: seq<ExecutionRecord>
    /** The identifier supply: every id handed out so far is below it. */
    var nextId: nat

    ghost predicate Valid()
      reads this
    {
      && |history| <= MaxHistory
      && (forall k :: 0 <= k < |jobs| ==> jobs[k].id < nextId)
      && (forall k :: 0 <= k < |history| ==> history[k].id < nextId)
    }

    /** A manager over empty files. */
    constructor ()
      ensures Valid() && jobs == [] && history == []
    {
      jobs := [];
      history := [];
      nextId := 0;
    }

    /** `add_job`: appends a new active job that has never run and returns its fresh id. */
    method AddJob(name: string, url: string, cronExpression: string, httpMethod: string,
                  headers: Option<Headers>, payload: Option<string>, now: Timestamp)
      returns (id: JobId)
      requires Valid()
      modifies this
      ensures Valid()
      ensures forall k :: 0 <= k < |old(jobs)| ==> old(jobs)[k].id != id
      ensures jobs == old(jobs) + [Job(id, name, url, cronExpression, Some(httpMethod),
                                       Some(headers.GetOr(map[])), payload, Some(true),
                                       now, None, None)]
      ensures history == old(history) && old(nextId) <= id < nextId
    {
      id := nextId;
      nextId := nextId + 1;
      var job := Job(id, name, url, cronExpression, Some(httpMethod),
                     Some(headers.GetOr(map[])), payload, Some(true), now, None, None);
      jobs := jobs + [job];
    }

    /** `get_all_jobs` */
    method GetAllJobs() returns (r: seq<Job>)
      ensures r == jobs
    {
      r := jobs;
    }

    /** `get_job`: the first job with id `id`, or `None`. */
    function GetJob(id: JobId): (r: Option<Job>)
      reads this
      ensures r.None? <==> forall k :: 0 <= k < |jobs| ==> jobs[k].id != id
      ensures r.Some? ==> r.value.id == id && r.value in jobs
      ensures r.Some? ==> forall k :: IsFirst(jobs, id, k) ==> r.value == jobs[k]
    {
      match FirstIndex(jobs, id)
      case None => None
      case Some(k) => Some(jobs[k])
    }

    /** The search loop that `update_job_status` and `update_job_last_run` run before they `break`. */
    method FindFirst(id: JobId) returns (k: Option<nat>)
      ensures k == FirstIndex(jobs, id)
    {
      var i := 0;
      while i < |jobs| && jobs[i].id != id
        invariant 0 <= i <= |jobs|
        invariant forall j :: 0 <= j < i ==> jobs[j].id != id
      {
        i := i + 1;
      }
      if i < |jobs| {
        k := Some(i);
        assert IsFirst(jobs, id, i);
      } else {
        k := None;
      }
    }

    /** `delete_job`: removes every job with id `id`. */
    method DeleteJob(id: JobId)
      requires Valid()
      modifies this
      ensures Valid()
      ensures jobs == Without(old(jobs), id)
      ensures history == old(history) && nextId == old(nextId)
    {
      jobs := Without(jobs, id);
    }

    /** `update_job_status` */
    method UpdateJobStatus(id: JobId, active: bool)
      requires Valid()
      modifies this
      ensures Valid()
      ensures jobs == WithActive(old(jobs), id, active)
      ensures history == old(history) && nextId == old(nextId)
    {
      var k := FindFirst(id);
      if k.Some? {
        jobs := jobs[k.value := jobs[k.value].(active := Some(active))];
      }
    }

    /** `update_job_last_run`; the status code is accepted and, as in the source, not stored. */
    method UpdateJobLastRun(id: JobId, statusCode: Option<int>, success: bool, now: Timestamp)
      requires Valid()
      modifies this
      ensures Valid()
      ensures jobs == WithLastRun(old(jobs), id, now, success)
      ensures history == old(history) && nextId == old(nextId)
    {
      var k := FindFirst(id);
      if k.Some? {
        jobs := jobs[k.value := jobs[k.value].(lastRun := Some(now), lastStatus := Some(StatusLabel(success)))];
      }
    }

    /** `add_execution_history`: updates the job's last run and appends one record to the capped log. */
    method AddExecutionHistory(jobId: JobId, statusCode: Option<int>, success: bool,
                               errorMessage: Option<string>, responseContent: Option<string>,
                               now: Timestamp)
      requires Valid()
      modifies this
      ensures Valid()
      ensures jobs == WithLastRun(old(jobs), jobId, now, success)
      ensures history == Appended(old(history),
                                  ExecutionRecord(old(nextId), jobId, now, statusCode, success,
                                                  errorMessage, Excerpt(responseContent)))
      ensures nextId == old(nextId) + 1
    {
      var loaded := history;
      UpdateJobLastRun(jobId, statusCode, success, now);
      var record := ExecutionRecord(nextId, jobId, now, statusCode, success,
                                    errorMessage, Excerpt(responseContent));
      nextId := nextId + 1;
      loaded := loaded + [record];
      if |loaded| > MaxHistory {
        loaded := loaded[|loaded| - MaxHistory..];
      }
      history := loaded;
    }

    /** `get_job_history(limit)`: the most recent records first, cut as Python's `[:limit]` cuts. */
    function GetJobHistory(limit: int): (r: seq<ExecutionRecord>)
      reads this
      ensures limit >= 0 ==> |r| == Min(limit, |history|)
      ensures limit < 0 ==> |r| == Max(|history| + limit, 0)
      ensures forall i :: 0 <= i < |r| ==> r[i] == history[|history| - 1 - i]
    {
      var newest := Reverse(history);
      var n := if limit >= 0 then Min(limit, |newest|) else Max(|newest| + limit, 0);
      newest[..n]
    }

    /** `clear_history` */
    method ClearHistory()
      requires Valid()
      modifies this
      ensures Valid()
      ensures history == [] && jobs == old(jobs) && nextId == old(nextId)
    {
      history := [];
    }

    /**
     * `get_job_stats` over the retained log: how many of its records belong
     * to `id`, and how many of those succeeded and failed.
     */
    function GetJobStats(id: JobId): (s: JobStats)
      reads this
      ensures s.total == |RecordsOf(history, id)|
      ensures s.successful == |Successes(RecordsOf(history, id))|
      ensures s.successful + s.failed == s.total
      ensures s.total == 0 <==> forall x :: x in history ==> x.jobId != id
      ensures s.total == 0 ==> s == JobStats(0, 0, 0)
    {
      Stats(history, id)
    }
  }
}
