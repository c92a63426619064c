/**
 * The request handlers of the dashboard (app.py) that decide something:
 * form validation and header parsing in `add_job`, `toggle_job`,
 * `delete_job`, and the annotations `index` and `job_history` add before
 * rendering. Flask routing, templates, flash messages and redirects are
 * not modelled; a handler returns what it would have flashed.
 */
module Dashboard {
  import opened Wrappers
  import opened Text
  import opened JobStore
  import opened Scheduling

  /** The submitted form; a missing field reads as "" (and `method` as "GET"). */
  datatype JobForm = JobForm(name: string, url: string, cronExpression: string,
                             httpMethod: string, headers: string, payload: string)

  const RequiredMessage := "Name, URL, and cron expression are required"
  const SchemeMessage := "URL must start with http:// or https://"

  predicate HasWebScheme(url: string) {
    StartsWith(url, "http://") || StartsWith(url, "https://")
  }

  /**
   * The error `add_job` reports for a form, if any: the required fields are
   * checked first (empty after stripping means blank), then the URL scheme.
   */
  function Validate(form: JobForm): (r: Option<string>)
    ensures r == Some(RequiredMessage) <==>
      AllSpace(form.name) || AllSpace(form.url) || AllSpace(form.cronExpression)
    ensures r == Some(SchemeMessage) <==>
      !AllSpace(form.name) && !AllSpace(form.url) && !AllSpace(form.cronExpression)
      && !HasWebScheme(Strip(form.url))
    ensures r.None? <==> HasWebScheme(Strip(form.url)) && !AllSpace(form.name) && !AllSpace(form.cronExpression)
  {
    if Strip(form.name) == [] || Strip(form.url) == [] || Strip(form.cronExpression) == [] then
      Some(RequiredMessage)
    else if !HasWebScheme(Strip(form.url)) then
      Some(SchemeMessage)
    else
      None
  }

  // ------------------------------------------------------------ header text

  /** `line.split(':', 1)` for a line that contains ':'. */
  function SplitAtColon(line: string): (r: (string, string))
    requires ':' in line
    ensures ':' !in r.0 && r.0 + [':'] + r.1 == line
  {
    var i := IndexOf(line, ':');
    assert line == line[..i] + [':'] + line[i + 1..];
    (line[..i], line[i + 1..])
  }

  /** The stripped key and value a header line contributes, or `None` for a line without ':'. */
  function HeaderLine(line: string): (r: Option<(string, string)>)
    ensures r.Some? <==> ':' in line
  {
    if ':' in line then
      var (key, value) := SplitAtColon(line);
      Some((Strip(key), Strip(value)))
    else None
  }

  /**
   * A line `key:value` whose key has no ':' contributes the stripped key and
   * the stripped value, whatever colons the value holds.
   */
  lemma HeaderLineOfKeyValue(key: string, value: string)
    requires ':' !in key
    ensures HeaderLine(key + ":" + value) == Some((Strip(key), Strip(value)))
  {
    var line := key + ":" + value;
    assert line[..|key|] == key;
    assert line[|key|] == ':';
    assert line[|key| + 1..] == value;
  }

  /** What each line of the header text contributes, in order. */
  function Entries(lines: seq<string>): seq<Option<(string, string)>> {
    seq(|lines|, k requires 0 <= k < |lines| => HeaderLine(lines[k]))
  }

  /** Entry `e` sets `key`. */
  predicate Sets(e: Option<(string, string)>, key: string) {
    e.Some? && e.value.0 == key
  }

  /** The dictionary the header loop of `add_job` builds from the entries of its lines, in order. */
  function HeaderMap(entries: seq<Option<(string, string)>>): Headers
  {
    if entries == [] then map[]
    else
      var m := HeaderMap(entries[..|entries| - 1]);
      match entries[|entries| - 1]
      case None => m
      case Some(kv) => m[kv.0 := kv.1]
  }

  /** A key is in the parsed headers exactly when some line sets it. */
  lemma {:induction false} HeaderMapKeys(entries: seq<Option<(string, string)>>, key: string)
    ensures key in HeaderMap(entries) <==> exists j :: 0 <= j < |entries| && Sets(entries[j], key)
  {
    if entries != [] {
      var init := entries[..|entries| - 1];
      HeaderMapKeys(init, key);
      if exists j :: 0 <= j < |init| && Sets(init[j], key) {
        var j :| 0 <= j < |init| && Sets(init[j], key);
        assert entries[j] == init[j];
      }
      if exists j :: 0 <= j < |entries| && Sets(entries[j], key) {
        var j :| 0 <= j < |entries| && Sets(entries[j], key);
        if j < |init| {
          assert init[j] == entries[j];
        }
      }
    }
  }

  /** The value of a key is taken from the last line that sets it. */
  lemma {:induction false} HeaderMapLastWins(entries: seq<Option<(string, string)>>, j: nat)
    requires j < |entries| && entries[j].Some?
    requires forall j' :: j < j' < |entries| ==> !Sets(entries[j'], entries[j].value.0)
    ensures entries[j].value.0 in HeaderMap(entries)
    ensures HeaderMap(entries)[entries[j].value.0] == entries[j].value.1
  {
    var init := entries[..|entries| - 1];
    if j < |entries| - 1 {
      assert init[j] == entries[j];
      forall j' | j < j' < |init|
        ensures !Sets(init[j'], init[j].value.0)
      {
        assert init[j'] == entries[j'];
      }
      HeaderMapLastWins(init, j);
    }
  }

  /** Each entry extends the dictionary built from the entries before it. */
  lemma HeaderMapStep(entries: seq<Option<(string, string)>>, i: nat)
    requires i < |entries|
    ensures HeaderMap(entries[..i + 1]) ==
      if entries[i].Some? then HeaderMap(entries[..i])[entries[i].value.0 := entries[i].value.1]
      else HeaderMap(entries[..i])
  {
    assert entries[..i + 1][..i] == entries[..i];
  }

  /** The headers `add_job` stores for the submitted header text. */
  function ParsedHeaders(text: string): Headers {
    HeaderMap(Entries(Split(text, '\n')))
  }

  /**
   * The header loop of `add_job`: one entry per line that has a ':'. The
   * source skips the loop for empty text, which changes nothing, since the
   * one line of "" has no ':'.
   */
  method ParseHeaders(text: string) returns (parsed: Headers)
    ensures parsed == ParsedHeaders(text)
  {
    parsed := map[];
    var lines := Split(text, '\n');
    ghost var entries := Entries(lines);
    var i := 0;
    while i < |lines|
      invariant 0 <= i <= |lines|
      invariant parsed == HeaderMap(entries[..i])
    {
      var entry := HeaderLine(lines[i]);
      HeaderMapStep(entries, i);
      if entry.Some? {
        parsed := parsed[entry.value.0 := entry.value.1];
      }
      i := i + 1;
    }
    assert entries[..i] == entries;
  }

  // ------------------------------------------------------------- handlers

  /** What `add_job` reports: the validation error, or the new job and whether it was scheduled. */
  datatype Submission = Rejected(message: string) | Created(id: JobId, scheduled: bool)

  /** The POST branch of `add_job`. */
  method AddJob(form: JobForm, sched: CronScheduler, now: Timestamp) returns (r: Submission)
    requires sched.Valid()
    modifies sched, sched.manager
    ensures sched.Valid()
    ensures Validate(form).Some? ==>
      r == Rejected(Validate(form).value) && unchanged(sched) && unchanged(sched.manager)
    ensures Validate(form).None? ==>
      var cron := Strip(form.cronExpression);
      && r.Created?
      && (forall k :: 0 <= k < |old(sched.manager.jobs)| ==> old(sched.manager.jobs)[k].id != r.id)
      && sched.manager.jobs == old(sched.manager.jobs) +
           [Job(r.id, Strip(form.name), Strip(form.url), cron, Some(form.httpMethod),
                Some(ParsedHeaders(form.headers)),
                if form.payload == [] then None else Some(form.payload),
                Some(true), now, None, None)]
      && sched.manager.history == old(sched.manager.history)
      && r.scheduled == ParseCron(cron).Some?
      && sched.bindings == if r.scheduled then old(sched.bindings)[r.id := ParseCron(cron).value]
                           else old(sched.bindings)
  {
    var name := Strip(form.name);
    var url := Strip(form.url);
    var cron := Strip(form.cronExpression);
    if name == [] || url == [] || cron == [] {
      return Rejected(RequiredMessage);
    }
    if !(StartsWith(url, "http://") || StartsWith(url, "https://")) {
      return Rejected(SchemeMessage);
    }
    assert Validate(form).None?;
    var headers := ParseHeaders(form.headers);
    var payload := if form.payload != [] then Some(form.payload) else None;
    var id, scheduled := Register(name, url, cron, form.httpMethod, headers, payload, sched, now);
    r := Created(id, scheduled);
  }

  /**
   * The two calls `add_job` makes once the form is valid: store the job
   * through the manager, then hand it to the scheduler.
   */
  method Register(name: string, url: string, cron: string, httpMethod: string, headers: Headers,
                  payload: Option<string>, sched: CronScheduler, now: Timestamp)
    returns (id: JobId, scheduled: bool)
    requires sched.Valid()
    modifies sched, sched.manager
    ensures sched.Valid()
    ensures forall k :: 0 <= k < |old(sched.manager.jobs)| ==> old(sched.manager.jobs)[k].id != id
    ensures sched.manager.jobs == old(sched.manager.jobs) +
      [Job(id, name, url, cron, Some(httpMethod), Some(headers), payload, Some(true), now, None, None)]
    ensures sched.manager.history == old(sched.manager.history)
    ensures scheduled == ParseCron(cron).Some?
    ensures sched.bindings == if scheduled then old(sched.bindings)[id := ParseCron(cron).value]
                              else old(sched.bindings)
  {
    ghost var before := sched.manager.jobs;
    ghost var history := sched.manager.history;
    ghost var supply := sched.manager.nextId;
    assert forall k :: k in sched.bindings ==> k < supply;
    id := sched.manager.AddJob(name, url, cron, httpMethod, Some(headers), payload, now);
    assert IsFirst(sched.manager.jobs, id, |before|);
    ghost var job := sched.manager.GetJob(id);
    assert job.Some? && job.value.cronExpression == cron;
    assert id !in sched.bindings;
    ghost var bound := sched.bindings;
    assert bound - {id} == bound;
    scheduled := sched.ScheduleJob(id);
    assert sched.manager.GetJob(id) == job;
  }

  /** What `toggle_job` reports. */
  datatype Toggle = NotFound | Activated(scheduled: bool) | Deactivated

  /**
   * `toggle_job`: flips the stored flag (a missing flag counts as active),
   * then schedules the job when it became active and unschedules it otherwise.
   */
  method ToggleJob(id: JobId, sched: CronScheduler) returns (t: Toggle)
    requires sched.Valid()
    modifies sched, sched.manager
    ensures sched.Valid()
    ensures old(sched.manager.GetJob(id)).None? ==>
      t == NotFound && unchanged(sched) && unchanged(sched.manager)
    ensures old(sched.manager.GetJob(id)).Some? ==>
      var job := old(sched.manager.GetJob(id)).value;
      var active := !job.active.GetOr(true);
      var trigger := ParseCron(job.cronExpression);
      && sched.manager.jobs == WithActive(old(sched.manager.jobs), id, active)
      && sched.manager.history == old(sched.manager.history)
      && sched.manager.nextId == old(sched.manager.nextId)
      && (active ==>
            t == Activated(trigger.Some?)
            && sched.bindings == if trigger.Some? then old(sched.bindings)[id := trigger.value]
                                 else old(sched.bindings) - {id})
      && (!active ==> t == Deactivated && sched.bindings == old(sched.bindings) - {id})
  {
    var job := sched.manager.GetJob(id);
    if job.None? {
      return NotFound;
    }
    var active := !job.value.active.GetOr(true);
    ghost var before := sched.manager.jobs;
    sched.manager.UpdateJobStatus(id, active);
    FirstIndexSameIds(sched.manager.jobs, before, id);
    if active {
      var scheduled := sched.ScheduleJob(id);
      t := Activated(scheduled);
    } else {
      sched.RemoveJob(id);
      t := Deactivated;
    }
  }

  /** `delete_job`: a known job is unscheduled and then removed from the table. */
  method DeleteJob(id: JobId, sched: CronScheduler) returns (found: bool)
    requires sched.Valid()
    modifies sched, sched.manager
    ensures sched.Valid()
    ensures found == old(sched.manager.GetJob(id)).Some?
    ensures found ==>
      && sched.manager.jobs == Without(old(sched.manager.jobs), id)
      && sched.manager.history == old(sched.manager.history)
      && sched.manager.nextId == old(sched.manager.nextId)
      && sched.bindings == old(sched.bindings) - {id}
    ensures !found ==> unchanged(sched) && unchanged(sched.manager)
  {
    var job := sched.manager.GetJob(id);
    if job.None? {
      return false;
    }
    sched.RemoveJob(id);
    sched.manager.DeleteJob(id);
    found := true;
  }

  // ---------------------------------------------------------- annotations

  /** A dashboard row: the job and whether it has a binding. */
  datatype JobRow = JobRow(job: Job, isRunning: bool)

  /** `index`: every job, in table order, marked running exactly when it is bound. */
  method Index(sched: CronScheduler) returns (rows: seq<JobRow>)
    ensures |rows| == |sched.manager.jobs|
    ensures forall i :: 0 <= i < |rows| ==>
      rows[i].job == sched.manager.jobs[i]
      && (rows[i].isRunning <==> sched.manager.jobs[i].id in sched.bindings)
  {
    var jobs := sched.manager.GetAllJobs();
    var running := sched.GetRunningJobs();
    rows := [];
    var i := 0;
    while i < |jobs|
      invariant 0 <= i <= |jobs|
      invariant |rows| == i
      invariant forall k :: 0 <= k < i ==>
        rows[k].job == jobs[k] && (rows[k].isRunning <==> jobs[k].id in sched.bindings)
    {
      rows := rows + [JobRow(jobs[i], jobs[i].id in running)];
      i := i + 1;
    }
  }

  const UnknownJob := "Unknown Job"
  /** The default `limit` of `get_job_history`, which `job_history` uses. */
  const HistoryPageSize: nat := 100

  /** `{job['id']: job['name'] for job in jobs}`: a later job with the same id overwrites. */
  function NameLookup(jobs: seq<Job>): map<JobId, string> {
    if jobs == [] then map[]
    else NameLookup(jobs[..|jobs| - 1])[jobs[|jobs| - 1].id := jobs[|jobs| - 1].name]
  }

  lemma {:induction false} NameLookupKeys(jobs: seq<Job>, id: JobId)
    ensures id !in NameLookup(jobs) <==> forall k :: 0 <= k < |jobs| ==> jobs[k].id != id
  {
    if jobs != [] {
      var init := jobs[..|jobs| - 1];
      NameLookupKeys(init, id);
      assert forall k :: 0 <= k < |init| ==> init[k] == jobs[k];
    }
  }

  lemma {:induction false} NameLookupLastWins(jobs: seq<Job>, j: nat)
    requires j < |jobs|
    requires forall j' :: j < j' < |jobs| ==> jobs[j'].id != jobs[j].id
    ensures jobs[j].id in NameLookup(jobs) && NameLookup(jobs)[jobs[j].id] == jobs[j].name
  {
    var init := jobs[..|jobs| - 1];
    if j < |jobs| - 1 {
      assert init[j] == jobs[j];
      forall j' | j < j' < |init| ensures init[j'].id != init[j].id {
        assert init[j'] == jobs[j'];
      }
      NameLookupLastWins(init, j);
    }
  }

  /** The name `job_history` shows for a record of job `id`. */
  function JobName(jobs: seq<Job>, id: JobId): (name: string)
    ensures (forall k :: 0 <= k < |jobs| ==> jobs[k].id != id) ==> name == UnknownJob
    ensures forall j ::
      (0 <= j < |jobs| && jobs[j].id == id && forall j' :: j < j' < |jobs| ==> jobs[j'].id != id)
      ==> name == jobs[j].name
  {
    NameLookupKeys(jobs, id);
    forall j | 0 <= j < |jobs| && jobs[j].id == id && (forall j' :: j < j' < |jobs| ==> jobs[j'].id != id)
      ensures NameLookup(jobs)[id] == jobs[j].name
    {
      NameLookupLastWins(jobs, j);
    }
    var lookup := NameLookup(jobs);
    if id in lookup then lookup[id] else UnknownJob
  }

  /** A history row: the record and the name of its job. */
  datatype HistoryRow = HistoryRow(record: ExecutionRecord, jobName: string)

  /** `job_history`: the newest records first, at most one page, each with its job's name. */
  method JobHistory(manager: JobManager) returns (rows: seq<HistoryRow>)
    ensures |rows| == Min(HistoryPageSize, |manager.history|)
    ensures forall i :: 0 <= i < |rows| ==>
      rows[i].record == manager.history[|manager.history| - 1 - i]
      && rows[i].jobName == JobName(manager.jobs, rows[i].record.jobId)
  {
    var history := manager.GetJobHistory(HistoryPageSize);
    var jobs := manager.GetAllJobs();
    var lookup := NameLookup(jobs);
    rows := [];
    var i := 0;
    while i < |history|
      invariant 0 <= i <= |history|
      invariant |rows| == i
      invariant forall k :: 0 <= k < i ==>
        rows[k].record == history[k] && rows[k].jobName == JobName(jobs, history[k].jobId)
    {
      var entry := history[i];
      var name := if entry.jobId in lookup then lookup[entry.jobId] else UnknownJob;
      rows := rows + [HistoryRow(entry, name)];
      i := i + 1;
    }
  }
}
