/**
 * `CronScheduler` (scheduler.py): the table of cron bindings and the
 * execution of one job. APScheduler's clock, thread pool and fire-time
 * arithmetic are not modelled; a binding is the job id and its five cron
 * fields. The HTTP call and `json.loads` are parameters.
 */
module Scheduling {
  import opened Wrappers
  import opened Text
  import opened Json
  import opened JobStore

  /** The five fields handed to APScheduler's `CronTrigger`. */
  datatype CronTrigger = CronTrigger(minute: string, hour: string, day: string, month: string, dayOfWeek: string)
  {
    function Parts(): seq<string> {
      [minute, hour, day, month, dayOfWeek]
    }
  }

  /** Accepted when `expr.split()` yields exactly five whitespace-free fields. */
  function ParseCron(expr: string): (r: Option<CronTrigger>)
    ensures r.Some? <==> |Fields(expr)| == 5
    ensures r.Some? ==> r.value.Parts() == Fields(expr)
  {
    var parts := Fields(expr);
    if |parts| != 5 then None
    else Some(CronTrigger(parts[0], parts[1], parts[2], parts[3], parts[4]))
  }

  /** Five non-empty, whitespace-free fields joined by spaces parse back to those fields. */
  lemma CronRoundTrip(t: CronTrigger)
    requires forall k :: 0 <= k < 5 ==> t.Parts()[k] != [] && NoSpace(t.Parts()[k])
    ensures ParseCron(JoinWithSpace(t.Parts())) == Some(t)
  {
    FieldsOfJoin(t.Parts());
  }

  const DefaultUserAgent := "CronJobManager/1.0"
  const RequestTimeout: nat := 30

  /** What `requests.request` is given as the body: nothing, `json=` or `data=`. */
  datatype Body = NoBody | JsonBody(value: Json) | RawBody(data: string)

  datatype Request = Request(httpMethod: string, url: string, headers: Headers, timeout: nat, body: Body)

  /** What `requests.request` gives back: a response, or a `RequestException` and its message. */
  datatype Reply = Response(status: int, text: string) | RequestFailure(reason: string)

  /** The request, or the message of the exception `json.loads` raised on the payload. */
  datatype Prepared = Ready(request: Request) | MalformedPayload(reason: string)

  /** The arguments `_execute_job` passes to `add_execution_history`. */
  datatype Outcome = Outcome(statusCode: Option<int>, success: bool,
                             errorMessage: Option<string>, responseContent: Option<string>)

  /** `job.get('method', 'GET').upper()`: the stored method in capitals, GET when none is stored. */
  function Verb(job: Job): (r: string)
    ensures job.httpMethod.None? ==> r == "GET"
    ensures job.httpMethod.Some? ==> |r| == |job.httpMethod.value|
    ensures forall k :: 0 <= k < |r| ==> !('a' <= r[k] <= 'z')
    ensures job.httpMethod.Some? ==> forall k :: 0 <= k < |r| ==>
      r[k] == job.httpMethod.value[k]
      || ('a' <= job.httpMethod.value[k] <= 'z' && r[k] as int == job.httpMethod.value[k] as int - 32)
  {
    Upper(job.httpMethod.GetOr("GET"))
  }

  predicate CarriesBody(verb: string) {
    verb == "POST" || verb == "PUT" || verb == "PATCH"
  }

  /** The payload is truthy: present and non-empty. */
  predicate HasPayload(job: Job) {
    job.payload.Some? && job.payload.value != []
  }

  /** The headers after the default `User-Agent` is put in where the key is missing. */
  function WithDefaultAgent(h: Headers): (r: Headers)
    ensures "User-Agent" in r
    ensures r.Keys == h.Keys + {"User-Agent"}
    ensures forall k :: k in h ==> r[k] == h[k]
    ensures "User-Agent" !in h ==> r["User-Agent"] == DefaultUserAgent
  {
    if "User-Agent" in h then h else h["User-Agent" := DefaultUserAgent]
  }

  /** `headers.get('Content-Type', '').startswith('application/json')` */
  predicate DeclaresJson(h: Headers) {
    StartsWith(if "Content-Type" in h then h["Content-Type"] else "", "application/json")
  }

  /** The request `_execute_job` builds for `job`, up to the call of `requests.request`. */
  function Prepare(job: Job, parse: string -> Parsed): (p: Prepared)
    ensures p.MalformedPayload? <==>
      CarriesBody(Verb(job)) && HasPayload(job)
      && DeclaresJson(WithDefaultAgent(job.headers.GetOr(map[])))
      && parse(job.payload.value).DecodeError?
    ensures p.Ready? ==>
      && p.request.httpMethod == Verb(job)
      && p.request.url == job.url
      && p.request.headers == WithDefaultAgent(job.headers.GetOr(map[]))
      && p.request.timeout == RequestTimeout
    ensures p.Ready? ==> (p.request.body.NoBody? <==> !(CarriesBody(Verb(job)) && HasPayload(job)))
    ensures p.Ready? && p.request.body.JsonBody? ==>
      DeclaresJson(p.request.headers) && parse(job.payload.value) == Value(p.request.body.value)
    ensures p.Ready? && p.request.body.RawBody? ==>
      !DeclaresJson(p.request.headers) && p.request.body.data == job.payload.value
  {
    var verb := Verb(job);
    var headers := WithDefaultAgent(job.headers.GetOr(map[]));
    if CarriesBody(verb) && HasPayload(job) then
      if DeclaresJson(headers) then
        match parse(job.payload.value)
        case DecodeError(reason) => MalformedPayload(reason)
        case Value(v) => Ready(Request(verb, job.url, headers, RequestTimeout, JsonBody(v)))
      else Ready(Request(verb, job.url, headers, RequestTimeout, RawBody(job.payload.value)))
    else Ready(Request(verb, job.url, headers, RequestTimeout, NoBody))
  }

  /** `200 <= response.status_code < 400` */
  predicate IsSuccessStatus(status: int) {
    200 <= status < 400
  }

  /**
   * The message recorded for a response outside the success range: the
   * status in decimal, then at most the first 200 characters of the body.
   */
  function HttpErrorMessage(status: int, text: string): (r: string)
    ensures var head := "HTTP " + IntToString(status) + ": ";
      && StartsWith(r, head)
      && |r| == |head| + Min(200, |text|)
      && StartsWith(text, r[|head|..])
      && (|text| <= 200 ==> r == head + text)
  {
    "HTTP " + IntToString(status) + ": " + text[..Min(200, |text|)]
  }

  /** What one execution of `job` records, given the JSON parser and the network. */
  function Attempt(job: Job, parse: string -> Parsed, network: Request -> Reply): (o: Outcome)
    ensures o.success <==>
      Prepare(job, parse).Ready? && network(Prepare(job, parse).request).Response?
      && IsSuccessStatus(network(Prepare(job, parse).request).status)
    ensures o.statusCode.Some? <==>
      Prepare(job, parse).Ready? && network(Prepare(job, parse).request).Response?
    ensures o.statusCode.Some? ==> o.statusCode.value == network(Prepare(job, parse).request).status
    ensures o.success ==> o.errorMessage.None? && o.responseContent == Some(network(Prepare(job, parse).request).text)
    ensures !o.success ==> o.responseContent.None? && o.errorMessage.Some?
    ensures o.statusCode.Some? && !o.success ==>
      var reply := network(Prepare(job, parse).request);
      o.errorMessage == Some(HttpErrorMessage(reply.status, reply.text))
    ensures Prepare(job, parse).MalformedPayload? ==>
      o.errorMessage == Some("Unexpected error: " + Prepare(job, parse).reason)
    ensures Prepare(job, parse).Ready? && network(Prepare(job, parse).request).RequestFailure? ==>
      o.errorMessage == Some("Request failed: " + network(Prepare(job, parse).request).reason)
  {
    match Prepare(job, parse)
    case MalformedPayload(reason) => Outcome(None, false, Some("Unexpected error: " + reason), None)
    case Ready(request) =>
      match network(request)
      case RequestFailure(reason) => Outcome(None, false, Some("Request failed: " + reason), None)
      case Response(status, text) =>
        if IsSuccessStatus(status) then Outcome(Some(status), true, None, Some(text))
        else Outcome(Some(status), false, Some(HttpErrorMessage(status, text)), None)
  }

  /** The record an execution leaves: a successful body is kept up to 1000 characters, a failed one not at all. */
  lemma RecordedContent(job: Job, parse: string -> Parsed, network: Request -> Reply)
    ensures var o := Attempt(job, parse, network);
      var stored := Excerpt(o.responseContent);
      && (stored.Some? ==>
            o.success && |stored.value| <= MaxContent
            && StartsWith(network(Prepare(job, parse).request).text, stored.value))
      && (o.success && network(Prepare(job, parse).request).text != [] ==> stored.Some?)
  {
  }

  /** The status code written in an HTTP failure message reads back as that code. */
  lemma HttpErrorMessageCarriesStatus(status: nat, text: string)
    ensures var m := HttpErrorMessage(status, text);
      var digits := NatToString(status);
      && StartsWith(m, "HTTP " + digits + ": ")
      && AllDigits(digits) && DigitsValue(digits) == status
  {
    NatToStringRoundTrip(status);
    var digits := NatToString(status);
    assert HttpErrorMessage(status, text) == ("HTTP " + digits + ": ") + text[..Min(200, |text|)];
  }

  /**
   * The request-building steps of `_execute_job`: the method and headers are
   * read with their defaults, `User-Agent` is filled in, and a body is chosen.
   */
  method BuildRequest(job: Job, parse: string -> Parsed) returns (p: Prepared)
    ensures p == Prepare(job, parse)
  {
    var verb := Upper(job.httpMethod.GetOr("GET"));
    var headers := job.headers.GetOr(map[]);
    if "User-Agent" !in headers {
      headers := headers["User-Agent" := DefaultUserAgent];
    }
    var body := NoBody;
    if CarriesBody(verb) && HasPayload(job) {
      if DeclaresJson(headers) {
        var parsed := parse(job.payload.value);
        if parsed.DecodeError? {
          return MalformedPayload(parsed.reason);
        }
        body := JsonBody(parsed.json);
      } else {
        body := RawBody(job.payload.value);
      }
    }
    p := Ready(Request(verb, job.url, headers, RequestTimeout, body));
  }

  class CronScheduler {
    /** The job store the scheduler reads jobs from and records history in. */
    const manager: JobManager
    /** APScheduler's job table: at most one trigger per job id. */
    var bindings: map<JobId, CronTrigger>

    ghost predicate Valid()
      reads this, manager
    {
      manager.Valid() && forall id :: id in bindings ==> id < manager.nextId
    }

    constructor (manager: JobManager)
      requires manager.Valid()
      ensures Valid() && this.manager == manager && bindings == map[]
    {
      this.manager := manager;
      bindings := map[];
    }

    /**
     * `schedule_job`: an unknown job changes nothing; otherwise the old binding
     * is removed first, and a new one is added only when the cron expression
     * has five fields.
     */
    method ScheduleJob(id: JobId) returns (ok: bool)
      requires Valid()
      modifies this
      ensures Valid()
      ensures manager.GetJob(id).None? ==> !ok && bindings == old(bindings)
      ensures manager.GetJob(id).Some? ==>
        var trigger := ParseCron(manager.GetJob(id).value.cronExpression);
        && ok == trigger.Some?
        && bindings == if ok then old(bindings)[id := trigger.value] else old(bindings) - {id}
    {
      var job := manager.GetJob(id);
      if job.None? {
        return false;
      }
      RemoveJob(id);
      var trigger := ParseCron(job.value.cronExpression);
      if trigger.None? {
        return false;
      }
      bindings := bindings[id := trigger.value];
      ok := true;
    }

    /** `remove_job`: removing an id that is not bound is not an error and changes nothing. */
    method RemoveJob(id: JobId)
      requires Valid()
      modifies this
      ensures Valid()
      ensures bindings == old(bindings) - {id}
    {
      bindings := bindings - {id};
    }

    /** `get_running_jobs`: every bound id, once each. */
    method GetRunningJobs() returns (ids: seq<JobId>)
      ensures forall id :: id in ids <==> id in bindings
      ensures |ids| == |bindings|
    {
      ids := [];
      var rest := bindings.Keys;
      while rest != {}
        invariant rest <= bindings.Keys
        invariant forall id :: id in ids <==> id in bindings.Keys - rest
        invariant |ids| + |rest| == |bindings.Keys|
        decreases |rest|
      {
        var id :| id in rest;
        ids := ids + [id];
        rest := rest - {id};
      }
    }

    /**
     * `_execute_job`: an unknown job records nothing; a known one records
     * exactly one history entry, built from the outcome of its request.
     */
    method ExecuteJob(id: JobId, now: Timestamp, parse: string -> Parsed, network: Request -> Reply)
      returns (ok: bool)
      requires Valid()
      modifies manager
      ensures Valid()
      ensures old(manager.GetJob(id)).None? ==>
        !ok && manager.jobs == old(manager.jobs) && manager.history == old(manager.history)
        && manager.nextId == old(manager.nextId)
      ensures old(manager.GetJob(id)).Some? ==>
        var o := Attempt(old(manager.GetJob(id)).value, parse, network);
        && ok == o.success
        && manager.jobs == WithLastRun(old(manager.jobs), id, now, o.success)
        && manager.history == Appended(old(manager.history),
             ExecutionRecord(old(manager.nextId), id, now, o.statusCode, o.success,
                             o.errorMessage, Excerpt(o.responseContent)))
        && manager.nextId == old(manager.nextId) + 1
    {
      var found := manager.GetJob(id);
      if found.None? {
        return false;
      }
      var job := found.value;
      var prepared := BuildRequest(job, parse);

      var statusCode: Option<int>, success: bool, errorMessage: Option<string>, content: Option<string>;
      match prepared {
        case MalformedPayload(reason) =>
          statusCode, success := None, false;
          errorMessage, content := Some("Unexpected error: " + reason), None;
        case Ready(request) =>
          match network(request) {
            case RequestFailure(reason) =>
              statusCode, success := None, false;
              errorMessage, content := Some("Request failed: " + reason), None;
            case Response(status, text) =>
              statusCode, success := Some(status), IsSuccessStatus(status);
              errorMessage := if success then None else Some(HttpErrorMessage(status, text));
              content := if success then Some(text) else None;
          }
      }
      manager.AddExecutionHistory(id, statusCode, success, errorMessage, content, now);
      ok := success;
    }

    /** `run_job_now`: the same execution as a scheduled firing. */
    method RunJobNow(id: JobId, now: Timestamp, parse: string -> Parsed, network: Request -> Reply)
      returns (ok: bool)
      requires Valid()
      modifies manager
      ensures Valid()
      ensures old(manager.GetJob(id)).None? ==>
        !ok && manager.jobs == old(manager.jobs) && manager.history == old(manager.history)
        && manager.nextId == old(manager.nextId)
      ensures old(manager.GetJob(id)).Some? ==>
        var o := Attempt(old(manager.GetJob(id)).value, parse, network);
        && ok == o.success
        && manager.jobs == WithLastRun(old(manager.jobs), id, now, o.success)
        && manager.history == Appended(old(manager.history),
             ExecutionRecord(old(manager.nextId), id, now, o.statusCode, o.success,
                             o.errorMessage, Excerpt(o.responseContent)))
        && manager.nextId == old(manager.nextId) + 1
    {
      ok := ExecuteJob(id, now, parse, network);
    }
  }
}
