/** The policy enforcement points: the blocking client's `authorize` and the
    non-blocking client's request job. Both run the PIPs over the request, then
    try the configured daemon endpoints in order until one answers. */
module Enforcement {
  import opened Lang
  import opened Requests
  import opened Responses
  import opened Config
  import opened DaemonClient

  /** How the endpoint loop ended: an endpoint answered with a response,
      every endpoint answered null, or a request threw. */
  datatype Dispatch = Answered(response: Response) | Exhausted | Aborted(error: Exception)

  /** The endpoint answered `performRequest` with null. */
  predicate Declined(t: Transport, url: string, request: Request)
  {
    PerformRequest(t, url, request) == Success(None)
  }

  /** `d` and `contacted` are how the endpoint loop over `urls` can end:
      the first `contacted` endpoints were tried, all but the last declined,
      and the last one answered or threw; or all declined. */
  ghost predicate IsFailoverOutcome(urls: seq<string>, request: Request, t: Transport, d: Dispatch, contacted: nat)
  {
    && contacted <= |urls|
    && (forall k :: 0 <= k < contacted - 1 ==> Declined(t, urls[k], request))
    && (d.Exhausted? ==> contacted == |urls| && (contacted > 0 ==> Declined(t, urls[contacted - 1], request)))
    && (d.Answered? ==> contacted > 0 && PerformRequest(t, urls[contacted - 1], request) == Success(Some(d.response)))
    && (d.Aborted? ==> contacted > 0 && PerformRequest(t, urls[contacted - 1], request) == Failure(d.error))
  }

  /** The endpoint loop of `authorize` and of the job's `call`: endpoints are
      tried in list order, and the first non-null response, or the first
      exception, ends the loop without any later endpoint being contacted. */
  method Failover(urls: seq<string>, request: Request, t: Transport) returns (d: Dispatch, contacted: nat)
    ensures contacted <= |urls|
    ensures forall k :: 0 <= k < contacted - 1 ==> Declined(t, urls[k], request)
    ensures d.Exhausted? ==> contacted == |urls| && forall k :: 0 <= k < |urls| ==> Declined(t, urls[k], request)
    ensures d.Answered? ==> contacted > 0 && PerformRequest(t, urls[contacted - 1], request) == Success(Some(d.response))
    ensures d.Aborted? ==> contacted > 0 && PerformRequest(t, urls[contacted - 1], request) == Failure(d.error)
  {
    contacted := 0;
    while contacted < |urls|
      invariant contacted <= |urls|
      invariant forall k :: 0 <= k < contacted ==> Declined(t, urls[k], request)
    {
      var r := PerformRequest(t, urls[contacted], request);
      contacted := contacted + 1;
      match r {
        case Failure(e) =>
          return Aborted(e), contacted;
        case Success(Some(response)) =>
          return Answered(response), contacted;
        case Success(None) =>
      }
    }
    d := Exhausted;
  }

  /** The endpoint loop has exactly one way to end: whatever satisfies the
      outcome description is the same dispatch after the same number of
      endpoints. */
  lemma FailoverOutcomeUnique(urls: seq<string>, request: Request, t: Transport,
                              d1: Dispatch, c1: nat, d2: Dispatch, c2: nat)
    requires IsFailoverOutcome(urls, request, t, d1, c1)
    requires IsFailoverOutcome(urls, request, t, d2, c2)
    ensures d1 == d2 && c1 == c2
  {
  }

  /** The endpoint that answers first wins: when every endpoint before index
      `j` declines and endpoint `j` answers, the loop answers with that
      response after contacting exactly `j + 1` endpoints. */
  lemma FirstAnswerWins(urls: seq<string>, request: Request, t: Transport, j: nat, response: Response,
                        d: Dispatch, contacted: nat)
    requires j < |urls|
    requires forall k :: 0 <= k < j ==> Declined(t, urls[k], request)
    requires PerformRequest(t, urls[j], request) == Success(Some(response))
    requires IsFailoverOutcome(urls, request, t, d, contacted)
    ensures d == Answered(response) && contacted == j + 1
  {
    FailoverOutcomeUnique(urls, request, t, d, contacted, Answered(response), j + 1);
  }

  /** A client: its configuration and the transport its daemon client uses. */
  datatype Pep = Pep(config: Configuration, transport: Transport)

  const NULL_CONFIGURATION: string := "Configuration may no be null"
  const NO_DAEMON: string := "No policy enformcement daemon could be contacted."

  /** `new BlockingPolicyEnforcementPoint(configuration)`. */
  function NewBlockingPep(configuration: Option<Configuration>, t: Transport): (r: Outcome<Pep>)
    ensures r.Failure? <==> configuration.None?
    ensures r.Failure? ==> r.error == IllegalArgument(NULL_CONFIGURATION)
    ensures r.Success? ==> r.value.config == configuration.value && r.value.transport == t
  {
    match configuration
    case None => Failure(IllegalArgument(NULL_CONFIGURATION))
    case Some(c) => Success(Pep(c, t))
  }

  /** How the blocking `authorize` reports the end of the endpoint loop. */
  function BlockingResult(d: Dispatch): (r: Outcome<Response>)
    ensures r.Success? <==> d.Answered?
    ensures d.Answered? ==> r.value == d.response
    ensures d.Aborted? ==> r.error == d.error
    ensures d.Exhausted? ==> r.error == AuthorizationService(NO_DAEMON)
  {
    match d
    case Answered(response) => Success(response)
    case Exhausted => Failure(AuthorizationService(NO_DAEMON))
    case Aborted(error) => Failure(error)
  }

  /** How the job's `call` reports the end of the endpoint loop. */
  function JobResult(d: Dispatch): (r: Outcome<Option<Response>>)
    ensures r.Success? <==> !d.Aborted?
    ensures d.Answered? ==> r.value == Some(d.response)
    ensures d.Exhausted? ==> r.value.None?
    ensures d.Aborted? ==> r.error == d.error
  {
    match d
    case Answered(response) => Success(Some(response))
    case Exhausted => Success(None)
    case Aborted(error) => Failure(error)
  }

  /** The two clients report the same outcome except when no endpoint
      answers: then the blocking one throws and the job returns null. */
  lemma BlockingAndJobDifferOnlyOnExhaustion(d: Dispatch)
    ensures d.Answered? ==> JobResult(d) == Success(Some(BlockingResult(d).value))
    ensures d.Aborted? ==> JobResult(d) == Failure(BlockingResult(d).error)
    ensures d.Exhausted? ==> JobResult(d) == Success(None) && BlockingResult(d) == Failure(AuthorizationService(NO_DAEMON))
  {
  }

  /** The PIPs, then the endpoint loop over the request they left. A
      configuration whose endpoints were never set has a null list, and the
      loop over it throws. */
  method Process(pep: Pep, request: Request) returns (d: Dispatch, contacted: nat)
    ensures var e := RunPolicyInformationPoints(request, pep.config.pips);
            && (e.error.Some? ==> d == Aborted(e.error.value) && contacted == 0)
            && (e.error.None? && pep.config.endpoints.Unset? ==> d == Aborted(NullPointer) && contacted == 0)
            && (e.error.None? && pep.config.endpoints.ReadOnly? ==>
                  IsFailoverOutcome(pep.config.endpoints.urls, e.request, pep.transport, d, contacted))
  {
    var e := RunPolicyInformationPoints(request, pep.config.pips);
    if e.error.Some? {
      return Aborted(e.error.value), 0;
    }
    match pep.config.endpoints {
      case Unset =>
        d, contacted := Aborted(NullPointer), 0;
      case ReadOnly(urls) =>
        d, contacted := Failover(urls, e.request, pep.transport);
    }
  }

  /** The blocking `authorize`: the PIPs' exception, the first daemon
      response, the first daemon exception, or "no daemon could be contacted"
      when every endpoint answered null. */
  method Authorize(pep: Pep, request: Request) returns (r: Outcome<Response>, contacted: nat)
    ensures var e := RunPolicyInformationPoints(request, pep.config.pips);
            && (e.error.Some? ==> r == Failure(e.error.value) && contacted == 0)
            && (e.error.None? && pep.config.endpoints.Unset? ==> r == Failure(NullPointer) && contacted == 0)
            && (e.error.None? && pep.config.endpoints.ReadOnly? ==>
                  exists d :: IsFailoverOutcome(pep.config.endpoints.urls, e.request, pep.transport, d, contacted)
                              && r == BlockingResult(d))
  {
    var d;
    d, contacted := Process(pep, request);
    r := BlockingResult(d);
  }

  /** A request job of the non-blocking client: it holds the caller's request. */
  datatype Job = Job(request: Request)

  /** The non-blocking `authorize`: exactly one job, carrying the caller's
      request, joins the jobs already submitted. */
  function Submit(jobs: seq<Job>, request: Request): (r: seq<Job>)
    ensures |r| == |jobs| + 1
    ensures r[..|jobs|] == jobs
    ensures r[|jobs|].request == request
  {
    jobs + [Job(request)]
  }

  /** The job's `call`: as the blocking `authorize`, except that null is
      returned when every endpoint answered null. */
  method Call(pep: Pep, job: Job) returns (r: Outcome<Option<Response>>, contacted: nat)
    ensures var e := RunPolicyInformationPoints(job.request, pep.config.pips);
            && (e.error.Some? ==> r == Failure(e.error.value) && contacted == 0)
            && (e.error.None? && pep.config.endpoints.Unset? ==> r == Failure(NullPointer) && contacted == 0)
            && (e.error.None? && pep.config.endpoints.ReadOnly? ==>
                  exists d :: IsFailoverOutcome(pep.config.endpoints.urls, e.request, pep.transport, d, contacted)
                              && r == JobResult(d))
  {
    var d;
    d, contacted := Process(pep, job.request);
    r := JobResult(d);
  }
}
