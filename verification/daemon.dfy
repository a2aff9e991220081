/** The PEP daemon client: sending one request to one daemon endpoint, and
    running the policy information points over a request before it is sent.
    The wire codec and the HTTP exchange are not modelled; a `Transport`
    stands for them. */
module DaemonClient {
  import opened Lang
  import opened Requests
  import opened Responses
  import opened InformationPoints

  /** What an HTTP POST to a daemon gave: an I/O failure while sending,
      reading or decoding, or a status code with the decoded body (which may
      decode to null). */
  datatype Exchange = IOFailure | Http(status: int, payload: Option<Response>)

  /** `encodes(r)` says whether the request can be serialised; `exchange`
      posts a serialised request to an endpoint URL. */
  datatype Transport = Transport(encodes: Request -> bool, exchange: (string, Request) -> Exchange)

  const SC_OK: int := 200
  const SERIALIZE_FAILED: string := "Unable to serialize request object"
  const READ_FAILED: string := "Unable to read response from PEP daemon "

  /** `performRequest`: a request that cannot be serialised fails before
      anything is sent; an I/O failure fails naming the endpoint; a 200 answer
      gives its decoded response; any other status gives null. */
  function PerformRequest(t: Transport, pepUrl: string, request: Request): (r: Outcome<Option<Response>>)
    ensures r.Failure? <==> !t.encodes(request) || t.exchange(pepUrl, request).IOFailure?
    ensures r.Failure? ==> r.error.AuthorizationService?
    ensures !t.encodes(request) ==> r.error.message == SERIALIZE_FAILED
    ensures r.Failure? && t.encodes(request) ==> r.error.message == READ_FAILED + pepUrl
    ensures r.Success? ==>
              var x := t.exchange(pepUrl, request);
              && (x.status == SC_OK ==> r.value == x.payload)
              && (x.status != SC_OK ==> r.value.None?)
  {
    if !t.encodes(request) then Failure(AuthorizationService(SERIALIZE_FAILED))
    else
      match t.exchange(pepUrl, request)
      case IOFailure => Failure(AuthorizationService(READ_FAILED + pepUrl))
      case Http(status, payload) => if status == SC_OK then Success(payload) else Success(None)
  }

  /** A request that cannot be serialised never reaches the network: the
      outcome is the same whatever the exchange would have done. */
  lemma SerializeFailureSendsNothing(t: Transport, u: Transport, pepUrl: string, request: Request)
    requires !t.encodes(request) && !u.encodes(request)
    ensures PerformRequest(t, pepUrl, request) == PerformRequest(u, pepUrl, request)
  {
  }

  /** The indices of the non-null entries of `pips` from `i` on, in order. */
  function NonNull(pips: seq<Option<InformationPoint>>, i: nat): (r: seq<nat>)
    requires i <= |pips|
    ensures forall k :: 0 <= k < |r| ==> i <= r[k] < |pips| && pips[r[k]].Some?
    ensures forall k :: i <= k < |pips| && pips[k].Some? ==> k in r
    ensures forall a, b :: 0 <= a < b < |r| ==> r[a] < r[b]
    decreases |pips| - i
  {
    if i == |pips| then []
    else if pips[i].Some? then [i] + NonNull(pips, i + 1)
    else NonNull(pips, i + 1)
  }

  /** What the PIP at index `k` does with `input`; none when there is no
      PIP there. */
  function Reply(pips: seq<Option<InformationPoint>>, k: nat, input: Request): Option<PipReply>
  {
    if k < |pips| && pips[k].Some? then Some(pips[k].value(input)) else None
  }

  /** A run of the PIPs: the request as the last PIP left it, the indices of
      the PIPs invoked and the request each was given, in invocation order, and
      the exception that stopped the run, if any. */
  datatype Enrichment = Enrichment(request: Request, invoked: seq<nat>, inputs: seq<Request>, error: Option<Exception>)

  /** `runPolicyInformationPoints` from index `i` of the PIP list on. */
  function RunFrom(request: Request, pips: seq<Option<InformationPoint>>, i: nat): (e: Enrichment)
    requires i <= |pips|
    ensures |e.inputs| == |e.invoked| <= |NonNull(pips, i)|
    ensures e.invoked == NonNull(pips, i)[..|e.invoked|]
    ensures e.error.None? ==> e.invoked == NonNull(pips, i)
    ensures e.invoked == [] ==> e.request == request && e.error.None?
    decreases |pips| - i
  {
    if i == |pips| then Enrichment(request, [], [], None)
    else
      match pips[i]
      case None => RunFrom(request, pips, i + 1)
      case Some(pip) =>
        match pip(request)
        case Raised(changed, error) => Enrichment(changed, [i], [request], Some(error))
        case Populated(changed, _) =>
          var rest := RunFrom(changed, pips, i + 1);
          Enrichment(rest.request, [i] + rest.invoked, [request] + rest.inputs, rest.error)
  }

  /** Every PIP a run invokes is a non-null entry at or after `i`. */
  lemma RunFromInvokesNonNull(request: Request, pips: seq<Option<InformationPoint>>, i: nat)
    requires i <= |pips|
    ensures var e := RunFrom(request, pips, i);
            forall k :: 0 <= k < |e.invoked| ==> i <= e.invoked[k] < |pips| && pips[e.invoked[k]].Some?
  {
    var e := RunFrom(request, pips, i);
    assert forall k :: 0 <= k < |e.invoked| ==> e.invoked[k] == NonNull(pips, i)[k];
  }

  /** Each PIP of a trace but the last returned normally, leaving the
      request the next one was given. */
  predicate Chained(pips: seq<Option<InformationPoint>>, e: Enrichment)
  {
    && |e.inputs| == |e.invoked|
    && forall k :: 0 <= k < |e.invoked| - 1 ==> HandsOn(pips, e, k)
  }

  /** The `k`-th PIP of a trace returned normally, leaving the request the
      next one was given. */
  predicate HandsOn(pips: seq<Option<InformationPoint>>, e: Enrichment, k: nat)
    requires |e.inputs| == |e.invoked| && k < |e.invoked| - 1
  {
    var reply := Reply(pips, e.invoked[k], e.inputs[k]);
    reply.Some? && reply.value.Populated? && reply.value.request == e.inputs[k + 1]
  }

  /** A chained trace stays chained when a PIP that returned normally, leaving
      the request the trace starts from, is put in front of it. */
  lemma ChainedCons(pips: seq<Option<InformationPoint>>, i: nat, request: Request, rest: Enrichment)
    requires Chained(pips, rest)
    requires Reply(pips, i, request).Some? && Reply(pips, i, request).value.Populated?
    requires rest.invoked != [] ==> rest.inputs[0] == Reply(pips, i, request).value.request
    ensures Chained(pips, Enrichment(rest.request, [i] + rest.invoked, [request] + rest.inputs, rest.error))
  {
    var e := Enrichment(rest.request, [i] + rest.invoked, [request] + rest.inputs, rest.error);
    forall k | 0 <= k < |e.invoked| - 1
      ensures HandsOn(pips, e, k)
    {
      if k > 0 {
        assert HandsOn(pips, rest, k - 1);
        assert e.invoked[k] == rest.invoked[k - 1] && e.inputs[k] == rest.inputs[k - 1];
        assert e.inputs[k + 1] == rest.inputs[k];
      } else {
        assert e.invoked[0] == i && e.inputs[0] == request;
        assert e.inputs[1] == rest.inputs[0];
      }
    }
  }

  /** The trace of a run: the first PIP invoked is given the caller's
      request, and each later one the request its predecessor left after
      returning normally. */
  lemma {:induction false} RunFromChain(request: Request, pips: seq<Option<InformationPoint>>, i: nat)
    requires i <= |pips|
    ensures var e := RunFrom(request, pips, i);
            && (e.invoked != [] ==> e.inputs[0] == request)
            && Chained(pips, e)
    decreases |pips| - i
  {
    if i < |pips| {
      match pips[i]
      case None =>
        RunFromChain(request, pips, i + 1);
      case Some(pip) =>
        match pip(request)
        case Raised(_, _) =>
        case Populated(changed, _) =>
          RunFromChain(changed, pips, i + 1);
          ChainedCons(pips, i, request, RunFrom(changed, pips, i + 1));
    }
  }

  /** The last PIP a run invokes either threw the run's exception or returned
      normally leaving the run's final request; in both cases the final request
      is the one it left. */
  lemma {:induction false} RunFromLast(request: Request, pips: seq<Option<InformationPoint>>, i: nat)
    requires i <= |pips|
    ensures var e := RunFrom(request, pips, i);
            e.invoked != [] ==>
              var last := Reply(pips, e.invoked[|e.invoked| - 1], e.inputs[|e.invoked| - 1]);
              && last.Some?
              && e.request == last.value.request
              && (e.error.Some? <==> last.value.Raised?)
              && (last.value.Raised? ==> e.error == Some(last.value.error))
    decreases |pips| - i
  {
    var e := RunFrom(request, pips, i);
    if i < |pips| {
      match pips[i]
      case None =>
        RunFromLast(request, pips, i + 1);
      case Some(pip) =>
        match pip(request)
        case Raised(_, _) =>
        case Populated(changed, _) =>
          var rest := RunFrom(changed, pips, i + 1);
          RunFromLast(changed, pips, i + 1);
          if rest.invoked != [] {
            var n := |e.invoked| - 1;
            assert e.invoked[n] == rest.invoked[n - 1];
            assert e.inputs[n] == rest.inputs[n - 1];
          }
    }
  }

  /** `runPolicyInformationPoints`: each non-null PIP of the list, in order,
      is given the request as the previous one left it; the first exception
      stops the run. */
  function RunPolicyInformationPoints(request: Request, pips: seq<Option<InformationPoint>>): (e: Enrichment)
    ensures e == RunFrom(request, pips, 0)
    ensures e.error.None? ==> e.invoked == NonNull(pips, 0)
  {
    RunFrom(request, pips, 0)
  }

  /** Whether a PIP applied does not matter: the same PIP reporting `false`
      every time gives the same run. */
  function IgnoreApplied(pip: InformationPoint): (p: InformationPoint)
    ensures forall r :: p(r).request == pip(r).request && p(r).Raised? == pip(r).Raised?
    ensures forall r :: pip(r).Raised? ==> p(r) == pip(r)
    ensures forall r :: p(r).Populated? ==> !p(r).applied
  {
    r => match pip(r)
         case Populated(changed, _) => Populated(changed, false)
         case Raised(changed, error) => Raised(changed, error)
  }

  function IgnoreAppliedAll(pips: seq<Option<InformationPoint>>): (q: seq<Option<InformationPoint>>)
    ensures |q| == |pips|
    ensures forall k :: 0 <= k < |pips| ==> q[k].Some? == pips[k].Some?
    ensures forall k :: 0 <= k < |pips| && pips[k].Some? ==> q[k] == Some(IgnoreApplied(pips[k].value))
  {
    if pips == [] then []
    else
      var head := match pips[0] case None => None case Some(pip) => Some(IgnoreApplied(pip));
      [head] + IgnoreAppliedAll(pips[1..])
  }

  /** The applied flag a PIP returns affects nothing but logging. */
  lemma {:induction false} AppliedFlagIgnored(request: Request, pips: seq<Option<InformationPoint>>, i: nat)
    requires i <= |pips|
    ensures RunFrom(request, IgnoreAppliedAll(pips), i) == RunFrom(request, pips, i)
    decreases |pips| - i
  {
    var q := IgnoreAppliedAll(pips);
    if i < |pips| {
      match pips[i]
      case None =>
        AppliedFlagIgnored(request, pips, i + 1);
      case Some(pip) =>
        assert q[i] == Some(IgnoreApplied(pip));
        match pip(request)
        case Raised(_, _) =>
        case Populated(changed, _) =>
          AppliedFlagIgnored(changed, pips, i + 1);
    }
  }

  /** PIPs that only add to a request leave a request extending the original,
      even when one of them throws. */
  lemma {:induction false} EnrichingRunExtends(request: Request, pips: seq<Option<InformationPoint>>, i: nat)
    requires i <= |pips|
    requires forall k :: i <= k < |pips| && pips[k].Some? ==> Enriching(pips[k].value)
    ensures Extends(request, RunFrom(request, pips, i).request)
    decreases |pips| - i
  {
    if i < |pips| {
      match pips[i]
      case None =>
        EnrichingRunExtends(request, pips, i + 1);
      case Some(pip) =>
        assert Extends(request, pip(request).request);
        match pip(request)
        case Raised(_, _) =>
        case Populated(changed, _) =>
          EnrichingRunExtends(changed, pips, i + 1);
          ExtendsPreorder(request, changed, RunFrom(changed, pips, i + 1).request);
    }
  }

  /** `runObligationHandlers`: no handler is run; request and response are
      returned untouched and nothing is thrown. */
  function RunObligationHandlers(request: Request, response: Response): (r: Effect<(Request, Response)>)
    ensures r.thrown.None?
    ensures r.after == (request, response)
  {
    Effect((request, response), None)
  }
}
