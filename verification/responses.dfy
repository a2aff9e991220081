/** `Response`: the results the decision point returned, with the request it
    effectively evaluated. */
module Responses {
  import opened Lang
  import opened Requests
  import opened Results

  datatype Response = Response(request: Option<Request>, results: seq<Result>)

  /** `new Response()`. */
  function NewResponse(): (r: Response)
    ensures r.request.None? && r.results == []
  {
    Response(None, [])
  }

  /** `setRequest`: the argument, null included, is stored as it is. */
  function SetRequest(resp: Response, effectiveRequest: Option<Request>): (r: Response)
    ensures r.request == effectiveRequest && r.results == resp.results
  {
    resp.(request := effectiveRequest)
  }

  /** `getResults().add(result)`. */
  function AddResult(resp: Response, result: Result): (r: Response)
    ensures r.results == resp.results + [result] && r.request == resp.request
  {
    resp.(results := resp.results + [result])
  }

  /** What `List.equals` observes of a result list. */
  function ResultViews(rs: seq<Result>): (r: seq<(Int32, Option<string>, Option<Status>, seq<(Option<string>, Int32, seq<nat>)>)>)
    ensures |r| == |rs|
    ensures forall i :: 0 <= i < |rs| ==> r[i] == ResultView(rs[i])
  {
    if rs == [] then [] else [ResultView(rs[0])] + ResultViews(rs[1..])
  }

  /** `List.equals` over result lists, element by element. */
  function ResultListEquals(xs: seq<Result>, ys: seq<Result>): (r: bool)
    ensures r <==> ResultViews(xs) == ResultViews(ys)
  {
    if xs == [] || ys == [] then xs == [] && ys == []
    else
      assert ResultViews(xs)[1..] == ResultViews(xs[1..]);
      assert ResultViews(ys)[1..] == ResultViews(ys[1..]);
      ResultEquals(xs[0], Is(ys[0])) && ResultListEquals(xs[1..], ys[1..])
  }

  /** `Response.equals`: result lists equal in order, and requests both null
      or equal. */
  function ResponseEquals(resp: Response, obj: Obj<Response>): (r: bool)
    ensures r <==> obj.Is? && obj.value.request == resp.request
                   && ResultViews(obj.value.results) == ResultViews(resp.results)
  {
    match obj
    case Null => false
    case Foreign => false
    case Is(other) =>
      var requestsEqual :=
        match resp.request
        case None => other.request.None?
        case Some(q) => RequestEquals(q, AsObj(other.request));
      ResultListEquals(resp.results, other.results) && requestsEqual
  }

  /** `Response.equals` is an equivalence relation. */
  lemma ResponseEqualsEquivalence(a: Response, b: Response, c: Response)
    ensures ResponseEquals(a, Is(a))
    ensures ResponseEquals(a, Is(b)) ==> ResponseEquals(b, Is(a))
    ensures ResponseEquals(a, Is(b)) && ResponseEquals(b, Is(c)) ==> ResponseEquals(a, Is(c))
  {
  }
}
