/** `StatusCode` (a code with an optional, recursively nested sub-code),
    `Status` (a message and a code) and `Result` (the decision for one
    resource, with its status and obligations). */
module Results {
  import opened Lang
  import opened Strings
  import opened Decisions
  import opened Obligations

  datatype StatusCode = StatusCode(code: Option<string>, subCode: Option<StatusCode>)

  /** Every code along the sub-code chain has the shape `setCode` gives it. */
  predicate ValidCode(c: StatusCode)
  {
    Normal(c.code) && (c.subCode.Some? ==> ValidCode(c.subCode.value))
  }

  /** `new StatusCode()`. */
  function NewStatusCode(): (c: StatusCode)
    ensures c.code.None? && c.subCode.None?
    ensures ValidCode(c)
  {
    StatusCode(None, None)
  }

  /** `StatusCode.setCode`. */
  function SetCode(c: StatusCode, newCode: Option<string>): (r: StatusCode)
    ensures r.code.None? <==> IsEmpty(newCode)
    ensures r.code.Some? ==> r.code.value == Trim(newCode.value)
    ensures r.subCode == c.subCode
    ensures ValidCode(c) ==> ValidCode(r)
  {
    c.(code := SafeTrimOrNull(newCode))
  }

  /** `setSubCode`: the argument is stored as it is. */
  function SetSubCode(c: StatusCode, newSubCode: Option<StatusCode>): (r: StatusCode)
    ensures r.code == c.code && r.subCode == newSubCode
    ensures ValidCode(c) && (newSubCode.Some? ==> ValidCode(newSubCode.value)) ==> ValidCode(r)
  {
    c.(subCode := newSubCode)
  }

  /** `StatusCode.equals`: null-safe equal codes, and sub-codes both null or
      equal by this same method. */
  function StatusCodeEquals(c: StatusCode, obj: Obj<StatusCode>): (r: bool)
    ensures r <==> obj == Is(c)
    decreases c
  {
    match obj
    case Null => false
    case Foreign => false
    case Is(other) =>
      var subCodesEqual :=
        match c.subCode
        case None => other.subCode.None?
        case Some(sub) => StatusCodeEquals(sub, AsObj(other.subCode));
      SafeEquals(c.code, other.code) && subCodesEqual
  }

  /** The codes along the sub-code chain, outermost first. */
  function Chain(c: StatusCode): (r: seq<Option<string>>)
    ensures |r| >= 1 && r[0] == c.code
    decreases c
  {
    match c.subCode
    case None => [c.code]
    case Some(sub) => [c.code] + Chain(sub)
  }

  /** Two status codes are equal exactly when their chains have the same length
      and the same codes, level by level. */
  lemma {:induction false} StatusCodeEqualsChain(a: StatusCode, b: StatusCode)
    ensures StatusCodeEquals(a, Is(b)) <==> Chain(a) == Chain(b)
    decreases a
  {
    match (a.subCode, b.subCode)
    case (None, None) =>
    case (Some(sa), Some(sb)) =>
      StatusCodeEqualsChain(sa, sb);
      assert Chain(a)[1..] == Chain(sa);
      assert Chain(b)[1..] == Chain(sb);
    case (None, Some(sb)) =>
      assert |Chain(b)| == 1 + |Chain(sb)|;
    case (Some(sa), None) =>
      assert |Chain(a)| == 1 + |Chain(sa)|;
  }

  datatype Status = Status(message: Option<string>, code: Option<StatusCode>)

  /** `new Status()`. */
  function NewStatus(): (s: Status)
    ensures s.message.None? && s.code.None?
  {
    Status(None, None)
  }

  /** `setMessage`. */
  function SetMessage(s: Status, newMessage: Option<string>): (r: Status)
    ensures r.message.None? <==> IsEmpty(newMessage)
    ensures r.message.Some? ==> r.message.value == Trim(newMessage.value)
    ensures Normal(r.message)
    ensures r.code == s.code
  {
    s.(message := SafeTrimOrNull(newMessage))
  }

  /** `Status.setCode`: the argument is stored as it is. */
  function SetStatusCode(s: Status, code: Option<StatusCode>): (r: Status)
    ensures r.message == s.message && r.code == code
  {
    s.(code := code)
  }

  /** `Status.equals`: null-safe equal messages, and codes both null or equal. */
  function StatusEquals(s: Status, obj: Obj<Status>): (r: bool)
    ensures r <==> obj == Is(s)
  {
    match obj
    case Null => false
    case Foreign => false
    case Is(other) =>
      var codesEqual :=
        match s.code
        case None => other.code.None?
        case Some(c) => StatusCodeEquals(c, AsObj(other.code));
      SafeEquals(s.message, other.message) && codesEqual
  }

  datatype Result = Result(decision: Int32, resourceId: Option<string>, status: Option<Status>, obligations: seq<Obligation>)

  /** The shape every result built through its setters has. */
  predicate ValidResult(r: Result)
  {
    IsDecision(r.decision) && Normal(r.resourceId)
  }

  /** `new Result()`. */
  function NewResult(): (r: Result)
    ensures r.decision == DECISION_DENY && r.resourceId.None? && r.status.None? && r.obligations == []
    ensures ValidResult(r)
  {
    Result(DECISION_DENY, None, None, [])
  }

  /** `getDecisionString`: the name of the held decision; never null for a
      result built through its setters. */
  function DecisionString(r: Result): (s: Option<string>)
    ensures ValidResult(r) ==> s.Some?
    ensures s.Some? <==> IsDecision(r.decision)
    ensures s == DecisionToString(r.decision)
  {
    DecisionToString(r.decision)
  }

  const INVALID_DECISION: string := "Invalid decision value"

  /** `setDecision`: exactly the four decisions are accepted; any other value
      throws and leaves the result unchanged. */
  function SetDecision(r: Result, newDecision: Int32): (e: Effect<Result>)
    ensures e.thrown.None? <==> IsDecision(newDecision)
    ensures e.thrown.None? ==> e.after == r.(decision := newDecision)
    ensures e.thrown.Some? ==> e.after == r && e.thrown == Some(IllegalArgument(INVALID_DECISION))
    ensures ValidResult(r) ==> ValidResult(e.after)
  {
    if newDecision != DECISION_DENY && newDecision != DECISION_PERMIT && newDecision != DECISION_INDETERMINATE
       && newDecision != DECISION_NOT_APPLICABLE then
      Effect(r, Some(IllegalArgument(INVALID_DECISION)))
    else
      Effect(r.(decision := newDecision), None)
  }

  /** After `setDecision(d)` the result names `d`; a rejected value leaves the
      name the result had. */
  lemma DecisionStringAfterSet(r: Result, d: Int32)
    ensures IsDecision(d) ==> DecisionString(SetDecision(r, d).after) == DecisionToString(d)
    ensures !IsDecision(d) ==> DecisionString(SetDecision(r, d).after) == DecisionString(r)
  {
  }

  /** `setResourceId`. */
  function SetResourceId(r: Result, id: Option<string>): (e: Result)
    ensures e.resourceId.None? <==> IsEmpty(id)
    ensures e.resourceId.Some? ==> e.resourceId.value == Trim(id.value)
    ensures e.decision == r.decision && e.status == r.status && e.obligations == r.obligations
    ensures ValidResult(r) ==> ValidResult(e)
  {
    r.(resourceId := SafeTrimOrNull(id))
  }

  /** `setStatus`: the argument is stored as it is. */
  function SetStatus(r: Result, newStatus: Option<Status>): (e: Result)
    ensures e.status == newStatus
    ensures e.decision == r.decision && e.resourceId == r.resourceId && e.obligations == r.obligations
  {
    r.(status := newStatus)
  }

  /** What `List.equals` observes of an obligation list. */
  function ObligationViews(os: seq<Obligation>): (r: seq<(Option<string>, Int32, seq<nat>)>)
    ensures |r| == |os|
    ensures forall i :: 0 <= i < |os| ==> r[i] == ObligationView(os[i])
  {
    if os == [] then [] else [ObligationView(os[0])] + ObligationViews(os[1..])
  }

  /** `List.equals` over obligation lists, element by element. */
  function ObligationListEquals(xs: seq<Obligation>, ys: seq<Obligation>): (r: bool)
    ensures r <==> ObligationViews(xs) == ObligationViews(ys)
  {
    if xs == [] || ys == [] then xs == [] && ys == []
    else
      assert ObligationViews(xs)[1..] == ObligationViews(xs[1..]);
      assert ObligationViews(ys)[1..] == ObligationViews(ys[1..]);
      ObligationEquals(xs[0], Is(ys[0])) && ObligationListEquals(xs[1..], ys[1..])
  }

  /** What `Result.equals` observes of a result. */
  function ResultView(r: Result): (Int32, Option<string>, Option<Status>, seq<(Option<string>, Int32, seq<nat>)>)
  {
    (r.decision, r.resourceId, r.status, ObligationViews(r.obligations))
  }

  /** `Result.equals`: equal decisions, null-safe equal resource ids, equal
      obligation lists in order, and statuses both null or equal. */
  function ResultEquals(r: Result, obj: Obj<Result>): (b: bool)
    ensures b <==> obj.Is? && ResultView(obj.value) == ResultView(r)
  {
    match obj
    case Null => false
    case Foreign => false
    case Is(other) =>
      var statsEqual :=
        match r.status
        case None => other.status.None?
        case Some(s) => StatusEquals(s, AsObj(other.status));
      r.decision == other.decision && SafeEquals(r.resourceId, other.resourceId)
      && ObligationListEquals(r.obligations, other.obligations) && statsEqual
  }
}
