/** The four authorization decisions, and `Obligation`: an action the
    enforcement point must perform when a given decision is reached. */
module Decisions {
  import opened Lang

  const DECISION_DENY: Int32 := 0
  const DECISION_PERMIT: Int32 := 1
  const DECISION_INDETERMINATE: Int32 := 2
  const DECISION_NOT_APPLICABLE: Int32 := 3

  /** One of the four decision constants. */
  predicate IsDecision(d: int)
  {
    d == DECISION_DENY || d == DECISION_PERMIT || d == DECISION_INDETERMINATE || d == DECISION_NOT_APPLICABLE
  }

  /** `Result.decisionToString`: the XACML name of a decision, null for any
      other number. */
  function DecisionToString(decisionValue: Int32): (r: Option<string>)
    ensures r.Some? <==> IsDecision(decisionValue)
    ensures r.Some? ==> r.value in {"Deny", "Permit", "Indeterminate", "NotApplicable"}
    ensures decisionValue == DECISION_DENY <==> r == Some("Deny")
    ensures decisionValue == DECISION_PERMIT <==> r == Some("Permit")
    ensures decisionValue == DECISION_INDETERMINATE <==> r == Some("Indeterminate")
    ensures decisionValue == DECISION_NOT_APPLICABLE <==> r == Some("NotApplicable")
  {
    match decisionValue
    case 0 => Some("Deny")
    case 1 => Some("Permit")
    case 2 => Some("Indeterminate")
    case 3 => Some("NotApplicable")
    case _ => None
  }

  /** Distinct decisions have distinct names. */
  lemma DecisionToStringInjective(d1: Int32, d2: Int32)
    requires IsDecision(d1) && IsDecision(d2)
    requires DecisionToString(d1) == DecisionToString(d2)
    ensures d1 == d2
  {
  }
}

module Obligations {
  import opened Lang
  import opened Strings
  import opened Attributes
  import opened Decisions

  datatype Obligation = Obligation(id: Option<string>, fulfillOn: Int32, assignments: seq<AttributeAssignment>)

  /** `new Obligation()`. */
  function NewObligation(): (o: Obligation)
    ensures o.id.None? && o.fulfillOn == DECISION_DENY && o.assignments == []
    ensures Normal(o.id)
  {
    Obligation(None, DECISION_DENY, [])
  }

  /** `setId`. */
  function SetObligationId(o: Obligation, newId: Option<string>): (r: Obligation)
    ensures r.id.None? <==> IsEmpty(newId)
    ensures r.id.Some? ==> r.id.value == Trim(newId.value)
    ensures Normal(r.id)
    ensures r.fulfillOn == o.fulfillOn && r.assignments == o.assignments
  {
    o.(id := SafeTrimOrNull(newId))
  }

  const INVALID_FULFILL_ON: string := "Invalid FulfillOn value"

  /** `setFulfillOn` as written: it validates the value currently held, not the
      argument. While Deny or Permit is held, any int is stored; once another
      value is held, every call throws and changes nothing. */
  function SetFulfillOn(o: Obligation, newFulfillOn: Int32): (r: Effect<Obligation>)
    ensures r.thrown.None? <==> o.fulfillOn == DECISION_DENY || o.fulfillOn == DECISION_PERMIT
    ensures r.thrown.None? ==> r.after == o.(fulfillOn := newFulfillOn)
    ensures r.thrown.Some? ==> r.after == o && r.thrown == Some(IllegalArgument(INVALID_FULFILL_ON))
  {
    if o.fulfillOn != DECISION_DENY && o.fulfillOn != DECISION_PERMIT then
      Effect(o, Some(IllegalArgument(INVALID_FULFILL_ON)))
    else
      Effect(o.(fulfillOn := newFulfillOn), None)
  }

  /** The obligation after `setFulfillOn` is called with each value in turn,
      each thrown exception being caught. */
  function SetFulfillOnAll(o: Obligation, values: seq<Int32>): Obligation
    decreases |values|
  {
    if values == [] then o else SetFulfillOnAll(SetFulfillOn(o, values[0]).after, values[1..])
  }

  /** A fresh obligation accepts Indeterminate, and from then on rejects even
      Deny: the documented "Deny or Permit only" is not an invariant. */
  lemma FulfillOnFinding()
    ensures var r := SetFulfillOn(NewObligation(), DECISION_INDETERMINATE);
            && r.thrown.None?
            && r.after.fulfillOn == DECISION_INDETERMINATE
            && SetFulfillOn(r.after, DECISION_DENY).thrown.Some?
  {
  }

  /** Once a value other than Deny or Permit is held, no sequence of
      `setFulfillOn` calls changes the obligation. */
  lemma {:induction false} FulfillOnStuck(o: Obligation, values: seq<Int32>)
    requires o.fulfillOn != DECISION_DENY && o.fulfillOn != DECISION_PERMIT
    ensures SetFulfillOnAll(o, values) == o
    decreases |values|
  {
    if values != [] {
      FulfillOnStuck(SetFulfillOn(o, values[0]).after, values[1..]);
    }
  }

  /** `setFulfillOn` as documented: the argument must be Deny or Permit. */
  function SetFulfillOnIntended(o: Obligation, newFulfillOn: Int32): (r: Effect<Obligation>)
    ensures r.thrown.None? <==> newFulfillOn == DECISION_DENY || newFulfillOn == DECISION_PERMIT
    ensures r.thrown.None? ==> r.after == o.(fulfillOn := newFulfillOn)
    ensures r.thrown.Some? ==> r.after == o
  {
    if newFulfillOn != DECISION_DENY && newFulfillOn != DECISION_PERMIT then
      Effect(o, Some(IllegalArgument(INVALID_FULFILL_ON)))
    else
      Effect(o.(fulfillOn := newFulfillOn), None)
  }

  function SetFulfillOnIntendedAll(o: Obligation, values: seq<Int32>): Obligation
    decreases |values|
  {
    if values == [] then o else SetFulfillOnIntendedAll(SetFulfillOnIntended(o, values[0]).after, values[1..])
  }

  /** With the intended check, an obligation built by `new Obligation()` and
      any calls holds Deny or Permit forever. */
  lemma {:induction false} FulfillOnIntendedInvariant(o: Obligation, values: seq<Int32>)
    requires o.fulfillOn == DECISION_DENY || o.fulfillOn == DECISION_PERMIT
    ensures var r := SetFulfillOnIntendedAll(o, values);
            r.fulfillOn == DECISION_DENY || r.fulfillOn == DECISION_PERMIT
    decreases |values|
  {
    if values != [] {
      FulfillOnIntendedInvariant(SetFulfillOnIntended(o, values[0]).after, values[1..]);
    }
  }

  /** `getAttributeAssignments().add(a)`. */
  function AddAssignment(o: Obligation, a: AttributeAssignment): (r: Obligation)
    ensures r.assignments == o.assignments + [a]
    ensures r.id == o.id && r.fulfillOn == o.fulfillOn
  {
    o.(assignments := o.assignments + [a])
  }

  /** The object identities of a list of assignments, in order. */
  function Refs(xs: seq<AttributeAssignment>): (r: seq<nat>)
    ensures |r| == |xs|
    ensures forall i :: 0 <= i < |xs| ==> r[i] == xs[i].ref
  {
    if xs == [] then [] else [xs[0].ref] + Refs(xs[1..])
  }

  /** `List.equals` over assignment lists: same length, and pairwise equal by
      `AttributeAssignment.equals`. */
  function AssignmentListEquals(xs: seq<AttributeAssignment>, ys: seq<AttributeAssignment>): (r: bool)
    ensures r <==> Refs(xs) == Refs(ys)
  {
    if xs == [] || ys == [] then xs == [] && ys == []
    else
      AssignmentEquals(xs[0], Is(ys[0])) && AssignmentListEquals(xs[1..], ys[1..])
  }

  /** What `Obligation.equals` observes of an obligation. */
  function ObligationView(o: Obligation): (Option<string>, Int32, seq<nat>)
  {
    (o.id, o.fulfillOn, Refs(o.assignments))
  }

  /** `Obligation.equals`: null-safe equal id, equal fulfillOn, and the same
      assignment objects in the same order. */
  function ObligationEquals(o: Obligation, obj: Obj<Obligation>): (r: bool)
    ensures r <==> obj.Is? && ObligationView(obj.value) == ObligationView(o)
  {
    match obj
    case Null => false
    case Foreign => false
    case Is(other) =>
      SafeEquals(o.id, other.id) && o.fulfillOn == other.fulfillOn
      && AssignmentListEquals(o.assignments, other.assignments)
  }

  /** Obligations whose assignment lists were built from separately created
      assignment objects are never equal, unless both lists are empty. */
  lemma SeparateObligationsDiffer(o1: Obligation, o2: Obligation)
    requires o1.assignments != [] || o2.assignments != []
    requires forall i, j :: 0 <= i < |o1.assignments| && 0 <= j < |o2.assignments| ==>
               o1.assignments[i].ref != o2.assignments[j].ref
    ensures !ObligationEquals(o1, Is(o2))
  {
    if o1.assignments != [] && o2.assignments != [] {
      assert Refs(o1.assignments)[0] != Refs(o2.assignments)[0];
    }
  }

  /** `Obligation.equals` is an equivalence relation. */
  lemma ObligationEqualsEquivalence(a: Obligation, b: Obligation, c: Obligation)
    ensures ObligationEquals(a, Is(a))
    ensures ObligationEquals(a, Is(b)) ==> ObligationEquals(b, Is(a))
    ensures ObligationEquals(a, Is(b)) && ObligationEquals(b, Is(c)) ==> ObligationEquals(a, Is(c))
  {
  }
}
