/** The four attribute holders of an authorization request (`Subject`,
    `Resource`, `Action`, `Environment`) and the `Request` that groups them. */
module Requests {
  import opened Lang
  import opened Strings
  import opened Attributes

  datatype Subject = Subject(category: Option<string>, attributes: set<Attribute>)

  /** `new Subject()`. */
  function NewSubject(): (s: Subject)
    ensures s.category.None? && s.attributes == {}
  {
    Subject(None, {})
  }

  /** `setCategory`. */
  function SetCategory(s: Subject, newCategory: Option<string>): (r: Subject)
    ensures r.category.None? <==> IsEmpty(newCategory)
    ensures r.category.Some? ==> r.category.value == Trim(newCategory.value)
    ensures Normal(r.category)
    ensures r.attributes == s.attributes
  {
    s.(category := SafeTrimOrNull(newCategory))
  }

  /** `getAttributes().add(a)` on a subject. */
  function AddSubjectAttribute(s: Subject, a: Attribute): (r: Subject)
    ensures r.attributes == s.attributes + {a} && r.category == s.category
  {
    s.(attributes := s.attributes + {a})
  }

  /** `getAttributes().clear()` on a subject. */
  function ClearSubjectAttributes(s: Subject): (r: Subject)
    ensures r.attributes == {} && r.category == s.category
  {
    s.(attributes := {})
  }

  /** `Subject.equals`: null-safe equal categories and equal attribute sets. */
  function SubjectEquals(s: Subject, obj: Obj<Subject>): (r: bool)
    ensures r <==> obj == Is(s)
  {
    match obj
    case Null => false
    case Foreign => false
    case Is(other) => SafeEquals(s.category, other.category) && s.attributes == other.attributes
  }

  /** A copy of a one-attribute subject, emptied and given an equal attribute,
      is equal to the original again; adding an attribute the original lacks
      then makes it unequal. */
  lemma SubjectRebuilt(original: Subject, copy: Subject, a: Attribute, b: Attribute)
    requires SubjectEquals(copy, Is(original))
    requires original.attributes == {a}
    requires b !in original.attributes
    ensures var rebuilt := AddSubjectAttribute(ClearSubjectAttributes(copy), a);
            && SubjectEquals(rebuilt, Is(original))
            && !SubjectEquals(AddSubjectAttribute(rebuilt, b), Is(original))
  {
    var rebuilt := AddSubjectAttribute(ClearSubjectAttributes(copy), a);
    assert b in AddSubjectAttribute(rebuilt, b).attributes;
  }

  datatype Resource = Resource(content: Option<string>, attributes: set<Attribute>)

  /** `new Resource()`. */
  function NewResource(): (r: Resource)
    ensures r.content.None? && r.attributes == {}
  {
    Resource(None, {})
  }

  /** `setResourceContent`. */
  function SetResourceContent(res: Resource, content: Option<string>): (r: Resource)
    ensures r.content.None? <==> IsEmpty(content)
    ensures r.content.Some? ==> r.content.value == Trim(content.value)
    ensures Normal(r.content)
    ensures r.attributes == res.attributes
  {
    res.(content := SafeTrimOrNull(content))
  }

  /** `Resource.equals`: null-safe equal content and equal attribute sets. */
  function ResourceEquals(res: Resource, obj: Obj<Resource>): (r: bool)
    ensures r <==> obj == Is(res)
  {
    match obj
    case Null => false
    case Foreign => false
    case Is(other) => SafeEquals(res.content, other.content) && res.attributes == other.attributes
  }

  datatype Action = Action(attributes: set<Attribute>)

  /** `new Action()`. */
  function NewAction(): (a: Action)
    ensures a.attributes == {}
  {
    Action({})
  }

  /** `Action.equals`: equal attribute sets. */
  function ActionEquals(a: Action, obj: Obj<Action>): (r: bool)
    ensures r <==> obj == Is(a)
  {
    match obj
    case Null => false
    case Foreign => false
    case Is(other) => a.attributes == other.attributes
  }

  /** `Action.hashCode`, given the hash of an attribute set. */
  function ActionHashCode(a: Action, setHash: set<Attribute> -> int): int
  {
    setHash(a.attributes)
  }

  /** Equal actions have equal hash codes, whatever the set hash. */
  lemma ActionHashCodeConsistent(a: Action, b: Action, setHash: set<Attribute> -> int)
    requires ActionEquals(a, Is(b))
    ensures ActionHashCode(a, setHash) == ActionHashCode(b, setHash)
  {
  }

  datatype Environment = Environment(attributes: set<Attribute>)

  /** `new Environment()`. */
  function NewEnvironment(): (e: Environment)
    ensures e.attributes == {}
  {
    Environment({})
  }

  /** `Environment.equals`: equal attribute sets. */
  function EnvironmentEquals(e: Environment, obj: Obj<Environment>): (r: bool)
    ensures r <==> obj == Is(e)
  {
    match obj
    case Null => false
    case Foreign => false
    case Is(other) => e.attributes == other.attributes
  }

  /** `Environment.hashCode`, given the hash of an attribute set. */
  function EnvironmentHashCode(e: Environment, setHash: set<Attribute> -> int): int
  {
    setHash(e.attributes)
  }

  /** Equal environments have equal hash codes, whatever the set hash. */
  lemma EnvironmentHashCodeConsistent(e: Environment, f: Environment, setHash: set<Attribute> -> int)
    requires EnvironmentEquals(e, Is(f))
    ensures EnvironmentHashCode(e, setHash) == EnvironmentHashCode(f, setHash)
  {
  }

  datatype Request = Request(subjects: set<Subject>, resources: set<Resource>, action: Option<Action>, environment: Option<Environment>)

  /** `new Request()`. */
  function NewRequest(): (r: Request)
    ensures r.subjects == {} && r.resources == {}
    ensures r.action.None? && r.environment.None?
  {
    Request({}, {}, None, None)
  }

  /** `setAction`: the argument, null included, is stored as it is. */
  function SetAction(req: Request, newAction: Option<Action>): (r: Request)
    ensures r.action == newAction
    ensures r.subjects == req.subjects && r.resources == req.resources && r.environment == req.environment
  {
    req.(action := newAction)
  }

  /** `setEnvironment`: the argument, null included, is stored as it is. */
  function SetEnvironment(req: Request, newEnvironment: Option<Environment>): (r: Request)
    ensures r.environment == newEnvironment
    ensures r.subjects == req.subjects && r.resources == req.resources && r.action == req.action
  {
    req.(environment := newEnvironment)
  }

  /** `Request.equals`: actions both null or equal, environments both null or
      equal, and equal resource and subject sets. */
  function RequestEquals(req: Request, obj: Obj<Request>): (r: bool)
    ensures r <==> obj == Is(req)
  {
    match obj
    case Null => false
    case Foreign => false
    case Is(other) =>
      var actionsEqual :=
        match req.action
        case None => other.action.None?
        case Some(a) => ActionEquals(a, AsObj(other.action));
      var environmentsEqual :=
        match req.environment
        case None => other.environment.None?
        case Some(e) => EnvironmentEquals(e, AsObj(other.environment));
      actionsEqual && environmentsEqual && req.resources == other.resources && req.subjects == other.subjects
  }
}
