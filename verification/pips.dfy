/** Policy information points (PIPs): plug-ins that populate a request with
    information gathered from the environment before it is sent. Their code is
    not part of this model; a PIP is a function from the request it is given
    to what `populateRequest` did with it. */
module InformationPoints {
  import opened Lang
  import opened Requests

  /** The outcome of `populateRequest`: the request as the PIP left it, and
      either whether it applied or the exception it threw. A PIP that throws
      may already have changed the request. */
  datatype PipReply =
    | Populated(request: Request, applied: bool)
    | Raised(request: Request, error: Exception)

  type InformationPoint = Request -> PipReply

  /** `later` keeps everything `earlier` holds: subjects and resources are
      only added, and an action or environment is never removed. */
  predicate Extends(earlier: Request, later: Request)
  {
    && earlier.subjects <= later.subjects
    && earlier.resources <= later.resources
    && (earlier.action.Some? ==> later.action.Some?)
    && (earlier.environment.Some? ==> later.environment.Some?)
  }

  /** `Extends` is reflexive and transitive. */
  lemma ExtendsPreorder(a: Request, b: Request, c: Request)
    ensures Extends(a, a)
    ensures Extends(a, b) && Extends(b, c) ==> Extends(a, c)
  {
  }

  /** A PIP that, on every request, leaves a request extending it. */
  ghost predicate Enriching(pip: InformationPoint)
  {
    forall r: Request :: Extends(r, pip(r).request)
  }
}
