/** The router's decision read as a pipeline of stages: classify the path,
    check that a credential is present, translate it if the route asks for
    that, forward. Every stage may end the request early; running the stages
    to the end gives the same outcome as the router. */
module Stages {
  import opened Common
  import opened Credentials
  import opened Forwarding
  import opened Gateway

  /** The stage the request is at, with what the earlier stages found. */
  datatype Stage =
    | ClassifyPath
    | CheckPresence(route: Route)
    | Translate(route: Route, auth: string)
    | ForwardWith(auth: string)
    | Done(outcome: Outcome)

  /** How many stages are left at most. */
  function Rank(s: Stage): nat {
    match s
    case ClassifyPath => 4
    case CheckPresence(_) => 3
    case Translate(_, _) => 2
    case ForwardWith(_) => 1
    case Done(_) => 0
  }

  /** One stage: it either hands on to a later stage or ends the request,
      and from a stage on the router's track it stays on that track. */
  function Step(cfg: Config, req: Inbound, s: Stage): (next: Stage)
    requires !s.Done?
    ensures Rank(next) < Rank(s)
    ensures Reached(cfg, req, s) ==> Reached(cfg, req, next)
  {
    DispatchRoutes(cfg, req);
    match s
    case ClassifyPath =>
      var route := Classify(req.pathname);
      if route == Unmatched then Done(NotFoundHandler()) else CheckPresence(route)
    case CheckPresence(route) =>
      var auth := Authorization(req);
      if Missing(auth) then Done(Respond(401, MissingMessage)) else Translate(route, auth.value)
    case Translate(route, auth) =>
      if route != AgileApi then ForwardWith(auth)
      else (match ExtractApiKey(auth)
        case NoKey => Done(Respond(401, InvalidMessage))
        case DecodeThrows => Done(Uncaught(InvalidCharacter))
        case ApiKey(key) => ForwardWith(BearerPrefix + key))
    case ForwardWith(auth) => Done(Forward(cfg, req, auth))
  }

  /** What holds of a stage the pipeline reaches for `req`: the route and
      credential it carries are the ones the router works with, and a
      finished pipeline holds the router's outcome. */
  predicate Reached(cfg: Config, req: Inbound, s: Stage) {
    var route := Classify(req.pathname);
    var auth := Authorization(req);
    match s
    case ClassifyPath => true
    case CheckPresence(r) => r == route && r != Unmatched
    case Translate(r, a) => r == route && r != Unmatched && !Missing(auth) && a == auth.value
    case ForwardWith(a) =>
      && route != Unmatched && !Missing(auth)
      && (route == RestApi ==> a == auth.value)
      && (route == AgileApi ==>
            ExtractApiKey(auth.value).ApiKey? && a == BearerPrefix + ExtractApiKey(auth.value).key)
    case Done(o) => o == Dispatch(cfg, req)
  }

  /** Runs the stages one after another until one ends the request. */
  method Serve(cfg: Config, req: Inbound) returns (o: Outcome)
    ensures o == Dispatch(cfg, req)
  {
    var s := ClassifyPath;
    while !s.Done?
      invariant Reached(cfg, req, s)
      decreases Rank(s)
    {
      s := Step(cfg, req, s);
    }
    o := s.outcome;
  }

  /** The stages from `s` on, run to the end. */
  function Run(cfg: Config, req: Inbound, s: Stage): Outcome
    decreases Rank(s)
  {
    if s.Done? then s.outcome else Run(cfg, req, Step(cfg, req, s))
  }

  /** From any stage the pipeline reaches, the rest of the stages end in
      the router's outcome. */
  lemma {:induction false} RunFromReached(cfg: Config, req: Inbound, s: Stage)
    requires Reached(cfg, req, s)
    ensures Run(cfg, req, s) == Dispatch(cfg, req)
    decreases Rank(s)
  {
    if !s.Done? {
      RunFromReached(cfg, req, Step(cfg, req, s));
    }
  }

  /** The pipeline and the router agree on every request. */
  lemma PipelineIsRouter(cfg: Config, req: Inbound)
    ensures Run(cfg, req, ClassifyPath) == Dispatch(cfg, req)
  {
    RunFromReached(cfg, req, ClassifyPath);
  }
}
