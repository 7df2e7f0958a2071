/** What origin checking guarantees about the filter behind it. */
module OriginGuard {
  import opened Wrappers
  import opened Http
  import opened Paths
  import opened Bodies
  import opened Errors
  import opened Tuples
  import opened Requests
  import opened Filters
  import opened RunLaws
  import opened Typing
  import opened Cors

  /**
    A request that is not admitted never gets to the wrapped filter: whatever filter is there, the
    answer is the same, the request state is untouched and no body is read. Unless it is a preflight
    request the answer is a 403, and it never names an origin that is not configured.
   */
  lemma RefusedNeverRuns(c: ValidConfig, f: Filter, g: Filter, request: Request, st: StateView, input: Tuple)
    requires InPath(request.path, st.index) && !Admitted(c, request)
    ensures request.HeaderOf(Origin).Some?
    ensures Eval(WithCors(c, f), request, st, input) == Eval(WithCors(c, g), request, st, input)
    ensures var r := Eval(WithCors(c, f), request, st, input);
      && r.state == st && BodyReads(WithCors(c, f), request, st, input) == []
      && r.outcome.Success? && |r.outcome.success| == 1 && r.outcome.success[0].ReplyValue?
      && var reply := r.outcome.success[0].response;
         && (request.verb != "OPTIONS" ==> reply.status == 403 && ValuesOf(reply.headers, Vary) == ["origin"])
         && (ValuesOf(reply.headers, AllowOrigin) != [] ==>
             request.verb == "OPTIONS" && IsConfigured(c, request.HeaderOf(Origin).value))
  {
    GateMeans(c, request);
  }

  /** The one reply that a filter behind origin checking succeeds with. */
  predicate Replies(r: RunResult, response: Response) { r.outcome == Success([ReplyValue(response)]) }

  lemma TypedReply(c: ValidConfig, f: Filter, request: Request, st: StateView, input: Tuple) returns (response: Response)
    requires WellTyped(WithCors(c, f)) && Fits(input, InputShape(f)) && InPath(request.path, st.index)
    requires Eval(f, request, st, input).outcome.Success?
    ensures Replies(Eval(f, request, st, input), response)
  {
    ForwardGivesInputBack(f, request, st, input);
    var success := Eval(f, request, st, input).outcome.success;
    assert HasShape(success[0], SuccessShape(f)[0]);
    response := success[0].response;
    assert success == [ReplyValue(response)];
  }

  /**
    An admitted request runs the wrapped filter in place. What is no success comes out as it is. A
    response keeps its status; for a request from an origin it names that origin, or all when all are
    configured, and nothing else, with credentials and exposed headers as configured; caches are told
    when the origin matters. Every header that origin checking does not deal with is kept.
   */
  lemma AdmittedIsShared(
      c: ValidConfig, f: Filter, request: Request, st: StateView, input: Tuple, other: HeaderName)
    requires WellTyped(WithCors(c, f)) && Fits(input, InputShape(f)) && InPath(request.path, st.index)
    requires Admitted(c, request) && other !in {AllowOrigin, ExposeHeaders, AllowCredentials, Vary}
    ensures var r := Eval(f, request, st, input);
      var guarded := Eval(WithCors(c, f), request, st, input);
      && guarded.state == r.state
      && (!r.outcome.Success? ==> guarded.outcome == r.outcome)
      && (r.outcome.Success? ==> exists inner: Response, outer: Response ::
          Replies(r, inner) && Replies(guarded, outer) && ComesOut(c, request, inner, outer, other))
  {
    GateMeans(c, request);
    var r := Eval(f, request, st, input);
    if r.outcome.Success? {
      var inner := TypedReply(c, f, request, st, input);
      var decoration := CorsGate(c, request).decoration;
      var outer := Decorate(decoration, inner);
      DecoratedAsConfigured(c, request, inner, other);
      assert Replies(Eval(WithCors(c, f), request, st, input), outer);
    }
  }

  ghost predicate ComesOut(c: Config, request: Request, inner: Response, outer: Response, other: HeaderName) {
    && outer.status == inner.status && ValuesOf(outer.headers, other) == ValuesOf(inner.headers, other)
    && match request.HeaderOf(Origin)
       case None => SaysItMayDepend(inner, outer)
       case Some(origin) => SharesAsConfigured(c, origin, inner, outer)
  }

  /** A response to a request without an origin: only caches are told that an origin would matter. */
  ghost predicate SaysItMayDepend(inner: Response, outer: Response) {
    && (forall name :: name != Vary ==> ValuesOf(outer.headers, name) == ValuesOf(inner.headers, name))
    && ValuesOf(outer.headers, Vary) == ValuesOf(inner.headers, Vary) + ["origin"]
  }

  predicate SharesAsConfigured(c: Config, origin: string, inner: Response, outer: Response) {
    && ValuesOf(outer.headers, AllowOrigin) == [if c.origins.None? then "*" else origin]
    && ValuesOf(outer.headers, AllowCredentials)
      == (if c.credentials then ["true"] else ValuesOf(inner.headers, AllowCredentials))
    && (if c.exposeHeaders == [] then ValuesOf(outer.headers, ExposeHeaders) == ValuesOf(inner.headers, ExposeHeaders)
        else |ValuesOf(outer.headers, ExposeHeaders)| == 1 && Advertised(outer, ExposeHeaders) == c.exposeHeaders)
    && ValuesOf(outer.headers, Vary) == ValuesOf(inner.headers, Vary) + (if c.origins.Some? then ["origin"] else [])
  }

  lemma SameOrigin(inner: Response)
    ensures SaysItMayDepend(inner, Decorate(VaryOnly, inner))
  {
    forall name ensures ValuesOf(Decorate(VaryOnly, inner).headers, name)
      == ValuesOf(inner.headers, name) + (if name == Vary then ["origin"] else [])
    {
      ValuesOfSnoc(inner.headers, true, Vary, "origin", name);
    }
  }

  lemma OtherOrigin(c: Config, origin: string, inner: Response, other: HeaderName)
    requires c.Valid() && other !in {AllowOrigin, ExposeHeaders, AllowCredentials, Vary}
    ensures var outer := Decorate(Sharing(c, if c.origins.None? then "*" else origin, c.origins.Some?), inner);
      && SharesAsConfigured(c, origin, inner, outer)
      && outer.status == inner.status && ValuesOf(outer.headers, other) == ValuesOf(inner.headers, other)
  {
    SharedResponse(c, if c.origins.None? then "*" else origin, c.origins.Some?, inner, other);
    if c.exposeHeaders != [] { ParseTokens(c.exposeHeaders); }
  }

  lemma GateDecoration(c: Config, request: Request)
    requires c.Valid() && CorsGate(c, request).Run?
    ensures CorsGate(c, request).decoration ==
      match request.HeaderOf(Origin)
      case None => VaryOnly
      case Some(origin) => Sharing(c, if c.origins.None? then "*" else origin, c.origins.Some?)
  {}

  lemma DecoratedAsConfigured(c: Config, request: Request, inner: Response, other: HeaderName)
    requires c.Valid() && CorsGate(c, request).Run?
    requires other !in {AllowOrigin, ExposeHeaders, AllowCredentials, Vary}
    ensures ComesOut(c, request, inner, Decorate(CorsGate(c, request).decoration, inner), other)
  {
    GateDecoration(c, request);
    match request.HeaderOf(Origin)
    case None => SameOrigin(inner);
    case Some(origin) => OtherOrigin(c, origin, inner, other);
  }
}
