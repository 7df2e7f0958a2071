/** Routes of path segments that finish with `end()`, and the redirects they give. */
module Redirects {
  import opened Wrappers
  import opened Strings
  import opened Http
  import opened Decoding
  import opened Paths
  import opened Bodies
  import opened Errors
  import opened Forwardings
  import opened Tuples
  import opened Requests
  import opened Filters
  import opened Algebra
  import opened Leaves

  // ----- the grouping of `and` -----

  /** The parts of a tree of `and`s, from left to right. */
  function AndParts(f: Filter): (parts: seq<Filter>)
    ensures parts != []
  {
    if f.And? then AndParts(f.first) + AndParts(f.second) else [f]
  }

  function RightAnd(parts: seq<Filter>): Filter
    requires parts != []
  {
    if |parts| == 1 then parts[0] else And(parts[0], RightAnd(parts[1..]))
  }

  lemma {:induction false} AndConcat(xs: seq<Filter>, ys: seq<Filter>, request: Request, st: StateView, input: Tuple)
    requires xs != [] && ys != [] && InPath(request.path, st.index)
    ensures Eval(And(RightAnd(xs), RightAnd(ys)), request, st, input) == Eval(RightAnd(xs + ys), request, st, input)
  {
    assert (xs + ys)[1..] == xs[1..] + ys;
    if |xs| > 1 {
      var r := Eval(xs[0], request, st, []);
      AndAssociates(xs[0], RightAnd(xs[1..]), RightAnd(ys), request, st, input);
      AndMeans(xs[0], And(RightAnd(xs[1..]), RightAnd(ys)), request, st, input);
      AndMeans(xs[0], RightAnd(xs[1..] + ys), request, st, input);
      if r.outcome.Success? {
        AndConcat(xs[1..], ys, request, r.state, input);
      }
    }
  }

  lemma {:induction false} AndFlattens(f: Filter, request: Request, st: StateView, input: Tuple)
    requires InPath(request.path, st.index)
    ensures Eval(f, request, st, input) == Eval(RightAnd(AndParts(f)), request, st, input)
  {
    if f.And? {
      var xs, ys := AndParts(f.first), AndParts(f.second);
      AndFlattens(f.first, request, st, []);
      var r := Eval(f.first, request, st, []);
      AndMeans(f.first, f.second, request, st, input);
      AndMeans(RightAnd(xs), RightAnd(ys), request, st, input);
      if r.outcome.Success? {
        AndFlattens(f.second, request, r.state, input);
      }
      AndConcat(xs, ys, request, st, input);
    }
  }

  // ----- routes -----

  /** `literal` refuses an empty value and one with a slash. */
  predicate IsStep(f: Filter) {
    f.ParamStr? || (f.Literal? && f.value != [] && SLASH !in f.value)
  }

  /** Steps joined by `and`, nested to the right, with `end()` last. */
  predicate IsRoute(f: Filter) {
    f.End? || (f.And? && IsStep(f.first) && IsRoute(f.second))
  }

  predicate Takes(step: Filter, seg: Text) {
    step.Literal? ==> step.value == DecodedText(seg)
  }

  /** The segments that the cursor would visit, each with where it ends. */
  datatype Trail = Over | Ahead(seg: Text, end: nat, rest: Trail)

  function TrailFrom(path: Text, index: nat): Trail
    requires InPath(path, index)
    decreases |path| - index
  {
    match Segment(path, index)
    case None => Over
    case Some((seg, len)) => SegmentStep(path, index); Ahead(seg, index + len, TrailFrom(path, index + len))
  }

  /** The ends move on, and none is behind `hi`. */
  predicate Ascends(trail: Trail, lo: nat, hi: nat) {
    trail.Ahead? ==> lo < trail.end <= hi && Ascends(trail.rest, trail.end, hi)
  }

  lemma {:induction false} TrailAscends(path: Text, index: nat)
    requires InPath(path, index)
    ensures Ascends(TrailFrom(path, index), index, |path|)
    decreases |path| - index
  {
    if Segment(path, index).Some? {
      SegmentStep(path, index);
      TrailAscends(path, index + Segment(path, index).value.1);
    }
  }

  /** Where the cursor stands after all steps, if all of them match. */
  function StepThrough(route: Filter, trail: Trail, index: nat): Option<nat>
    requires IsRoute(route)
  {
    if route.End? then Some(index)
    else if trail.Ahead? && Takes(route.first, trail.seg) then StepThrough(route.second, trail.rest, trail.end)
    else None
  }

  lemma {:induction false} StepsAscend(route: Filter, trail: Trail, lo: nat, hi: nat)
    requires IsRoute(route) && Ascends(trail, lo, hi) && lo <= hi && StepThrough(route, trail, lo).Some?
    ensures lo <= StepThrough(route, trail, lo).value <= hi
    ensures route.And? ==> lo < StepThrough(route, trail, lo).value
  {
    if route.And? { StepsAscend(route.second, trail.rest, trail.end, hi); }
  }

  /** The segment that the last step takes. */
  function LastSegment(route: Filter, trail: Trail): Text
    requires IsRoute(route) && route.And? && StepThrough(route, trail, 0).Some?
  {
    if route.second.End? then trail.seg
    else StepsFromAnywhere(route.second, trail.rest, trail.end); LastSegment(route.second, trail.rest)
  }

  /** Whether the steps match does not depend on the number the cursor starts with. */
  lemma StepsFromAnywhere(route: Filter, trail: Trail, index: nat)
    requires IsRoute(route)
    ensures StepThrough(route, trail, index).Some? <==> StepThrough(route, trail, 0).Some?
    ensures route.And? ==> StepThrough(route, trail, index) == StepThrough(route, trail, 0)
  {}

  predicate EndsInLiteral(route: Filter)
    requires IsRoute(route) && route.And?
  {
    if route.second.End? then route.first.Literal? else EndsInLiteral(route.second)
  }

  /** A route's outcome is decided by where its steps lead. */
  function RouteOutcome(route: Filter, request: Request, trail: Trail, index: nat): Outcome
    requires IsRoute(route) && InPath(request.path, index) && Ascends(trail, index, |request.path|)
  {
    var end := StepThrough(route, trail, index);
    if end.None? then NotMatched()
    else
      StepsAscend(route, trail, index, |request.path|);
      EndOutcome(request, end.value)
  }

  /** Both succeed, both fail with the same error, or both forward for the same reason. */
  predicate SameKind(o: Outcome, p: Outcome) {
    match p
    case Success(_) => o.Success?
    case Error(e) => o == Error(e)
    case Forward(_, forwarding) => o.Forward? && o.forwarding == forwarding
  }

  /** Running a route comes out as its steps say. */
  ghost predicate RouteRight(route: Filter, request: Request, st: StateView, input: Tuple)
    requires IsRoute(route) && InPath(request.path, st.index)
  {
    TrailAscends(request.path, st.index);
    SameKind(Eval(route, request, st, input).outcome,
      RouteOutcome(route, request, TrailFrom(request.path, st.index), st.index))
  }

  /** A step runs as the trail says. */
  lemma StepRuns(step: Filter, request: Request, st: StateView)
    requires IsStep(step) && InPath(request.path, st.index)
    ensures var r := Eval(step, request, st, []);
      var trail := TrailFrom(request.path, st.index);
      if trail.Ahead? && Takes(step, trail.seg) then r.outcome.Success? && r.state == st.(index := trail.end)
      else r.outcome == NotMatched()
  {}

  /** The trail goes on from where its first segment ends. */
  lemma TrailGoesOn(path: Text, index: nat)
    requires InPath(path, index)
    ensures var trail := TrailFrom(path, index);
      trail.Ahead? ==> index < trail.end <= |path| && trail.rest == TrailFrom(path, trail.end)
  {
    if Segment(path, index).Some? { SegmentStep(path, index); }
  }

  lemma AppendKeepsKind(success: Tuple, r: RunResult, outcome: Outcome)
    requires SameKind(r.outcome, outcome)
    ensures SameKind(AppendAfter(success, r).outcome, outcome)
  {}

  lemma {:induction false} RouteMeans(route: Filter, request: Request, st: StateView, input: Tuple)
    requires IsRoute(route) && InPath(request.path, st.index)
    ensures RouteRight(route, request, st, input)
  {
    var trail := TrailFrom(request.path, st.index);
    TrailAscends(request.path, st.index);
    if route.And? {
      AndMeans(route.first, route.second, request, st, input);
      StepRuns(route.first, request, st);
      if trail.Ahead? && Takes(route.first, trail.seg) {
        var onward := st.(index := trail.end);
        TrailGoesOn(request.path, st.index);
        RouteMeans(route.second, request, onward, input);
        AppendKeepsKind(Eval(route.first, request, st, []).outcome.success,
          Eval(route.second, request, onward, input), RouteOutcome(route, request, trail, st.index));
      }
    }
  }

  // ----- the same route without the trailing slash -----

  /** Without the last slash of a path, a segment is found just as before, unless it is an empty one at the end. */
  lemma SegmentWithoutSlash(q: Text, index: nat)
    requires index <= |q|
    requires Segment(q + [SLASH], index).Some?
    requires index + Segment(q + [SLASH], index).value.1 <= |q|
    ensures var taken := Segment(q + [SLASH], index).value;
      if index + taken.1 == |q| && taken.0 == [] then Segment(q, index) == None
      else Segment(q, index) == Some(taken)
  {
    var p := q + [SLASH];
    var (seg, len) := Segment(p, index).value;
    var before, now := p[index..], q[index..];
    assert before == now + [SLASH];
    if before[0] == SLASH {
      assert before[1..] == now[1..] + [SLASH];
      SameFind(now[1..]);
      assert seg == now[1..][..len - 1];
    } else {
      SameFind(now);
      assert seg == now[..len];
    }
  }

  /** The first slash of a text, looked for with one more slash behind. */
  lemma {:induction false} SameFind(s: Text)
    ensures Find(s + [SLASH], SLASH) == Find(s, SLASH)
  {
    var i := Find(s, SLASH);
    FindFirst(s, SLASH);
    assert (s + [SLASH])[..i] == s[..i];
    FindUnique(s + [SLASH], SLASH, i);
  }

  lemma TrailWithoutSlash(q: Text, index: nat)
    requires index <= |q|
    requires TrailFrom(q + [SLASH], index).Ahead? && TrailFrom(q + [SLASH], index).end <= |q|
    ensures var before, now := TrailFrom(q + [SLASH], index), TrailFrom(q, index);
      if before.end == |q| && before.seg == [] then now == Over
      else now.Ahead? && now.seg == before.seg && now.end == before.end
  {
    SegmentWithoutSlash(q, index);
  }

  /** Without the trailing slash the steps go to the end of the path, unless the last segment is empty. */
  lemma {:induction false} StepsWithoutSlash(route: Filter, q: Text, index: nat)
    requires IsRoute(route) && route.And? && index <= |q|
    requires StepThrough(route, TrailFrom(q + [SLASH], index), index) == Some(|q|)
    ensures var before, now := TrailFrom(q + [SLASH], index), TrailFrom(q, index);
      StepThrough(route, now, index) == if LastSegment(route, before) == [] then None else Some(|q|)
  {
    var before := TrailFrom(q + [SLASH], index);
    TrailAscends(q + [SLASH], index);
    StepsAscend(route.second, before.rest, before.end, |q| + 1);
    TrailWithoutSlash(q, index);
    TrailGoesOn(q + [SLASH], index);
    TrailGoesOn(q, index);
    if route.second.And? {
      StepsWithoutSlash(route.second, q, before.end);
    }
  }

  /** A literal never takes an empty segment. */
  lemma {:induction false} LastLiteral(route: Filter, trail: Trail)
    requires IsRoute(route) && route.And? && StepThrough(route, trail, 0).Some? && EndsInLiteral(route)
    ensures LastSegment(route, trail) != []
  {
    if route.second.And? {
      StepsFromAnywhere(route.second, trail.rest, trail.end);
      LastLiteral(route.second, trail.rest);
    } else {
      assert DecodedText([]) == [];
    }
  }

  lemma RouteRuns(f: Filter, route: Filter, request: Request, body: BodyView)
    requires route == RightAnd(AndParts(f)) && IsRoute(route)
    ensures Ascends(TrailFrom(request.path, 0), 0, |request.path|)
    ensures SameKind(Eval(f, request, StateView(0, body), []).outcome,
      RouteOutcome(route, request, TrailFrom(request.path, 0), 0))
  {
    AndFlattens(f, request, StateView(0, body), []);
    RouteMeans(route, request, StateView(0, body), []);
    TrailAscends(request.path, 0);
  }

  /** A route whose steps lead to just before the trailing slash. */
  predicate LeadsToSlash(route: Filter, path: Text, location: Text)
    requires IsRoute(route)
  {
    !IsRoot(path) && path == location + [SLASH] && StepThrough(route, TrailFrom(path, 0), 0) == Some(|location|)
  }

  lemma EndRedirects(request: Request, end: nat, location: Text)
    requires InPath(request.path, end)
    ensures EndOutcome(request, end) == Error(Redirect(location)) <==>
      !IsRoot(request.path) && request.path == location + [SLASH] && end == |location|
  {
    var path := request.path;
    EndMeans(request, StateView(end, Failed), []);
    assert Eval(End, request, StateView(end, Failed), []).outcome == EndOutcome(request, end);
    if end + 1 == |path| && path[end] == SLASH {
      assert path == path[..end] + [SLASH];
    }
  }

  /**
    A route in any grouping redirects exactly if its steps match and lead to just before a trailing
    slash, on any path but the root, whatever the method; the location is the path without that slash.
   */
  lemma RouteRedirects(f: Filter, route: Filter, request: Request, body: BodyView, location: Text)
    requires route == RightAnd(AndParts(f)) && IsRoute(route)
    ensures Eval(f, request, StateView(0, body), []).outcome == Error(Redirect(location)) <==>
      LeadsToSlash(route, request.path, location)
  {
    RouteRuns(f, route, request, body);
    var trail := TrailFrom(request.path, 0);
    var end := StepThrough(route, trail, 0);
    if end.Some? {
      StepsAscend(route, trail, 0, |request.path|);
      EndRedirects(request, end.value, location);
    }
  }

  lemma RedirectLocation(f: Filter, route: Filter, request: Request, body: BodyView, q: Text)
    requires route == RightAnd(AndParts(f)) && IsRoute(route)
    requires Eval(f, request, StateView(0, body), []).outcome == Error(Redirect(q))
    ensures route.And? && q != [] && request.path == q + [SLASH]
    ensures StepThrough(route, TrailFrom(request.path, 0), 0) == Some(|q|)
  {
    RouteRedirects(f, route, request, body, q);
  }

  /** Success exactly if the last segment is non-empty, not found otherwise; no second redirect. */
  predicate Answered(outcome: Outcome, last: Text) {
    if last != [] then outcome.Success? else outcome.Forward? && outcome.forwarding == NotFound
  }

  lemma RouteAgain(f: Filter, route: Filter, onward: Request, body: BodyView)
    requires route == RightAnd(AndParts(f)) && IsRoute(route) && route.And?
    requires StepThrough(route, TrailFrom(onward.path + [SLASH], 0), 0) == Some(|onward.path|)
    ensures Answered(Eval(f, onward, StateView(0, body), []).outcome,
      LastSegment(route, TrailFrom(onward.path + [SLASH], 0)))
  {
    EndAtEnd(onward);
    RouteRuns(f, route, onward, body);
    StepsWithoutSlash(route, onward.path, 0);
  }

  lemma EndAtEnd(request: Request)
    ensures EndOutcome(request, |request.path|) == Success([])
  {
    assert request.path[|request.path|..] == [];
  }

  /**
    A redirect takes one hop. For a route in any grouping, the location is the path without its
    trailing slash and is not empty; asking for it succeeds exactly if the last segment is non-empty,
    as it is when the last step is a literal, and is otherwise not found. It never redirects again.
   */
  lemma RedirectTakesOneHop(f: Filter, route: Filter, request: Request, body: BodyView, body': BodyView, q: Text)
    requires route == RightAnd(AndParts(f)) && IsRoute(route)
    requires Eval(f, request, StateView(0, body), []).outcome == Error(Redirect(q))
    ensures route.And? && q != [] && request.path == q + [SLASH]
    ensures StepThrough(route, TrailFrom(request.path, 0), 0) == Some(|q|)
    ensures var again := Eval(f, request.(path := q), StateView(0, body'), []).outcome;
      && Answered(again, LastSegment(route, TrailFrom(request.path, 0)))
      && (EndsInLiteral(route) ==> again.Success?)
  {
    RedirectLocation(f, route, request, body, q);
    RouteAgain(f, route, request.(path := q), body');
    if EndsInLiteral(route) {
      LastLiteral(route, TrailFrom(request.path, 0));
    }
  }
}
