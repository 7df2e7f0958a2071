/** When two filters can stand for each other anywhere. */
module Equivalence {
  import opened Http
  import opened Paths
  import opened Bodies
  import opened Errors
  import opened Tuples
  import opened Requests
  import opened Filters
  import opened RunLaws
  import opened Typing
  import opened Layers
  import Cors

  /** The same, except that the index left behind by an error or a forward may differ. */
  predicate Same(r: RunResult, s: RunResult) {
    && r.outcome == s.outcome
    && r.state.body == s.state.body
    && (r.outcome.Success? ==> r.state.index == s.state.index)
  }

  /** A state that runs start from and come back to; with `intact`, the body can be read again. */
  predicate Reachable(request: Request, st: StateView, intact: bool) {
    AtBoundary(request.path, st.index) && (intact ==> Replayable(st.body))
  }

  /**
    Filters of one type that come out the same from every state and input they can be run on; with
    `intact`, only on requests whose body can be read again.
   */
  ghost predicate Equivalent(f: Filter, g: Filter, intact: bool) {
    && WellTyped(f) && WellTyped(g) && SameShapes(f, g)
    && forall request: Request, st: StateView, input: Tuple ::
      Reachable(request, st, intact) && Fits(input, InputShape(f)) ==>
        Same(Eval(f, request, st, input), Eval(g, request, st, input))
  }

  lemma EquivalentSymmetric(f: Filter, g: Filter, intact: bool)
    requires Equivalent(f, g, intact)
    ensures Equivalent(g, f, intact)
  {}

  lemma EquivalentTransitive(f: Filter, g: Filter, h: Filter, intact: bool)
    requires Equivalent(f, g, intact) && Equivalent(g, h, intact)
    ensures Equivalent(f, h, intact)
  {
    forall request: Request, st: StateView, input: Tuple | Reachable(request, st, intact) && Fits(input, InputShape(f))
      ensures Same(Eval(f, request, st, input), Eval(h, request, st, input))
    {
      assert Same(Eval(f, request, st, input), Eval(g, request, st, input));
    }
  }

  lemma StaysReachable(f: Filter, request: Request, st: StateView, input: Tuple, intact: bool)
    requires Reachable(request, st, intact)
    ensures Reachable(request, Eval(f, request, st, input).state, intact)
  {
    CursorStaysAtBoundary(f, request, st, input);
    BodyAfter(f, request, st, input);
  }

  // ----- equivalence is a congruence for every combinator -----

  lemma SameAnds(p: Filter, q: Filter, p': Filter, q': Filter, request: Request, st: StateView, input: Tuple)
    requires InPath(request.path, st.index)
    requires var r := Eval(p, request, st, []);
      && Same(r, Eval(p', request, st, []))
      && (r.outcome.Success? ==> Same(Eval(q, request, r.state, input), Eval(q', request, r.state, input)))
    ensures Same(Eval(And(p, q), request, st, input), Eval(And(p', q'), request, st, input))
  {
    AndMeans(p, q, request, st, input);
    AndMeans(p', q', request, st, input);
  }

  lemma AndCongruence(p: Filter, q: Filter, p': Filter, q': Filter, intact: bool)
    requires Equivalent(p, p', intact) && Equivalent(q, q', intact) && WellTyped(And(p, q))
    ensures Equivalent(And(p, q), And(p', q'), intact)
  {
    AndTyped(p, q);
    AndTyped(p', q');
    forall request: Request, st: StateView, input: Tuple | Reachable(request, st, intact) && Fits(input, InputShape(q))
      ensures Same(Eval(And(p, q), request, st, input), Eval(And(p', q'), request, st, input))
    {
      StaysReachable(p, request, st, [], intact);
      SameAnds(p, q, p', q', request, st, input);
    }
  }

  lemma SameOrs(p: Filter, q: Filter, p': Filter, q': Filter, request: Request, st: StateView, input: Tuple)
    requires InPath(request.path, st.index)
    requires var r := Eval(p, request, st, input);
      && Same(r, Eval(p', request, st, input))
      && (r.outcome.Forward? ==>
          var back := r.state.(index := st.index);
          Same(Eval(q, request, back, r.outcome.input), Eval(q', request, back, r.outcome.input)))
    ensures Same(Eval(Or(p, q), request, st, input), Eval(Or(p', q'), request, st, input))
  {
    OrMeans(p, q, request, st, input);
    OrMeans(p', q', request, st, input);
  }

  lemma AlikeOrs(p: Filter, q: Filter, p': Filter, q': Filter, intact: bool,
                 request: Request, st: StateView, input: Tuple)
    requires Equivalent(p, p', intact) && Equivalent(q, q', intact) && InputShape(p) == InputShape(q)
    requires Reachable(request, st, intact) && Fits(input, InputShape(p))
    ensures Same(Eval(Or(p, q), request, st, input), Eval(Or(p', q'), request, st, input))
  {
    StaysReachable(p, request, st, input, intact);
    ForwardGivesInputBack(p, request, st, input);
    SameOrs(p, q, p', q', request, st, input);
  }

  lemma OrCongruence(p: Filter, q: Filter, p': Filter, q': Filter, intact: bool)
    requires Equivalent(p, p', intact) && Equivalent(q, q', intact) && WellTyped(Or(p, q))
    ensures Equivalent(Or(p, q), Or(p', q'), intact)
  {
    OrTyped(p, q);
    OrTyped(p', q');
    forall request: Request, st: StateView, input: Tuple | Reachable(request, st, intact) && Fits(input, InputShape(p))
      ensures Same(Eval(Or(p, q), request, st, input), Eval(Or(p', q'), request, st, input))
    {
      AlikeOrs(p, q, p', q', intact, request, st, input);
    }
  }

  lemma SameThens(p: Filter, q: Filter, p': Filter, q': Filter, received: seq<Shape>,
                  request: Request, st: StateView, input: Tuple)
    requires InPath(request.path, st.index) && SuccessShape(p) == SuccessShape(p')
    requires var r := Eval(p, request, st, []);
      && Same(r, Eval(p', request, st, []))
      && (r.outcome.Success? ==>
          var joined := Append(input, r.outcome.success);
          Same(Eval(q, request, r.state, joined), Eval(q', request, r.state, joined)))
    ensures Same(Eval(Then(p, q, received), request, st, input), Eval(Then(p', q', received), request, st, input))
  {
    ThenMeans(p, q, received, request, st, input);
    ThenMeans(p', q', received, request, st, input);
  }

  lemma ThenCongruence(p: Filter, q: Filter, p': Filter, q': Filter, received: seq<Shape>, intact: bool)
    requires Equivalent(p, p', intact) && Equivalent(q, q', intact) && WellTyped(Then(p, q, received))
    ensures Equivalent(Then(p, q, received), Then(p', q', received), intact)
  {
    ThenTyped(p, q, received);
    ThenTyped(p', q', received);
    forall request: Request, st: StateView, input: Tuple | Reachable(request, st, intact) && Fits(input, received)
      ensures Same(Eval(Then(p, q, received), request, st, input), Eval(Then(p', q', received), request, st, input))
    {
      StaysReachable(p, request, st, [], intact);
      ForwardGivesInputBack(p, request, st, []);
      var r := Eval(p, request, st, []);
      if r.outcome.Success? { FitsAppend(input, r.outcome.success, received, SuccessShape(p)); }
      SameThens(p, q, p', q', received, request, st, input);
    }
  }

  lemma HandleCongruence(p: Filter, p': Filter, func: Handler, result: Shape, intact: bool)
    requires Equivalent(p, p', intact) && WellTyped(Handle(p, func, result))
    ensures Equivalent(Handle(p, func, result), Handle(p', func, result), intact)
  {
    forall request: Request, st: StateView, input: Tuple | Reachable(request, st, intact) && Fits(input, InputShape(p))
      ensures Same(Eval(Handle(p, func, result), request, st, input),
                   Eval(Handle(p', func, result), request, st, input))
    {
      assert Same(Eval(p, request, st, input), Eval(p', request, st, input));
    }
  }

  lemma RecoverCongruence(p: Filter, p': Filter, recover: Recoverer, accepts: Recoverable, intact: bool)
    requires Equivalent(p, p', intact) && WellTyped(Recover(p, recover, accepts))
    ensures Equivalent(Recover(p, recover, accepts), Recover(p', recover, accepts), intact)
  {
    forall request: Request, st: StateView, input: Tuple | Reachable(request, st, intact) && Fits(input, InputShape(p))
      ensures Same(Eval(Recover(p, recover, accepts), request, st, input),
                   Eval(Recover(p', recover, accepts), request, st, input))
    {
      assert Same(Eval(p, request, st, input), Eval(p', request, st, input));
    }
  }

  lemma RecoverForwardCongruence(
      p: Filter, p': Filter, forward: ForwardRecoverer, accepts: Recoverable, intact: bool)
    requires Equivalent(p, p', intact) && WellTyped(RecoverForward(p, forward, accepts))
    ensures Equivalent(RecoverForward(p, forward, accepts), RecoverForward(p', forward, accepts), intact)
  {
    forall request: Request, st: StateView, input: Tuple | Reachable(request, st, intact) && Fits(input, [])
      ensures Same(Eval(RecoverForward(p, forward, accepts), request, st, input),
                   Eval(RecoverForward(p', forward, accepts), request, st, input))
    {
      assert Same(Eval(p, request, st, []), Eval(p', request, st, []));
    }
  }

  lemma SameReceives(p: Filter, p': Filter, carried: seq<Shape>, request: Request, st: StateView, input: Tuple)
    requires InPath(request.path, st.index) && InputShape(p) == InputShape(p')
    requires var rest := Ending(input, |InputShape(p)|); Same(Eval(p, request, st, rest), Eval(p', request, st, rest))
    ensures Same(Eval(Receive(p, carried), request, st, input), Eval(Receive(p', carried), request, st, input))
  {}

  lemma ReceiveCongruence(p: Filter, p': Filter, carried: seq<Shape>, intact: bool)
    requires Equivalent(p, p', intact)
    ensures Equivalent(Receive(p, carried), Receive(p', carried), intact)
  {
    forall request: Request, st: StateView, input: Tuple
      | Reachable(request, st, intact) && Fits(input, InputShape(Receive(p, carried)))
      ensures Same(Eval(Receive(p, carried), request, st, input), Eval(Receive(p', carried), request, st, input))
    {
      InnerInputFits(Receive(p, carried), input);
      SameReceives(p, p', carried, request, st, input);
    }
  }

  lemma UntupleCongruence(p: Filter, p': Filter, intact: bool)
    requires Equivalent(p, p', intact) && WellTyped(Untuple(p))
    ensures Equivalent(Untuple(p), Untuple(p'), intact)
  {
    forall request: Request, st: StateView, input: Tuple | Reachable(request, st, intact) && Fits(input, InputShape(p))
      ensures Same(Eval(Untuple(p), request, st, input), Eval(Untuple(p'), request, st, input))
    {
      assert Same(Eval(p, request, st, input), Eval(p', request, st, input));
    }
  }

  lemma CorsCongruence(p: Filter, p': Filter, config: Cors.ValidConfig, intact: bool)
    requires Equivalent(p, p', intact) && WellTyped(WithCors(config, p))
    ensures Equivalent(WithCors(config, p), WithCors(config, p'), intact)
  {
    forall request: Request, st: StateView, input: Tuple | Reachable(request, st, intact) && Fits(input, InputShape(p))
      ensures Same(Eval(WithCors(config, p), request, st, input), Eval(WithCors(config, p'), request, st, input))
    {
      assert Same(Eval(p, request, st, input), Eval(p', request, st, input));
    }
  }

  lemma EquivalentReflexive(f: Filter, intact: bool)
    requires WellTyped(f)
    ensures Equivalent(f, f, intact)
  {}

  lemma AndLayerCongruence(layer: Layer, p: Filter, p': Filter, intact: bool)
    requires layer.FirstOfAnd? || layer.SecondOfAnd?
    requires Equivalent(p, p', intact) && WellTyped(layer.Around(p))
    ensures Equivalent(layer.Around(p), layer.Around(p'), intact)
  {
    match layer
    case FirstOfAnd(second) => EquivalentReflexive(second, intact); AndCongruence(p, second, p', second, intact);
    case SecondOfAnd(first) => EquivalentReflexive(first, intact); AndCongruence(first, p, first, p', intact);
  }

  lemma OrLayerCongruence(layer: Layer, p: Filter, p': Filter, intact: bool)
    requires layer.FirstOfOr? || layer.SecondOfOr?
    requires Equivalent(p, p', intact) && WellTyped(layer.Around(p))
    ensures Equivalent(layer.Around(p), layer.Around(p'), intact)
  {
    match layer
    case FirstOfOr(second) => EquivalentReflexive(second, intact); OrCongruence(p, second, p', second, intact);
    case SecondOfOr(first) => EquivalentReflexive(first, intact); OrCongruence(first, p, first, p', intact);
  }

  lemma ThenLayerCongruence(layer: Layer, p: Filter, p': Filter, intact: bool)
    requires layer.FirstOfThen? || layer.SecondOfThen?
    requires Equivalent(p, p', intact) && WellTyped(layer.Around(p))
    ensures Equivalent(layer.Around(p), layer.Around(p'), intact)
  {
    match layer
    case FirstOfThen(second, received) =>
      EquivalentReflexive(second, intact);
      ThenCongruence(p, second, p', second, received, intact);
    case SecondOfThen(first, received) =>
      EquivalentReflexive(first, intact);
      ThenCongruence(first, p, first, p', received, intact);
  }

  lemma FuncLayerCongruence(layer: Layer, p: Filter, p': Filter, intact: bool)
    requires layer.InHandle? || layer.InRecover? || layer.InRecoverForward?
    requires Equivalent(p, p', intact) && WellTyped(layer.Around(p))
    ensures Equivalent(layer.Around(p), layer.Around(p'), intact)
  {
    match layer
    case InHandle(func, result) => HandleCongruence(p, p', func, result, intact);
    case InRecover(recover, accepts) => RecoverCongruence(p, p', recover, accepts, intact);
    case InRecoverForward(forward, accepts) => RecoverForwardCongruence(p, p', forward, accepts, intact);
  }

  lemma OtherLayerCongruence(layer: Layer, p: Filter, p': Filter, intact: bool)
    requires layer.InReceive? || layer.InUntuple? || layer.InCors?
    requires Equivalent(p, p', intact) && WellTyped(layer.Around(p))
    ensures Equivalent(layer.Around(p), layer.Around(p'), intact)
  {
    match layer
    case InReceive(carried) => ReceiveCongruence(p, p', carried, intact);
    case InUntuple => UntupleCongruence(p, p', intact);
    case InCors(config) => CorsCongruence(p, p', config, intact);
  }

  lemma LayerCongruence(layer: Layer, p: Filter, p': Filter, intact: bool)
    requires Equivalent(p, p', intact) && WellTyped(layer.Around(p))
    ensures Equivalent(layer.Around(p), layer.Around(p'), intact)
  {
    if layer.FirstOfAnd? || layer.SecondOfAnd? {
      AndLayerCongruence(layer, p, p', intact);
    } else if layer.FirstOfOr? || layer.SecondOfOr? {
      OrLayerCongruence(layer, p, p', intact);
    } else if layer.FirstOfThen? || layer.SecondOfThen? {
      ThenLayerCongruence(layer, p, p', intact);
    } else if layer.InHandle? || layer.InRecover? || layer.InRecoverForward? {
      FuncLayerCongruence(layer, p, p', intact);
    } else {
      OtherLayerCongruence(layer, p, p', intact);
    }
  }

  /**
    The index after an error or a forward is dead: no tree around can tell two filters apart that
    differ only in it. The tree has its types, and then so has the one with the other filter.
   */
  lemma {:induction false} DeadIndexUnobservable(layers: seq<Layer>, n: nat, f: Filter, g: Filter, intact: bool)
    requires n <= |layers| && Equivalent(f, g, intact) && WellTyped(Wrap(f, layers, n))
    ensures Equivalent(Wrap(f, layers, n), Wrap(g, layers, n), intact)
    decreases n
  {
    if n > 0 {
      var p, p' := Wrap(f, layers, n - 1), Wrap(g, layers, n - 1);
      AroundTyped(layers[n - 1], p);
      DeadIndexUnobservable(layers, n - 1, f, g, intact);
      LayerCongruence(layers[n - 1], p, p', intact);
    }
  }

  lemma AroundTyped(layer: Layer, f: Filter)
    requires WellTyped(layer.Around(f))
    ensures WellTyped(f)
  {}
}
