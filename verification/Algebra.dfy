/** The laws of `and` and `or`. */
module Algebra {
  import opened Wrappers
  import opened Http
  import opened Paths
  import opened Bodies
  import opened Errors
  import opened Forwardings
  import opened Tuples
  import opened Requests
  import opened Filters
  import opened Typing
  import opened RunLaws
  import opened Equivalence

  // ----- associativity -----

  /** `or` is associative exactly: outcome, index and body. */
  lemma OrAssociates(a: Filter, b: Filter, c: Filter, request: Request, st: StateView, input: Tuple)
    requires InPath(request.path, st.index)
    ensures Eval(Or(Or(a, b), c), request, st, input) == Eval(Or(a, Or(b, c)), request, st, input)
  {
    var ra := Eval(a, request, st, input);
    OrMeans(a, b, request, st, input);
    OrMeans(Or(a, b), c, request, st, input);
    OrMeans(a, Or(b, c), request, st, input);
    if ra.outcome.Forward? {
      var back := ra.state.(index := st.index);
      OrMeans(b, c, request, back, ra.outcome.input);
      var rb := Eval(b, request, back, ra.outcome.input);
      if rb.outcome.Forward? {
        var rc := Eval(c, request, rb.state.(index := st.index), rb.outcome.input);
        if rc.outcome.Forward? {
          CombineAssociative(ra.outcome.forwarding, rb.outcome.forwarding, rc.outcome.forwarding);
        }
      }
    }
  }

  lemma AppendTwice(a: Tuple, b: Tuple, r: RunResult)
    ensures AppendAfter(Append(a, b), r) == AppendAfter(a, AppendAfter(b, r))
  {
    if r.outcome.Success? {
      var c := r.outcome.success;
      assert (a + b) + c == a + (b + c);
    }
  }

  /** `and` is associative exactly. */
  lemma AndAssociates(a: Filter, b: Filter, c: Filter, request: Request, st: StateView, input: Tuple)
    requires InPath(request.path, st.index)
    ensures Eval(And(And(a, b), c), request, st, input) == Eval(And(a, And(b, c)), request, st, input)
  {
    var ra := Eval(a, request, st, []);
    AndMeans(a, b, request, st, []);
    AndMeans(And(a, b), c, request, st, input);
    AndMeans(a, And(b, c), request, st, input);
    if ra.outcome.Success? {
      AndMeans(b, c, request, ra.state, input);
      var rb := Eval(b, request, ra.state, []);
      if rb.outcome.Success? {
        var rc := Eval(c, request, rb.state, input);
        AppendTwice(ra.outcome.success, rb.outcome.success, rc);
      }
    }
  }

  // ----- units -----

  lemma AppendNothing(r: RunResult)
    ensures AppendAfter([], r) == r
  {
    if r.outcome.Success? { assert [] + r.outcome.success == r.outcome.success; }
  }

  /** `any()` is a two-sided unit of `and`. */
  lemma AnyIsUnit(f: Filter, request: Request, st: StateView, input: Tuple)
    requires InPath(request.path, st.index)
    ensures Eval(And(Any, f), request, st, input) == Eval(f, request, st, input)
    ensures WellTyped(f) && InputShape(f) == [] ==>
      Eval(And(f, Any), request, st, []) == Eval(f, request, st, [])
  {
    AndMeans(Any, f, request, st, input);
    AppendNothing(Eval(f, request, st, input));
    if WellTyped(f) && InputShape(f) == [] {
      AndMeans(f, Any, request, st, []);
      ForwardGivesInputBack(f, request, st, []);
    }
  }

  /** `never()` is a two-sided unit of `or`, up to the index left on a forward, which `or` puts back. */
  lemma NeverIsUnit(f: Filter, shape: Shape, request: Request, st: StateView)
    requires WellTyped(f) && InputShape(f) == [] && InPath(request.path, st.index)
    ensures Same(Eval(Or(Never(shape), f), request, st, []), Eval(f, request, st, []))
    ensures Same(Eval(Or(f, Never(shape)), request, st, []), Eval(f, request, st, []))
  {
    var r := Eval(f, request, st, []);
    OrMeans(Never(shape), f, request, st, []);
    OrMeans(f, Never(shape), request, st, []);
    ForwardGivesInputBack(f, request, st, []);
    if r.outcome.Forward? {
      CombineCommutative(r.outcome.forwarding, NotFound);
    }
  }

  // ----- running a filter a second time -----

  /** Nothing in the tree reads the body. */
  predicate NoBody(f: Filter) {
    if f.IsLeaf() then !f.TakeBody?
    else if IsPair(f) then NoBody(f.first) && NoBody(f.second)
    else NoBody(f.filter)
  }

  /** Two views of one body that reads cannot tell apart, now or later. */
  predicate Alike(v: BodyView, w: BodyView) {
    Replayable(v) && Replayable(w) && ReadOf(v) == ReadOf(w)
  }

  /** The same outcome and index, and both bodies read or both untouched. */
  predicate Replays(r: RunResult, v: BodyView, s: RunResult, w: BodyView) {
    && r.outcome == s.outcome && r.state.index == s.state.index
    && ((r.state.body == v && s.state.body == w) || (r.state.body == AfterRead(v) && s.state.body == AfterRead(w)))
  }

  ghost predicate ReplaysFrom(f: Filter, request: Request, index: nat, v: BodyView, w: BodyView, input: Tuple)
    requires InPath(request.path, index)
  {
    var r := Eval(f, request, StateView(index, v), input);
    var s := Eval(f, request, StateView(index, w), input);
    Replays(r, v, s, w) && (NoBody(f) ==> r.state.body == v && s.state.body == w)
  }

  /** Running a filter again, on a body that has perhaps been read meanwhile, repeats the run. */
  lemma {:induction false} Replay(f: Filter, request: Request, index: nat, v: BodyView, w: BodyView, input: Tuple)
    requires InPath(request.path, index)
    requires Alike(v, w) || NoBody(f)
    ensures ReplaysFrom(f, request, index, v, w, input)
    decreases f, 1
  {
    if f.IsLeaf() {
    } else if f.And? {
      ReplayAnd(f, request, index, v, w, input);
    } else if f.Or? {
      ReplayOr(f, request, index, v, w, input);
    } else if f.Then? {
      ReplayThen(f, request, index, v, w, input);
    } else {
      ReplayInner(f, request, index, v, w, input);
    }
  }

  lemma {:induction false} ReplayInner(f: Filter, request: Request, index: nat, v: BodyView, w: BodyView, input: Tuple)
    requires !f.IsLeaf() && !IsPair(f) && InPath(request.path, index)
    requires Alike(v, w) || NoBody(f)
    ensures ReplaysFrom(f, request, index, v, w, input)
    decreases f, 0
  {
    Replay(f.filter, request, index, v, w, InnerInput(f, input));
  }

  lemma {:induction false} ReplayAnd(f: Filter, request: Request, index: nat, v: BodyView, w: BodyView, input: Tuple)
    requires f.And? && InPath(request.path, index)
    requires Alike(v, w) || NoBody(f)
    ensures ReplaysFrom(f, request, index, v, w, input)
    decreases f, 0
  {
    AndMeans(f.first, f.second, request, StateView(index, v), input);
    AndMeans(f.first, f.second, request, StateView(index, w), input);
    Replay(f.first, request, index, v, w, []);
    var r := Eval(f.first, request, StateView(index, v), []);
    var s := Eval(f.first, request, StateView(index, w), []);
    if r.outcome.Success? {
      Replay(f.second, request, r.state.index, r.state.body, s.state.body, input);
    }
  }

  lemma {:induction false} ReplayOr(f: Filter, request: Request, index: nat, v: BodyView, w: BodyView, input: Tuple)
    requires f.Or? && InPath(request.path, index)
    requires Alike(v, w) || NoBody(f)
    ensures ReplaysFrom(f, request, index, v, w, input)
    decreases f, 0
  {
    OrMeans(f.first, f.second, request, StateView(index, v), input);
    OrMeans(f.first, f.second, request, StateView(index, w), input);
    Replay(f.first, request, index, v, w, input);
    var r := Eval(f.first, request, StateView(index, v), input);
    var s := Eval(f.first, request, StateView(index, w), input);
    if r.outcome.Forward? {
      Replay(f.second, request, index, r.state.body, s.state.body, r.outcome.input);
    }
  }

  lemma {:induction false} ReplayThen(f: Filter, request: Request, index: nat, v: BodyView, w: BodyView, input: Tuple)
    requires f.Then? && InPath(request.path, index)
    requires Alike(v, w) || NoBody(f)
    ensures ReplaysFrom(f, request, index, v, w, input)
    decreases f, 0
  {
    ThenMeans(f.first, f.second, f.received, request, StateView(index, v), input);
    ThenMeans(f.first, f.second, f.received, request, StateView(index, w), input);
    Replay(f.first, request, index, v, w, []);
    var r := Eval(f.first, request, StateView(index, v), []);
    var s := Eval(f.first, request, StateView(index, w), []);
    if r.outcome.Success? {
      Replay(f.second, request, r.state.index, r.state.body, s.state.body, Append(input, r.outcome.success));
    }
  }

  // ----- distribution -----

  /** Both sides of the law. */
  ghost predicate Distributes(a: Filter, b: Filter, c: Filter, request: Request, st: StateView, input: Tuple)
    requires InPath(request.path, st.index)
  {
    Same(Eval(And(a, Or(b, c)), request, st, input), Eval(Or(And(a, b), And(a, c)), request, st, input))
  }

  /**
    `a.and(b.or(c))` and `a.and(b).or(a.and(c))` are the same whenever the body can be read again, or
    `a` does not read it: the second run of `a` repeats the first, and its forwarding counts once.
   */
  lemma AndDistributesOverOr(a: Filter, b: Filter, c: Filter, request: Request, st: StateView, input: Tuple)
    requires InPath(request.path, st.index)
    requires Replayable(st.body) || NoBody(a)
    ensures Distributes(a, b, c, request, st, input)
  {
    match Eval(a, request, st, []).outcome
    case Success(_) => DistributeAfterSuccess(a, b, c, request, st, input);
    case Forward(_, _) => DistributeAfterForward(a, b, c, request, st, input);
    case Error(_) => UnfoldBoth(a, b, c, request, st, input);
  }

  lemma UnfoldBoth(a: Filter, b: Filter, c: Filter, request: Request, st: StateView, input: Tuple)
    requires InPath(request.path, st.index)
    ensures var ra := Eval(a, request, st, []);
      && Eval(And(a, Or(b, c)), request, st, input) == AndRest(Or(b, c), request, input, ra)
      && Eval(Or(And(a, b), And(a, c)), request, st, input)
        == OrRest(And(a, c), request, st.index, AndRest(b, request, input, ra))
  {
    AndMeans(a, Or(b, c), request, st, input);
    AndMeans(a, b, request, st, input);
    OrMeans(And(a, b), And(a, c), request, st, input);
  }

  /** When `a` forwards, its second run forwards just the same. */
  lemma DistributeAfterForward(a: Filter, b: Filter, c: Filter, request: Request, st: StateView, input: Tuple)
    requires InPath(request.path, st.index)
    requires Replayable(st.body) || NoBody(a)
    requires Eval(a, request, st, []).outcome.Forward?
    ensures Distributes(a, b, c, request, st, input)
  {
    var ra := Eval(a, request, st, []);
    UnfoldBoth(a, b, c, request, st, input);
    AndMeans(a, c, request, StateView(st.index, ra.state.body), input);
    BodyAfter(a, request, st, []);
    Replay(a, request, st.index, st.body, ra.state.body, []);
    CombineIdempotent(ra.outcome.forwarding);
  }

  /** When `b` forwards, the second run of `a` starts from the body that `b` left and changes nothing. */
  lemma DistributeAfterSuccess(a: Filter, b: Filter, c: Filter, request: Request, st: StateView, input: Tuple)
    requires InPath(request.path, st.index)
    requires Replayable(st.body) || NoBody(a)
    requires Eval(a, request, st, []).outcome.Success?
    ensures Distributes(a, b, c, request, st, input)
  {
    var ra := Eval(a, request, st, []);
    var rb := Eval(b, request, ra.state, input);
    UnfoldBoth(a, b, c, request, st, input);
    OrMeans(b, c, request, ra.state, input);
    if rb.outcome.Forward? {
      var success, forwarding, input2 := ra.outcome.success, rb.outcome.forwarding, rb.outcome.input;
      var again := StateView(st.index, rb.state.body);
      var rc := Eval(c, request, rb.state.(index := ra.state.index), input2);
      SecondRunOfFirst(a, b, request, st, input);
      AndMeans(a, c, request, again, input2);
      assert Eval(And(a, c), request, again, input2) == AppendAfter(success, rc);
      AppendThenCombine(success, forwarding, ra.state.index, st.index, rc);
    }
  }

  lemma AppendThenCombine(success: Tuple, forwarding: Forwarding, i: nat, j: nat, r: RunResult)
    ensures Same(AppendAfter(success, CombineAfter(forwarding, i, r)),
                 CombineAfter(forwarding, j, AppendAfter(success, r)))
  {}

  lemma SecondRunOfFirst(a: Filter, b: Filter, request: Request, st: StateView, input: Tuple)
    requires InPath(request.path, st.index)
    requires Replayable(st.body) || NoBody(a)
    ensures var ra := Eval(a, request, st, []);
      var rb := Eval(b, request, ra.state, input);
      Eval(a, request, StateView(st.index, rb.state.body), [])
        == RunResult(rb.state.(index := ra.state.index), ra.outcome)
  {
    var ra := Eval(a, request, st, []);
    var rb := Eval(b, request, ra.state, input);
    BodyAfter(a, request, st, []);
    BodyAfter(b, request, ra.state, input);
    ReadAgain(st.body, ra.state.body, rb.state.body);
    Replay(a, request, st.index, st.body, rb.state.body, []);
  }

  lemma ReadAgain(v: BodyView, v1: BodyView, v2: BodyView)
    requires v1 == v || v1 == AfterRead(v)
    requires v2 == v1 || v2 == AfterRead(v1)
    ensures Replayable(v) ==> Alike(v, v2)
    ensures v1 == AfterRead(v) ==> v2 == v1 && AfterRead(v2) == v2
  {}

  /** A filter that succeeds with whether it was told why the body failed. */
  function WasTold(): Filter {
    Recover(TakeBody, (e: FilterError) => Ok(Opaque(if e.BodyError? && e.cause.Some? then 1 else 0)), Boxed)
  }

  lemma WasToldOnce(request: Request, st: StateView)
    requires InPath(request.path, st.index)
    ensures !Replayable(st.body) ==>
      Eval(WasTold(), request, st, []) == RunResult(st.(body := Failed), Success([Opaque(1)]))
    ensures st.body == Failed ==> Eval(WasTold(), request, st, []) == RunResult(st, Success([Opaque(0)]))
  {
    assert Eval(TakeBody, request, st, []) == EvalLeaf(TakeBody, request, st);
  }

  /** A filter that always succeeds with one value. */
  function Constant(id: int): Filter { Handle(Any, (t: Tuple) => Ok(Opaque(id)), Scalar) }

  lemma ConstantSucceeds(id: int, request: Request, st: StateView)
    requires InPath(request.path, st.index)
    ensures WellTyped(Constant(id)) && Eval(Constant(id), request, st, []) == RunResult(st, Success([Opaque(id)]))
  {}

  /** `a.and(never().or(c))` on a body that is still going to fail. */
  lemma ToldThenConstant(request: Request, st: StateView)
    requires InPath(request.path, st.index) && !Replayable(st.body)
    ensures Eval(And(WasTold(), Or(Never(Scalar), Constant(0))), request, st, []).outcome
         == Success([Opaque(1), Opaque(0)])
  {
    var failed := st.(body := Failed);
    WasToldOnce(request, st);
    ConstantSucceeds(0, request, failed);
    AndMeans(WasTold(), Or(Never(Scalar), Constant(0)), request, st, []);
    OrMeans(Never(Scalar), Constant(0), request, failed, []);
    assert Eval(Never(Scalar), request, failed, []) == RunResult(failed, NotMatched());
    assert [Opaque(1)] + [Opaque(0)] == [Opaque(1), Opaque(0)];
  }

  /** `a.and(never()).or(a.and(c))` on the same body: the second run of `a` is not told the cause. */
  lemma ToldTwice(request: Request, st: StateView)
    requires InPath(request.path, st.index) && !Replayable(st.body)
    ensures Eval(Or(And(WasTold(), Never(Scalar)), And(WasTold(), Constant(0))), request, st, []).outcome
         == Success([Opaque(0), Opaque(0)])
  {
    var failed := st.(body := Failed);
    WasToldOnce(request, st);
    WasToldOnce(request, failed);
    ConstantSucceeds(0, request, failed);
    AndMeans(WasTold(), Never(Scalar), request, st, []);
    AndMeans(WasTold(), Constant(0), request, failed, []);
    OrMeans(And(WasTold(), Never(Scalar)), And(WasTold(), Constant(0)), request, st, []);
    assert Eval(Never(Scalar), request, failed, []) == RunResult(failed, NotMatched());
    assert [Opaque(0)] + [Opaque(0)] == [Opaque(0), Opaque(0)];
  }

  lemma WasToldTyped()
    ensures WellTyped(WasTold()) && InputShape(WasTold()) == []
  {}

  lemma NeverOrConstantTyped()
    ensures var a, b, c := WasTold(), Never(Scalar), Constant(0);
      WellTyped(And(a, Or(b, c))) && WellTyped(Or(And(a, b), And(a, c)))
  {
    var a, b, c := WasTold(), Never(Scalar), Constant(0);
    WasToldTyped();
    assert WellTyped(b) && WellTyped(c) && SameShapes(b, c);
    OrTyped(b, c);
    AndTyped(a, Or(b, c));
    AndTyped(a, b);
    AndTyped(a, c);
    OrTyped(And(a, b), And(a, c));
  }

  /** When the body is still going to fail, running `a` twice shows. */
  lemma DistributionFails(request: Request, st: StateView)
    requires InPath(request.path, st.index) && !Replayable(st.body)
    ensures !Distributes(WasTold(), Never(Scalar), Constant(0), request, st, [])
  {
    ToldThenConstant(request, st);
    ToldTwice(request, st);
    assert [Opaque(1), Opaque(0)][0] == Opaque(1) && [Opaque(0), Opaque(0)][0] == Opaque(0);
  }

  /** So for a given body, distribution is a law of typed filters exactly when the body can be read again. */
  lemma DistributionExactly(request: Request, st: StateView)
    requires InPath(request.path, st.index)
    ensures Replayable(st.body) <==>
      forall a: Filter, b: Filter, c: Filter, input: Tuple ::
        WellTyped(And(a, Or(b, c))) && Fits(input, InputShape(b)) ==> Distributes(a, b, c, request, st, input)
  {
    if Replayable(st.body) {
      forall a: Filter, b: Filter, c: Filter, input: Tuple
        ensures Distributes(a, b, c, request, st, input)
      {
        AndDistributesOverOr(a, b, c, request, st, input);
      }
    } else {
      NeverOrConstantTyped();
      DistributionFails(request, st);
      assert Fits([], InputShape(Never(Scalar)));
    }
  }
}
