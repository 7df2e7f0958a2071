/** The declared tuple types of a filter tree, and what they guarantee about every run. */
module Typing {
  import opened Http
  import opened Paths
  import opened Errors
  import opened Tuples
  import opened Requests
  import opened Filters
  import opened RunLaws

  /** The trait bounds of the combinators, and that the user's functions return what they declare. */
  ghost predicate WellTyped(f: Filter) {
    match f
    case And(first, second) => WellTyped(first) && WellTyped(second) && InputShape(first) == []
    case Or(first, second) =>
      && WellTyped(first) && WellTyped(second)
      && InputShape(first) == InputShape(second) && SuccessShape(first) == SuccessShape(second)
    case Then(first, second, received) =>
      && WellTyped(first) && WellTyped(second)
      && InputShape(first) == [] && InputShape(second) == received + SuccessShape(first)
    case Handle(filter, func, result) =>
      && WellTyped(filter)
      && forall args: Tuple :: Fits(args, SuccessShape(filter)) && func(args).Ok? ==> HasShape(func(args).value, result)
    case Recover(filter, recover, _) =>
      && WellTyped(filter) && |SuccessShape(filter)| == 1
      && forall e: FilterError :: recover(e).Ok? ==> HasShape(recover(e).value, SuccessShape(filter)[0])
    case RecoverForward(filter, _, _) => WellTyped(filter) && InputShape(filter) == []
    case Receive(filter, _) => WellTyped(filter)
    case Untuple(filter) =>
      WellTyped(filter) && |SuccessShape(filter)| == 1 && SuccessShape(filter)[0].TupleShape?
    case WithCors(_, filter) => WellTyped(filter) && SuccessShape(filter) == [ReplyShape]
    case _ => true
  }

  predicate SameShapes(f: Filter, g: Filter) {
    InputShape(f) == InputShape(g) && SuccessShape(f) == SuccessShape(g)
  }

  /** Unfolding the types of two filters joined. */
  lemma AndTyped(a: Filter, b: Filter)
    ensures WellTyped(And(a, b)) <==> WellTyped(a) && WellTyped(b) && InputShape(a) == []
    ensures InputShape(And(a, b)) == InputShape(b)
    ensures SuccessShape(And(a, b)) == SuccessShape(a) + SuccessShape(b)
  {}

  lemma OrTyped(a: Filter, b: Filter)
    ensures WellTyped(Or(a, b)) <==> WellTyped(a) && WellTyped(b) && SameShapes(a, b)
    ensures SameShapes(Or(a, b), a)
  {}

  lemma ThenTyped(a: Filter, b: Filter, received: seq<Shape>)
    ensures WellTyped(Then(a, b, received)) <==>
      WellTyped(a) && WellTyped(b) && InputShape(a) == [] && InputShape(b) == received + SuccessShape(a)
    ensures InputShape(Then(a, b, received)) == received
    ensures SuccessShape(Then(a, b, received)) == SuccessShape(b)
  {}

  ghost predicate Sound(f: Filter, input: Tuple, outcome: Outcome) {
    match outcome
    case Success(success) => Fits(success, SuccessShape(f))
    case Error(_) => true
    case Forward(back, _) => back == input
  }

  /**
    On every well-typed tree a success has the declared type, and a forward gives back exactly the
    input, however deeply it was split and joined on the way.
   */
  lemma {:induction false} ForwardGivesInputBack(f: Filter, request: Request, st: StateView, input: Tuple)
    requires WellTyped(f) && Fits(input, InputShape(f)) && InPath(request.path, st.index)
    ensures Sound(f, input, Eval(f, request, st, input).outcome)
    decreases f, 1
  {
    match f
    case And(_, _) => PairGivesInputBack(f, request, st, input);
    case Or(_, _) => PairGivesInputBack(f, request, st, input);
    case Then(_, _, _) => PairGivesInputBack(f, request, st, input);
    case Handle(filter, _, _) => ForwardGivesInputBack(filter, request, st, input);
    case Recover(filter, _, _) => ForwardGivesInputBack(filter, request, st, input);
    case RecoverForward(filter, _, _) => ForwardGivesInputBack(filter, request, st, input);
    case Receive(filter, carried) => ReceiveGivesInputBack(filter, carried, request, st, input);
    case Untuple(filter) =>
      ForwardGivesInputBack(filter, request, st, input);
      var outcome := Eval(filter, request, st, input).outcome;
      if outcome.Success? {
        var inner, shape := outcome.success[0], SuccessShape(filter)[0];
        assert HasShape(inner, shape) && Fits(inner.elems, shape.elems);
      }
    case WithCors(_, filter) => ForwardGivesInputBack(filter, request, st, input);
    case _ =>
  }

  lemma {:induction false} PairGivesInputBack(f: Filter, request: Request, st: StateView, input: Tuple)
    requires IsPair(f) && WellTyped(f) && Fits(input, InputShape(f)) && InPath(request.path, st.index)
    ensures Sound(f, input, Eval(f, request, st, input).outcome)
    decreases f, 0
  {
    match f
    case And(first, second) =>
      ForwardGivesInputBack(first, request, st, []);
      var r := Eval(first, request, st, []);
      if r.outcome.Success? {
        ForwardGivesInputBack(second, request, r.state, input);
        SoundAppend(first, second, r.outcome.success, Eval(second, request, r.state, input).outcome);
      }
    case Or(first, second) =>
      ForwardGivesInputBack(first, request, st, input);
      var r := Eval(first, request, st, input);
      if r.outcome.Forward? {
        ForwardGivesInputBack(second, request, r.state.(index := st.index), input);
      }
    case Then(first, second, received) =>
      ForwardGivesInputBack(first, request, st, []);
      var r := Eval(first, request, st, []);
      if r.outcome.Success? {
        var success := r.outcome.success;
        FitsAppend(input, success, received, SuccessShape(first));
        ForwardGivesInputBack(second, request, r.state, input + success);
        AppendRemove(input, success);
      }
  }

  lemma SoundAppend(first: Filter, second: Filter, success: Tuple, outcome: Outcome)
    requires Fits(success, SuccessShape(first))
    ensures outcome.Success? && Fits(outcome.success, SuccessShape(second)) ==>
      Fits(Append(success, outcome.success), SuccessShape(first) + SuccessShape(second))
  {
    if outcome.Success? && Fits(outcome.success, SuccessShape(second)) {
      FitsAppend(success, outcome.success, SuccessShape(first), SuccessShape(second));
    }
  }

  lemma FitsSplit(a: Tuple, b: Tuple, sa: seq<Shape>, sb: seq<Shape>)
    requires Fits(a + b, sa + sb) && |b| == |sb|
    ensures Fits(a, sa) && Fits(b, sb)
  {
    forall k | 0 <= k < |a| ensures HasShape(a[k], sa[k]) {
      assert (a + b)[k] == a[k] && (sa + sb)[k] == sa[k];
    }
    forall k | 0 <= k < |b| ensures HasShape(b[k], sb[k]) {
      assert (a + b)[|a| + k] == b[k] && (sa + sb)[|a| + k] == sb[k];
    }
  }

  lemma {:induction false} ReceiveGivesInputBack(
      filter: Filter, carried: seq<Shape>, request: Request, st: StateView, input: Tuple)
    requires WellTyped(filter) && Fits(input, carried + InputShape(filter)) && InPath(request.path, st.index)
    ensures Sound(Receive(filter, carried), input, Eval(Receive(filter, carried), request, st, input).outcome)
    decreases filter, 2
  {
    var n := |InputShape(filter)|;
    var receive, rest := Beginning(input, n), Ending(input, n);
    assert receive + rest == input && |rest| == n;
    FitsSplit(receive, rest, carried, InputShape(filter));
    ForwardGivesInputBack(filter, request, st, rest);
    var outcome := Eval(filter, request, st, rest).outcome;
    if outcome.Success? {
      FitsAppend(receive, outcome.success, carried, SuccessShape(filter));
    }
  }

  // ----- the fallbacks of the evaluator are never used -----

  /** What a combinator relies on about the tuples it is given. */
  ghost predicate TuplesFit(f: Filter, request: Request, st: StateView, input: Tuple)
    requires !f.IsLeaf() && InPath(request.path, st.index)
  {
    match f
    case Then(first, second, _) =>
      var start := SecondStart(f, request, st, input);
      start.Some? ==>
        var outcome := Eval(second, request, start.value.0, start.value.1).outcome;
        outcome.Forward? ==> |SuccessShape(first)| <= |outcome.input|
    case Receive(filter, _) => |InputShape(filter)| <= |input|
    case Untuple(filter) =>
      var outcome := Eval(filter, request, st, input).outcome;
      outcome.Success? ==> |outcome.success| == 1 && outcome.success[0].TupleValue?
    case WithCors(_, filter) =>
      var outcome := Eval(filter, request, st, input).outcome;
      outcome.Success? ==> |outcome.success| == 1 && outcome.success[0].ReplyValue?
    case _ => true
  }

  /** At every combinator that runs, the tuples have the arities that it takes apart. */
  ghost predicate NoFallback(f: Filter, request: Request, st: StateView, input: Tuple)
    requires InPath(request.path, st.index)
  {
    if f.IsLeaf() then true
    else if IsPair(f) then
      && TuplesFit(f, request, st, input)
      && NoFallback(f.first, request, st, FirstInput(f, input))
      && (SecondStart(f, request, st, input).Some? ==>
          var (st2, input2) := SecondStart(f, request, st, input).value;
          NoFallback(f.second, request, st2, input2))
    else InnerRuns(f, request) ==>
      && TuplesFit(f, request, st, input)
      && NoFallback(f.filter, request, st, InnerInput(f, input))
  }

  /** The second filter of a well-typed pair gets an input of its type. */
  lemma SecondInputFits(f: Filter, request: Request, st: StateView, input: Tuple)
    requires IsPair(f) && WellTyped(f) && Fits(input, InputShape(f)) && InPath(request.path, st.index)
    ensures SecondStart(f, request, st, input).Some? ==>
      Fits(SecondStart(f, request, st, input).value.1, InputShape(f.second))
  {
    var input1 := FirstInput(f, input);
    ForwardGivesInputBack(f.first, request, st, input1);
    var outcome := Eval(f.first, request, st, input1).outcome;
    if f.Then? && outcome.Success? {
      FitsAppend(input, outcome.success, f.received, SuccessShape(f.first));
    }
  }

  lemma InnerInputFits(f: Filter, input: Tuple)
    requires !f.IsLeaf() && !IsPair(f) && WellTyped(f) && Fits(input, InputShape(f))
    ensures Fits(InnerInput(f, input), InputShape(f.filter))
  {
    if f.Receive? {
      var n := |InputShape(f.filter)|;
      assert Beginning(input, n) + Ending(input, n) == input;
      FitsSplit(Beginning(input, n), Ending(input, n), f.carried, InputShape(f.filter));
    }
  }

  lemma TypedTuplesFit(f: Filter, request: Request, st: StateView, input: Tuple)
    requires !f.IsLeaf() && WellTyped(f) && Fits(input, InputShape(f)) && InPath(request.path, st.index)
    ensures TuplesFit(f, request, st, input)
  {
    if f.Then? {
      SecondInputFits(f, request, st, input);
      var start := SecondStart(f, request, st, input);
      if start.Some? {
        ForwardGivesInputBack(f.second, request, start.value.0, start.value.1);
      }
    } else if f.Untuple? || f.WithCors? {
      ForwardGivesInputBack(f.filter, request, st, input);
      var outcome := Eval(f.filter, request, st, input).outcome;
      if outcome.Success? {
        assert HasShape(outcome.success[0], SuccessShape(f.filter)[0]);
      }
    }
  }

  lemma {:induction false} TypedTreesNeedNoFallback(f: Filter, request: Request, st: StateView, input: Tuple)
    requires WellTyped(f) && Fits(input, InputShape(f)) && InPath(request.path, st.index)
    ensures NoFallback(f, request, st, input)
  {
    if f.IsLeaf() {
    } else if IsPair(f) {
      TypedTuplesFit(f, request, st, input);
      SecondInputFits(f, request, st, input);
      TypedTreesNeedNoFallback(f.first, request, st, FirstInput(f, input));
      var start := SecondStart(f, request, st, input);
      if start.Some? {
        TypedTreesNeedNoFallback(f.second, request, start.value.0, start.value.1);
      }
    } else {
      TypedTuplesFit(f, request, st, input);
      InnerInputFits(f, input);
      TypedTreesNeedNoFallback(f.filter, request, st, InnerInput(f, input));
    }
  }
}
