/** Alternatives joined by `or`, and the reply when none of them matches. */
module OrTrees {
  import opened Strings
  import opened Wrappers
  import opened Http
  import opened Bodies
  import opened Paths
  import opened Errors
  import opened Forwardings
  import opened Tuples
  import opened Requests
  import opened Filters
  import opened RunLaws
  import opened Algebra
  import opened Layers
  import opened ForwardRouting
  import opened Leaves
  import opened Cors

  /** The alternatives of a tree of `or`s, from left to right. */
  function Alternatives(f: Filter): (alts: seq<Filter>)
    ensures alts != []
  {
    if f.Or? then Alternatives(f.first) + Alternatives(f.second) else [f]
  }

  function RightOr(alts: seq<Filter>): Filter
    requires alts != []
  {
    if |alts| == 1 then alts[0] else Or(alts[0], RightOr(alts[1..]))
  }

  lemma {:induction false} OrConcat(xs: seq<Filter>, ys: seq<Filter>, request: Request, st: StateView, input: Tuple)
    requires xs != [] && ys != [] && InPath(request.path, st.index)
    ensures Eval(Or(RightOr(xs), RightOr(ys)), request, st, input) == Eval(RightOr(xs + ys), request, st, input)
  {
    assert (xs + ys)[1..] == xs[1..] + ys;
    if |xs| > 1 {
      var r := Eval(xs[0], request, st, input);
      OrAssociates(xs[0], RightOr(xs[1..]), RightOr(ys), request, st, input);
      OrMeans(xs[0], Or(RightOr(xs[1..]), RightOr(ys)), request, st, input);
      OrMeans(xs[0], RightOr(xs[1..] + ys), request, st, input);
      if r.outcome.Forward? {
        OrConcat(xs[1..], ys, request, r.state.(index := st.index), r.outcome.input);
      }
    }
  }

  lemma {:induction false} OrFlattens(f: Filter, request: Request, st: StateView, input: Tuple)
    requires InPath(request.path, st.index)
    ensures Eval(f, request, st, input) == Eval(RightOr(Alternatives(f)), request, st, input)
  {
    if f.Or? {
      var xs, ys := Alternatives(f.first), Alternatives(f.second);
      OrFlattens(f.first, request, st, input);
      var r := Eval(f.first, request, st, input);
      OrMeans(f.first, f.second, request, st, input);
      OrMeans(RightOr(xs), RightOr(ys), request, st, input);
      if r.outcome.Forward? {
        OrFlattens(f.second, request, r.state.(index := st.index), r.outcome.input);
      }
      OrConcat(xs, ys, request, st, input);
    }
  }

  /** The grouping of alternatives has no effect at all. */
  lemma OrGroupingIrrelevant(f: Filter, g: Filter, request: Request, st: StateView, input: Tuple)
    requires Alternatives(f) == Alternatives(g) && InPath(request.path, st.index)
    ensures Eval(f, request, st, input) == Eval(g, request, st, input)
  {
    OrFlattens(f, request, st, input);
    OrFlattens(g, request, st, input);
  }

  // ----- what is reported when every alternative forwards -----

  /** The forwardings of the alternatives, each run from the same index, up to the first that does not forward. */
  function Attempts(alts: seq<Filter>, request: Request, st: StateView, input: Tuple): (tried: seq<Forwarding>)
    requires alts != [] && InPath(request.path, st.index)
    ensures |tried| <= |alts|
  {
    var r := Eval(alts[0], request, st, input);
    if !r.outcome.Forward? then []
    else if |alts| == 1 then [r.outcome.forwarding]
    else [r.outcome.forwarding] + Attempts(alts[1..], request, r.state.(index := st.index), r.outcome.input)
  }

  function CombineAll(fs: seq<Forwarding>): Forwarding
    requires fs != []
  {
    if |fs| == 1 then fs[0] else fs[0].Combine(CombineAll(fs[1..]))
  }

  function AllMethods(fs: seq<Forwarding>): set<Method> {
    if fs == [] then {} else fs[0].Methods() + AllMethods(fs[1..])
  }

  predicate AllGenuine(fs: seq<Forwarding>) { forall i :: 0 <= i < |fs| ==> fs[i].Genuine() }

  lemma {:induction false} CombineAllIsUnion(fs: seq<Forwarding>)
    requires fs != []
    ensures CombineAll(fs).Methods() == AllMethods(fs)
    ensures CombineAll(fs).NotFound? <==> forall i :: 0 <= i < |fs| ==> fs[i].NotFound?
    ensures AllGenuine(fs) ==> CombineAll(fs).Genuine()
  {
    if |fs| == 1 {
      assert AllMethods(fs) == fs[0].Methods() + AllMethods([]);
    } else {
      CombineAllIsUnion(fs[1..]);
      CombineIsUnion(fs[0], CombineAll(fs[1..]));
      assert fs == [fs[0]] + fs[1..];
    }
  }

  lemma {:induction false} AttemptsCombine(alts: seq<Filter>, request: Request, st: StateView, input: Tuple)
    requires alts != [] && InPath(request.path, st.index)
    ensures var tried := Attempts(alts, request, st, input);
      var outcome := Eval(RightOr(alts), request, st, input).outcome;
      && (outcome.Forward? <==> |tried| == |alts|)
      && (outcome.Forward? ==> outcome.forwarding == CombineAll(tried))
  {
    if |alts| > 1 {
      OrMeans(alts[0], RightOr(alts[1..]), request, st, input);
      var r := Eval(alts[0], request, st, input);
      if r.outcome.Forward? {
        var back := r.state.(index := st.index);
        AttemptsCombine(alts[1..], request, back, r.outcome.input);
        var rest := Attempts(alts[1..], request, back, r.outcome.input);
        assert ([r.outcome.forwarding] + rest)[1..] == rest;
      }
    }
  }

  /** The functions given to `recover_forward` only pass on forwardings that filters have made. */
  ghost predicate GenuineForwards(f: Filter) {
    if f.IsLeaf() then true
    else if IsPair(f) then GenuineForwards(f.first) && GenuineForwards(f.second)
    else
      && GenuineForwards(f.filter)
      && (f.RecoverForward? ==>
          forall e: FilterError :: f.forward(e).Ok? ==> f.forward(e).value.Genuine())
  }

  /** A 405 never comes with an empty list: every mask in a run names some method. */
  lemma {:induction false} ForwardsAreGenuine(f: Filter, request: Request, st: StateView, input: Tuple)
    requires GenuineForwards(f) && InPath(request.path, st.index)
    ensures var outcome := Eval(f, request, st, input).outcome;
      outcome.Forward? ==> outcome.forwarding.Genuine()
  {
    if f.MethodIs? {
      MethodBitIsGenuine(f.verb);
    } else if f.IsLeaf() {
    } else if IsPair(f) {
      ForwardsAreGenuine(f.first, request, st, FirstInput(f, input));
      var r := Eval(f.first, request, st, FirstInput(f, input));
      var start := SecondStart(f, request, st, input);
      if start.Some? {
        ForwardsAreGenuine(f.second, request, start.value.0, start.value.1);
        var r2 := Eval(f.second, request, start.value.0, start.value.1);
        if f.Or? && r2.outcome.Forward? {
          CombineIsUnion(r.outcome.forwarding, r2.outcome.forwarding);
        }
      }
    } else {
      ForwardsAreGenuine(f.filter, request, st, InnerInput(f, input));
    }
  }

  lemma {:induction false} GenuineAlternatives(f: Filter)
    requires GenuineForwards(f)
    ensures forall i :: 0 <= i < |Alternatives(f)| ==> GenuineForwards(Alternatives(f)[i])
  {
    if f.Or? {
      GenuineAlternatives(f.first);
      GenuineAlternatives(f.second);
    }
  }

  lemma {:induction false} AttemptsAreGenuine(alts: seq<Filter>, request: Request, st: StateView, input: Tuple)
    requires alts != [] && InPath(request.path, st.index)
    requires forall i :: 0 <= i < |alts| ==> GenuineForwards(alts[i])
    ensures AllGenuine(Attempts(alts, request, st, input))
  {
    ForwardsAreGenuine(alts[0], request, st, input);
    var r := Eval(alts[0], request, st, input);
    if r.outcome.Forward? && |alts| > 1 {
      var back := r.state.(index := st.index);
      AttemptsAreGenuine(alts[1..], request, back, r.outcome.input);
      var rest := Attempts(alts[1..], request, back, r.outcome.input);
      assert Attempts(alts, request, st, input) == [r.outcome.forwarding] + rest;
    }
  }

  /**
    When alternatives in any grouping all forward, the reply is 404 exactly if all of them were not
    found, and otherwise 405 with an Allow header that, read back, lists exactly the methods that some
    alternative would have taken, each once, and at least one (sections 15.5.6 and 10.2.1 of RFC 9110).
   */
  lemma OrTreeReply(f: Filter, request: Request, st: StateView, input: Tuple)
    requires GenuineForwards(f) && InPath(request.path, st.index)
    requires Eval(f, request, st, input).outcome.Forward?
    ensures var tried := Attempts(Alternatives(f), request, st, input);
      var reply := Reply(Eval(f, request, st, input).outcome.forwarding);
      && |tried| == |Alternatives(f)|
      && (reply.status == 404 <==> forall i :: 0 <= i < |tried| ==> tried[i].NotFound?)
      && (reply.status != 404 ==>
          && reply.status == 405 && reply.allow.Some?
          && var read := ParseList(reply.allow.value);
          && (forall m: Method :: m.Name() in read <==> m in AllMethods(tried))
          && (forall name :: name in read ==> exists m: Method :: m.Name() == name)
          && (forall i, j :: 0 <= i < j < |read| ==> read[i] != read[j])
          && AllMethods(tried) != {})
  {
    var alts := Alternatives(f);
    var tried := Attempts(alts, request, st, input);
    OrFlattens(f, request, st, input);
    AttemptsCombine(alts, request, st, input);
    CombineAllIsUnion(tried);
    GenuineAlternatives(f);
    AttemptsAreGenuine(alts, request, st, input);
    var forwarding := Eval(f, request, st, input).outcome.forwarding;
    if forwarding.MethodNotAllowed? {
      AllowListsEachMethodOnce(forwarding.attempted);
    }
  }

  // ----- resources given as a table of methods -----

  /**
    Whatever the body, the filter comes to run a method filter for `m` from this index: under handlers
    and the like, as the first of two filters, or as the second after a first one that does not read
    the body and succeeds, as in `literal("a").and(get()).and(..).handle(..)`.
   */
  predicate Guarded(f: Filter, m: Method, request: Request, index: nat)
    requires InPath(request.path, index)
  {
    match f
    case MethodIs(verb) => verb == m
    case And(first, second) =>
      Guarded(first, m, request, index) || (NoBody(first) &&
        var r := Eval(first, request, StateView(index, Failed), []);
        r.outcome.Success? && Guarded(second, m, request, r.state.index))
    case Then(first, second, _) =>
      Guarded(first, m, request, index) || (NoBody(first) &&
        var r := Eval(first, request, StateView(index, Failed), []);
        r.outcome.Success? && Guarded(second, m, request, r.state.index))
    case Handle(filter, _, _) => Guarded(filter, m, request, index)
    case Recover(filter, _, _) => Guarded(filter, m, request, index)
    case RecoverForward(filter, _, _) => Guarded(filter, m, request, index)
    case Receive(filter, _) => Guarded(filter, m, request, index)
    case Untuple(filter) => Guarded(filter, m, request, index)
    case WithCors(config, filter) => Admitted(config, request) && Guarded(filter, m, request, index)
    case _ => false
  }

  /** A forward that says that the method should have been `m`. */
  predicate WantsMethod(outcome: Outcome, m: Method) {
    outcome.Forward? && outcome.forwarding.MethodNotAllowed? && outcome.forwarding.Methods() == {m}
  }

  /** The layer that a guarded filter is in, and the filter inside. */
  lemma GuardLayer(f: Filter, m: Method, request: Request, st: StateView, input: Tuple) returns (layer: Layer, inner: Filter)
    requires InPath(request.path, st.index) && Guarded(f, m, request, st.index) && !f.MethodIs?
    ensures f == layer.Around(inner) && !layer.FirstOfOr? && !layer.SecondOfOr? && inner < f
    ensures var start := layer.Start(inner, request, st, input);
      start.Some? && Guarded(inner, m, request, start.value.0.index)
  {
    if f.And? || f.Then? {
      if Guarded(f.first, m, request, st.index) {
        layer := if f.And? then FirstOfAnd(f.second) else FirstOfThen(f.second, f.received);
        inner := f.first;
      } else {
        Replay(f.first, request, st.index, st.body, Failed, []);
        layer := if f.And? then SecondOfAnd(f.first) else SecondOfThen(f.first, f.received);
        inner := f.second;
      }
    } else {
      inner := f.filter;
      layer :=
        match f
        case Handle(_, func, result) => InHandle(func, result)
        case Recover(_, recover, accepts) => InRecover(recover, accepts)
        case RecoverForward(_, forward, accepts) => InRecoverForward(forward, accepts)
        case Receive(_, carried) => InReceive(carried)
        case Untuple(_) => InUntuple
        case WithCors(config, _) => InCors(config);
      if f.WithCors? { GateMeans(f.config, request); }
    }
  }

  lemma {:induction false} GuardedForwards(f: Filter, m: Method, request: Request, st: StateView, input: Tuple)
    requires InPath(request.path, st.index) && Guarded(f, m, request, st.index) && request.verb != m.Name()
    ensures WantsMethod(Eval(f, request, st, input).outcome, m)
    decreases f
  {
    if f.MethodIs? {
      MethodMeans(m, request, st, input);
    } else {
      var layer, inner := GuardLayer(f, m, request, st, input);
      var start := layer.Start(inner, request, st, input).value;
      GuardedForwards(inner, m, request, start.0, start.1);
      ForwardMeetsLayer(layer, inner, request, (st, input));
    }
  }

  /** Alternatives that each come to a method filter, from the same index. */
  predicate MethodTable(alts: seq<Filter>, methods: seq<Method>, request: Request, index: nat)
    requires InPath(request.path, index)
  {
    |alts| == |methods| && forall i :: 0 <= i < |alts| ==> Guarded(alts[i], methods[i], request, index)
  }

  /** Each row of the table was tried, and together they name exactly its methods. */
  predicate RowsTried(tried: seq<Forwarding>, methods: seq<Method>) {
    && |tried| == |methods|
    && (forall i :: 0 <= i < |tried| ==> tried[i].MethodNotAllowed? && tried[i].Methods() != {})
    && AllMethods(tried) == set m | m in methods
  }

  lemma RowsTriedCons(first: Forwarding, rest: seq<Forwarding>, methods: seq<Method>)
    requires methods != [] && first.MethodNotAllowed? && first.Methods() == {methods[0]}
    requires RowsTried(rest, methods[1..])
    ensures RowsTried([first] + rest, methods)
  {
    assert ([first] + rest)[1..] == rest;
    assert methods == [methods[0]] + methods[1..];
  }

  lemma {:induction false} TableAttempts(
      alts: seq<Filter>, methods: seq<Method>, request: Request, st: StateView, input: Tuple)
    requires alts != [] && InPath(request.path, st.index) && MethodTable(alts, methods, request, st.index)
    requires forall i :: 0 <= i < |methods| ==> request.verb != methods[i].Name()
    ensures RowsTried(Attempts(alts, request, st, input), methods)
  {
    GuardedForwards(alts[0], methods[0], request, st, input);
    var r := Eval(alts[0], request, st, input);
    if |alts| == 1 {
      RowsTriedCons(r.outcome.forwarding, [], methods);
      assert [r.outcome.forwarding] + [] == [r.outcome.forwarding];
    } else {
      var back := r.state.(index := st.index);
      TableAttempts(alts[1..], methods[1..], request, back, r.outcome.input);
      RowsTriedCons(r.outcome.forwarding, Attempts(alts[1..], request, back, r.outcome.input), methods);
    }
  }

  /**
    A resource given as a table of methods answers a request with any other method by 405, and its
    Allow header lists exactly the methods of the table, in whatever grouping the table was written
    and whatever handlers, prefixes and recovering filters its rows have.
   */
  lemma OtherMethodGets405(f: Filter, methods: seq<Method>, request: Request, st: StateView, input: Tuple)
    requires InPath(request.path, st.index) && MethodTable(Alternatives(f), methods, request, st.index)
    requires forall i :: 0 <= i < |methods| ==> request.verb != methods[i].Name()
    ensures var outcome := Eval(f, request, st, input).outcome;
      && outcome.Forward?
      && Reply(outcome.forwarding).status == 405 && Reply(outcome.forwarding).allow.Some?
      && forall m: Method :: m.Name() in ParseList(Reply(outcome.forwarding).allow.value) <==> m in methods
  {
    var alts := Alternatives(f);
    TableAttempts(alts, methods, request, st, input);
    OrFlattens(f, request, st, input);
    AttemptsCombine(alts, request, st, input);
    var tried := Attempts(alts, request, st, input);
    CombineAllIsUnion(tried);
    assert tried[0].MethodNotAllowed? && tried[0].Methods() != {};
    AllowListsEachMethodOnce(CombineAll(tried).attempted);
  }
}
