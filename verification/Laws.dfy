/** Rewriting a filter tree by the laws of `and` and `or`, anywhere in it. */
module Laws {
  import opened Http
  import opened Paths
  import opened Bodies
  import opened Errors
  import opened Forwardings
  import opened Tuples
  import opened Requests
  import opened Filters
  import opened RunLaws
  import opened Typing
  import opened Layers
  import opened Equivalence
  import opened Algebra

  datatype Rule = OrGroups | AndGroups | AnyFirst | AnySecond | NeverFirst | NeverSecond | OrTwice | Distribution

  /**
    The two sides of a law. The last two run a filter a second time, so they need a body that can be
    read again, or that this filter does not read it.
   */
  ghost predicate Law(rule: Rule, f: Filter, g: Filter, intact: bool) {
    match rule
    case OrGroups => f.Or? && f.first.Or? && g == Or(f.first.first, Or(f.first.second, f.second))
    case AndGroups => f.And? && f.first.And? && g == And(f.first.first, And(f.first.second, f.second))
    case AnyFirst => f == And(Any, g)
    case AnySecond => f == And(g, Any) && InputShape(g) == []
    case NeverFirst => f.Or? && f.first.Never? && f.second == g && FitsNever(g, f.first)
    case NeverSecond => f.Or? && f.second.Never? && f.first == g && FitsNever(g, f.second)
    case OrTwice => f == Or(g, g) && (intact || NoBody(g))
    case Distribution =>
      && f.And? && f.second.Or? && (intact || NoBody(f.first))
      && g == Or(And(f.first, f.second.first), And(f.first, f.second.second))
  }

  predicate FitsNever(f: Filter, never: Filter) { InputShape(f) == [] && SuccessShape(f) == SuccessShape(never) }

  /** Two filters have their types together, and then the same types. */
  ghost predicate TypedAlike(f: Filter, g: Filter) {
    (WellTyped(f) <==> WellTyped(g)) && (WellTyped(f) ==> SameShapes(f, g))
  }

  lemma OrGroupsTyped(a: Filter, b: Filter, c: Filter)
    ensures TypedAlike(Or(Or(a, b), c), Or(a, Or(b, c)))
  {
    OrTyped(a, b);
    OrTyped(b, c);
    OrTyped(Or(a, b), c);
    OrTyped(a, Or(b, c));
  }

  lemma AndGroupsTyped(a: Filter, b: Filter, c: Filter)
    ensures TypedAlike(And(And(a, b), c), And(a, And(b, c)))
  {
    AndTyped(a, b);
    AndTyped(b, c);
    AndTyped(And(a, b), c);
    AndTyped(a, And(b, c));
    assert (SuccessShape(a) + SuccessShape(b)) + SuccessShape(c) == SuccessShape(a) + (SuccessShape(b) + SuccessShape(c));
  }

  lemma AnyTyped(f: Filter)
    ensures TypedAlike(And(Any, f), f)
    ensures InputShape(f) == [] ==> TypedAlike(And(f, Any), f)
  {
    AndTyped(Any, f);
    AndTyped(f, Any);
    assert WellTyped(Any) && InputShape(Any) == [] && SuccessShape(Any) == [];
    assert [] + SuccessShape(f) == SuccessShape(f) && SuccessShape(f) + [] == SuccessShape(f);
  }

  lemma DistributionTyped(a: Filter, b: Filter, c: Filter)
    ensures TypedAlike(And(a, Or(b, c)), Or(And(a, b), And(a, c)))
  {
    AndTyped(a, b);
    AndTyped(a, c);
    OrTyped(b, c);
    AndTyped(a, Or(b, c));
    OrTyped(And(a, b), And(a, c));
    SamePrefix(SuccessShape(a), SuccessShape(b), SuccessShape(c));
  }

  lemma SamePrefix(a: seq<Shape>, b: seq<Shape>, c: seq<Shape>)
    ensures a + b == a + c <==> b == c
  {
    assert (a + b)[|a|..] == b && (a + c)[|a|..] == c;
  }

  /** One side of a law has its types exactly if the other has, and they are the same types. */
  lemma LawTyped(rule: Rule, f: Filter, g: Filter, intact: bool)
    requires Law(rule, f, g, intact)
    ensures TypedAlike(f, g)
  {
    match rule
    case OrGroups => OrGroupsTyped(f.first.first, f.first.second, f.second);
    case AndGroups => AndGroupsTyped(f.first.first, f.first.second, f.second);
    case AnyFirst => AnyTyped(g);
    case AnySecond => AnyTyped(g);
    case Distribution => DistributionTyped(f.first, f.second.first, f.second.second);
    case NeverFirst =>
    case NeverSecond =>
    case OrTwice =>
  }

  /** Trying the same filter twice is trying it once. */
  lemma OrIdempotent(f: Filter, request: Request, st: StateView, input: Tuple)
    requires WellTyped(f) && Fits(input, InputShape(f)) && InPath(request.path, st.index)
    requires Replayable(st.body) || NoBody(f)
    ensures Same(Eval(Or(f, f), request, st, input), Eval(f, request, st, input))
  {
    var r := Eval(f, request, st, input);
    OrMeans(f, f, request, st, input);
    if r.outcome.Forward? {
      ForwardGivesInputBack(f, request, st, input);
      BodyAfter(f, request, st, input);
      Replay(f, request, st.index, st.body, r.state.body, input);
      CombineIdempotent(r.outcome.forwarding);
    }
  }

  lemma UnitLawHolds(rule: Rule, f: Filter, g: Filter, request: Request, st: StateView, input: Tuple)
    requires Law(rule, f, g, false) && rule in {AnyFirst, AnySecond, NeverFirst, NeverSecond}
    requires WellTyped(g) && Fits(input, InputShape(g)) && InPath(request.path, st.index)
    ensures Same(Eval(f, request, st, input), Eval(g, request, st, input))
  {
    match rule
    case AnyFirst => AnyIsUnit(g, request, st, input);
    case AnySecond => AnyIsUnit(g, request, st, input);
    case NeverFirst => NeverIsUnit(g, f.first.shape, request, st);
    case NeverSecond => NeverIsUnit(g, f.second.shape, request, st);
  }

  lemma LawHolds(rule: Rule, f: Filter, g: Filter, intact: bool, request: Request, st: StateView, input: Tuple)
    requires Law(rule, f, g, intact) && WellTyped(f) && WellTyped(g)
    requires Reachable(request, st, intact) && Fits(input, InputShape(f)) && SameShapes(f, g)
    ensures Same(Eval(f, request, st, input), Eval(g, request, st, input))
  {
    match rule
    case OrGroups => OrAssociates(f.first.first, f.first.second, f.second, request, st, input);
    case AndGroups => AndAssociates(f.first.first, f.first.second, f.second, request, st, input);
    case OrTwice => OrIdempotent(g, request, st, input);
    case Distribution => AndDistributesOverOr(f.first, f.second.first, f.second.second, request, st, input);
    case _ => UnitLawHolds(rule, f, g, request, st, input);
  }

  lemma LawIsEquivalence(rule: Rule, f: Filter, g: Filter, intact: bool)
    requires Law(rule, f, g, intact) && (WellTyped(f) || WellTyped(g))
    ensures Equivalent(f, g, intact)
  {
    LawTyped(rule, f, g, intact);
    forall request: Request, st: StateView, input: Tuple | Reachable(request, st, intact) && Fits(input, InputShape(f))
      ensures Same(Eval(f, request, st, input), Eval(g, request, st, input))
    {
      LawHolds(rule, f, g, intact, request, st, input);
    }
  }

  /** A law used inside a tree: what it is used on, what comes out, and the layers around. */
  datatype Step = Step(rule: Rule, found: Filter, put: Filter, layers: seq<Layer>) {
    function Before(): Filter { Wrap(found, layers, |layers|) }

    function After(): Filter { Wrap(put, layers, |layers|) }

    /** From left to right or from right to left. */
    ghost predicate ByLaw(intact: bool) { Law(rule, found, put, intact) || Law(rule, put, found, intact) }
  }

  /** One law anywhere in a tree, in either direction. */
  lemma StepKeepsMeaning(step: Step, intact: bool)
    requires step.ByLaw(intact) && WellTyped(step.Before())
    ensures Equivalent(step.Before(), step.After(), intact)
  {
    WrappedTyped(step.found, step.layers, |step.layers|);
    if Law(step.rule, step.found, step.put, intact) {
      LawIsEquivalence(step.rule, step.found, step.put, intact);
    } else {
      LawIsEquivalence(step.rule, step.put, step.found, intact);
      EquivalentSymmetric(step.put, step.found, intact);
    }
    DeadIndexUnobservable(step.layers, |step.layers|, step.found, step.put, intact);
  }

  lemma {:induction false} WrappedTyped(f: Filter, layers: seq<Layer>, n: nat)
    requires n <= |layers| && WellTyped(Wrap(f, layers, n))
    ensures WellTyped(f)
    decreases n
  {
    if n > 0 {
      AroundTyped(layers[n - 1], Wrap(f, layers, n - 1));
      WrappedTyped(f, layers, n - 1);
    }
  }

  /** Each step starts from the tree that the one before it has made. */
  ghost predicate Derivation(f: Filter, steps: seq<Step>, g: Filter, intact: bool)
    decreases |steps|
  {
    if steps == [] then f == g
    else steps[0].Before() == f && steps[0].ByLaw(intact) && Derivation(steps[0].After(), steps[1..], g, intact)
  }

  /**
    However a typed tree is rewritten by the laws, at whatever places, in whatever order and
    direction, the tree that comes out has the same types and runs alike.
   */
  lemma {:induction false} RewritingKeepsMeaning(f: Filter, steps: seq<Step>, g: Filter, intact: bool)
    requires WellTyped(f) && Derivation(f, steps, g, intact)
    ensures Equivalent(f, g, intact)
    decreases |steps|
  {
    if steps == [] {
      EquivalentReflexive(f, intact);
    } else {
      var next := steps[0].After();
      StepKeepsMeaning(steps[0], intact);
      RewritingKeepsMeaning(next, steps[1..], g, intact);
      EquivalentTransitive(f, next, g, intact);
    }
  }
}
