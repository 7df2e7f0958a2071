/** What becomes of a forward on its way out of a tree. */
module ForwardRouting {
  import opened Wrappers
  import opened Http
  import opened Paths
  import opened Errors
  import opened Forwardings
  import opened Tuples
  import opened Requests
  import opened Filters
  import opened RunLaws
  import opened Layers
  import Cors

  /** The outcome of the other of two alternatives, if it is run too. */
  function Sibling(layer: Layer, f: Filter, request: Request, entry: Entry): Option<Outcome>
    requires EntryInPath(request, entry)
  {
    match layer
    case FirstOfOr(second) =>
      (match SecondStart(Or(f, second), request, entry.0, entry.1)
       case None => None
       case Some(start) => Some(EvalFrom(second, request, start).outcome))
    case SecondOfOr(first) => Some(EvalFrom(first, request, entry).outcome)
    case _ => None
  }

  /** Two forwards of alternatives together: the methods of both, and not found only if both are. */
  predicate Together(all: Forwarding, one: Forwarding, other: Forwarding) {
    all.Methods() == one.Methods() + other.Methods() && (all.NotFound? <==> one.NotFound? && other.NotFound?)
  }

  lemma CombinedTogether(one: Forwarding, other: Forwarding)
    ensures Together(one.Combine(other), one, other) && Together(one.Combine(other), other, one)
  {
    CombineIsUnion(one, other);
  }

  /** An alternative that forwards leaves the outcome to the other, or both forward together. */
  lemma ForwardMeetsOr(layer: Layer, f: Filter, request: Request, entry: Entry)
    requires (layer.FirstOfOr? || layer.SecondOfOr?) && EntryInPath(request, entry)
    requires layer.Start(f, request, entry.0, entry.1).Some?
    requires EvalFrom(f, request, layer.Start(f, request, entry.0, entry.1).value).outcome.Forward?
    ensures var inner := EvalFrom(f, request, layer.Start(f, request, entry.0, entry.1).value).outcome;
      var outer := EvalFrom(layer.Around(f), request, entry);
      var sibling := Sibling(layer, f, request, entry);
      && sibling.Some?
      && (sibling.value.Forward? ==>
          && outer.outcome.Forward? && outer.state.index == entry.0.index
          && Together(outer.outcome.forwarding, inner.forwarding, sibling.value.forwarding))
      && (!sibling.value.Forward? ==> outer.outcome == sibling.value)
  {
    match layer
    case FirstOfOr(second) =>
      OrMeans(f, second, request, entry.0, entry.1);
      var sibling := Sibling(layer, f, request, entry).value;
      if sibling.Forward? { CombinedTogether(EvalFrom(f, request, entry).outcome.forwarding, sibling.forwarding); }
    case SecondOfOr(first) =>
      OrMeans(first, f, request, entry.0, entry.1);
      var inner := EvalFrom(f, request, layer.Start(f, request, entry.0, entry.1).value).outcome;
      CombinedTogether(EvalFrom(first, request, entry).outcome.forwarding, inner.forwarding);
  }

  /** A forward that comes out for the same reason, from the same state. */
  predicate SameForward(outer: RunResult, inner: RunResult) {
    && inner.outcome.Forward? && outer.outcome.Forward?
    && outer.outcome.forwarding == inner.outcome.forwarding && outer.state == inner.state
  }

  lemma ForwardMeetsPair(layer: Layer, f: Filter, request: Request, entry: Entry)
    requires layer.FirstOfAnd? || layer.SecondOfAnd? || layer.FirstOfThen? || layer.SecondOfThen?
    requires EntryInPath(request, entry) && layer.Start(f, request, entry.0, entry.1).Some?
    requires EvalFrom(f, request, layer.Start(f, request, entry.0, entry.1).value).outcome.Forward?
    ensures SameForward(EvalFrom(layer.Around(f), request, entry),
                        EvalFrom(f, request, layer.Start(f, request, entry.0, entry.1).value))
  {
    match layer
    case FirstOfAnd(second) => AndMeans(f, second, request, entry.0, entry.1);
    case SecondOfAnd(first) => AndMeans(first, f, request, entry.0, entry.1);
    case FirstOfThen(second, received) => ThenMeans(f, second, received, request, entry.0, entry.1);
    case SecondOfThen(first, received) => ThenMeans(first, f, received, request, entry.0, entry.1);
  }

  lemma ForwardMeetsInner(layer: Layer, f: Filter, request: Request, entry: Entry)
    requires !IsPair(layer.Around(f)) && EntryInPath(request, entry)
    requires layer.Start(f, request, entry.0, entry.1).Some?
    requires EvalFrom(f, request, layer.Start(f, request, entry.0, entry.1).value).outcome.Forward?
    ensures SameForward(EvalFrom(layer.Around(f), request, entry),
                        EvalFrom(f, request, layer.Start(f, request, entry.0, entry.1).value))
  {
    var outer := EvalFrom(layer.Around(f), request, entry);
    var r := EvalFrom(f, request, layer.Start(f, request, entry.0, entry.1).value);
    match layer
    case InHandle(func, _) => assert outer == HandleRest(func, r);
    case InRecover(recover, accepts) => assert outer == RecoverRest(recover, accepts, entry.0.index, r);
    case InRecoverForward(forward, accepts) => assert outer == RecoverForwardRest(forward, accepts, r);
    case InReceive(_) => assert outer == ReceiveRest(Beginning(entry.1, |InputShape(f)|), r);
    case InUntuple => assert outer == UntupleRest(r);
    case InCors(config) => assert Cors.CorsGate(config, request).Run?;
  }

  /** Only `or` does anything to a forward. */
  lemma ForwardMeetsLayer(layer: Layer, f: Filter, request: Request, entry: Entry)
    requires !layer.FirstOfOr? && !layer.SecondOfOr? && EntryInPath(request, entry)
    requires layer.Start(f, request, entry.0, entry.1).Some?
    requires EvalFrom(f, request, layer.Start(f, request, entry.0, entry.1).value).outcome.Forward?
    ensures SameForward(EvalFrom(layer.Around(f), request, entry),
                        EvalFrom(f, request, layer.Start(f, request, entry.0, entry.1).value))
  {
    if IsPair(layer.Around(f)) {
      ForwardMeetsPair(layer, f, request, entry);
    } else {
      ForwardMeetsInner(layer, f, request, entry);
    }
  }

  // ----- all the way out -----

  predicate NoAlternatives(layers: seq<Layer>) {
    forall k :: 0 <= k < |layers| ==> !layers[k].FirstOfOr? && !layers[k].SecondOfOr?
  }

  /**
    Without alternatives around it, a filter that forwards makes the whole tree forward for the same
    reason and leave the same state, so the reply is the same 404 or 405 with the same methods.
   */
  lemma {:induction false} ForwardPasses(f: Filter, layers: seq<Layer>, n: nat, request: Request, entries: seq<Entry>)
    requires n <= |layers| && NoAlternatives(layers) && Entered(f, layers, |layers|, request, entries)
    requires EvalFrom(f, request, entries[0]).outcome.Forward?
    ensures SameForward(EvalFrom(Wrap(f, layers, n), request, entries[n]), EvalFrom(f, request, entries[0]))
    decreases n
  {
    if n > 0 {
      ForwardPasses(f, layers, n - 1, request, entries);
      assert EnteredAt(f, layers, request, entries, n - 1);
      ForwardMeetsLayer(layers[n - 1], Wrap(f, layers, n - 1), request, entries[n]);
    }
  }

  /** What the alternatives beside the filter come to in the layers around it. */
  function Beside(f: Filter, layers: seq<Layer>, k: nat, request: Request, entries: seq<Entry>): Option<Outcome>
    requires k < |layers| && k + 1 < |entries| && EntryInPath(request, entries[k + 1])
  {
    Sibling(layers[k], Wrap(f, layers, k), request, entries[k + 1])
  }

  predicate AllForward(f: Filter, layers: seq<Layer>, n: nat, request: Request, entries: seq<Entry>)
    requires n <= |layers| && Entered(f, layers, |layers|, request, entries)
  {
    forall k :: 0 <= k < n ==>
      Beside(f, layers, k, request, entries).Some? ==> Beside(f, layers, k, request, entries).value.Forward?
  }

  /** The forwardings of the filter and of the alternatives beside it. */
  function Reasons(f: Filter, layers: seq<Layer>, n: nat, request: Request, entries: seq<Entry>): (reasons: seq<Forwarding>)
    requires n <= |layers| && Entered(f, layers, |layers|, request, entries)
    requires EvalFrom(f, request, entries[0]).outcome.Forward? && AllForward(f, layers, n, request, entries)
    ensures reasons != []
  {
    if n == 0 then [EvalFrom(f, request, entries[0]).outcome.forwarding]
    else
      var before := Reasons(f, layers, n - 1, request, entries);
      match Beside(f, layers, n - 1, request, entries)
      case None => before
      case Some(outcome) => before + [outcome.forwarding]
  }

  predicate Mentioned(reasons: seq<Forwarding>, m: Method) {
    exists i :: 0 <= i < |reasons| && m in reasons[i].Methods()
  }

  predicate AllNotFound(reasons: seq<Forwarding>) { forall i :: 0 <= i < |reasons| ==> reasons[i].NotFound? }

  /** Exactly the methods of all the reasons, and not found exactly if all are. */
  predicate SumsUp(all: Forwarding, reasons: seq<Forwarding>) {
    (forall m: Method :: m in all.Methods() <==> Mentioned(reasons, m)) && (all.NotFound? <==> AllNotFound(reasons))
  }

  lemma SumsUpOne(forwarding: Forwarding)
    ensures SumsUp(forwarding, [forwarding])
  {
    var reasons := [forwarding];
    assert reasons[0] == forwarding;
    forall m: Method ensures m in forwarding.Methods() <==> Mentioned(reasons, m) {}
  }

  lemma SumsUpSnoc(all: Forwarding, before: Forwarding, reasons: seq<Forwarding>, last: Forwarding)
    requires SumsUp(before, reasons) && Together(all, before, last)
    ensures SumsUp(all, reasons + [last])
  {
    var more := reasons + [last];
    forall m: Method ensures m in all.Methods() <==> Mentioned(more, m) {
      if Mentioned(reasons, m) {
        var i :| 0 <= i < |reasons| && m in reasons[i].Methods();
        assert more[i] == reasons[i];
      }
      if m in last.Methods() { assert more[|reasons|] == last; }
    }
    if AllNotFound(more) {
      assert more[|reasons|] == last;
      forall i | 0 <= i < |reasons| ensures reasons[i].NotFound? { assert more[i] == reasons[i]; }
    }
  }

  /**
    In any nest of combinators, a filter that forwards, as all the alternatives beside it that are run
    do, makes the whole tree forward. The methods it then names are those of all these forwards and no
    others, and it is not found exactly if all of them are.
   */
  lemma {:induction false} ForwardsAddUp(f: Filter, layers: seq<Layer>, n: nat, request: Request, entries: seq<Entry>)
    requires n <= |layers| && Entered(f, layers, |layers|, request, entries)
    requires EvalFrom(f, request, entries[0]).outcome.Forward? && AllForward(f, layers, n, request, entries)
    ensures var outcome := EvalFrom(Wrap(f, layers, n), request, entries[n]).outcome;
      outcome.Forward? && SumsUp(outcome.forwarding, Reasons(f, layers, n, request, entries))
    decreases n
  {
    if n == 0 {
      SumsUpOne(EvalFrom(f, request, entries[0]).outcome.forwarding);
    } else {
      ForwardsAddUp(f, layers, n - 1, request, entries);
      assert EnteredAt(f, layers, request, entries, n - 1);
      var layer, inner := layers[n - 1], Wrap(f, layers, n - 1);
      assert Wrap(f, layers, n) == layer.Around(inner);
      assert Beside(f, layers, n - 1, request, entries) == Sibling(layer, inner, request, entries[n]);
      if layer.FirstOfOr? || layer.SecondOfOr? {
        ForwardMeetsOr(layer, inner, request, entries[n]);
        SumsUpSnoc(EvalFrom(Wrap(f, layers, n), request, entries[n]).outcome.forwarding,
          EvalFrom(inner, request, entries[n - 1]).outcome.forwarding,
          Reasons(f, layers, n - 1, request, entries), Beside(f, layers, n - 1, request, entries).value.forwarding);
      } else {
        ForwardMeetsLayer(layer, inner, request, entries[n]);
      }
    }
  }
}
