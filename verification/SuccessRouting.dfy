/** What becomes of a success on its way out of a tree, until another filter has to run. */
module SuccessRouting {
  import opened Wrappers
  import opened Http
  import opened Paths
  import opened Errors
  import opened Tuples
  import opened Requests
  import opened Filters
  import opened RunLaws
  import opened Typing
  import opened Layers
  import Cors

  /** After a success the second of the two filters runs. */
  predicate Continues(layer: Layer) { layer.FirstOfAnd? || layer.FirstOfThen? }

  /** What has succeeded before and is put in front: the first of two filters, or the carried input. */
  function InFront(layer: Layer, f: Filter, request: Request, entry: Entry): Tuple
    requires EntryInPath(request, entry)
  {
    match layer
    case SecondOfAnd(first) =>
      var outcome := Eval(first, request, entry.0, []).outcome;
      if outcome.Success? then outcome.success else []
    case InReceive(carried) => if |carried| <= |entry.1| then entry.1[..|carried|] else []
    case _ => []
  }

  /**
    One layer and a success with the given values: handlers are called with exactly these values,
    `recover` puts the index back, and what came before goes in front.
   */
  function Delivered(layer: Layer, f: Filter, request: Request, entry: Entry, values: Tuple, state: StateView): RunResult
    requires !Continues(layer) && EntryInPath(request, entry)
  {
    match layer
    case InHandle(func, _) =>
      (match func(values)
       case Ok(value) => RunResult(state, Success([value]))
       case Err(error) => RunResult(state, Error(error)))
    case InRecover(_, _) => RunResult(state.(index := entry.0.index), Success(values))
    case InUntuple => RunResult(state, Success(if |values| == 1 && values[0].TupleValue? then values[0].elems else values))
    case InCors(config) =>
      (match Cors.CorsGate(config, request)
       case Run(decoration) =>
         RunResult(state, Success(
           if |values| == 1 && values[0].ReplyValue? then [ReplyValue(Cors.Decorate(decoration, values[0].response))]
           else values))
       case Respond(_) => RunResult(state, Success(values)))
    case _ => RunResult(state, Success(InFront(layer, f, request, entry) + values))
  }

  lemma SuccessMeetsPair(layer: Layer, f: Filter, request: Request, entry: Entry)
    requires layer.FirstOfOr? || layer.SecondOfOr? || layer.SecondOfThen?
    requires EntryInPath(request, entry) && layer.Start(f, request, entry.0, entry.1).Some?
    requires EvalFrom(f, request, layer.Start(f, request, entry.0, entry.1).value).outcome.Success?
    ensures EvalFrom(layer.Around(f), request, entry)
         == EvalFrom(f, request, layer.Start(f, request, entry.0, entry.1).value)
  {
    match layer
    case FirstOfOr(second) => OrMeans(f, second, request, entry.0, entry.1);
    case SecondOfOr(first) => OrMeans(first, f, request, entry.0, entry.1);
    case SecondOfThen(first, received) => ThenMeans(first, f, received, request, entry.0, entry.1);
  }

  lemma SuccessMeetsAnd(layer: Layer, f: Filter, request: Request, entry: Entry)
    requires layer.SecondOfAnd? && EntryInPath(request, entry)
    requires layer.Start(f, request, entry.0, entry.1).Some?
    requires EvalFrom(f, request, layer.Start(f, request, entry.0, entry.1).value).outcome.Success?
    ensures var r := EvalFrom(f, request, layer.Start(f, request, entry.0, entry.1).value);
      EvalFrom(layer.Around(f), request, entry) == Delivered(layer, f, request, entry, r.outcome.success, r.state)
  {
    AndMeans(layer.first, f, request, entry.0, entry.1);
  }

  lemma SuccessMeetsReceive(layer: Layer, f: Filter, request: Request, entry: Entry)
    requires layer.InReceive? && EntryInPath(request, entry) && TypedFrom(layer.Around(f), entry)
    requires EvalFrom(f, request, layer.Start(f, request, entry.0, entry.1).value).outcome.Success?
    ensures var r := EvalFrom(f, request, layer.Start(f, request, entry.0, entry.1).value);
      EvalFrom(layer.Around(f), request, entry) == Delivered(layer, f, request, entry, r.outcome.success, r.state)
  {
    var n := |InputShape(f)|;
    var r := EvalFrom(f, request, layer.Start(f, request, entry.0, entry.1).value);
    assert EvalFrom(layer.Around(f), request, entry) == ReceiveRest(Beginning(entry.1, n), r);
    assert Beginning(entry.1, n) == (Beginning(entry.1, n) + Ending(entry.1, n))[..|layer.carried|];
  }

  lemma SuccessMeetsFunc(layer: Layer, f: Filter, request: Request, entry: Entry)
    requires layer.InHandle? || layer.InRecover? || layer.InRecoverForward?
    requires EntryInPath(request, entry)
    requires EvalFrom(f, request, layer.Start(f, request, entry.0, entry.1).value).outcome.Success?
    ensures var r := EvalFrom(f, request, layer.Start(f, request, entry.0, entry.1).value);
      EvalFrom(layer.Around(f), request, entry) == Delivered(layer, f, request, entry, r.outcome.success, r.state)
  {
    var r := EvalFrom(f, request, layer.Start(f, request, entry.0, entry.1).value);
    var outer := EvalFrom(layer.Around(f), request, entry);
    match layer
    case InHandle(func, _) => assert outer == HandleRest(func, r);
    case InRecover(recover, accepts) => assert outer == RecoverRest(recover, accepts, entry.0.index, r);
    case InRecoverForward(forward, accepts) =>
      assert outer == RecoverForwardRest(forward, accepts, r);
      assert [] + r.outcome.success == r.outcome.success;
  }

  lemma SuccessMeetsWrapper(layer: Layer, f: Filter, request: Request, entry: Entry)
    requires layer.InUntuple? || layer.InCors?
    requires EntryInPath(request, entry) && layer.Start(f, request, entry.0, entry.1).Some?
    requires EvalFrom(f, request, layer.Start(f, request, entry.0, entry.1).value).outcome.Success?
    ensures var r := EvalFrom(f, request, layer.Start(f, request, entry.0, entry.1).value);
      EvalFrom(layer.Around(f), request, entry) == Delivered(layer, f, request, entry, r.outcome.success, r.state)
  {
    var r := EvalFrom(f, request, layer.Start(f, request, entry.0, entry.1).value);
    var outer := EvalFrom(layer.Around(f), request, entry);
    match layer
    case InUntuple => assert outer == UntupleRest(r);
    case InCors(config) => assert outer == CorsRest(Cors.CorsGate(config, request).decoration, r);
  }

  lemma SuccessMeetsLayer(layer: Layer, f: Filter, request: Request, entry: Entry)
    requires !Continues(layer) && EntryInPath(request, entry)
    requires layer.InReceive? ==> TypedFrom(layer.Around(f), entry)
    requires layer.Start(f, request, entry.0, entry.1).Some?
    requires EvalFrom(f, request, layer.Start(f, request, entry.0, entry.1).value).outcome.Success?
    ensures var r := EvalFrom(f, request, layer.Start(f, request, entry.0, entry.1).value);
      EvalFrom(layer.Around(f), request, entry) == Delivered(layer, f, request, entry, r.outcome.success, r.state)
  {
    if layer.SecondOfAnd? {
      SuccessMeetsAnd(layer, f, request, entry);
    } else if layer.InReceive? {
      SuccessMeetsReceive(layer, f, request, entry);
    } else if IsPair(layer.Around(f)) {
      SuccessMeetsPair(layer, f, request, entry);
      var r := EvalFrom(f, request, layer.Start(f, request, entry.0, entry.1).value);
      assert [] + r.outcome.success == r.outcome.success;
    } else if layer.InUntuple? || layer.InCors? {
      SuccessMeetsWrapper(layer, f, request, entry);
    } else {
      SuccessMeetsFunc(layer, f, request, entry);
    }
  }

  /**
    The way of a result outwards from inside the first `k` layers, as long as it is a success and no
    other filter has to run.
   */
  function Carry(f: Filter, layers: seq<Layer>, request: Request, entries: seq<Entry>, k: nat, r: RunResult): (end: (nat, RunResult))
    requires k <= |layers| && Entered(f, layers, |layers|, request, entries)
    ensures k <= end.0 <= |layers|
    ensures end.0 < |layers| ==> !end.1.outcome.Success? || Continues(layers[end.0])
    decreases |layers| - k
  {
    if k == |layers| || !r.outcome.Success? || Continues(layers[k]) then (k, r)
    else
      Carry(f, layers, request, entries, k + 1,
        Delivered(layers[k], Wrap(f, layers, k), request, entries[k + 1], r.outcome.success, r.state))
  }

  ghost predicate TypedFrom(f: Filter, entry: Entry) { WellTyped(f) && Fits(entry.1, InputShape(f)) }

  /** The entries of a typed run have the types of the filters that start there. */
  lemma {:induction false} EntriesFit(f: Filter, layers: seq<Layer>, k: nat, request: Request, entries: seq<Entry>)
    requires k <= |layers| && Entered(f, layers, |layers|, request, entries)
    requires TypedFrom(Wrap(f, layers, |layers|), entries[|layers|])
    ensures TypedFrom(Wrap(f, layers, k), entries[k])
    decreases |layers| - k
  {
    if k < |layers| {
      EntriesFit(f, layers, k + 1, request, entries);
      assert EnteredAt(f, layers, request, entries, k);
      StartFits(layers[k], Wrap(f, layers, k), request, entries[k + 1]);
    }
  }

  lemma StartFits(layer: Layer, f: Filter, request: Request, entry: Entry)
    requires EntryInPath(request, entry) && layer.Start(f, request, entry.0, entry.1).Some?
    requires TypedFrom(layer.Around(f), entry)
    ensures TypedFrom(f, layer.Start(f, request, entry.0, entry.1).value)
  {
    var around := layer.Around(f);
    if layer.IsSecond() {
      SecondInputFits(around, request, entry.0, entry.1);
    } else if !IsPair(around) {
      InnerInputFits(around, entry.1);
    }
  }

  lemma DeliveredNext(f: Filter, layers: seq<Layer>, request: Request, entries: seq<Entry>, k: nat)
    requires k < |layers| && Entered(f, layers, |layers|, request, entries)
    requires TypedFrom(Wrap(f, layers, |layers|), entries[|layers|])
    requires CarriesOn(f, layers, request, entries, k)
    ensures var r := EvalFrom(Wrap(f, layers, k), request, entries[k]);
      EvalFrom(Wrap(f, layers, k + 1), request, entries[k + 1])
        == Delivered(layers[k], Wrap(f, layers, k), request, entries[k + 1], r.outcome.success, r.state)
  {
    assert EnteredAt(f, layers, request, entries, k);
    EntriesFit(f, layers, k + 1, request, entries);
    SuccessMeetsLayer(layers[k], Wrap(f, layers, k), request, entries[k + 1]);
  }

  /** Carried outwards from inside the first `k` layers, a result is that of the layers it comes through. */
  ghost predicate CarriedRight(f: Filter, layers: seq<Layer>, request: Request, entries: seq<Entry>, k: nat)
    requires k <= |layers| && Entered(f, layers, |layers|, request, entries)
  {
    var end := Carry(f, layers, request, entries, k, EvalFrom(Wrap(f, layers, k), request, entries[k]));
    EvalFrom(Wrap(f, layers, end.0), request, entries[end.0]) == end.1
  }

  /** There is a success to carry through the next layer. */
  predicate CarriesOn(f: Filter, layers: seq<Layer>, request: Request, entries: seq<Entry>, k: nat)
    requires k <= |layers| && Entered(f, layers, |layers|, request, entries)
  {
    k < |layers| && EvalFrom(Wrap(f, layers, k), request, entries[k]).outcome.Success? && !Continues(layers[k])
  }

  lemma CarryStops(f: Filter, layers: seq<Layer>, request: Request, entries: seq<Entry>, k: nat)
    requires k <= |layers| && Entered(f, layers, |layers|, request, entries)
    requires !CarriesOn(f, layers, request, entries, k)
    ensures CarriedRight(f, layers, request, entries, k)
  {}

  lemma CarryNext(f: Filter, layers: seq<Layer>, request: Request, entries: seq<Entry>, k: nat)
    requires k < |layers| && Entered(f, layers, |layers|, request, entries)
    requires CarriesOn(f, layers, request, entries, k)
    requires var r := EvalFrom(Wrap(f, layers, k), request, entries[k]);
      EvalFrom(Wrap(f, layers, k + 1), request, entries[k + 1])
        == Delivered(layers[k], Wrap(f, layers, k), request, entries[k + 1], r.outcome.success, r.state)
    requires CarriedRight(f, layers, request, entries, k + 1)
    ensures CarriedRight(f, layers, request, entries, k)
  {}

  /**
    In whatever typed nest of combinators a filter succeeds, what comes out is what its values become
    layer by layer: appended to what came before, handed to handlers, unpacked or decorated, with the
    index put back by every `recover`.
   */
  lemma {:induction false} SuccessTravelsOutwards(
      f: Filter, layers: seq<Layer>, request: Request, entries: seq<Entry>, k: nat)
    requires k <= |layers| && Entered(f, layers, |layers|, request, entries)
    requires TypedFrom(Wrap(f, layers, |layers|), entries[|layers|])
    ensures CarriedRight(f, layers, request, entries, k)
    decreases |layers| - k
  {
    if CarriesOn(f, layers, request, entries, k) {
      DeliveredNext(f, layers, request, entries, k);
      SuccessTravelsOutwards(f, layers, request, entries, k + 1);
      CarryNext(f, layers, request, entries, k);
    } else {
      CarryStops(f, layers, request, entries, k);
    }
  }
}
