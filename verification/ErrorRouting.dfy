/** Which recovering layer sees an error, and what becomes of it. */
module ErrorRouting {
  import opened Wrappers
  import opened Http
  import opened Paths
  import opened Errors
  import opened Tuples
  import opened Requests
  import opened Filters
  import opened RunLaws
  import opened Layers
  import Cors

  predicate NoneCatches(layers: seq<Layer>, lo: nat, hi: nat, e: FilterError)
    requires lo <= hi <= |layers|
  {
    forall k :: lo <= k < hi ==> !layers[k].Catches(e)
  }

  /** What a layer makes of an error that it accepts: it sees exactly this error. */
  function Caught(layer: Layer, e: FilterError, index: nat, state: StateView): RunResult
    requires layer.Catches(e)
  {
    match layer
    case InRecover(recover, _) =>
      (match recover(e)
       case Ok(value) => RunResult(state.(index := index), Success([value]))
       case Err(next) => RunResult(state.(index := index), Error(next)))
    case InRecoverForward(forward, _) =>
      match forward(e)
      case Ok(forwarding) => RunResult(state, Forward([], forwarding))
      case Err(next) => RunResult(state, Error(next))
  }

  /** One layer and an error: the layer's function gets it, or it goes on with the state it came with. */
  function OneLayer(layer: Layer, index: nat, r: RunResult): RunResult
    requires r.outcome.Error?
  {
    if layer.Catches(r.outcome.error) then Caught(layer, r.outcome.error, index, r.state) else r
  }

  /**
    Which errors a recovering filter is for: all of them, or those of one type. The function is called
    exactly on these; any other error comes out as if there were no `recover`.
   */
  lemma RecoversItsType(
      f: Filter, recover: Recoverer, accepts: Recoverable, request: Request, st: StateView, input: Tuple)
    requires InPath(request.path, st.index) && Eval(f, request, st, input).outcome.Error?
    ensures var r := Eval(f, request, st, input);
      var recovered := Eval(Recover(f, recover, accepts), request, st, input);
      var wanted :=
        match r.outcome.error
        case Redirect(_) => accepts == Boxed || accepts == Only(RedirectType)
        case BodyError(_) => accepts == Boxed || accepts == Only(BodyType)
        case CustomError(id, _) => accepts == Boxed || accepts == Only(Custom(id));
      && (!wanted ==> recovered == r)
      && (wanted ==>
          && recovered.state == r.state.(index := st.index)
          && match recover(r.outcome.error)
             case Ok(value) => recovered.outcome == Success([value])
             case Err(next) => recovered.outcome == Error(next))
  {
    var r := Eval(f, request, st, input);
    assert Eval(Recover(f, recover, accepts), request, st, input) == RecoverRest(recover, accepts, st.index, r);
  }

  /** The same for `recover_forward`, which leaves the index alone. */
  lemma ForwardsItsType(
      f: Filter, forward: ForwardRecoverer, accepts: Recoverable, request: Request, st: StateView, input: Tuple)
    requires InPath(request.path, st.index) && Eval(f, request, st, []).outcome.Error?
    ensures var r := Eval(f, request, st, []);
      var recovered := Eval(RecoverForward(f, forward, accepts), request, st, input);
      var wanted :=
        match r.outcome.error
        case Redirect(_) => accepts == Boxed || accepts == Only(RedirectType)
        case BodyError(_) => accepts == Boxed || accepts == Only(BodyType)
        case CustomError(id, _) => accepts == Boxed || accepts == Only(Custom(id));
      && recovered.state == r.state
      && (!wanted ==> recovered == r)
      && (wanted ==>
          match forward(r.outcome.error)
          case Ok(forwarding) => recovered.outcome == Forward([], forwarding)
          case Err(next) => recovered.outcome == Error(next))
  {
    var r := Eval(f, request, st, []);
    assert Eval(RecoverForward(f, forward, accepts), request, st, input) == RecoverForwardRest(forward, accepts, r);
  }

  lemma SecondLayer(layer: Layer, f: Filter, request: Request, entry: Entry)
    requires layer.IsSecond() && EntryInPath(request, entry)
    requires layer.Start(f, request, entry.0, entry.1).Some?
    requires EvalFrom(f, request, layer.Start(f, request, entry.0, entry.1).value).outcome.Error?
    ensures EvalFrom(layer.Around(f), request, entry)
         == EvalFrom(f, request, layer.Start(f, request, entry.0, entry.1).value)
  {
    match layer
    case SecondOfAnd(first) => AndMeans(first, f, request, entry.0, entry.1);
    case SecondOfOr(first) => OrMeans(first, f, request, entry.0, entry.1);
    case SecondOfThen(first, received) => ThenMeans(first, f, received, request, entry.0, entry.1);
  }

  lemma FirstLayer(layer: Layer, f: Filter, request: Request, entry: Entry)
    requires !layer.IsSecond() && IsPair(layer.Around(f)) && EntryInPath(request, entry)
    requires EvalFrom(f, request, layer.Start(f, request, entry.0, entry.1).value).outcome.Error?
    ensures EvalFrom(layer.Around(f), request, entry)
         == EvalFrom(f, request, layer.Start(f, request, entry.0, entry.1).value)
  {
    match layer
    case FirstOfAnd(second) => AndMeans(f, second, request, entry.0, entry.1);
    case FirstOfOr(second) => OrMeans(f, second, request, entry.0, entry.1);
    case FirstOfThen(second, received) => ThenMeans(f, second, received, request, entry.0, entry.1);
  }

  lemma OnlyLayer(layer: Layer, f: Filter, request: Request, entry: Entry)
    requires !IsPair(layer.Around(f)) && EntryInPath(request, entry)
    requires layer.Start(f, request, entry.0, entry.1).Some?
    requires EvalFrom(f, request, layer.Start(f, request, entry.0, entry.1).value).outcome.Error?
    ensures EvalFrom(layer.Around(f), request, entry)
         == OneLayer(layer, entry.0.index, EvalFrom(f, request, layer.Start(f, request, entry.0, entry.1).value))
  {
    var around := EvalFrom(layer.Around(f), request, entry);
    var r := EvalFrom(f, request, layer.Start(f, request, entry.0, entry.1).value);
    match layer
    case InRecover(recover, accepts) => assert around == RecoverRest(recover, accepts, entry.0.index, r);
    case InRecoverForward(forward, accepts) => assert around == RecoverForwardRest(forward, accepts, r);
    case InHandle(func, _) => assert around == HandleRest(func, r);
    case InReceive(_) => assert around == ReceiveRest(Beginning(entry.1, |InputShape(f)|), r);
    case InUntuple => assert around == UntupleRest(r);
    case InCors(config) => assert Cors.CorsGate(config, request).Run?;
  }

  lemma ErrorMeetsLayer(layer: Layer, f: Filter, request: Request, entry: Entry)
    requires EntryInPath(request, entry)
    requires layer.Start(f, request, entry.0, entry.1).Some?
    requires EvalFrom(f, request, layer.Start(f, request, entry.0, entry.1).value).outcome.Error?
    ensures EvalFrom(layer.Around(f), request, entry)
         == OneLayer(layer, entry.0.index, EvalFrom(f, request, layer.Start(f, request, entry.0, entry.1).value))
  {
    if layer.IsSecond() {
      SecondLayer(layer, f, request, entry);
    } else if IsPair(layer.Around(f)) {
      FirstLayer(layer, f, request, entry);
    } else {
      OnlyLayer(layer, f, request, entry);
    }
  }

  /**
    The way of a result outwards from inside the first `k` layers, as long as it is an error: every
    layer that accepts the error at hand replaces it by what its function makes of it, all others let
    it pass. It ends where the outcome is no error any more, or outside all layers.
   */
  function Travel(layers: seq<Layer>, entries: seq<Entry>, k: nat, r: RunResult): (end: (nat, RunResult))
    requires k <= |layers| && |entries| == |layers| + 1
    ensures k <= end.0 <= |layers| && (end.0 < |layers| ==> !end.1.outcome.Error?)
    decreases |layers| - k
  {
    if k == |layers| || !r.outcome.Error? then (k, r)
    else Travel(layers, entries, k + 1, OneLayer(layers[k], entries[k + 1].0.index, r))
  }

  lemma {:induction false} TravelIsRun(f: Filter, layers: seq<Layer>, request: Request, entries: seq<Entry>, k: nat)
    requires k <= |layers| && Entered(f, layers, |layers|, request, entries)
    ensures var (m, end) := Travel(layers, entries, k, EvalFrom(Wrap(f, layers, k), request, entries[k]));
      EvalFrom(Wrap(f, layers, m), request, entries[m]) == end
    decreases |layers| - k
  {
    var r := EvalFrom(Wrap(f, layers, k), request, entries[k]);
    if k < |layers| && r.outcome.Error? {
      assert EnteredAt(f, layers, request, entries, k);
      ErrorMeetsLayer(layers[k], Wrap(f, layers, k), request, entries[k + 1]);
      TravelIsRun(f, layers, request, entries, k + 1);
    }
  }

  /**
    Errors travel outwards only. In whatever nesting of combinators a filter is run, as the first or
    the second of a pair, its error meets the layers from the inside out, each of them once. A layer
    that accepts it puts what its function returns in its place, and an error that the function returns
    meets only the layers further out, some of which may accept it in turn.
   */
  lemma ErrorsTravelOutwards(f: Filter, layers: seq<Layer>, request: Request, entry: Entry)
    requires EntryInPath(request, entry) && Reaches(f, layers, |layers|, request, entry)
    ensures var entries := Entries(f, layers, |layers|, request, entry);
      && Entered(f, layers, |layers|, request, entries)
      && var (m, end) := Travel(layers, entries, 0, EvalFrom(f, request, entries[0]));
         EvalFrom(Wrap(f, layers, m), request, entries[m]) == end
  {
    EntriesFollow(f, layers, |layers|, request, entry);
    TravelIsRun(f, layers, request, Entries(f, layers, |layers|, request, entry), 0);
  }

  /** An error that none of the layers from `lo` to `hi` accepts travels past them as it is. */
  lemma {:induction false} TravelPasses(layers: seq<Layer>, entries: seq<Entry>, lo: nat, hi: nat, r: RunResult)
    requires lo <= hi <= |layers| && |entries| == |layers| + 1
    requires r.outcome.Error? && NoneCatches(layers, lo, hi, r.outcome.error)
    ensures Travel(layers, entries, lo, r) == Travel(layers, entries, hi, r)
    decreases hi - lo
  {
    if lo < hi { TravelPasses(layers, entries, lo + 1, hi, r); }
  }

  /** An error that no layer accepts is what the whole tree comes to, with the state it was made with. */
  lemma UncaughtErrorPasses(f: Filter, layers: seq<Layer>, request: Request, entry: Entry)
    requires EntryInPath(request, entry) && Reaches(f, layers, |layers|, request, entry)
    requires var r := EvalFrom(f, request, Entries(f, layers, |layers|, request, entry)[0]);
      r.outcome.Error? && NoneCatches(layers, 0, |layers|, r.outcome.error)
    ensures EvalFrom(Wrap(f, layers, |layers|), request, entry)
         == EvalFrom(f, request, Entries(f, layers, |layers|, request, entry)[0])
  {
    var entries := Entries(f, layers, |layers|, request, entry);
    ErrorsTravelOutwards(f, layers, request, entry);
    TravelPasses(layers, entries, 0, |layers|, EvalFrom(f, request, entries[0]));
  }

  /**
    The innermost layer that accepts an error gets exactly this error, and whatever its function
    makes of it, the layer itself and those inside it do not see it again.
   */
  lemma InnermostCatches(f: Filter, layers: seq<Layer>, k: nat, request: Request, entry: Entry)
    requires EntryInPath(request, entry) && Reaches(f, layers, |layers|, request, entry) && k < |layers|
    requires var r := EvalFrom(f, request, Entries(f, layers, |layers|, request, entry)[0]);
      r.outcome.Error? && NoneCatches(layers, 0, k, r.outcome.error) && layers[k].Catches(r.outcome.error)
    ensures var entries := Entries(f, layers, |layers|, request, entry);
      var r := EvalFrom(f, request, entries[0]);
      var caught := Caught(layers[k], r.outcome.error, entries[k + 1].0.index, r.state);
      && EvalFrom(Wrap(f, layers, k), request, entries[k]) == r
      && EntryInPath(request, entries[k + 1])
      && EvalFrom(Wrap(f, layers, k + 1), request, entries[k + 1]) == caught
      && Travel(layers, entries, 0, r) == Travel(layers, entries, k + 1, caught)
  {
    var entries := Entries(f, layers, |layers|, request, entry);
    var r := EvalFrom(f, request, entries[0]);
    EntriesFollow(f, layers, |layers|, request, entry);
    RunPasses(f, layers, request, entries, k);
    TravelPasses(layers, entries, 0, k, r);
    assert EnteredAt(f, layers, request, entries, k);
    ErrorMeetsLayer(layers[k], Wrap(f, layers, k), request, entries[k + 1]);
  }

  lemma {:induction false} RunPasses(f: Filter, layers: seq<Layer>, request: Request, entries: seq<Entry>, k: nat)
    requires k <= |layers| && Entered(f, layers, |layers|, request, entries)
    requires var r := EvalFrom(f, request, entries[0]);
      r.outcome.Error? && NoneCatches(layers, 0, k, r.outcome.error)
    ensures EvalFrom(Wrap(f, layers, k), request, entries[k]) == EvalFrom(f, request, entries[0])
    decreases k
  {
    if k > 0 {
      RunPasses(f, layers, request, entries, k - 1);
      assert EnteredAt(f, layers, request, entries, k - 1);
      ErrorMeetsLayer(layers[k - 1], Wrap(f, layers, k - 1), request, entries[k]);
    }
  }
}
