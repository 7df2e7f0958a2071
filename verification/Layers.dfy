/** Filter trees seen from one filter inside them: the combinators around it, the innermost first. */
module Layers {
  import opened Wrappers
  import opened Http
  import opened Paths
  import opened Errors
  import opened Tuples
  import opened Requests
  import opened Filters
  import opened RunLaws
  import Cors

  /** A combinator with one of its filters left open. */
  datatype Layer =
    | FirstOfAnd(second: Filter)
    | SecondOfAnd(first: Filter)
    | FirstOfOr(second: Filter)
    | SecondOfOr(first: Filter)
    | FirstOfThen(second: Filter, received: seq<Shape>)
    | SecondOfThen(first: Filter, received: seq<Shape>)
    | InHandle(func: Handler, result: Shape)
    | InRecover(recover: Recoverer, accepts: Recoverable)
    | InRecoverForward(forward: ForwardRecoverer, accepts: Recoverable)
    | InReceive(carried: seq<Shape>)
    | InUntuple
    | InCors(config: Cors.ValidConfig)
  {
    function Around(f: Filter): Filter {
      match this
      case FirstOfAnd(second) => And(f, second)
      case SecondOfAnd(first) => And(first, f)
      case FirstOfOr(second) => Or(f, second)
      case SecondOfOr(first) => Or(first, f)
      case FirstOfThen(second, received) => Then(f, second, received)
      case SecondOfThen(first, received) => Then(first, f, received)
      case InHandle(func, result) => Handle(f, func, result)
      case InRecover(recover, accepts) => Recover(f, recover, accepts)
      case InRecoverForward(forward, accepts) => RecoverForward(f, forward, accepts)
      case InReceive(carried) => Receive(f, carried)
      case InUntuple => Untuple(f)
      case InCors(config) => WithCors(config, f)
    }

    predicate IsSecond() { SecondOfAnd? || SecondOfOr? || SecondOfThen? }

    /** The state and input from which the filter inside runs, if it does. */
    function Start(f: Filter, request: Request, st: StateView, input: Tuple): (start: Option<(StateView, Tuple)>)
      requires InPath(request.path, st.index)
      ensures start.Some? ==> st.index <= start.value.0.index <= |request.path|
    {
      var around := Around(f);
      if IsSecond() then SecondStart(around, request, st, input)
      else if IsPair(around) then Some((st, FirstInput(around, input)))
      else if InnerRuns(around, request) then Some((st, InnerInput(around, input)))
      else None
    }

    /** Whether the combinator offers the error to the application's function. */
    predicate Catches(e: FilterError) { (InRecover? || InRecoverForward?) && accepts.Accepts(e) }
  }

  /** A filter inside the first `k` layers. */
  function Wrap(f: Filter, layers: seq<Layer>, k: nat): Filter
    requires k <= |layers|
  {
    if k == 0 then f else layers[k - 1].Around(Wrap(f, layers, k - 1))
  }

  // ----- a run that comes to the innermost filter -----

  /** Where the filter inside the first layers runs from. */
  type Entry = (StateView, Tuple)

  predicate EntryInPath(request: Request, entry: Entry) { InPath(request.path, entry.0.index) }

  function EvalFrom(f: Filter, request: Request, entry: Entry): RunResult
    requires EntryInPath(request, entry)
  {
    Eval(f, request, entry.0, entry.1)
  }

  /** Whether a run of the first `n` layers comes to run the innermost filter. */
  predicate Reaches(f: Filter, layers: seq<Layer>, n: nat, request: Request, entry: Entry)
    requires n <= |layers| && EntryInPath(request, entry)
  {
    n == 0 ||
    var start := layers[n - 1].Start(Wrap(f, layers, n - 1), request, entry.0, entry.1);
    start.Some? && Reaches(f, layers, n - 1, request, start.value)
  }

  /** `entries[k]` is where the filter inside the first `k` layers starts when the next layer starts at `entries[k + 1]`. */
  predicate EnteredAt(f: Filter, layers: seq<Layer>, request: Request, entries: seq<Entry>, k: nat)
    requires k < |layers| && k + 1 < |entries| && EntryInPath(request, entries[k + 1])
  {
    layers[k].Start(Wrap(f, layers, k), request, entries[k + 1].0, entries[k + 1].1) == Some(entries[k])
  }

  predicate Entered(f: Filter, layers: seq<Layer>, n: nat, request: Request, entries: seq<Entry>)
    requires n <= |layers|
  {
    && |entries| == n + 1
    && (forall k :: 0 <= k <= n ==> EntryInPath(request, entries[k]))
    && forall k :: 0 <= k < n ==> EnteredAt(f, layers, request, entries, k)
  }

  /** Where the filters inside the first 0, 1, .. and `n` layers start in a run of the last of them. */
  function Entries(f: Filter, layers: seq<Layer>, n: nat, request: Request, entry: Entry): (entries: seq<Entry>)
    requires n <= |layers| && EntryInPath(request, entry) && Reaches(f, layers, n, request, entry)
    ensures |entries| == n + 1 && entries[n] == entry
    ensures forall k :: 0 <= k <= n ==> EntryInPath(request, entries[k])
  {
    if n == 0 then [entry]
    else
      var start := layers[n - 1].Start(Wrap(f, layers, n - 1), request, entry.0, entry.1).value;
      Entries(f, layers, n - 1, request, start) + [entry]
  }

  lemma {:induction false} EntriesFollow(f: Filter, layers: seq<Layer>, n: nat, request: Request, entry: Entry)
    requires n <= |layers| && EntryInPath(request, entry) && Reaches(f, layers, n, request, entry)
    ensures Entered(f, layers, n, request, Entries(f, layers, n, request, entry))
  {
    if n > 0 {
      var start := layers[n - 1].Start(Wrap(f, layers, n - 1), request, entry.0, entry.1).value;
      EntriesFollow(f, layers, n - 1, request, start);
      var inner, entries := Entries(f, layers, n - 1, request, start), Entries(f, layers, n, request, entry);
      forall k | 0 <= k < n ensures EnteredAt(f, layers, request, entries, k) {
        if k < n - 1 { assert EnteredAt(f, layers, request, inner, k); }
      }
    }
  }
}
