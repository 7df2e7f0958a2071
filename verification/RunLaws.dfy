/** What every run of every filter tree does with the path cursor and the body. */
module RunLaws {
  import opened Wrappers
  import opened Http
  import opened Decoding
  import opened Paths
  import opened Bodies
  import opened Errors
  import opened Tuples
  import opened Requests
  import opened Filters
  import Cors

  // ----- which inner filters run, and from where -----

  predicate IsPair(f: Filter) { f.And? || f.Or? || f.Then? }

  function FirstInput(f: Filter, input: Tuple): Tuple { if f.Or? then input else [] }

  /** The state and input from which the second of two filters runs, if it does. */
  function SecondStart(f: Filter, request: Request, st: StateView, input: Tuple): (start: Option<(StateView, Tuple)>)
    requires IsPair(f) && InPath(request.path, st.index)
    ensures start.Some? ==> st.index <= start.value.0.index <= |request.path|
  {
    var r := Eval(f.first, request, st, FirstInput(f, input));
    match r.outcome
    case Success(success) =>
      if f.And? then Some((r.state, input))
      else if f.Then? then Some((r.state, Append(input, success)))
      else None
    case Error(_) => None
    case Forward(back, _) => if f.Or? then Some((r.state.(index := st.index), back)) else None
  }

  function InnerInput(f: Filter, input: Tuple): Tuple
    requires !f.IsLeaf() && !IsPair(f)
  {
    match f
    case RecoverForward(_, _, _) => []
    case Receive(filter, _) => Ending(input, |InputShape(filter)|)
    case _ => input
  }

  /** Only a filter behind CORS may not run at all. */
  predicate InnerRuns(f: Filter, request: Request) {
    f.WithCors? ==> Cors.CorsGate(f.config, request).Run?
  }

  /** The state after two filters is that of the last one that ran, or has the index put back. */
  lemma PairState(f: Filter, request: Request, st: StateView, input: Tuple)
    requires IsPair(f) && InPath(request.path, st.index)
    ensures var r := Eval(f.first, request, st, FirstInput(f, input));
      var after := Eval(f, request, st, input).state;
      match SecondStart(f, request, st, input)
      case None => after == r.state
      case Some((st2, input2)) =>
        var r2 := Eval(f.second, request, st2, input2);
        st2.body == r.state.body && (after == r2.state || after == r2.state.(index := st.index))
  {}

  lemma InnerState(f: Filter, request: Request, st: StateView, input: Tuple)
    requires !f.IsLeaf() && !IsPair(f) && InPath(request.path, st.index)
    ensures var after := Eval(f, request, st, input).state;
      if InnerRuns(f, request) then
        var r := Eval(f.filter, request, st, InnerInput(f, input));
        after == r.state || after == r.state.(index := st.index)
      else after == st
  {}

  // ----- the path cursor -----

  /**
    Starting from a place where a path may be cut, every run ends at such a place, between the entry
    index and the end of the path; so every slice taken of the path is within bounds.
   */
  lemma {:induction false} CursorStaysAtBoundary(f: Filter, request: Request, st: StateView, input: Tuple)
    requires AtBoundary(request.path, st.index)
    ensures AtBoundary(request.path, Eval(f, request, st, input).state.index)
    ensures st.index <= Eval(f, request, st, input).state.index <= |request.path|
  {
    if f.IsLeaf() {
      LeafAtBoundary(f, request, st);
    } else if IsPair(f) {
      PairState(f, request, st, input);
      CursorStaysAtBoundary(f.first, request, st, FirstInput(f, input));
      var start := SecondStart(f, request, st, input);
      if start.Some? {
        SecondAtBoundary(f, request, st, input);
        CursorStaysAtBoundary(f.second, request, start.value.0, start.value.1);
      }
    } else {
      InnerState(f, request, st, input);
      CursorStaysAtBoundary(f.filter, request, st, InnerInput(f, input));
    }
  }

  lemma LeafAtBoundary(f: Filter, request: Request, st: StateView)
    requires f.IsLeaf() && AtBoundary(request.path, st.index)
    ensures AtBoundary(request.path, EvalLeaf(f, request, st).state.index)
  {
    if Segment(request.path, st.index).Some? { SegmentStep(request.path, st.index); }
  }

  lemma SecondAtBoundary(f: Filter, request: Request, st: StateView, input: Tuple)
    requires IsPair(f) && AtBoundary(request.path, st.index)
    requires AtBoundary(request.path, Eval(f.first, request, st, FirstInput(f, input)).state.index)
    ensures SecondStart(f, request, st, input).Some? ==>
      AtBoundary(request.path, SecondStart(f, request, st, input).value.0.index)
  {}

  /**
    No run splits a character of a well-formed path: the path up to the cursor, which is what a
    redirect repeats, and the path from there on are both well-formed.
   */
  lemma CursorBetweenCharacters(f: Filter, request: Request, st: StateView, input: Tuple)
    requires AtBoundary(request.path, st.index) && ValidUtf8(request.path)
    ensures var index := Eval(f, request, st, input).state.index;
      ValidUtf8(request.path[..index]) && ValidUtf8(request.path[index..])
  {
    CursorStaysAtBoundary(f, request, st, input);
    var path, index := request.path, Eval(f, request, st, input).state.index;
    if index == 0 {
      assert path[..index] == [] && path[index..] == path;
    } else {
      CutBeforeAscii(path, index);
    }
  }

  // ----- the body -----

  /** What all the body filters of a run have come to, in order. */
  function BodyReads(f: Filter, request: Request, st: StateView, input: Tuple): seq<Outcome>
    requires InPath(request.path, st.index)
  {
    if f.TakeBody? then [Eval(f, request, st, input).outcome]
    else if f.IsLeaf() then []
    else if IsPair(f) then
      BodyReads(f.first, request, st, FirstInput(f, input))
      + match SecondStart(f, request, st, input)
        case None => []
        case Some((st2, input2)) => BodyReads(f.second, request, st2, input2)
    else if InnerRuns(f, request) then BodyReads(f.filter, request, st, InnerInput(f, input))
    else []
  }

  function AfterReads(v: BodyView, n: nat): BodyView { if n == 0 then v else AfterRead(v) }

  /** What the body filter comes to in `n` successive runs. */
  function Told(v: BodyView, n: nat): seq<Outcome>
    decreases n
  {
    if n == 0 then [] else [BodyOutcome(ReadOf(v))] + Told(AfterRead(v), n - 1)
  }

  lemma {:induction false} ToldSplit(v: BodyView, m: nat, n: nat)
    ensures Told(v, m) + Told(AfterReads(v, m), n) == Told(v, m + n)
    ensures AfterReads(AfterReads(v, m), n) == AfterReads(v, m + n)
    ensures |Told(v, m)| == m
    decreases m
  {
    if m > 0 {
      ToldSplit(AfterRead(v), m - 1, n);
      assert AfterReads(AfterRead(v), m - 1) == AfterRead(v);
    }
  }

  /** The outcome of the body filter when the body has already been read `k` times. */
  function ToldAt(v: BodyView, k: nat): Outcome {
    match v
    case Unread(chunks, None) => Success([BufferValue(chunks)])
    case Unread(_, Some(cause)) => Error(BodyError(if k == 0 then Some(cause) else None))
    case Read(chunks) => Success([BufferValue(chunks)])
    case Failed => Error(BodyError(None))
  }

  lemma {:induction false} ToldEach(v: BodyView, n: nat, k: nat)
    requires k < n
    ensures |Told(v, n)| == n && Told(v, n)[k] == ToldAt(v, k)
    decreases n
  {
    ToldSplit(v, n, 0);
    if k > 0 { ToldEach(AfterRead(v), n - 1, k - 1); }
  }

  /** Successive reads of one body, which leave it as that many reads do. */
  ghost predicate ReadsInTurn(results: seq<Outcome>, before: BodyView, after: BodyView) {
    results == Told(before, |results|) && after == AfterReads(before, |results|)
  }

  lemma ReadsInTurnConcat(a: seq<Outcome>, b: seq<Outcome>, u: BodyView, v: BodyView, w: BodyView)
    requires ReadsInTurn(a, u, v) && ReadsInTurn(b, v, w)
    ensures ReadsInTurn(a + b, u, w)
  {
    ToldSplit(u, |a|, |b|);
  }

  /** The reads of a run, through all branches tried, are successive reads of the one body. */
  lemma {:induction false} RunReadsInTurn(f: Filter, request: Request, st: StateView, input: Tuple)
    requires InPath(request.path, st.index)
    ensures ReadsInTurn(BodyReads(f, request, st, input), st.body, Eval(f, request, st, input).state.body)
  {
    if f.TakeBody? {
      assert Told(st.body, 1) == [BodyOutcome(ReadOf(st.body))] + Told(AfterRead(st.body), 0);
    } else if f.IsLeaf() {
    } else if IsPair(f) {
      PairState(f, request, st, input);
      var reads1 := BodyReads(f.first, request, st, FirstInput(f, input));
      RunReadsInTurn(f.first, request, st, FirstInput(f, input));
      match SecondStart(f, request, st, input)
      case None => assert reads1 + [] == reads1;
      case Some((st2, input2)) =>
        RunReadsInTurn(f.second, request, st2, input2);
        ReadsInTurnConcat(reads1, BodyReads(f.second, request, st2, input2),
          st.body, st2.body, Eval(f, request, st, input).state.body);
    } else {
      InnerState(f, request, st, input);
      RunReadsInTurn(f.filter, request, st, InnerInput(f, input));
    }
  }

  /** A run leaves the body as it was or read to the end. */
  lemma BodyAfter(f: Filter, request: Request, st: StateView, input: Tuple)
    requires InPath(request.path, st.index)
    ensures var body := Eval(f, request, st, input).state.body; body == st.body || body == AfterRead(st.body)
  {
    RunReadsInTurn(f, request, st, input);
  }

  /**
    All the body filters in a run hand out the same chunks, all of the body, when it is intact, whatever
    earlier branches did with theirs. A failing body gives its cause to the first of them only, and
    content to none.
   */
  lemma EveryReadAgrees(f: Filter, request: Request, st: StateView, input: Tuple, k: nat)
    requires InPath(request.path, st.index) && k < |BodyReads(f, request, st, input)|
    ensures BodyReads(f, request, st, input)[k] ==
      match st.body
      case Unread(chunks, None) => Success([BufferValue(chunks)])
      case Unread(_, Some(cause)) => Error(BodyError(if k == 0 then Some(cause) else None))
      case Read(chunks) => Success([BufferValue(chunks)])
      case Failed => Error(BodyError(None))
  {
    RunReadsInTurn(f, request, st, input);
    ToldEach(st.body, |BodyReads(f, request, st, input)|, k);
  }
}
