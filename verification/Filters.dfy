/**
  Filters and what they mean: a filter is a tree of leaves and combinators, and `Eval` is the big-step
  result of running it on a request, without futures, polling or waiting.
 */
module Filters {
  import opened Wrappers
  import opened Http
  import opened Decoding
  import opened Paths
  import opened Sanitize
  import opened Bodies
  import opened Errors
  import opened Forwardings
  import opened Tuples
  import opened Requests
  import Cors

  /** A user's function: asynchronous in the program, a function of its arguments here. */
  type Handler = Tuple -> Result<Value, FilterError>
  type Recoverer = FilterError -> Result<Value, FilterError>
  type ForwardRecoverer = FilterError -> Result<Forwarding, FilterError>

  datatype Filter =
    | Any
    | Never(shape: Shape)
    | MethodIs(verb: Method)
    | Literal(value: Text)
    | ParamStr
    | End
    | Tail
    | TailPath
    | TakeBody
    | And(first: Filter, second: Filter)
    | Or(first: Filter, second: Filter)
    | Then(first: Filter, second: Filter, received: seq<Shape>)
    | Handle(filter: Filter, func: Handler, result: Shape)
    | Recover(filter: Filter, recover: Recoverer, accepts: Recoverable)
    | RecoverForward(filter: Filter, forward: ForwardRecoverer, accepts: Recoverable)
    | Receive(filter: Filter, carried: seq<Shape>)
    | Untuple(filter: Filter)
    | WithCors(config: Cors.ValidConfig, filter: Filter)
  {
    predicate IsLeaf() {
      Any? || Never? || MethodIs? || Literal? || ParamStr? || End? || Tail? || TailPath? || TakeBody?
    }
  }

  /** `FilterBase::Input`. */
  function InputShape(f: Filter): seq<Shape> {
    match f
    case And(_, second) => InputShape(second)
    case Or(first, _) => InputShape(first)
    case Then(_, _, received) => received
    case Handle(filter, _, _) => InputShape(filter)
    case Recover(filter, _, _) => InputShape(filter)
    case Receive(filter, carried) => carried + InputShape(filter)
    case Untuple(filter) => InputShape(filter)
    case WithCors(_, filter) => InputShape(filter)
    case _ => []
  }

  /** `FilterBase::Success`. */
  function SuccessShape(f: Filter): seq<Shape> {
    match f
    case Never(shape) => [shape]
    case ParamStr => [Scalar]
    case Tail => [Scalar]
    case TailPath => [Scalar]
    case TakeBody => [Scalar]
    case And(first, second) => SuccessShape(first) + SuccessShape(second)
    case Or(first, _) => SuccessShape(first)
    case Then(_, second, _) => SuccessShape(second)
    case Handle(_, _, result) => [result]
    case Recover(filter, _, _) => SuccessShape(filter)
    case RecoverForward(filter, _, _) => SuccessShape(filter)
    case Receive(filter, carried) => carried + SuccessShape(filter)
    case Untuple(filter) =>
      var inner := SuccessShape(filter);
      if |inner| == 1 && inner[0].TupleShape? then inner[0].elems else inner
    case WithCors(_, _) => [ReplyShape]
    case _ => []
  }

  datatype Outcome =
    | Success(success: Tuple)
    | Error(error: FilterError)
    | Forward(input: Tuple, forwarding: Forwarding)

  /** A `RequestOutcome` with what can be observed of its request state. */
  datatype RunResult = RunResult(state: StateView, outcome: Outcome)

  // ----- leaves -----

  function NotMatched(): Outcome { Forward([], NotFound) }

  /** `decoded_segment`: hands the decoded next segment to `func` and moves on if that accepts it. */
  function DecodedSegment(request: Request, st: StateView, func: Text -> Option<Tuple>): RunResult
    requires InPath(request.path, st.index)
  {
    match Segment(request.path, st.index)
    case None => RunResult(st, NotMatched())
    case Some((seg, len)) =>
      match func(DecodedText(seg))
      case None => RunResult(st, NotMatched())
      case Some(success) => RunResult(st.(index := st.index + len), Success(success))
  }

  function LiteralTest(value: Text): Text -> Option<Tuple> {
    (text: Text) => if value == text then Some([]) else None
  }

  function ParamTest(): Text -> Option<Tuple> {
    (text: Text) => Some([TextValue(text)])
  }

  function EndOutcome(request: Request, index: nat): Outcome
    requires InPath(request.path, index)
  {
    if request.path == [] || request.path == [SLASH] then Success([])
    else
      var current := request.path[index..];
      if current == [] then Success([])
      else if current == [SLASH] then Error(Redirect(request.path[..index]))
      else NotMatched()
  }

  function BodyOutcome(r: ReadResult): Outcome {
    match r
    case Content(chunks) => Success([BufferValue(chunks)])
    case ReadError(cause) => Error(BodyError(cause))
  }

  function EvalLeaf(f: Filter, request: Request, st: StateView): (r: RunResult)
    requires f.IsLeaf() && InPath(request.path, st.index)
    ensures st.index <= r.state.index <= |request.path|
  {
    match f
    case Any => RunResult(st, Success([]))
    case Never(_) => RunResult(st, NotMatched())
    case MethodIs(m) =>
      RunResult(st, if request.verb == m.Name() then Success([]) else Forward([], MethodNotAllowed(m.Bit())))
    case Literal(value) => StepInPath(request, st); DecodedSegment(request, st, LiteralTest(value))
    case ParamStr => StepInPath(request, st); DecodedSegment(request, st, ParamTest())
    case End => RunResult(st, EndOutcome(request, st.index))
    case Tail => RunResult(st.(index := |request.path|), Success([TextValue(request.path[st.index..])]))
    case TailPath =>
      (match Sanitized(request.path[st.index..])
       case Some(components) => RunResult(st.(index := |request.path|), Success([PathValue(components)]))
       case None => RunResult(st, NotMatched()))
    case TakeBody => RunResult(st.(body := AfterRead(st.body)), BodyOutcome(ReadOf(st.body)))
  }

  lemma StepInPath(request: Request, st: StateView)
    requires InPath(request.path, st.index)
    ensures Segment(request.path, st.index).Some? ==>
      st.index < st.index + Segment(request.path, st.index).value.1 <= |request.path|
  {
    if Segment(request.path, st.index).Some? { SegmentStep(request.path, st.index); }
  }

  // ----- combinators -----

  function HandlerOutcome(r: Result<Value, FilterError>): Outcome {
    match r
    case Ok(value) => Success([value])
    case Err(error) => Error(error)
  }

  function HandleRest(func: Handler, r: RunResult): RunResult {
    if r.outcome.Success? then r.(outcome := HandlerOutcome(func(r.outcome.success))) else r
  }

  /** The index goes back on success too, and stays where it is on forward. */
  function RecoverRest(recover: Recoverer, accepts: Recoverable, index: nat, r: RunResult): RunResult {
    match r.outcome
    case Success(_) => r.(state := r.state.(index := index))
    case Error(error) =>
      (match accepts.Recover(error)
       case Ok(error) => RunResult(r.state.(index := index), HandlerOutcome(recover(error)))
       case Err(_) => r)
    case Forward(_, _) => r
  }

  function ForwardOutcome(r: Result<Forwarding, FilterError>): Outcome {
    match r
    case Ok(forwarding) => Forward([], forwarding)
    case Err(error) => Error(error)
  }

  function RecoverForwardRest(forward: ForwardRecoverer, accepts: Recoverable, r: RunResult): RunResult {
    match r.outcome
    case Error(error) =>
      (match accepts.Recover(error)
       case Ok(error) => r.(outcome := ForwardOutcome(forward(error)))
       case Err(_) => r)
    case _ => r
  }

  function AppendAfter(first: Tuple, r: RunResult): RunResult {
    if r.outcome.Success? then r.(outcome := Success(Append(first, r.outcome.success))) else r
  }

  function CombineAfter(first: Forwarding, index: nat, r: RunResult): RunResult {
    match r.outcome
    case Forward(input, forwarding) =>
      RunResult(r.state.(index := index), Forward(input, first.Combine(forwarding)))
    case _ => r
  }

  /** The part of an input before its last `n` elements; a shorter input does not occur in typed trees. */
  function Beginning(input: Tuple, n: nat): Tuple {
    if n <= |input| then Remove(input, n).0 else input
  }

  function Ending(input: Tuple, n: nat): Tuple {
    if n <= |input| then Remove(input, n).1 else input
  }

  function UnprependAfter(n: nat, r: RunResult): RunResult {
    if r.outcome.Forward? then r.(outcome := Forward(Beginning(r.outcome.input, n), r.outcome.forwarding)) else r
  }

  function ReceiveRest(receive: Tuple, r: RunResult): RunResult {
    match r.outcome
    case Success(success) => r.(outcome := Success(Append(receive, success)))
    case Error(_) => r
    case Forward(input, forwarding) => r.(outcome := Forward(Append(receive, input), forwarding))
  }

  /** `Tuple::into_inner`: a tuple inside a one-tuple comes out, anything else stays. */
  function IntoInner(t: Tuple): Tuple {
    if |t| == 1 && t[0].TupleValue? then t[0].elems else t
  }

  function UntupleRest(r: RunResult): RunResult {
    if r.outcome.Success? then r.(outcome := Success(IntoInner(r.outcome.success))) else r
  }

  function DecorateValues(d: Cors.Decoration, t: Tuple): Tuple {
    if |t| == 1 && t[0].ReplyValue? then [ReplyValue(Cors.Decorate(d, t[0].response))] else t
  }

  function CorsRest(d: Cors.Decoration, r: RunResult): RunResult {
    if r.outcome.Success? then r.(outcome := Success(DecorateValues(d, r.outcome.success))) else r
  }

  function AndRest(second: Filter, request: Request, input: Tuple, r: RunResult): (all: RunResult)
    requires InPath(request.path, r.state.index)
    ensures r.state.index <= all.state.index <= |request.path|
    decreases second, 1
  {
    match r.outcome
    case Success(success) => AppendAfter(success, Eval(second, request, r.state, input))
    case Error(_) => r
    case Forward(_, forwarding) => r.(outcome := Forward(input, forwarding))
  }

  function OrRest(second: Filter, request: Request, index: nat, r: RunResult): (all: RunResult)
    requires InPath(request.path, r.state.index) && index <= r.state.index
    ensures index <= all.state.index <= |request.path|
    decreases second, 1
  {
    match r.outcome
    case Forward(input, forwarding) =>
      CombineAfter(forwarding, index, Eval(second, request, r.state.(index := index), input))
    case _ => r
  }

  function ThenRest(second: Filter, n: nat, request: Request, prepend: Tuple, r: RunResult): (all: RunResult)
    requires InPath(request.path, r.state.index)
    ensures r.state.index <= all.state.index <= |request.path|
    decreases second, 1
  {
    match r.outcome
    case Success(success) => UnprependAfter(n, Eval(second, request, r.state, Append(prepend, success)))
    case Error(_) => r
    case Forward(_, forwarding) => r.(outcome := Forward(prepend, forwarding))
  }

  /**
    The result of a filter. On every outcome the index moves forward or is put back where it was at
    entry, and never leaves the path.
   */
  function Eval(f: Filter, request: Request, st: StateView, input: Tuple): (r: RunResult)
    requires InPath(request.path, st.index)
    ensures st.index <= r.state.index <= |request.path|
    decreases f, 0
  {
    match f
    case And(first, second) => AndRest(second, request, input, Eval(first, request, st, []))
    case Or(first, second) => OrRest(second, request, st.index, Eval(first, request, st, input))
    case Then(first, second, _) =>
      ThenRest(second, |SuccessShape(first)|, request, input, Eval(first, request, st, []))
    case Handle(filter, func, _) => HandleRest(func, Eval(filter, request, st, input))
    case Recover(filter, recover, accepts) =>
      RecoverRest(recover, accepts, st.index, Eval(filter, request, st, input))
    case RecoverForward(filter, forward, accepts) =>
      RecoverForwardRest(forward, accepts, Eval(filter, request, st, []))
    case Receive(filter, _) =>
      var n := |InputShape(filter)|;
      ReceiveRest(Beginning(input, n), Eval(filter, request, st, Ending(input, n)))
    case Untuple(filter) => UntupleRest(Eval(filter, request, st, input))
    case WithCors(config, filter) =>
      (match Cors.CorsGate(config, request)
       case Respond(response) => RunResult(st, Success([ReplyValue(response)]))
       case Run(decoration) => CorsRest(decoration, Eval(filter, request, st, input)))
    case _ => EvalLeaf(f, request, st)
  }

  /** One unfolding of the evaluator for two filters. */
  lemma AndMeans(a: Filter, b: Filter, request: Request, st: StateView, input: Tuple)
    requires InPath(request.path, st.index)
    ensures Eval(And(a, b), request, st, input) == AndRest(b, request, input, Eval(a, request, st, []))
  {}

  lemma OrMeans(a: Filter, b: Filter, request: Request, st: StateView, input: Tuple)
    requires InPath(request.path, st.index)
    ensures Eval(Or(a, b), request, st, input) == OrRest(b, request, st.index, Eval(a, request, st, input))
  {}

  lemma ThenMeans(a: Filter, b: Filter, received: seq<Shape>, request: Request, st: StateView, input: Tuple)
    requires InPath(request.path, st.index)
    ensures Eval(Then(a, b, received), request, st, input)
         == ThenRest(b, |SuccessShape(a)|, request, input, Eval(a, request, st, []))
  {}
}
