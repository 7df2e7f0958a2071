/**
  Running a filter: each combinator's future is a small state machine that `Poll` overwrites in place.
  At any time a future has at most one inner future, so a running filter is a chain of machines, and
  the end of the chain holds the request state.
 */
module Futures {
  import opened Wrappers
  import opened Http
  import opened Paths
  import opened Bodies
  import opened Errors
  import opened Forwardings
  import opened Tuples
  import opened Requests
  import opened Filters
  import Cors
  import Decoding
  import Sanitize

  datatype RequestOutcome = RequestOutcome(requestState: RequestState, outcome: Outcome)

  /** The states of all the futures; a handler's future is the result it will have when it is done. */
  datatype Stage =
    | LeafReady(value: Option<RequestOutcome>)
    | BodyWait(requestState: Option<RequestState>)
    | AndFirst(future: FilterFuture, second: Filter, input: Option<Tuple>)
    | AndSecond(future: FilterFuture, firstSuccess: Option<Tuple>)
    | OrFirst(future: FilterFuture, second: Filter, pathIndex: nat)
    | OrSecond(future: FilterFuture, firstForwarding: Option<Forwarding>, pathIndex: nat)
    | ThenFirst(future: FilterFuture, second: Filter, prepend: Option<Tuple>)
    | ThenSecond(future: FilterFuture)
    | HandleFilter(future: FilterFuture, handler: Handler)
    | HandleFunc(call: Result<Value, FilterError>, requestState: Option<RequestState>)
    | RecoverFilter(future: FilterFuture, recover: Recoverer, pathIndex: nat)
    | RecoverFunc(call: Result<Value, FilterError>, requestState: Option<RequestState>, pathIndex: nat)
    | RecoverForwardFilter(future: FilterFuture, forward: ForwardRecoverer)
    | RecoverForwardFunc(forwardCall: Result<Forwarding, FilterError>, requestState: Option<RequestState>)
    | Receiving(future: FilterFuture, receive: Option<Tuple>)
    | Untupling(future: FilterFuture)
    | Decorating(future: FilterFuture, decoration: Cors.Decoration)
  {
    predicate HasFuture() {
      !(LeafReady? || BodyWait? || HandleFunc? || RecoverFunc? || RecoverForwardFunc?)
    }

    /** The request state this machine itself holds. */
    function Holder(): Option<RequestState> {
      match this
      case LeafReady(Some(value)) => Some(value.requestState)
      case BodyWait(requestState) => requestState
      case HandleFunc(_, requestState) => requestState
      case RecoverFunc(_, requestState, _) => requestState
      case RecoverForwardFunc(_, requestState) => requestState
      case _ => None
    }

    /** How often the machine can still change its own state. */
    function Rank(): nat {
      match this
      case AndFirst(_, _, _) => 1
      case OrFirst(_, _, _) => 1
      case ThenFirst(_, _, _) => 1
      case HandleFilter(_, _) => 1
      case RecoverFilter(_, _, _) => 1
      case RecoverForwardFilter(_, _) => 1
      case _ => 0
    }
  }

  class FilterFuture {
    var stage: Stage
    const filter: Filter
    const request: Request
    ghost const goal: RunResult     // what this future will be ready with
    ghost const owned: RequestState // the request state it was given
    ghost var Repr: set<object>

    ghost predicate Child(inner: FilterFuture)
      reads this, inner
    {
      && inner in Repr && inner.Repr <= Repr && this !in inner.Repr
      && inner.owned == owned && inner.request == request
    }

    /** An unfinished future: every `Option` it will take is there, and its result is already fixed. */
    ghost predicate Valid()
      reads this, Repr
      ensures Valid() ==> this in Repr && owned in Repr && InPath(request.path, goal.state.index)
      decreases Repr
    {
      && this in Repr && owned in Repr && owned.Valid()
      && InPath(request.path, goal.state.index)
      && (stage.HasFuture() ==> stage.future in Repr && Child(stage.future) && stage.future.Valid())
      && match stage
         case LeafReady(value) =>
           value.Some? && value.value.requestState == owned && goal == RunResult(owned.View(), value.value.outcome)
         case BodyWait(requestState) =>
           && filter.TakeBody? && requestState == Some(owned) && InPath(request.path, owned.currentPathIndex)
           && goal == EvalLeaf(filter, request, owned.View())
         case AndFirst(future, second, input) =>
           && filter == And(future.filter, second) && input.Some?
           && goal == AndRest(second, request, input.value, future.goal)
         case AndSecond(future, firstSuccess) =>
           && filter.And? && future.filter == filter.second && firstSuccess.Some?
           && goal == AppendAfter(firstSuccess.value, future.goal)
         case OrFirst(future, second, pathIndex) =>
           && filter == Or(future.filter, second) && pathIndex <= future.goal.state.index
           && goal == OrRest(second, request, pathIndex, future.goal)
         case OrSecond(future, firstForwarding, pathIndex) =>
           && filter.Or? && future.filter == filter.second && firstForwarding.Some?
           && goal == CombineAfter(firstForwarding.value, pathIndex, future.goal)
         case ThenFirst(future, second, prepend) =>
           && filter.Then? && future.filter == filter.first && second == filter.second && prepend.Some?
           && goal == ThenRest(second, |SuccessShape(filter.first)|, request, prepend.value, future.goal)
         case ThenSecond(future) =>
           && filter.Then? && future.filter == filter.second
           && goal == UnprependAfter(|SuccessShape(filter.first)|, future.goal)
         case HandleFilter(future, handler) =>
           && filter.Handle? && future.filter == filter.filter && handler == filter.func
           && goal == HandleRest(handler, future.goal)
         case HandleFunc(call, requestState) =>
           && filter.Handle? && requestState == Some(owned)
           && goal == RunResult(owned.View(), HandlerOutcome(call))
         case RecoverFilter(future, recover, pathIndex) =>
           && filter.Recover? && future.filter == filter.filter && recover == filter.recover
           && goal == RecoverRest(recover, filter.accepts, pathIndex, future.goal)
         case RecoverFunc(call, requestState, pathIndex) =>
           && filter.Recover? && requestState == Some(owned) && owned.currentPathIndex == pathIndex
           && goal == RunResult(owned.View(), HandlerOutcome(call))
         case RecoverForwardFilter(future, forward) =>
           && filter.RecoverForward? && future.filter == filter.filter && forward == filter.forward
           && goal == RecoverForwardRest(forward, filter.accepts, future.goal)
         case RecoverForwardFunc(call, requestState) =>
           && filter.RecoverForward? && requestState == Some(owned)
           && goal == RunResult(owned.View(), ForwardOutcome(call))
         case Receiving(future, receive) =>
           && filter.Receive? && future.filter == filter.filter && receive.Some?
           && goal == ReceiveRest(receive.value, future.goal)
         case Untupling(future) =>
           && filter.Untuple? && future.filter == filter.filter
           && goal == UntupleRest(future.goal)
         case Decorating(future, decoration) =>
           && filter.WithCors? && future.filter == filter.filter
           && goal == CorsRest(decoration, future.goal)
    }

    /** A future that has been ready: the request state was taken out, and no machine below holds one. */
    ghost predicate Spent()
      reads this, Repr - {owned}
      decreases Repr
    {
      && this in Repr
      && (stage.HasFuture() ==> stage.future in Repr && Child(stage.future) && stage.future.Spent())
      && stage.Holder().None?
    }

    /** The chain of machines, finished or not. */
    ghost predicate Chain()
      reads this, Repr
      decreases Repr
    {
      this in Repr && (stage.HasFuture() ==> stage.future in Repr && Child(stage.future) && stage.future.Chain())
    }

    /** All request states held by machines of the chain, counted. */
    ghost function Holdings(): multiset<RequestState>
      requires Chain()
      reads this, Repr
      decreases Repr
    {
      (match stage.Holder() case Some(held) => multiset{held} case None => multiset{})
      + (if stage.HasFuture() then stage.future.Holdings() else multiset{})
    }

    /** While unfinished, exactly one machine of the chain holds the request state. */
    lemma {:induction false} UnfinishedHoldsOne()
      requires Valid()
      ensures Chain() && Holdings() == multiset{owned}
      decreases Repr
    {
      if stage.HasFuture() {
        stage.future.UnfinishedHoldsOne();
        assert stage.Holder().None?;
      }
    }

    /** Once it has been handed back, no machine holds it any more. */
    lemma {:induction false} SpentHoldsNone()
      requires Spent()
      ensures Chain() && Holdings() == multiset{}
      decreases Repr
    {
      if stage.HasFuture() {
        stage.future.SpentHoldsNone();
        assert stage.Holder().None?;
      }
    }

    /** The request state this future was given is handed back, with the given result. */
    ghost predicate Delivers(result: RunResult, o: RequestOutcome)
      reads owned
    {
      o.requestState == owned && owned.Valid() && RunResult(owned.View(), o.outcome) == result
    }

    constructor (stage: Stage, filter: Filter, request: Request,
                 ghost goal: RunResult, ghost owned: RequestState, ghost below: set<object>)
      ensures this.stage == stage && this.filter == filter && this.request == request
      ensures this.goal == goal && this.owned == owned && Repr == {this} + below
    {
      this.stage := stage;
      this.filter := filter;
      this.request := request;
      this.goal := goal;
      this.owned := owned;
      this.Repr := {this} + below;
    }

    // ----- polling -----

    /**
      What every poll does. A pending future still promises the same result; a ready one has kept its
      promise. Exactly one leaf said that it was waiting if the answer is `Pending`, none otherwise.
     */
    twostate predicate Polled(cx: Context, new r: Poll<RequestOutcome>)
      reads this, Repr, cx
    {
      && this in Repr && owned in Repr && cx !in Repr && fresh(Repr - old(Repr))
      && (if r.Pending? then Valid() else Delivers(goal, r.value) && Spent())
      && Delays(cx.schedule) == old(Delays(cx.schedule)) - (if r.Pending? then 1 else 0)
    }

    /**
      `Future::poll`. A pending future still promises the same result; a ready one has kept its
      promise. Exactly one leaf said that it was waiting if the answer is `Pending`, none otherwise.
     */
    method Poll(cx: Context) returns (r: Poll<RequestOutcome>)
      requires Valid() && cx !in Repr
      modifies Repr, cx
      ensures Polled(cx, r)
      decreases filter, stage.Rank(), 3
    {
      match stage
      case LeafReady(_) => r := PollLeaf(cx);
      case BodyWait(_) => r := PollLeaf(cx);
      case HandleFilter(_, _) => r := PollHandle(cx);
      case HandleFunc(_, _) => r := PollHandle(cx);
      case RecoverFilter(_, _, _) => r := PollRecoverFilter(cx);
      case RecoverFunc(_, _, _) => r := PollRecoverFunc(cx);
      case RecoverForwardFilter(_, _) => r := PollRecoverForward(cx);
      case RecoverForwardFunc(_, _) => r := PollRecoverForward(cx);
      case Receiving(_, _) => r := PollReceive(cx);
      case Untupling(_) => r := PollWrapped(cx);
      case Decorating(_, _) => r := PollWrapped(cx);
      case _ => r := PollPair(cx);
    }

    /** The futures that run one filter after another. */
    method PollPair(cx: Context) returns (r: Poll<RequestOutcome>)
      requires Valid() && cx !in Repr
      requires
        || stage.AndFirst? || stage.AndSecond? || stage.OrFirst?
        || stage.OrSecond? || stage.ThenFirst? || stage.ThenSecond?
      modifies Repr, cx
      ensures Polled(cx, r)
      decreases filter, stage.Rank(), 2
    {
      if stage.AndFirst? {
        r := PollAndFirst(cx);
      } else if stage.AndSecond? {
        r := PollAndSecond(cx);
      } else if stage.OrFirst? {
        r := PollOrFirst(cx);
      } else if stage.OrSecond? {
        r := PollOrSecond(cx);
      } else if stage.ThenFirst? {
        r := PollThenFirst(cx);
      } else {
        r := PollThenSecond(cx);
      }
    }

    /** `ready!(future.poll(cx))` on the inner future, leaving this machine's own state alone. */
    method PollInner(cx: Context) returns (r: Poll<RequestOutcome>)
      requires Valid() && cx !in Repr
      requires stage.HasFuture()
      modifies Repr, cx
      ensures this in Repr && owned in Repr && cx !in Repr && fresh(Repr - old(Repr))
      ensures stage == old(stage)
      ensures if r.Pending? then Valid() else Delivers(stage.future.goal, r.value) && Spent()
      ensures Delays(cx.schedule) == old(Delays(cx.schedule)) - (if r.Pending? then 1 else 0)
      decreases filter, stage.Rank(), 0
    {
      r := stage.future.Poll(cx);
      Repr := {this} + stage.future.Repr;
    }

    /** `Ready::poll` and `TakeBodyFuture::poll`. */
    method PollLeaf(cx: Context) returns (r: Poll<RequestOutcome>)
      requires Valid() && cx !in Repr
      requires stage.LeafReady? || stage.BodyWait?
      modifies Repr, cx
      ensures Polled(cx, r)
      ensures old(stage.BodyWait? && owned.body.Unfinished?) ==>
        (r.Pending? <==> WaitsWithin(old(cx.schedule), Items(old(owned.body.stream))))
    {
      match stage
      case LeafReady(value) =>
        stage := LeafReady(None);
        r := Ready(value.value);
      case BodyWait(requestState) =>
        var polled := requestState.value.PollBody(cx);
        if polled.Pending? {
          return Pending;
        }
        var outcome :=
          match polled.value
          case Ok((chunks, _)) => Success([BufferValue(chunks)])
          case Err(cause) => Error(BodyError(cause));
        stage := BodyWait(None);
        r := Ready(RequestOutcome(requestState.value, outcome));
    }

    /** `AndFuture::poll` while the first filter runs. */
    method PollAndFirst(cx: Context) returns (r: Poll<RequestOutcome>)
      requires Valid() && cx !in Repr
      requires stage.AndFirst?
      modifies Repr, cx
      ensures Polled(cx, r)
      decreases filter, stage.Rank(), 1
    {
      var AndFirst(future, second, input) := stage;
      var polled := PollInner(cx);
      if polled.Pending? {
        return Pending;
      }
      var RequestOutcome(requestState, outcome) := polled.value;
      stage := AndFirst(future, second, None);
      match outcome
      case Success(success) =>
        r := BeginAndSecond(cx, second, requestState, input.value, success);
      case Error(_) =>
        r := Ready(polled.value);
      case Forward(_, forwarding) =>
        r := Ready(RequestOutcome(requestState, Forward(input.value, forwarding)));
    }

    /** Starts the second filter, overwrites the state and polls on. */
    method BeginAndSecond(cx: Context, second: Filter, requestState: RequestState, input: Tuple, success: Tuple)
      returns (r: Poll<RequestOutcome>)
      requires this in Repr && owned in Repr && cx !in Repr && requestState == owned
      requires stage.AndFirst? && filter.And? && second == filter.second
      requires owned.Valid() && InPath(request.path, owned.currentPathIndex) && InPath(request.path, goal.state.index)
      requires goal == AppendAfter(success, Eval(second, request, owned.View(), input))
      modifies Repr, cx
      ensures Polled(cx, r)
      decreases filter, stage.Rank(), 0
    {
      var next := Execute(second, request, requestState, input);
      stage := AndSecond(next, Some(success));
      Repr := {this} + next.Repr;
      r := Poll(cx);
    }

    /** `AndFuture::poll` while the second filter runs. */
    method PollAndSecond(cx: Context) returns (r: Poll<RequestOutcome>)
      requires Valid() && cx !in Repr
      requires stage.AndSecond?
      modifies Repr, cx
      ensures Polled(cx, r)
      decreases filter, stage.Rank(), 1
    {
      var AndSecond(future, firstSuccess) := stage;
      var polled := PollInner(cx);
      if polled.Pending? {
        return Pending;
      }
      var RequestOutcome(requestState, outcome) := polled.value;
      if outcome.Success? {
        stage := AndSecond(future, None);
        outcome := Success(Append(firstSuccess.value, outcome.success));
      }
      r := Ready(RequestOutcome(requestState, outcome));
    }

    /** `OrFuture::poll` while the first filter runs. */
    method PollOrFirst(cx: Context) returns (r: Poll<RequestOutcome>)
      requires Valid() && cx !in Repr
      requires stage.OrFirst?
      modifies Repr, cx
      ensures Polled(cx, r)
      decreases filter, stage.Rank(), 1
    {
      var OrFirst(future, second, pathIndex) := stage;
      var polled := PollInner(cx);
      if polled.Pending? {
        return Pending;
      }
      var RequestOutcome(requestState, outcome) := polled.value;
      match outcome
      case Success(_) => r := Ready(polled.value);
      case Error(_) => r := Ready(polled.value);
      case Forward(input, forwarding) =>
        requestState.currentPathIndex := pathIndex;
        r := BeginOrSecond(cx, second, requestState, input, forwarding, pathIndex);
    }

    /** Starts the second filter from the index of the first, overwrites the state and polls on. */
    method BeginOrSecond(cx: Context, second: Filter, requestState: RequestState, input: Tuple,
                         forwarding: Forwarding, pathIndex: nat)
      returns (r: Poll<RequestOutcome>)
      requires this in Repr && owned in Repr && cx !in Repr && requestState == owned
      requires stage.OrFirst? && filter.Or? && second == filter.second
      requires owned.Valid() && InPath(request.path, owned.currentPathIndex) && InPath(request.path, goal.state.index)
      requires goal == CombineAfter(forwarding, pathIndex, Eval(second, request, owned.View(), input))
      modifies Repr, cx
      ensures Polled(cx, r)
      decreases filter, stage.Rank(), 0
    {
      var next := Execute(second, request, requestState, input);
      stage := OrSecond(next, Some(forwarding), pathIndex);
      Repr := {this} + next.Repr;
      r := Poll(cx);
    }

    /** `OrFuture::poll` while the second filter runs. */
    method PollOrSecond(cx: Context) returns (r: Poll<RequestOutcome>)
      requires Valid() && cx !in Repr
      requires stage.OrSecond?
      modifies Repr, cx
      ensures Polled(cx, r)
      decreases filter, stage.Rank(), 1
    {
      var OrSecond(future, firstForwarding, pathIndex) := stage;
      var polled := PollInner(cx);
      if polled.Pending? {
        return Pending;
      }
      var RequestOutcome(requestState, outcome) := polled.value;
      if outcome.Forward? {
        requestState.currentPathIndex := pathIndex;
        stage := OrSecond(future, None, pathIndex);
        outcome := Forward(outcome.input, firstForwarding.value.Combine(outcome.forwarding));
      }
      r := Ready(RequestOutcome(requestState, outcome));
    }

    /** `ConsumeFuture::poll`, the future of `Then`, while the first filter runs. */
    method PollThenFirst(cx: Context) returns (r: Poll<RequestOutcome>)
      requires Valid() && cx !in Repr
      requires stage.ThenFirst?
      modifies Repr, cx
      ensures Polled(cx, r)
      decreases filter, stage.Rank(), 1
    {
      var ThenFirst(future, second, prepend) := stage;
      var polled := PollInner(cx);
      if polled.Pending? {
        return Pending;
      }
      var RequestOutcome(requestState, outcome) := polled.value;
      stage := ThenFirst(future, second, None);
      match outcome
      case Success(success) =>
        r := BeginThenSecond(cx, second, requestState, Append(prepend.value, success));
      case Error(_) =>
        r := Ready(polled.value);
      case Forward(_, forwarding) =>
        r := Ready(RequestOutcome(requestState, Forward(prepend.value, forwarding)));
    }

    /** Starts the second filter on the joined input, overwrites the state and polls on. */
    method BeginThenSecond(cx: Context, second: Filter, requestState: RequestState, input: Tuple)
      returns (r: Poll<RequestOutcome>)
      requires this in Repr && owned in Repr && cx !in Repr && requestState == owned
      requires stage.ThenFirst? && filter.Then? && second == filter.second
      requires owned.Valid() && InPath(request.path, owned.currentPathIndex) && InPath(request.path, goal.state.index)
      requires goal == UnprependAfter(|SuccessShape(filter.first)|, Eval(second, request, owned.View(), input))
      modifies Repr, cx
      ensures Polled(cx, r)
      decreases filter, stage.Rank(), 0
    {
      var next := Execute(second, request, requestState, input);
      stage := ThenSecond(next);
      Repr := {this} + next.Repr;
      r := Poll(cx);
    }

    /** `ConsumeFuture::poll` while the second filter runs. */
    method PollThenSecond(cx: Context) returns (r: Poll<RequestOutcome>)
      requires Valid() && cx !in Repr
      requires stage.ThenSecond?
      modifies Repr, cx
      ensures Polled(cx, r)
      decreases filter, stage.Rank(), 1
    {
      var future := stage.future;
      var polled := PollInner(cx);
      if polled.Pending? {
        return Pending;
      }
      var RequestOutcome(requestState, outcome) := polled.value;
      if outcome.Forward? {
        outcome := Forward(Beginning(outcome.input, |SuccessShape(filter.first)|), outcome.forwarding);
      }
      r := Ready(RequestOutcome(requestState, outcome));
    }

    /** `HandleFuture::poll`. */
    method PollHandle(cx: Context) returns (r: Poll<RequestOutcome>)
      requires Valid() && cx !in Repr
      requires stage.HandleFilter? || stage.HandleFunc?
      modifies Repr, cx
      ensures Polled(cx, r)
      ensures old(stage.HandleFunc?) ==> (r.Pending? <==> Waits(old(cx.schedule)))
      decreases filter, stage.Rank(), 1
    {
      match stage
      case HandleFilter(future, handler) =>
        var polled := PollInner(cx);
        if polled.Pending? {
          return Pending;
        }
        var RequestOutcome(requestState, outcome) := polled.value;
        if outcome.Success? {
          stage := HandleFunc(handler(outcome.success), Some(requestState));
          r := Poll(cx);
        } else {
          r := Ready(polled.value);
        }
      case HandleFunc(call, requestState) =>
        var waiting := cx.Ask();
        if waiting {
          return Pending;
        }
        stage := HandleFunc(call, None);
        r := Ready(RequestOutcome(requestState.value, HandlerOutcome(call)));
    }

    /** `RecoverFuture::poll` while the filter runs. */
    method PollRecoverFilter(cx: Context) returns (r: Poll<RequestOutcome>)
      requires Valid() && cx !in Repr
      requires stage.RecoverFilter?
      modifies Repr, cx
      ensures Polled(cx, r)
      decreases filter, stage.Rank(), 1
    {
      var RecoverFilter(future, recover, pathIndex) := stage;
      var polled := PollInner(cx);
      if polled.Pending? {
        return Pending;
      }
      var RequestOutcome(requestState, outcome) := polled.value;
      match outcome
      case Success(_) =>
        requestState.currentPathIndex := pathIndex;
        r := Ready(polled.value);
      case Error(error) =>
        match filter.accepts.Recover(error) {
          case Ok(error) =>
            requestState.currentPathIndex := pathIndex;
            stage := RecoverFunc(recover(error), Some(requestState), pathIndex);
            r := Poll(cx);
          case Err(error) =>
            r := Ready(RequestOutcome(requestState, Error(error)));
        }
      case Forward(_, _) =>
        r := Ready(polled.value);
    }

    /** `RecoverFuture::poll` while the user's function runs. */
    method PollRecoverFunc(cx: Context) returns (r: Poll<RequestOutcome>)
      requires Valid() && cx !in Repr
      requires stage.RecoverFunc?
      modifies Repr, cx
      ensures Polled(cx, r)
      ensures r.Pending? <==> Waits(old(cx.schedule))
      decreases filter, stage.Rank(), 1
    {
      var RecoverFunc(call, requestState, pathIndex) := stage;
      var waiting := cx.Ask();
      if waiting {
        return Pending;
      }
      stage := RecoverFunc(call, None, pathIndex);
      if call.Ok? {
        requestState.value.currentPathIndex := pathIndex;
      }
      r := Ready(RequestOutcome(requestState.value, HandlerOutcome(call)));
    }

    /** `RecoverForwardFuture::poll`. */
    method PollRecoverForward(cx: Context) returns (r: Poll<RequestOutcome>)
      requires Valid() && cx !in Repr
      requires stage.RecoverForwardFilter? || stage.RecoverForwardFunc?
      modifies Repr, cx
      ensures Polled(cx, r)
      ensures old(stage.RecoverForwardFunc?) ==> (r.Pending? <==> Waits(old(cx.schedule)))
      decreases filter, stage.Rank(), 1
    {
      match stage
      case RecoverForwardFilter(future, forward) =>
        var polled := PollInner(cx);
        if polled.Pending? {
          return Pending;
        }
        var RequestOutcome(requestState, outcome) := polled.value;
        if outcome.Error? {
          match filter.accepts.Recover(outcome.error) {
            case Ok(error) =>
              stage := RecoverForwardFunc(forward(error), Some(requestState));
              r := Poll(cx);
            case Err(error) =>
              r := Ready(RequestOutcome(requestState, Error(error)));
          }
        } else {
          r := Ready(polled.value);
        }
      case RecoverForwardFunc(call, requestState) =>
        var waiting := cx.Ask();
        if waiting {
          return Pending;
        }
        stage := RecoverForwardFunc(call, None);
        r := Ready(RequestOutcome(requestState.value, ForwardOutcome(call)));
    }

    /** `ReceiveFuture::poll`. */
    method PollReceive(cx: Context) returns (r: Poll<RequestOutcome>)
      requires Valid() && cx !in Repr
      requires stage.Receiving?
      modifies Repr, cx
      ensures Polled(cx, r)
      decreases filter, stage.Rank(), 1
    {
      var Receiving(future, receive) := stage;
      var polled := PollInner(cx);
      if polled.Pending? {
        return Pending;
      }
      var RequestOutcome(requestState, outcome) := polled.value;
      stage := stage.(receive := None);
      var received :=
        match outcome
        case Success(success) => Success(Append(receive.value, success))
        case Error(error) => Error(error)
        case Forward(input, forwarding) => Forward(Append(receive.value, input), forwarding);
      r := Ready(RequestOutcome(requestState, received));
    }

    /** `UntupleFuture::poll`, and the futures that decorate the response of a filter behind CORS. */
    method PollWrapped(cx: Context) returns (r: Poll<RequestOutcome>)
      requires Valid() && cx !in Repr
      requires stage.Untupling? || stage.Decorating?
      modifies Repr, cx
      ensures Polled(cx, r)
      decreases filter, stage.Rank(), 1
    {
      var polled := PollInner(cx);
      if polled.Pending? {
        return Pending;
      }
      var RequestOutcome(requestState, outcome) := polled.value;
      if outcome.Success? {
        outcome := Success(
          if stage.Untupling? then IntoInner(outcome.success)
          else DecorateValues(stage.decoration, outcome.success));
      }
      r := Ready(RequestOutcome(requestState, outcome));
    }
  }

  // ----- starting -----

  /** Leaves that do not wait do all their work when they are started. */
  method ExecuteLeaf(filter: Filter, request: Request, requestState: RequestState) returns (outcome: Outcome)
    requires filter.IsLeaf() && !filter.TakeBody?
    requires requestState.Valid() && InPath(request.path, requestState.currentPathIndex)
    modifies requestState`currentPathIndex
    ensures requestState.Valid()
    ensures RunResult(requestState.View(), outcome) == old(EvalLeaf(filter, request, requestState.View()))
  {
    match filter
    case Any => outcome := Success([]);
    case Never(_) => outcome := NotMatched();
    case MethodIs(m) =>
      outcome := if request.verb == m.Name() then Success([]) else Forward([], MethodNotAllowed(m.Bit()));
    case Literal(value) => outcome := RunDecodedSegment(request, requestState, LiteralTest(value));
    case ParamStr => outcome := RunDecodedSegment(request, requestState, ParamTest());
    case End =>
      if request.path == [] || request.path == [SLASH] {
        outcome := Success([]);
      } else {
        var current := requestState.CurrentPath(request);
        if current == [] {
          outcome := Success([]);
        } else if current == [SLASH] {
          outcome := Error(Redirect(requestState.PreviousPath(request)));
        } else {
          outcome := NotMatched();
        }
      }
    case Tail =>
      var tail := requestState.CurrentPath(request);
      requestState.EndCurrentPathIndex(request);
      outcome := Success([TextValue(tail)]);
    case TailPath =>
      var sanitized := Sanitize.SanitizePath(requestState.CurrentPath(request));
      match sanitized {
        case Some(components) =>
          requestState.EndCurrentPathIndex(request);
          outcome := Success([PathValue(components)]);
        case None => outcome := NotMatched();
      }
  }

  method RunDecodedSegment(request: Request, requestState: RequestState, func: Text -> Option<Tuple>)
    returns (outcome: Outcome)
    requires requestState.Valid() && InPath(request.path, requestState.currentPathIndex)
    modifies requestState`currentPathIndex
    ensures requestState.Valid()
    ensures RunResult(requestState.View(), outcome) == old(DecodedSegment(request, requestState.View(), func))
  {
    match Segment(request.path, requestState.currentPathIndex)
    case None => outcome := NotMatched();
    case Some((seg, len)) =>
      match func(Decoding.DecodedText(seg)) {
        case None => outcome := NotMatched();
        case Some(success) =>
          requestState.IncrCurrentPathIndex(len);
          outcome := Success(success);
      }
  }

  /** A new future of the filter, holding the given request state. */
  ghost predicate Started(fut: FilterFuture, filter: Filter, request: Request, requestState: RequestState)
    reads fut, fut.Repr
  {
    fut.Valid() && fut.filter == filter && fut.request == request && fut.owned == requestState
  }

  /** `FilterExecute::execute`: builds the chain of futures and fixes what it will be ready with. */
  method Execute(filter: Filter, request: Request, requestState: RequestState, input: Tuple)
    returns (fut: FilterFuture)
    requires requestState.Valid() && InPath(request.path, requestState.currentPathIndex)
    modifies requestState
    ensures fresh(fut.Repr - {requestState})
    ensures Started(fut, filter, request, requestState)
    ensures fut.goal == old(Eval(filter, request, requestState.View(), input))
    decreases filter, 1
  {
    if filter.IsLeaf() {
      fut := ExecuteReady(filter, request, requestState, input);
    } else if filter.And? || filter.Or? || filter.Then? {
      fut := ExecutePair(filter, request, requestState, input);
    } else if filter.Receive? {
      fut := ExecuteReceive(filter, request, requestState, input);
    } else if filter.Untuple? {
      fut := ExecuteUntuple(filter, request, requestState, input);
    } else if filter.WithCors? {
      fut := ExecuteCors(filter, request, requestState, input);
    } else {
      fut := ExecuteFunc(filter, request, requestState, input);
    }
  }

  /** A leaf: the body is read later, everything else is ready at once. */
  method ExecuteReady(filter: Filter, request: Request, requestState: RequestState, input: Tuple)
    returns (fut: FilterFuture)
    requires filter.IsLeaf()
    requires requestState.Valid() && InPath(request.path, requestState.currentPathIndex)
    modifies requestState
    ensures fresh(fut.Repr - {requestState})
    ensures Started(fut, filter, request, requestState)
    ensures fut.goal == old(Eval(filter, request, requestState.View(), input))
  {
    ghost var goal := EvalLeaf(filter, request, requestState.View());
    var stage := BodyWait(Some(requestState));
    if !filter.TakeBody? {
      var outcome := ExecuteLeaf(filter, request, requestState);
      stage := LeafReady(Some(RequestOutcome(requestState, outcome)));
    }
    fut := new FilterFuture(stage, filter, request, goal, requestState, {requestState});
  }

  method ExecuteUntuple(filter: Filter, request: Request, requestState: RequestState, input: Tuple)
    returns (fut: FilterFuture)
    requires filter.Untuple?
    requires requestState.Valid() && InPath(request.path, requestState.currentPathIndex)
    modifies requestState
    ensures fresh(fut.Repr - {requestState})
    ensures Started(fut, filter, request, requestState)
    ensures fut.goal == old(Eval(filter, request, requestState.View(), input))
    decreases filter, 0
  {
    ghost var goal := Eval(filter, request, requestState.View(), input);
    var inner := Execute(filter.filter, request, requestState, input);
    fut := new FilterFuture(Untupling(inner), filter, request, goal, requestState, inner.Repr);
  }

  /** `And::execute`, `Or::execute` and `Then::execute`. */
  method ExecutePair(filter: Filter, request: Request, requestState: RequestState, input: Tuple)
    returns (fut: FilterFuture)
    requires filter.And? || filter.Or? || filter.Then?
    requires requestState.Valid() && InPath(request.path, requestState.currentPathIndex)
    modifies requestState
    ensures fresh(fut.Repr - {requestState})
    ensures Started(fut, filter, request, requestState)
    ensures fut.goal == old(Eval(filter, request, requestState.View(), input))
    decreases filter, 0
  {
    ghost var goal := Eval(filter, request, requestState.View(), input);
    var pathIndex := requestState.currentPathIndex;
    var inner := Execute(filter.first, request, requestState, if filter.Or? then input else []);
    var stage :=
      if filter.And? then AndFirst(inner, filter.second, Some(input))
      else if filter.Or? then OrFirst(inner, filter.second, pathIndex)
      else ThenFirst(inner, filter.second, Some(input));
    fut := new FilterFuture(stage, filter, request, goal, requestState, inner.Repr);
  }

  /** `Handle::execute`, `Recover::execute` and `RecoverForward::execute`. */
  method ExecuteFunc(filter: Filter, request: Request, requestState: RequestState, input: Tuple)
    returns (fut: FilterFuture)
    requires filter.Handle? || filter.Recover? || filter.RecoverForward?
    requires requestState.Valid() && InPath(request.path, requestState.currentPathIndex)
    modifies requestState
    ensures fresh(fut.Repr - {requestState})
    ensures Started(fut, filter, request, requestState)
    ensures fut.goal == old(Eval(filter, request, requestState.View(), input))
    decreases filter, 0
  {
    ghost var goal := Eval(filter, request, requestState.View(), input);
    var pathIndex := requestState.currentPathIndex;
    var inner := Execute(filter.filter, request, requestState, if filter.RecoverForward? then [] else input);
    var stage :=
      if filter.Handle? then HandleFilter(inner, filter.func)
      else if filter.Recover? then RecoverFilter(inner, filter.recover, pathIndex)
      else RecoverForwardFilter(inner, filter.forward);
    fut := new FilterFuture(stage, filter, request, goal, requestState, inner.Repr);
  }

  /** `Receive::execute`: splits off the carried part of the input. */
  method ExecuteReceive(filter: Filter, request: Request, requestState: RequestState, input: Tuple)
    returns (fut: FilterFuture)
    requires filter.Receive?
    requires requestState.Valid() && InPath(request.path, requestState.currentPathIndex)
    modifies requestState
    ensures fresh(fut.Repr - {requestState})
    ensures Started(fut, filter, request, requestState)
    ensures fut.goal == old(Eval(filter, request, requestState.View(), input))
    decreases filter, 0
  {
    ghost var goal := Eval(filter, request, requestState.View(), input);
    var n := |InputShape(filter.filter)|;
    var receive, rest := Beginning(input, n), Ending(input, n);
    var inner := Execute(filter.filter, request, requestState, rest);
    fut := new FilterFuture(Receiving(inner, Some(receive)), filter, request, goal, requestState, inner.Repr);
  }

  /** `Cors::execute`: answers in place of the filter, or runs it and decorates its response. */
  method ExecuteCors(filter: Filter, request: Request, requestState: RequestState, input: Tuple)
    returns (fut: FilterFuture)
    requires filter.WithCors?
    requires requestState.Valid() && InPath(request.path, requestState.currentPathIndex)
    modifies requestState
    ensures fresh(fut.Repr - {requestState})
    ensures Started(fut, filter, request, requestState)
    ensures fut.goal == old(Eval(filter, request, requestState.View(), input))
    decreases filter, 0
  {
    ghost var goal := Eval(filter, request, requestState.View(), input);
    var gate := Cors.DecideGate(filter.config, request);
    match gate
    case Respond(response) =>
      var stage := LeafReady(Some(RequestOutcome(requestState, Success([ReplyValue(response)]))));
      fut := new FilterFuture(stage, filter, request, goal, requestState, {requestState});
    case Run(decoration) =>
      var inner := Execute(filter.filter, request, requestState, input);
      fut := new FilterFuture(Decorating(inner, decoration), filter, request, goal, requestState, inner.Repr);
  }

  // ----- running to the end -----

  /**
    Drives a filter until it is ready. Whatever the schedule, the result is `Eval`, the request state
    that comes back is the one that went in, and each poll but the last is answered by exactly one
    waiting leaf.
   */
  method Run(filter: Filter, request: Request, requestState: RequestState, input: Tuple, cx: Context)
    returns (outcome: Outcome, polls: nat)
    requires requestState.Valid() && InPath(request.path, requestState.currentPathIndex)
    modifies requestState, cx
    ensures requestState.Valid()
    ensures RunResult(requestState.View(), outcome) == old(Eval(filter, request, requestState.View(), input))
    ensures polls == 1 + old(Delays(cx.schedule)) - Delays(cx.schedule)
  {
    var fut := Execute(filter, request, requestState, input);
    ghost var goal := fut.goal;
    polls := 0;
    while true
      invariant fut.Valid() && fut.owned == requestState && fut.goal == goal
      invariant fresh(fut.Repr - {requestState}) && cx !in fut.Repr
      invariant polls == old(Delays(cx.schedule)) - Delays(cx.schedule)
      decreases Delays(cx.schedule)
    {
      var polled := fut.Poll(cx);
      polls := polls + 1;
      if polled.Ready? {
        return polled.value.outcome, polls;
      }
    }
  }
}
