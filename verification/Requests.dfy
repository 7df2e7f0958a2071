/** The state of a request that filters hand on (`RequestState` in src/request.rs). */
module Requests {
  import opened Wrappers
  import opened Http
  import opened Paths
  import opened Bodies

  /** How many leaf polls of a schedule will answer `Pending`. */
  function Delays(schedule: seq<bool>): nat {
    if schedule == [] then 0 else (if schedule[0] then 1 else 0) + Delays(schedule[1..])
  }

  /** Whether the leaf that is asked next is still waiting. */
  predicate Waits(schedule: seq<bool>) { schedule != [] && schedule[0] }

  function Later(schedule: seq<bool>): seq<bool> { if schedule == [] then [] else schedule[1..] }

  /** Whether one of the next `n` asked is still waiting. */
  predicate WaitsWithin(schedule: seq<bool>, n: nat)
    decreases n
  {
    n > 0 && (Waits(schedule) || WaitsWithin(Later(schedule), n - 1))
  }

  /**
    The task context handed to every `poll`. Each time a leaf (a handler's future or the body stream)
    is asked, the next entry of the schedule says whether it is still waiting. Any finite pattern of
    `Pending` answers is some schedule; when the schedule is used up nothing waits any more.
   */
  class Context {
    var schedule: seq<bool>

    constructor (schedule: seq<bool>)
      ensures this.schedule == schedule
    {
      this.schedule := schedule;
    }

    method Ask() returns (waiting: bool)
      modifies this
      ensures waiting == Waits(old(schedule))
      ensures schedule == Later(old(schedule))
      ensures Delays(schedule) == old(Delays(schedule)) - (if waiting then 1 else 0)
    {
      waiting := schedule != [] && schedule[0];
      if schedule != [] {
        schedule := schedule[1..];
      }
    }
  }

  /** What filters can observe of a request state. */
  datatype StateView = StateView(index: nat, body: BodyView)

  /** Storing the next chunk, unless it is empty, does not change what can be observed. */
  lemma ChunkArrives(stream: seq<StreamItem>, bytes: seq<Chunk>, chunk: Chunk)
    requires stream != [] && stream[0] == Data(chunk)
    ensures var stored := if chunk == [] then bytes else bytes + [chunk];
      && bytes + Drain(stream).0 == stored + Drain(stream[1..]).0
      && Drain(stream).1 == Drain(stream[1..]).1
      && TotalLen(stored) == TotalLen(bytes) + |chunk|
  {
    TotalLenSnoc(bytes, chunk);
    if chunk != [] {
      assert bytes + ([chunk] + Drain(stream[1..]).0) == (bytes + [chunk]) + Drain(stream[1..]).0;
    }
  }

  class RequestState {
    var body: BodyState
    var currentPathIndex: nat

    ghost predicate Valid()
      reads this
    {
      body.Valid()
    }

    ghost function View(): StateView
      reads this
    {
      StateView(currentPathIndex, body.View())
    }

    constructor (stream: seq<StreamItem>)
      ensures Valid()
      ensures View() == StateView(0, Unread(Drain(stream).0, Drain(stream).1))
    {
      body := Unfinished(stream, [], 0);
      currentPathIndex := 0;
      new;
      assert [] + Drain(stream).0 == Drain(stream).0;
    }

    /** Reads on until the stream waits, fails or ends. */
    method PollBody(cx: Context) returns (r: Poll<Result<(seq<Chunk>, nat), Option<int>>>)
      requires Valid()
      modifies this`body, cx
      ensures Valid()
      ensures old(body.Finished?) ==> body == old(body) && r == Ready(Ok((body.bytes, body.len)))
      ensures !old(body.Unfinished?) ==> cx.schedule == old(cx.schedule)
      ensures old(body.Unfinished?) ==> (r.Pending? <==> WaitsWithin(old(cx.schedule), Items(old(body.stream))))
      ensures r.Pending? ==> body.View() == old(body.View())
      ensures r.Ready? ==> body.View() == AfterRead(old(body.View())) && !body.Unfinished?
      ensures r.Ready? && r.value.Ok? ==>
        var (chunks, len) := r.value.value;
        ReadOf(old(body.View())) == Content(chunks) && len == TotalLen(chunks) && NoEmptyChunk(chunks)
      ensures r.Ready? && r.value.Err? ==> ReadOf(old(body.View())) == ReadError(r.value.error)
      ensures Delays(cx.schedule) == old(Delays(cx.schedule)) - (if r.Pending? then 1 else 0)
      decreases if body.Unfinished? then 1 else 0
    {
      match body
      case Unfinished(_, _, _) =>
        while true
          invariant body.Unfinished? && body.Valid()
          invariant body.View() == old(body.View())
          invariant Delays(cx.schedule) == old(Delays(cx.schedule))
          invariant WaitsWithin(cx.schedule, Items(body.stream)) <==> WaitsWithin(old(cx.schedule), Items(old(body.stream)))
          decreases |body.stream|
        {
          var Unfinished(stream, bytes, len) := body;
          var waiting := cx.Ask();
          if waiting {
            return Pending;
          } else if stream == [] {
            assert bytes + [] == bytes;
            body := Finished(bytes, len);
            r := PollBody(cx);
            return;
          } else {
            match stream[0]
            case Data(chunk) =>
              ChunkArrives(stream, bytes, chunk);
              if chunk != [] {
                len := len + |chunk|;
                bytes := bytes + [chunk];
              }
              body := Unfinished(stream[1..], bytes, len);
            case Failure(cause) =>
              body := Errored;
              return Ready(Err(Some(cause)));
          }
        }
      case Finished(bytes, len) =>
        r := Ready(Ok((bytes, len)));
      case Errored =>
        r := Ready(Err(None));
    }

    function CurrentPath(request: Request): Text
      reads this
      requires InPath(request.path, currentPathIndex)
    {
      request.path[currentPathIndex..]
    }

    function PreviousPath(request: Request): Text
      reads this
      requires InPath(request.path, currentPathIndex)
    {
      request.path[..currentPathIndex]
    }

    method IncrCurrentPathIndex(amount: nat)
      modifies this`currentPathIndex
      ensures currentPathIndex == old(currentPathIndex) + amount
    {
      currentPathIndex := currentPathIndex + amount;
    }

    /** Moves the cursor to the end of the path. */
    method EndCurrentPathIndex(request: Request)
      modifies this`currentPathIndex
      ensures currentPathIndex == |request.path|
    {
      currentPathIndex := |request.path|;
    }
  }
}
