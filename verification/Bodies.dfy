/** The request body: reading it from its stream (`BodyState`, `poll_body` in src/request.rs). */
module Bodies {
  import opened Wrappers
  import opened Http

  /** One `Bytes` chunk. */
  type Chunk = seq<byte>

  /** What the body stream will hand out; after the last item it reports its end. */
  datatype StreamItem = Data(chunk: Chunk) | Failure(cause: int)

  datatype BodyState =
    | Unfinished(stream: seq<StreamItem>, bytes: seq<Chunk>, len: nat)
    | Finished(bytes: seq<Chunk>, len: nat)
    | Errored
  {
    predicate Valid() {
      Errored? || (len == TotalLen(bytes) && NoEmptyChunk(bytes))
    }

    function View(): BodyView {
      match this
      case Unfinished(stream, bytes, _) => var (rest, cause) := Drain(stream); Unread(bytes + rest, cause)
      case Finished(bytes, _) => Read(bytes)
      case Errored => Failed
    }
  }

  predicate NoEmptyChunk(chunks: seq<Chunk>) { forall k :: 0 <= k < |chunks| ==> chunks[k] != [] }

  function TotalLen(chunks: seq<Chunk>): nat {
    if chunks == [] then 0 else |chunks[0]| + TotalLen(chunks[1..])
  }

  function Flatten(chunks: seq<Chunk>): seq<byte> {
    if chunks == [] then [] else chunks[0] + Flatten(chunks[1..])
  }

  lemma {:induction false} TotalLenSnoc(chunks: seq<Chunk>, last: Chunk)
    ensures TotalLen(chunks + [last]) == TotalLen(chunks) + |last|
  {
    if chunks == [] {
      assert [last][1..] == [];
    } else {
      TotalLenSnoc(chunks[1..], last);
      assert (chunks + [last])[1..] == chunks[1..] + [last];
    }
  }

  lemma {:induction false} FlattenLen(chunks: seq<Chunk>)
    ensures |Flatten(chunks)| == TotalLen(chunks)
  {
    if chunks != [] { FlattenLen(chunks[1..]); }
  }

  /** All the non-empty chunks of a stream up to its end or its first failure, and that failure. */
  function Drain(stream: seq<StreamItem>): (r: (seq<Chunk>, Option<int>))
    ensures NoEmptyChunk(r.0)
  {
    if stream == [] then ([], None)
    else match stream[0]
      case Failure(cause) => ([], Some(cause))
      case Data(chunk) =>
        var (rest, cause) := Drain(stream[1..]);
        (if chunk == [] then rest else [chunk] + rest, cause)
  }

  /** How often a stream is asked until it has ended or failed. */
  function Items(stream: seq<StreamItem>): nat {
    if stream == [] || stream[0].Failure? then 1 else 1 + Items(stream[1..])
  }

  /** The bytes in the data items of a stream, in order. */
  function DataOf(stream: seq<StreamItem>): seq<byte> {
    if stream == [] then []
    else (match stream[0] case Data(chunk) => chunk case Failure(_) => []) + DataOf(stream[1..])
  }

  /** `n` items of the stream are data, and then it ends or fails. */
  predicate FailsAfter(stream: seq<StreamItem>, n: nat) {
    && n <= |stream| && (forall k :: 0 <= k < n ==> stream[k].Data?)
    && (n < |stream| ==> stream[n].Failure?)
  }

  /** What is read is all the data before the first failure, and that failure's cause. */
  lemma {:induction false} DrainMeans(stream: seq<StreamItem>, n: nat)
    requires FailsAfter(stream, n)
    ensures Items(stream) == n + 1
    ensures Flatten(Drain(stream).0) == DataOf(stream[..n])
    ensures Drain(stream).1 == if n < |stream| then Some(stream[n].cause) else None
    decreases n
  {
    if n > 0 {
      DrainMeans(stream[1..], n - 1);
      assert stream[..n] == [stream[0]] + stream[1..][..n - 1];
      var chunk, rest := stream[0].chunk, Drain(stream[1..]).0;
      assert ([chunk] + rest)[1..] == rest;
    }
  }

  /**
    The body as a filter can observe it. How much of an unread body has already arrived does not
    show: `Unread` names all that will be read, and the failure that ends it, if any.
   */
  datatype BodyView =
    | Unread(chunks: seq<Chunk>, cause: Option<int>)
    | Read(chunks: seq<Chunk>)
    | Failed

  datatype ReadResult = Content(chunks: seq<Chunk>) | ReadError(cause: Option<int>)

  /** The body after it has been read once to the end. */
  function AfterRead(v: BodyView): BodyView {
    match v
    case Unread(chunks, None) => Read(chunks)
    case Unread(_, Some(_)) => Failed
    case Read(_) => v
    case Failed => Failed
  }

  function ReadOf(v: BodyView): ReadResult {
    match v
    case Unread(chunks, None) => Content(chunks)
    case Unread(_, Some(cause)) => ReadError(Some(cause))
    case Read(chunks) => Content(chunks)
    case Failed => ReadError(None)
  }

  /** Reading twice gives twice the same: all bodies but those whose failure is still to come. */
  predicate Replayable(v: BodyView) { v.Unread? ==> v.cause.None? }

  /** The results of `n` successive complete reads. */
  function Reads(v: BodyView, n: nat): seq<ReadResult>
    decreases n
  {
    if n == 0 then [] else [ReadOf(v)] + Reads(AfterRead(v), n - 1)
  }

  /**
    Over any number of reads: an intact body gives the same chunks every time; a failing one gives
    its cause once, then only errors without a cause, and never content again.
   */
  lemma {:induction false} ReadsHistory(v: BodyView, n: nat, k: nat)
    requires k < n
    ensures |Reads(v, n)| == n
    ensures v.Unread? && v.cause.Some? ==> Reads(v, n)[k] == ReadError(if k == 0 then v.cause else None)
    ensures Replayable(v) ==> Reads(v, n)[k] == ReadOf(v)
    ensures Replayable(v) <==> ReadOf(AfterRead(v)) == ReadOf(v)
    decreases n
  {
    if k == 0 {
      if n > 1 { ReadsHistory(AfterRead(v), n - 1, 0); }
    } else {
      ReadsHistory(AfterRead(v), n - 1, k - 1);
    }
  }
}
