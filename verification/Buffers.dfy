/** The buffer handed out for a read body (`BytesBuf` in src/body.rs). */
module Buffers {
  import opened Wrappers
  import opened Strings
  import opened Http
  import opened Bodies
  import opened Requests

  // ----- the flat byte string a buffer stands for -----

  /** What a consumer does with a buffer: `advance(n)`, or `read` into a slice of `n` bytes. */
  datatype Use = Skip(n: nat) | Take(n: nat) {
    /** How many bytes it consumes when `left` are left. */
    function Takes(left: nat): nat { if left < n then left else n }

    /** `advance` panics past the end; `read` stops there. */
    predicate Allowed(left: nat) { Skip? ==> n <= left }
  }

  predicate NoPanic(uses: seq<Use>, left: nat) {
    uses == [] || (uses[0].Allowed(left) && NoPanic(uses[1..], left - uses[0].Takes(left)))
  }

  /** How many bytes the uses consume together. */
  function Consumed(uses: seq<Use>, left: nat): (total: nat)
    ensures total <= left
  {
    if uses == [] then 0
    else uses[0].Takes(left) + Consumed(uses[1..], left - uses[0].Takes(left))
  }

  /** The consecutive pieces of a flat byte string that the uses consume. */
  function Pieces(content: seq<byte>, uses: seq<Use>): seq<seq<byte>> {
    if uses == [] then []
    else
      var n := uses[0].Takes(|content|);
      [content[..n]] + Pieces(content[n..], uses[1..])
  }

  /** What the reads among them return. */
  function ReadBack(content: seq<byte>, uses: seq<Use>): seq<seq<byte>> {
    if uses == [] then []
    else
      var n := uses[0].Takes(|content|);
      (if uses[0].Take? then [content[..n]] else []) + ReadBack(content[n..], uses[1..])
  }

  lemma TakeTwice(s: seq<byte>, n: nat, m: nat)
    requires n + m <= |s|
    ensures s[..n + m] == s[..n] + s[n..][..m]
  {}

  /** Nothing is lost, repeated or reordered: the pieces and what is left make up the content. */
  lemma {:induction false} UsesConserve(content: seq<byte>, uses: seq<Use>)
    ensures Flatten(Pieces(content, uses)) == content[..Consumed(uses, |content|)]
    ensures Flatten(Pieces(content, uses)) + content[Consumed(uses, |content|)..] == content
  {
    if uses != [] {
      var n := uses[0].Takes(|content|);
      UsesConserve(content[n..], uses[1..]);
      var rest := Pieces(content[n..], uses[1..]);
      assert ([content[..n]] + rest)[1..] == rest;
      TakeTwice(content, n, Consumed(uses[1..], |content| - n));
    }
  }

  predicate OnlyReads(uses: seq<Use>) { forall k :: 0 <= k < |uses| ==> uses[k].Take? }

  function Sum(uses: seq<Use>): nat { if uses == [] then 0 else uses[0].n + Sum(uses[1..]) }

  function UpTo(content: seq<byte>, n: nat): seq<byte> { content[..if |content| < n then |content| else n] }

  /** Reads never panic, return every piece, and reach as far as their slices together. */
  lemma {:induction false} ReadsReach(content: seq<byte>, uses: seq<Use>)
    requires OnlyReads(uses)
    ensures NoPanic(uses, |content|) && ReadBack(content, uses) == Pieces(content, uses)
    ensures Consumed(uses, |content|) == if |content| < Sum(uses) then |content| else Sum(uses)
  {
    if uses != [] { ReadsReach(content[uses[0].Takes(|content|)..], uses[1..]); }
  }

  /** The bytes of `s` from `off` on replaced by `src`. */
  function Overwrite(s: seq<byte>, off: nat, src: seq<byte>): seq<byte>
    requires off + |src| <= |s|
  {
    s[..off] + src + s[off + |src|..]
  }

  method CopyInto(buf: array<byte>, off: nat, src: seq<byte>)
    requires off + |src| <= buf.Length
    modifies buf
    ensures buf[..] == Overwrite(old(buf[..]), off, src)
  {
    forall k | 0 <= k < |src| {
      buf[off + k] := src[k];
    }
  }

  /** Copying the next piece of `content` over `was` extends the copied prefix. */
  lemma CopyStep(content: seq<byte>, was: seq<byte>, off: nat, cnt: nat)
    requires off + cnt <= |content| && off + cnt <= |was|
    ensures Overwrite(content[..off] + was[off..], off, content[off..][..cnt])
         == content[..off + cnt] + was[off + cnt..]
    ensures content[off..][cnt..] == content[off + cnt..]
  {
    assert content[..off + cnt] == content[..off] + content[off..][..cnt];
    assert (content[..off] + was[off..])[off + cnt..] == was[off + cnt..];
  }

  class BytesBuf {
    var bytes: seq<Chunk>
    var len: nat

    ghost predicate Valid()
      reads this
    {
      len == TotalLen(bytes)
    }

    /** The flat byte string that the queue of chunks stands for. */
    ghost function Content(): seq<byte>
      reads this
    {
      Flatten(bytes)
    }

    constructor (bytes: seq<Chunk>, len: nat)
      requires len == TotalLen(bytes)
      ensures Valid() && Content() == Flatten(bytes)
    {
      this.bytes := bytes;
      this.len := len;
    }

    method Remaining() returns (n: nat)
      requires Valid()
      ensures n == |Content()|
    {
      FlattenLen(bytes);
      n := len;
    }

    /** The front chunk, possibly empty even when something remains. */
    method FrontChunk() returns (chunk: seq<byte>)
      requires Valid()
      ensures |chunk| <= |Content()| && chunk == Content()[..|chunk|]
      ensures bytes != [] ==> chunk == bytes[0]
    {
      chunk := if bytes == [] then [] else bytes[0];
    }

    /** Drops `cnt` bytes, and with them every chunk that is used up or empty. */
    method Advance(cnt: nat)
      requires Valid()
      requires cnt <= |Content()|
      modifies this
      ensures Valid()
      ensures Content() == old(Content())[cnt..]
      ensures bytes == [] || bytes[0] != []
    {
      FlattenLen(bytes);
      var cnt': nat := cnt;
      len := len - cnt;
      while bytes != []
        invariant cnt' <= |Content()| && cnt' <= cnt
        invariant Content()[cnt'..] == old(Content())[cnt..]
        invariant len + cnt' == TotalLen(bytes)
        decreases |bytes|
      {
        FlattenLen(bytes);
        var front := bytes[0];
        if cnt' < |front| {
          var shorter := [front[cnt'..]] + bytes[1..];
          assert shorter[1..] == bytes[1..];
          assert Flatten(shorter) == Flatten(bytes)[cnt'..];
          bytes := shorter;
          return;
        }
        assert Flatten(bytes)[cnt'..] == Flatten(bytes[1..])[cnt' - |front|..];
        cnt' := cnt' - |front|;
        bytes := bytes[1..];
        FlattenLen(bytes);
      }
      FlattenLen(bytes);
    }

    /** Fills `buf` as far as the content goes, chunk by chunk, and leaves the rest of `buf` alone. */
    method Read(buf: array<byte>) returns (n: nat)
      requires Valid()
      modifies this, buf
      ensures Valid()
      ensures n == if old(|Content()|) < buf.Length then old(|Content()|) else buf.Length
      ensures buf[..] == old(Content())[..n] + old(buf[..])[n..]
      ensures Content() == old(Content())[n..]
    {
      ghost var content, was := Content(), buf[..];
      var remaining := Remaining();
      n := if remaining < buf.Length then remaining else buf.Length;
      var off := 0;
      assert content[..0] + was[0..] == was;
      while off < n
        invariant off <= n <= buf.Length && n <= |content|
        invariant Valid() && Content() == content[off..]
        invariant buf[..] == content[..off] + was[off..]
        decreases n - off, if bytes != [] && bytes[0] == [] then 1 else 0
      {
        off := CopyFront(buf, off, n, content, was);
      }
    }

    /** One turn of the copy loop: as much of the front chunk as is wanted, possibly nothing. */
    method CopyFront(buf: array<byte>, off: nat, n: nat, ghost content: seq<byte>, ghost was: seq<byte>)
      returns (next: nat)
      requires off < n <= buf.Length == |was| && n <= |content|
      requires Valid() && Content() == content[off..]
      requires buf[..] == content[..off] + was[off..]
      modifies this, buf
      ensures off <= next <= n
      ensures Valid() && Content() == content[next..]
      ensures buf[..] == content[..next] + was[next..]
      ensures next == off ==> old(bytes) != [] && old(bytes)[0] == []
      ensures bytes == [] || bytes[0] != []
    {
      var src := FrontChunk();
      var cnt := if |src| < n - off then |src| else n - off;
      var piece := src[..cnt];
      assert piece == content[off..][..cnt];
      CopyStep(content, was, off, cnt);
      assert Overwrite(buf[..], off, piece) == content[..off + cnt] + was[off + cnt..];
      CopyInto(buf, off, piece);
      next := off + cnt;
      Advance(cnt);
    }
  }

  // ----- whole histories of a buffer -----

  method UseOnce(buf: BytesBuf, use: Use) returns (results: seq<seq<byte>>)
    requires buf.Valid() && use.Allowed(|buf.Content()|)
    modifies buf
    ensures buf.Valid()
    ensures var n := use.Takes(old(|buf.Content()|));
      && results == (if use.Take? then [old(buf.Content())[..n]] else [])
      && buf.Content() == old(buf.Content())[n..]
  {
    match use
    case Skip(n) =>
      buf.Advance(n);
      results := [];
    case Take(n) =>
      var slice := new byte[n];
      var count := buf.Read(slice);
      results := [slice[..count]];
  }

  /** The first of the uses, and then the others on what is left. */
  lemma FirstUse(content: seq<byte>, uses: seq<Use>)
    requires NoPanic(uses, |content|)
    ensures if uses == [] then ReadBack(content, uses) == [] && content[Consumed(uses, |content|)..] == content
      else
        var n := uses[0].Takes(|content|);
        var left, others := content[n..], uses[1..];
        && uses[0].Allowed(|content|) && NoPanic(others, |left|)
        && ReadBack(content, uses) == (if uses[0].Take? then [content[..n]] else []) + ReadBack(left, others)
        && content[Consumed(uses, |content|)..] == left[Consumed(others, |left|)..]
  {
    if uses != [] {
      var n := uses[0].Takes(|content|);
      SliceOfSlice(content, n, Consumed(uses[1..], |content| - n));
    }
  }

  /**
    Any mix of `advance` and `read` on a buffer, however its content is cut into chunks, returns what
    it returns on the flat byte string, and leaves the content without the consumed beginning.
   */
  method UseAll(buf: BytesBuf, uses: seq<Use>) returns (results: seq<seq<byte>>)
    requires buf.Valid() && NoPanic(uses, |buf.Content()|)
    modifies buf
    ensures buf.Valid()
    ensures results == ReadBack(old(buf.Content()), uses)
    ensures buf.Content() == old(buf.Content())[Consumed(uses, old(|buf.Content()|))..]
    decreases |uses|
  {
    FirstUse(buf.Content(), uses);
    results := [];
    if uses != [] {
      var first := UseOnce(buf, uses[0]);
      var others := UseAll(buf, uses[1..]);
      results := first + others;
    }
  }

  /** Reads the body of a request to its end and then out of the buffer, slice by slice. */
  method ReadOut(requestState: RequestState, cx: Context, uses: seq<Use>) returns (r: Result<seq<seq<byte>>, Option<int>>)
    requires requestState.Valid() && OnlyReads(uses)
    modifies requestState, cx
    ensures requestState.Valid()
    ensures requestState.View().body == AfterRead(old(requestState.View().body))
    ensures match ReadOf(old(requestState.View().body))
      case ReadError(cause) => r == Err(cause)
      case Content(chunks) =>
        && r.Ok?
        && Flatten(r.value) == UpTo(Flatten(chunks), Sum(uses))
  {
    while true
      invariant requestState.Valid() && requestState.body.View() == old(requestState.body.View())
      decreases Delays(cx.schedule)
    {
      var polled := requestState.PollBody(cx);
      if polled.Ready? {
        match polled.value {
          case Err(cause) => return Err(cause);
          case Ok((chunks, len)) =>
            var buf := new BytesBuf(chunks, len);
            FlattenLen(chunks);
            ReadsReach(Flatten(chunks), uses);
            UsesConserve(Flatten(chunks), uses);
            var results := UseAll(buf, uses);
            return Ok(results);
        }
      }
    }
  }
}
