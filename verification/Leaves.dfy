/** What the filters at the leaves of a tree promise about the request they are run on. */
module Leaves {
  import opened Wrappers
  import opened Strings
  import opened Http
  import opened Decoding
  import opened Paths
  import opened Sanitize
  import opened Bodies
  import opened Errors
  import opened Forwardings
  import opened Tuples
  import opened Requests
  import opened Filters

  // ----- methods -----

  /** A method filter matches exactly its own method, and otherwise says that this method is allowed. */
  lemma MethodMeans(m: Method, request: Request, st: StateView, input: Tuple)
    requires InPath(request.path, st.index)
    ensures var r := Eval(MethodIs(m), request, st, input);
      && r.state == st
      && (request.verb == m.Name() ==> r.outcome == Success([]))
      && (request.verb != m.Name() ==>
          && r.outcome.Forward? && r.outcome.input == []
          && r.outcome.forwarding.MethodNotAllowed? && r.outcome.forwarding.Methods() == {m})
  {
    MethodBitIsGenuine(m);
  }

  // ----- the end of the path -----

  predicate IsRoot(path: Text) { path == [] || path == [SLASH] }

  /**
    On a root path `end()` succeeds wherever the cursor is. On any other it succeeds exactly at the
    end, redirects exactly in front of a last slash, to the path before it, and otherwise does not match.
   */
  lemma EndMeans(request: Request, st: StateView, input: Tuple)
    requires InPath(request.path, st.index)
    ensures var path, r := request.path, Eval(End, request, st, input);
      && r.state == st
      && (r.outcome == Success([]) <==> IsRoot(path) || st.index == |path|)
      && (forall location ::
          r.outcome == Error(Redirect(location)) <==>
            !IsRoot(path) && st.index + 1 == |path| && path[st.index] == SLASH && location == path[..st.index])
      && (r.outcome == Forward([], NotFound) <==>
          !IsRoot(path) && st.index < |path| && !(st.index + 1 == |path| && path[st.index] == SLASH))
  {
    var current := request.path[st.index..];
    assert current == [SLASH] <==> st.index + 1 == |request.path| && request.path[st.index] == SLASH by {
      if |current| == 1 { assert current == [request.path[st.index]]; }
    }
  }

  // ----- one segment -----

  /** A path from `index` on: a segment, a slash before it or not, and what follows. */
  predicate SegmentAhead(path: Text, index: nat, lead: Text, segment: Text, rest: Text) {
    && InPath(path, index) && path[index..] == lead + (segment + rest)
    && (lead == [] || lead == [SLASH]) && SLASH !in segment
    && (rest == [] || rest[0] == SLASH)
    && (segment == [] ==> lead != [] && rest != [])
  }

  lemma NextSegment(path: Text, index: nat, lead: Text, segment: Text, rest: Text)
    requires SegmentAhead(path, index, lead, segment, rest)
    ensures Segment(path, index) == Some((segment, |lead| + |segment|))
    ensures index + |lead| + |segment| <= |path|
  {
    var current, after := path[index..], segment + rest;
    assert after[..|segment|] == segment;
    FindUnique(after, SLASH, |segment|);
    if lead == [SLASH] {
      assert current[1..] == after;
    } else {
      assert current == after;
      assert current[0] in segment;
    }
  }

  /**
    Percent-encoded in any way, a segment reads as the text that was encoded: a parameter is that text,
    and a literal matches exactly if it is that text. The cursor moves to the end of the segment.
   */
  lemma EncodedSegment(request: Request, st: StateView, lead: Text, s: Text, plain: set<byte>, upper: bool, rest: Text)
    requires ValidUtf8(s) && PERCENT !in plain
    requires SegmentAhead(request.path, st.index, lead, PercentEncode(s, plain, upper), rest)
    ensures var past := st.(index := st.index + |lead| + |PercentEncode(s, plain, upper)|);
      && Eval(ParamStr, request, st, []) == RunResult(past, Success([TextValue(s)]))
      && Eval(Literal(s), request, st, []) == RunResult(past, Success([]))
      && (forall v: Text :: v != s ==> Eval(Literal(v), request, st, []) == RunResult(st, Forward([], NotFound)))
  {
    var segment := PercentEncode(s, plain, upper);
    EncodedSegmentReads(s, plain, upper);
    NextSegment(request.path, st.index, lead, segment, rest);
    ParamReads(request, st, segment, |lead| + |segment|);
    forall v: Text ensures Eval(Literal(v), request, st, []) ==
      if v == s then RunResult(st.(index := st.index + |lead| + |segment|), Success([]))
      else RunResult(st, Forward([], NotFound))
    {
      LiteralReads(request, st, v, segment, |lead| + |segment|);
    }
  }

  lemma ParamReads(request: Request, st: StateView, segment: Text, len: nat)
    requires InPath(request.path, st.index) && Segment(request.path, st.index) == Some((segment, len))
    ensures Eval(ParamStr, request, st, [])
         == RunResult(st.(index := st.index + len), Success([TextValue(DecodedText(segment))]))
  {}

  lemma LiteralReads(request: Request, st: StateView, v: Text, segment: Text, len: nat)
    requires InPath(request.path, st.index) && Segment(request.path, st.index) == Some((segment, len))
    ensures Eval(Literal(v), request, st, []) ==
      if v == DecodedText(segment) then RunResult(st.(index := st.index + len), Success([]))
      else RunResult(st, Forward([], NotFound))
  {}

  /** So a text without slashes, or with its slashes encoded, can always be sent as a segment. */
  lemma TextAsSegment(request: Request, st: StateView, s: Text, plain: set<byte>, upper: bool, rest: Text)
    requires InPath(request.path, st.index) && s != [] && ValidUtf8(s) && PERCENT !in plain
    requires !(SLASH in s && SLASH in plain) && (rest == [] || rest[0] == SLASH)
    requires request.path[st.index..] == [SLASH] + (PercentEncode(s, plain, upper) + rest)
    ensures Eval(ParamStr, request, st, []).outcome == Success([TextValue(s)])
    ensures Eval(Literal(s), request, st, []).outcome == Success([])
  {
    EncodedSlashes(s, plain, upper, SLASH);
    EncodedSegment(request, st, [SLASH], s, plain, upper, rest);
  }

  /** Where there is no segment any more, neither matches. */
  lemma NoSegment(request: Request, st: StateView, v: Text)
    requires InPath(request.path, st.index)
    requires request.path[st.index..] == [] || request.path[st.index..] == [SLASH]
    ensures Eval(ParamStr, request, st, []) == RunResult(st, Forward([], NotFound))
    ensures Eval(Literal(v), request, st, []) == RunResult(st, Forward([], NotFound))
  {}

  // ----- the rest of the path -----

  /** `tail()` takes all that is left as it is, without decoding it. */
  lemma TailMeans(request: Request, st: StateView, input: Tuple)
    requires InPath(request.path, st.index)
    ensures Eval(Tail, request, st, input)
         == RunResult(st.(index := |request.path|), Success([TextValue(request.path[st.index..])]))
  {}

  /** The reasons to refuse a piece of a file path. */
  predicate Dangerous(piece: Text) {
    piece != [] &&
    (|| piece[0] == 0x2E || piece[0] == 0x2A                // . *
     || piece[|piece| - 1] in {0x3A, 0x3E, 0x3C}            // : > <
     || 0x5C in piece || 0x00 in piece)                     // \ NUL
  }

  /**
    A file path is judged by what it decodes to: however a text is percent-encoded, its slashes too,
    it is refused exactly if it is not well-formed or one of its pieces is dangerous.
   */
  lemma EncodedFilePath(request: Request, st: StateView, s: Text, plain: set<byte>, upper: bool)
    requires InPath(request.path, st.index) && PERCENT !in plain
    requires request.path[st.index..] == PercentEncode(s, plain, upper)
    ensures var r := Eval(TailPath, request, st, []);
      if ValidUtf8(s) && (forall piece :: piece in Split(s, SLASH) ==> !Dangerous(piece))
      then r == RunResult(st.(index := |request.path|), Success([PathValue(NonEmpty(Split(s, SLASH)))]))
      else r == RunResult(st, Forward([], NotFound))
  {
    DecodeUndoesEncode(s, plain, upper);
    forall piece ensures Dangerous(piece) <==> Refused(piece) {}
    var pieces := Split(s, SLASH);
    assert (forall piece :: piece in pieces ==> !Dangerous(piece)) <==> NoneRefused(pieces) by {
      if NoneRefused(pieces) {
        forall piece | piece in pieces ensures !Dangerous(piece) {
          var k :| 0 <= k < |pieces| && pieces[k] == piece;
          assert !Refused(pieces[k]);
        }
      } else {
        var k :| 0 <= k < |pieces| && Refused(pieces[k]);
        assert pieces[k] in pieces && Dangerous(pieces[k]);
      }
    }
  }

  /** `../` at the beginning of a file path is refused, also when all of it is percent-encoded. */
  lemma DotDotRefused(request: Request, st: StateView, after: Text, plain: set<byte>, upper: bool)
    requires InPath(request.path, st.index) && PERCENT !in plain
    requires request.path[st.index..] == PercentEncode([0x2E, 0x2E] + ([SLASH] + after), plain, upper)
    ensures Eval(TailPath, request, st, []) == RunResult(st, Forward([], NotFound))
  {
    var dots: Text := [0x2E, 0x2E];
    SplitHead(dots, after, SLASH);
    var pieces := Split(dots + ([SLASH] + after), SLASH);
    assert pieces[0] == dots && dots in pieces && Dangerous(dots);
    EncodedFilePath(request, st, dots + ([SLASH] + after), plain, upper);
  }

  // ----- the body -----

  /**
    The body filter hands out all the data that the stream delivers, in order and without empty chunks;
    if the stream fails first, it hands out nothing but the cause.
   */
  lemma BodyArrives(stream: seq<StreamItem>, n: nat, request: Request, index: nat)
    requires FailsAfter(stream, n) && InPath(request.path, index)
    ensures var unread := StateView(index, Unread(Drain(stream).0, Drain(stream).1));
      var outcome := Eval(TakeBody, request, unread, []).outcome;
      if n == |stream| then
        exists chunks :: outcome == Success([BufferValue(chunks)]) && Flatten(chunks) == DataOf(stream) && NoEmptyChunk(chunks)
      else outcome == Error(BodyError(Some(stream[n].cause)))
  {
    DrainMeans(stream, n);
    var (chunks, cause) := Drain(stream);
    if n == |stream| {
      assert stream[..n] == stream;
      assert Eval(TakeBody, request, StateView(index, Unread(chunks, cause)), []).outcome == Success([BufferValue(chunks)]);
    }
  }
}
