/** What `recover` does to the path cursor, and so to routes that contain it. */
module RecoverRoutes {
  import opened Wrappers
  import opened Strings
  import opened Http
  import opened Decoding
  import opened Paths
  import opened Errors
  import opened Tuples
  import opened Requests
  import opened Filters
  import opened Typing
  import opened Algebra

  /** Where `end()` succeeds; on a root path it does not look at the cursor. */
  predicate EndAccepts(path: Text, index: nat) { path == [] || path == [SLASH] || index == |path| }

  lemma EndSucceeds(request: Request, st: StateView, input: Tuple)
    requires InPath(request.path, st.index)
    ensures Eval(End, request, st, input).outcome.Success? <==> EndAccepts(request.path, st.index)
  {
    assert request.path[st.index..] == [] <==> st.index == |request.path|;
  }

  /** A filter followed by `end()`. */
  lemma ThenEnds(f: Filter, request: Request, st: StateView, input: Tuple)
    requires InPath(request.path, st.index)
    ensures var r := Eval(f, request, st, []);
      Eval(And(f, End), request, st, input).outcome.Success? <==>
        r.outcome.Success? && EndAccepts(request.path, r.state.index)
  {
    var r := Eval(f, request, st, []);
    AndMeans(f, End, request, st, input);
    if r.outcome.Success? { EndSucceeds(request, r.state, input); }
  }

  /**
    Whatever follows `recover` starts where the recovered filter had started: the next filter takes
    the same segments again.
   */
  lemma NextStartsBack(prefix: Filter, f: Filter, recover: Recoverer, accepts: Recoverable, next: Filter,
                       request: Request, st: StateView, input: Tuple)
    requires InPath(request.path, st.index)
    ensures var p := Eval(prefix, request, st, []);
      var r := Eval(Recover(f, recover, accepts), request, p.state, []);
      p.outcome.Success? && r.outcome.Success? ==>
        Eval(And(And(prefix, Recover(f, recover, accepts)), next), request, st, input)
          == AppendAfter(Append(p.outcome.success, r.outcome.success),
               Eval(next, request, StateView(p.state.index, r.state.body), input))
  {
    AndMeans(prefix, Recover(f, recover, accepts), request, st, []);
    AndMeans(And(prefix, Recover(f, recover, accepts)), next, request, st, input);
  }

  /** A route: a prefix, one more filter, and `end()`. */
  function Route(prefix: Filter, f: Filter): Filter { And(And(prefix, f), End) }

  lemma RouteSucceeds(prefix: Filter, f: Filter, request: Request, st: StateView)
    requires InPath(request.path, st.index)
    ensures var p := Eval(prefix, request, st, []);
      var r := Eval(f, request, p.state, []);
      Eval(Route(prefix, f), request, st, []).outcome.Success? <==>
        p.outcome.Success? && r.outcome.Success? && EndAccepts(request.path, r.state.index)
  {
    AndMeans(prefix, f, request, st, []);
    ThenEnds(And(prefix, f), request, st, []);
  }

  /**
    `prefix.and(f.recover(..)).and(end())` succeeds exactly if the parts before `end()` do and there is
    nothing after the *prefix*: whether `f` succeeded or its error was recovered from, the cursor is
    back where the prefix left it.
   */
  lemma RecoverForgetsPath(
      prefix: Filter, f: Filter, recover: Recoverer, accepts: Recoverable, request: Request, st: StateView)
    requires InPath(request.path, st.index)
    ensures var p := Eval(prefix, request, st, []);
      var r := Eval(Recover(f, recover, accepts), request, p.state, []);
      Eval(Route(prefix, Recover(f, recover, accepts)), request, st, []).outcome.Success? <==>
        p.outcome.Success? && r.outcome.Success? && EndAccepts(request.path, p.state.index)
  {
    RouteSucceeds(prefix, Recover(f, recover, accepts), request, st);
  }

  /**
    So a route that works stops working when `recover` is put around its last filter, whatever the
    function and the errors accepted, exactly if that filter takes anything from the path and the path
    is not the root.
   */
  lemma RecoverBreaksRoute(
      prefix: Filter, f: Filter, recover: Recoverer, accepts: Recoverable, request: Request, st: StateView)
    requires InPath(request.path, st.index)
    requires Eval(Route(prefix, f), request, st, []).outcome.Success?
    ensures var p := Eval(prefix, request, st, []);
      var r := Eval(f, request, p.state, []);
      Eval(Route(prefix, Recover(f, recover, accepts)), request, st, []).outcome.Success? <==>
        r.state.index == p.state.index || request.path == [] || request.path == [SLASH]
  {
    RouteSucceeds(prefix, f, request, st);
    RecoverForgetsPath(prefix, f, recover, accepts, request, st);
    RecoverSucceeds(f, recover, accepts, request, Eval(prefix, request, st, []).state);
  }

  lemma RecoverSucceeds(f: Filter, recover: Recoverer, accepts: Recoverable, request: Request, st: StateView)
    requires InPath(request.path, st.index)
    requires Eval(f, request, st, []).outcome.Success?
    ensures Eval(Recover(f, recover, accepts), request, st, []).outcome == Eval(f, request, st, []).outcome
  {
    assert Eval(Recover(f, recover, accepts), request, st, [])
        == RecoverRest(recover, accepts, st.index, Eval(f, request, st, []));
  }

  /** Around the whole route `recover` does no harm. */
  lemma RecoverAroundRoute(
      prefix: Filter, f: Filter, recover: Recoverer, accepts: Recoverable, request: Request, st: StateView)
    requires InPath(request.path, st.index)
    requires Eval(Route(prefix, f), request, st, []).outcome.Success?
    ensures Eval(Recover(Route(prefix, f), recover, accepts), request, st, []).outcome
         == Eval(Route(prefix, f), request, st, []).outcome
  {
    RecoverSucceeds(Route(prefix, f), recover, accepts, request, st);
  }

  const A: byte := 0x61
  const B: byte := 0x62

  /** `/a/b` against `literal("a").and(param_str()).and(end())`, without and with `recover`. */
  lemma RecoverBreaksAB(recover: Recoverer, accepts: Recoverable, request: Request, st: StateView)
    requires request.path == [SLASH, A, SLASH, B] && st.index == 0
    ensures Eval(Route(Literal([A]), ParamStr), request, st, []).outcome.Success?
    ensures !Eval(Route(Literal([A]), Recover(ParamStr, recover, accepts)), request, st, []).outcome.Success?
  {
    var mid, end := st.(index := 2), st.(index := 4);
    SegmentsAB(request.path);
    SingleAscii(A);
    SingleAscii(B);
    assert Eval(Literal([A]), request, st, []) == RunResult(mid, Success([]));
    assert Eval(ParamStr, request, mid, []) == RunResult(end, Success([TextValue([B])]));
    RouteSucceeds(Literal([A]), ParamStr, request, st);
    RecoverBreaksRoute(Literal([A]), ParamStr, recover, accepts, request, st);
  }

  lemma SegmentsAB(path: Text)
    requires path == [SLASH, A, SLASH, B]
    ensures Segment(path, 0) == Some(([A], 2)) && Segment(path, 2) == Some(([B], 2))
  {
    assert path[0..] == path && path[1..] == [A, SLASH, B] && path[1..][..1] == [A];
    FindUnique(path[1..], SLASH, 1);
    assert path[2..] == [SLASH, B] && path[2..][1..] == [B] && [B][..1] == [B];
    FindUnique([B], SLASH, 1);
  }

  lemma SingleAscii(b: byte)
    requires b < 0x80 && b != PERCENT
    ensures DecodedText([b]) == [b]
  {
    var text: Text := [b];
    assert text[1..] == [];
    assert PercentDecode(text) == text;
    assert Matched(text) == 1 && ValidUtf8(text);
    LossyKeepsValid(text);
  }
}
