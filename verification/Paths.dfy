/** The path cursor (src/path.rs, src/request.rs). */
module Paths {
  import opened Wrappers
  import opened Strings
  import opened Http

  const SLASH: byte := 0x2F

  /** A byte index into the path, as `current_path_index`. */
  predicate InPath(path: Text, index: nat) { index <= |path| }

  /** `segment`: the next segment and how far the cursor moves over it. */
  function Segment(path: Text, index: nat): Option<(Text, nat)>
    requires InPath(path, index)
  {
    SegmentOf(path[index..])
  }

  function SegmentOf(current: Text): Option<(Text, nat)> {
    if current == [] || current == [SLASH] then None
    else if current[0] == SLASH then
      var rest := current[1..];
      var i := Find(rest, SLASH);
      Some((rest[..i], i + 1))
    else
      var i := Find(current, SLASH);
      Some((current[..i], i))
  }

  /**
    Where a cursor can stand without splitting a character: the start, the end or a slash, which is
    an ASCII byte and so always begins a character.
   */
  predicate AtBoundary(path: Text, index: nat) {
    index == 0 || index == |path| || (index < |path| && path[index] == SLASH)
  }

  /** One step consumes an optional slash and the segment, moves forward, and stops at a boundary. */
  lemma SegmentStep(path: Text, index: nat)
    requires InPath(path, index) && Segment(path, index).Some?
    ensures var (seg, len) := Segment(path, index).value;
      && 0 < len && index + len <= |path|
      && SLASH !in seg
      && (path[index..index + len] == seg || path[index..index + len] == [SLASH] + seg)
      && (index + len == |path| || path[index + len] == SLASH)
  {
    var current := path[index..];
    var (seg, len) := Segment(path, index).value;
    FindFirst(current, SLASH);
    FindFirst(current[1..], SLASH);
    if current[0] == SLASH {
      assert path[index..index + len] == [SLASH] + seg;
      assert current[1..] == path[index + 1..];
    } else {
      assert path[index..index + len] == seg;
    }
  }

  /** All segments from `index` on, by running the cursor. */
  function Walk(path: Text, index: nat): seq<Text>
    requires InPath(path, index)
    decreases |path| - index
  {
    match Segment(path, index)
    case None => []
    case Some((seg, len)) => SegmentStep(path, index); [seg] + Walk(path, index + len)
  }

  function DropTrailingEmpty(pieces: seq<Text>): seq<Text> {
    if pieces != [] && pieces[|pieces| - 1] == [] then pieces[..|pieces| - 1] else pieces
  }

  /** The plain reading: split on slashes, without the leading slash and one trailing empty piece. */
  function SplitPath(path: Text): seq<Text> { DropTrailingEmpty(Split(Bare(path), SLASH)) }

  /** The slash a path begins with, if it does. */
  function Lead(path: Text): Text { if path != [] && path[0] == SLASH then [SLASH] else [] }

  function Bare(path: Text): (bare: Text)
    ensures path == Lead(path) + bare
  {
    if path != [] && path[0] == SLASH then path[1..] else path
  }

  /** Dropping the trailing piece does not touch the first one of several. */
  lemma DropTrailingCons(x: Text, rest: seq<Text>)
    requires rest != []
    ensures DropTrailingEmpty([x] + rest) == [x] + DropTrailingEmpty(rest)
  {
    assert ([x] + rest)[|rest|] == rest[|rest| - 1];
    assert ([x] + rest)[..|rest|] == [x] + rest[..|rest| - 1];
  }

  /** The cursor's walk in terms of the text that is left. */
  function WalkRest(current: Text): seq<Text>
    decreases |current|
  {
    match SegmentOf(current)
    case None => []
    case Some((seg, len)) => SegmentOfStep(current); [seg] + WalkRest(current[len..])
  }

  lemma SegmentOfStep(current: Text)
    requires SegmentOf(current).Some?
    ensures 0 < SegmentOf(current).value.1 <= |current|
  {}

  lemma {:induction false} WalkIsRest(path: Text, index: nat)
    requires InPath(path, index)
    ensures Walk(path, index) == WalkRest(path[index..])
    decreases |path| - index
  {
    var next := Segment(path, index);
    if next.Some? {
      SegmentStep(path, index);
      WalkIsRest(path, index + next.value.1);
      SliceOfSlice(path, index, next.value.1);
    }
  }

  lemma LastPiece(rest: Text)
    requires rest != [] && Find(rest, SLASH) == |rest|
    ensures DropTrailingEmpty(Split(rest, SLASH)) == [rest]
  {
    assert Split(rest, SLASH) == [rest];
  }

  lemma OnePieceOfMore(rest: Text, first: Text, others: seq<Text>)
    requires Split(rest, SLASH) == [first] + others && others != []
    ensures DropTrailingEmpty(Split(rest, SLASH)) == [first] + DropTrailingEmpty(others)
  {
    DropTrailingCons(first, others);
  }

  /** The split of a non-empty text, one piece at a time. */
  lemma PiecesFrom(rest: Text)
    requires rest != []
    ensures var i := Find(rest, SLASH);
      DropTrailingEmpty(Split(rest, SLASH))
        == [rest[..i]] + if i == |rest| then [] else DropTrailingEmpty(Split(rest[i + 1..], SLASH))
  {
    var i := Find(rest, SLASH);
    if i < |rest| {
      SplitMore(rest, SLASH, i);
      OnePieceOfMore(rest, rest[..i], Split(rest[i + 1..], SLASH));
    } else {
      LastPiece(rest);
      assert rest[..i] == rest;
    }
  }

  lemma SegmentAfterSlash(rest: Text)
    requires rest != []
    ensures var i := Find(rest, SLASH);
      WalkRest([SLASH] + rest) == [rest[..i]] + WalkRest(rest[i..])
  {
    var i, current := Find(rest, SLASH), [SLASH] + rest;
    assert current[1..] == rest;
    assert SegmentOf(current) == Some((rest[..i], i + 1));
    assert current[i + 1..] == rest[i..];
  }

  /** After a slash the cursor visits the split of what follows. */
  lemma {:induction false} WalkAfterSlash(rest: Text)
    ensures WalkRest([SLASH] + rest) == DropTrailingEmpty(Split(rest, SLASH))
    decreases |rest|
  {
    if rest == [] {
      NothingAfterSlash(rest);
    } else {
      WalkRestFrom(rest, Find(rest, SLASH));
      SegmentAfterSlash(rest);
      PiecesFrom(rest);
    }
  }

  lemma NothingAfterSlash(rest: Text)
    requires rest == []
    ensures WalkRest([SLASH] + rest) == DropTrailingEmpty(Split(rest, SLASH)) == []
  {
    SplitNone(rest, SLASH);
    assert [SLASH] + rest == [SLASH];
  }

  /** Standing at the first slash of a text, or at its end. */
  lemma {:induction false} WalkRestFrom(rest: Text, i: nat)
    requires rest != [] && i == Find(rest, SLASH)
    ensures WalkRest(rest[i..]) == if i == |rest| then [] else DropTrailingEmpty(Split(rest[i + 1..], SLASH))
    decreases |rest|, 0
  {
    if i < |rest| {
      assert rest[i..] == [SLASH] + rest[i + 1..];
      WalkAfterSlash(rest[i + 1..]);
    }
  }

  /** A path without a leading slash: the first segment starts right at the beginning. */
  lemma WalkRelative(path: Text)
    requires path != [] && path[0] != SLASH
    ensures WalkRest(path) == DropTrailingEmpty(Split(path, SLASH))
  {
    var i := Find(path, SLASH);
    assert SegmentOf(path) == Some((path[..i], i));
    WalkRestFrom(path, i);
    PiecesFrom(path);
  }

  /** Running the cursor from the start visits exactly the plain split of the path. */
  lemma WalkIsSplit(path: Text)
    ensures Walk(path, 0) == SplitPath(path)
  {
    WalkIsRest(path, 0);
    assert path[0..] == path;
    if path == [] {
      SplitNone(path, SLASH);
    } else if path[0] == SLASH {
      assert path == [SLASH] + path[1..];
      WalkAfterSlash(path[1..]);
    } else {
      WalkRelative(path);
    }
  }

  /** The text a walk consumes, with the slashes between, is the path up to one trailing slash. */
  lemma WalkRebuilds(path: Text)
    ensures var joined := Join(Walk(path, 0), [SLASH]);
      path == Lead(path) + joined || path == Lead(path) + joined + [SLASH]
  {
    WalkIsSplit(path);
    DroppedJoin(Split(Bare(path), SLASH));
    SplitThenJoin(Bare(path), SLASH);
    Prepend(Lead(path), Bare(path), Join(SplitPath(path), [SLASH]));
  }

  lemma Prepend(lead: Text, bare: Text, joined: Text)
    requires bare == joined || bare == joined + [SLASH]
    ensures lead + bare == lead + joined || lead + bare == lead + joined + [SLASH]
  {
    assert lead + (joined + [SLASH]) == lead + joined + [SLASH];
  }

  lemma DroppedJoin(pieces: seq<Text>)
    requires pieces != []
    ensures var joined := Join(DropTrailingEmpty(pieces), [SLASH]);
      Join(pieces, [SLASH]) == joined || Join(pieces, [SLASH]) == joined + [SLASH]
  {
    if pieces[|pieces| - 1] == [] && |pieces| > 1 {
      assert pieces == pieces[..|pieces| - 1] + [[]];
      JoinSnoc(pieces[..|pieces| - 1], [], [SLASH]);
    }
  }
}
