/** Turning the rest of a path into file path components (`sanitize_path` in src/path.rs). */
module Sanitize {
  import opened Wrappers
  import opened Strings
  import opened Http
  import opened Decoding
  import opened Paths

  const DOT: byte := 0x2E
  const ASTERISK: byte := 0x2A
  const COLON: byte := 0x3A
  const GREATER: byte := 0x3E
  const LESS: byte := 0x3C
  const BACKSLASH: byte := 0x5C
  const NUL: byte := 0

  /** The seven reasons to refuse a piece of the path. */
  predicate Refused(seg: Text) {
    seg != [] &&
    (|| seg[0] == DOT
     || seg[0] == ASTERISK
     || seg[|seg| - 1] == COLON
     || seg[|seg| - 1] == GREATER
     || seg[|seg| - 1] == LESS
     || BACKSLASH in seg
     || NUL in seg)
  }

  function NonEmpty(pieces: seq<Text>): (kept: seq<Text>)
    ensures forall k :: 0 <= k < |kept| ==> kept[k] != [] && kept[k] in pieces
  {
    if pieces == [] then []
    else if pieces[0] == [] then NonEmpty(pieces[1..])
    else [pieces[0]] + NonEmpty(pieces[1..])
  }

  predicate NoneRefused(pieces: seq<Text>) { forall k :: 0 <= k < |pieces| ==> !Refused(pieces[k]) }

  /** What sanitizing decoded text means. */
  function SanitizeDecoded(decoded: Text): Option<seq<Text>> {
    var pieces := Split(decoded, SLASH);
    if NoneRefused(pieces) then Some(NonEmpty(pieces)) else None
  }

  function Sanitized(s: Text): Option<seq<Text>> {
    var decoded := PercentDecode(s);
    if ValidUtf8(decoded) then SanitizeDecoded(decoded) else None
  }

  lemma {:induction false} NonEmptySnoc(pieces: seq<Text>, last: Text)
    ensures NonEmpty(pieces + [last]) == NonEmpty(pieces) + (if last == [] then [] else [last])
  {
    if pieces == [] {
      assert [last][1..] == [];
    } else {
      NonEmptySnoc(pieces[1..], last);
      assert (pieces + [last])[1..] == pieces[1..] + [last];
    }
  }

  /** One more piece: nothing comes of all of them if it is refused, otherwise it is kept unless empty. */
  lemma OnePieceMore(pieces: seq<Text>, i: nat)
    requires i < |pieces| && NoneRefused(pieces[..i])
    ensures if Refused(pieces[i]) then !NoneRefused(pieces) else NoneRefused(pieces[..i + 1])
    ensures NonEmpty(pieces[..i + 1]) == NonEmpty(pieces[..i]) + (if pieces[i] == [] then [] else [pieces[i]])
  {
    assert pieces[..i + 1] == pieces[..i] + [pieces[i]];
    NonEmptySnoc(pieces[..i], pieces[i]);
  }

  method SanitizePath(s: Text) returns (r: Option<seq<Text>>)
    ensures r == Sanitized(s)
  {
    var decoded := PercentDecode(s);
    if !ValidUtf8(decoded) {
      return None;
    }
    var path: seq<Text> := [];
    var pieces := Split(decoded, SLASH);
    for i := 0 to |pieces|
      invariant NoneRefused(pieces[..i])
      invariant path == NonEmpty(pieces[..i])
    {
      var seg := pieces[i];
      OnePieceMore(pieces, i);
      if seg != [] && seg[0] == DOT {
        return None;
      } else if seg != [] && seg[0] == ASTERISK {
        return None;
      } else if seg != [] && seg[|seg| - 1] == COLON {
        return None;
      } else if seg != [] && seg[|seg| - 1] == GREATER {
        return None;
      } else if seg != [] && seg[|seg| - 1] == LESS {
        return None;
      } else if BACKSLASH in seg {
        return None;
      } else if NUL in seg {
        return None;
      } else if seg != [] {
        path := path + [seg];
      }
    }
    assert pieces[..|pieces|] == pieces;
    r := Some(path);
  }

  lemma {:induction false} NonEmptyOfNonEmpty(pieces: seq<Text>)
    requires forall k :: 0 <= k < |pieces| ==> pieces[k] != []
    ensures NonEmpty(pieces) == pieces
  {
    if pieces != [] { NonEmptyOfNonEmpty(pieces[1..]); }
  }

  /**
    Text is accepted exactly when no piece is refused; the components are then plain names (never `.`
    or `..`, never a separator), and writing them with slashes and sanitizing again changes nothing.
   */
  lemma SanitizeIsFixed(decoded: Text)
    ensures SanitizeDecoded(decoded).None? <==> exists piece :: piece in Split(decoded, SLASH) && Refused(piece)
    ensures SanitizeDecoded(decoded).Some? ==>
      var components := SanitizeDecoded(decoded).value;
      && components == NonEmpty(Split(decoded, SLASH))
      && (forall c :: c in components ==> c != [] && c[0] != DOT && SLASH !in c && BACKSLASH !in c && NUL !in c)
      && SanitizeDecoded(Join(components, [SLASH])) == Some(components)
  {
    var pieces := Split(decoded, SLASH);
    SplitPieces(decoded, SLASH);
    if !NoneRefused(pieces) {
      var k :| 0 <= k < |pieces| && Refused(pieces[k]);
      assert pieces[k] in pieces;
    }
    if SanitizeDecoded(decoded).Some? {
      var components := SanitizeDecoded(decoded).value;
      if components == [] {
        var none: Text := [];
        SplitNone(none, SLASH);
        assert Split(none, SLASH) == [none];
        assert NonEmpty([none]) == NonEmpty([none][1..]) == [];
      } else {
        JoinThenSplit(components, SLASH);
        NonEmptyOfNonEmpty(components);
      }
    }
  }
}
