/**
  Splitting, joining and trimming of text. The functions are generic in the element so that the same
  definitions serve URL paths (bytes) and header values (characters).
 */
module Strings {
  /** The position of the first `c` from `i` on, or the length of `s` when there is none. */
  function FindFrom<T(==)>(s: seq<T>, c: T, i: nat): (found: nat)
    requires i <= |s|
    ensures i <= found <= |s|
    ensures found < |s| ==> s[found] == c
    decreases |s| - i
  {
    if i == |s| || s[i] == c then i else FindFrom(s, c, i + 1)
  }

  /** The position of the first `c`, or the length of `s` when there is none. */
  function Find<T(==)>(s: seq<T>, c: T): (i: nat)
    ensures i <= |s|
    ensures i < |s| ==> s[i] == c
  {
    FindFrom(s, c, 0)
  }

  lemma {:induction false} FindFromFirst<T>(s: seq<T>, c: T, i: nat, k: nat)
    requires i <= |s| && i <= k < FindFrom(s, c, i)
    ensures s[k] != c
    decreases |s| - i
  {
    if i < k { FindFromFirst(s, c, i + 1, k); }
  }

  lemma FindFirst<T>(s: seq<T>, c: T)
    ensures c !in s[..Find(s, c)]
  {
    if c in s[..Find(s, c)] {
      var k :| 0 <= k < Find(s, c) && s[..Find(s, c)][k] == c;
      FindFromFirst(s, c, 0, k);
    }
  }

  /** `str::split` on a single separator: always at least one piece, pieces may be empty. */
  function Split<T(==)>(s: seq<T>, c: T): (pieces: seq<seq<T>>)
    ensures |pieces| > 0
  {
    var i := Find(s, c);
    if i == |s| then [s] else [s[..i]] + Split(s[i + 1..], c)
  }

  /** The first piece and the split of what follows. */
  lemma SplitMore<T>(s: seq<T>, c: T, i: nat)
    requires i == Find(s, c) && i < |s|
    ensures Split(s, c) == [s[..i]] + Split(s[i + 1..], c)
  {}

  lemma {:induction false} SplitPieces<T>(s: seq<T>, c: T)
    ensures forall k :: 0 <= k < |Split(s, c)| ==> c !in Split(s, c)[k]
  {
    FindFirst(s, c);
    if Find(s, c) < |s| {
      SplitPieces(s[Find(s, c) + 1..], c);
    } else {
      assert s[..Find(s, c)] == s;
    }
  }

  function Join<T>(pieces: seq<seq<T>>, glue: seq<T>): seq<T> {
    if pieces == [] then []
    else if |pieces| == 1 then pieces[0]
    else pieces[0] + (glue + Join(pieces[1..], glue))
  }

  lemma FindUnique<T>(s: seq<T>, c: T, i: nat)
    requires i <= |s| && c !in s[..i] && (i < |s| ==> s[i] == c)
    ensures Find(s, c) == i
  {
    if i < Find(s, c) { FindFromFirst(s, c, 0, i); }
  }

  lemma Associate<T>(a: seq<T>, b: seq<T>, c: seq<T>)
    ensures (a + b) + c == a + (b + c)
  {}

  lemma SliceOfSlice<T>(s: seq<T>, i: nat, j: nat)
    requires i + j <= |s|
    ensures s[i..][..j] == s[i..i + j] && s[i..][j..] == s[i + j..]
  {}

  /** Splitting after a separator-free head peels that head off. */
  lemma SplitHead<T>(head: seq<T>, rest: seq<T>, c: T)
    requires c !in head
    ensures Split(head + ([c] + rest), c) == [head] + Split(rest, c)
  {
    var s := head + ([c] + rest);
    assert s[..|head|] == head && s[|head| + 1..] == rest;
    FindUnique(s, c, |head|);
  }

  lemma SplitNone<T>(s: seq<T>, c: T)
    requires c !in s
    ensures Split(s, c) == [s]
  {
    assert s[..|s|] == s;
    FindUnique(s, c, |s|);
  }

  lemma JoinCons<T>(first: seq<T>, others: seq<seq<T>>, glue: seq<T>)
    requires others != []
    ensures Join([first] + others, glue) == first + (glue + Join(others, glue))
  {
    assert ([first] + others)[1..] == others;
  }

  lemma {:induction false} SplitThenJoin<T>(s: seq<T>, c: T)
    ensures Join(Split(s, c), [c]) == s
  {
    var i := Find(s, c);
    if i < |s| {
      var first, others := s[..i], Split(s[i + 1..], c);
      SplitThenJoin(s[i + 1..], c);
      SplitMore(s, c, i);
      JoinCons(first, others, [c]);
      assert s == first + ([c] + s[i + 1..]);
    }
  }

  lemma {:induction false} JoinThenSplit<T>(pieces: seq<seq<T>>, c: T)
    requires |pieces| > 0
    requires forall k :: 0 <= k < |pieces| ==> c !in pieces[k]
    ensures Split(Join(pieces, [c]), c) == pieces
  {
    if |pieces| == 1 {
      SplitNone(pieces[0], c);
    } else {
      JoinThenSplit(pieces[1..], c);
      SplitHead(pieces[0], Join(pieces[1..], [c]), c);
      assert [pieces[0]] + pieces[1..] == pieces;
    }
  }

  /** Adding one more piece at the end of a non-empty list. */
  lemma {:induction false} JoinSnoc<T>(pieces: seq<seq<T>>, last: seq<T>, glue: seq<T>)
    requires |pieces| > 0
    ensures Join(pieces + [last], glue) == Join(pieces, glue) + (glue + last)
  {
    if |pieces| == 1 {
      assert (pieces + [last])[1..] == [last];
    } else {
      JoinSnoc(pieces[1..], last, glue);
      assert (pieces + [last])[1..] == pieces[1..] + [last];
      Associate(glue, Join(pieces[1..], glue), glue + last);
      Associate(pieces[0], glue + Join(pieces[1..], glue), glue + last);
    }
  }

  // ----- blanks and comma separated lists, as header values use them -----

  predicate Blank(c: char) { c == ' ' || c == '\t' }

  function TrimLeft(s: string): (t: string)
    ensures t == [] || !Blank(t[0])
  {
    if s != [] && Blank(s[0]) then TrimLeft(s[1..]) else s
  }

  function TrimRight(s: string): (t: string)
    ensures t == [] || !Blank(t[|t| - 1])
  {
    if s != [] && Blank(s[|s| - 1]) then TrimRight(s[..|s| - 1]) else s
  }

  /** `StrExt::trim_spaces_tabs`. */
  function Trim(s: string): string { TrimRight(TrimLeft(s)) }

  /** A word as it can stand in a list: non-empty, without blanks and commas. */
  predicate IsWord(s: string) {
    s != [] && forall c :: c in s ==> !Blank(c) && c != ','
  }

  lemma TrimWord(w: string)
    requires IsWord(w)
    ensures Trim(w) == w && Trim([' '] + w) == w
  {
    assert TrimLeft(w) == w && TrimRight(w) == w;
    assert ([' '] + w)[1..] == w;
    assert TrimLeft([' '] + w) == w;
  }

  function TrimAll(pieces: seq<string>): seq<string> {
    if pieces == [] then [] else [Trim(pieces[0])] + TrimAll(pieces[1..])
  }

  /** What a reader of a comma separated header list sees: the trimmed pieces between commas. */
  function ParseList(s: string): seq<string> { TrimAll(Split(s, ',')) }

  lemma ParseHead(head: string, rest: string)
    requires ',' !in head
    ensures ParseList(head + ([','] + rest)) == [Trim(head)] + ParseList(rest)
  {
    SplitHead(head, rest, ',');
  }

  lemma ParseWord(w: string)
    requires ',' !in w
    ensures ParseList(w) == [Trim(w)]
  {
    SplitNone(w, ',');
    assert TrimAll([w]) == [Trim(w)] + TrimAll([]);
  }

  lemma JoinedHead(words: seq<string>, pad: string)
    requires |words| > 1
    ensures pad + Join(words, ", ") == (pad + words[0]) + ([','] + ([' '] + Join(words[1..], ", ")))
  {
    assert ", " == [','] + [' '];
    Associate([','], [' '], Join(words[1..], ", "));
    Associate(pad, words[0], ", " + Join(words[1..], ", "));
  }

  /** Writing words as a `", "` list and reading the list gives the words back. */
  lemma {:induction false} ParseJoined(words: seq<string>, pad: string)
    requires |words| > 0 && (pad == [] || pad == [' '])
    requires forall k :: 0 <= k < |words| ==> IsWord(words[k])
    ensures ParseList(pad + Join(words, ", ")) == words
  {
    var w := words[0];
    TrimPadded(w, pad);
    if |words| == 1 {
      ParseWord(pad + w);
    } else {
      ParseJoined(words[1..], [' ']);
      ParseFirst(words, pad);
    }
  }

  lemma ParseFirst(words: seq<string>, pad: string)
    requires |words| > 1 && Trim(pad + words[0]) == words[0] && ',' !in pad + words[0]
    requires ParseList([' '] + Join(words[1..], ", ")) == words[1..]
    ensures ParseList(pad + Join(words, ", ")) == words
  {
    JoinedHead(words, pad);
    ParseHead(pad + words[0], [' '] + Join(words[1..], ", "));
    assert [words[0]] + words[1..] == words;
  }

  lemma TrimPadded(w: string, pad: string)
    requires IsWord(w) && (pad == [] || pad == [' '])
    ensures Trim(pad + w) == w && ',' !in pad + w
  {
    TrimWord(w);
    assert pad + w == w || pad + w == [' '] + w;
  }
}
