/** Percent decoding (section 2.1 of RFC 3986) and UTF-8 (section 3 of RFC 3629). */
module Decoding {
  import opened Wrappers
  import opened Http

  const PERCENT: byte := 0x25

  function HexDigit(b: byte): Option<byte> {
    if 0x30 <= b <= 0x39 then Some(b - 0x30)
    else if 0x41 <= b <= 0x46 then Some(b - 0x41 + 10)
    else if 0x61 <= b <= 0x66 then Some(b - 0x61 + 10)
    else None
  }

  /** `percent_decode_str`: a percent sign without two hexadecimal digits after it stays as it is. */
  function PercentDecode(s: Text): Text {
    if s == [] then []
    else if |s| >= 3 && s[0] == PERCENT && HexDigit(s[1]).Some? && HexDigit(s[2]).Some? then
      var hi: byte, lo: byte := HexDigit(s[1]).value, HexDigit(s[2]).value;
      [((hi as int * 16 + lo as int) % 256) as byte] + PercentDecode(s[3..])
    else [s[0]] + PercentDecode(s[1..])
  }

  /** The length of a character by its first byte; 0 when no character starts so. */
  function CharLen(lead: byte): nat {
    if lead < 0x80 then 1
    else if 0xC2 <= lead <= 0xDF then 2
    else if 0xE0 <= lead <= 0xEF then 3
    else if 0xF0 <= lead <= 0xF4 then 4
    else 0
  }

  predicate Continues(b: byte) { 0x80 <= b <= 0xBF }

  predicate SecondOk(lead: byte, b: byte) {
    && Continues(b)
    && (lead == 0xE0 ==> 0xA0 <= b)
    && (lead == 0xED ==> b <= 0x9F)
    && (lead == 0xF0 ==> 0x90 <= b)
    && (lead == 0xF4 ==> b <= 0x8F)
  }

  /** How many leading bytes begin a well-formed character. */
  function Matched(s: Text): (n: nat)
    ensures n <= |s|
  {
    if s == [] || CharLen(s[0]) == 0 then 0
    else
      var len := CharLen(s[0]);
      if len == 1 || |s| < 2 || !SecondOk(s[0], s[1]) then 1
      else if len == 2 || |s| < 3 || !Continues(s[2]) then 2
      else if len == 3 || |s| < 4 || !Continues(s[3]) then 3
      else 4
  }

  predicate StartsChar(s: Text) { s != [] && Matched(s) == CharLen(s[0]) > 0 }

  predicate ValidUtf8(s: Text) {
    s == [] || (StartsChar(s) && ValidUtf8(s[Matched(s)..]))
  }

  const REPLACEMENT: Text := [0xEF, 0xBF, 0xBD]

  /** `decode_utf8_lossy`: every ill-formed stretch becomes one replacement character. */
  function DecodeLossy(s: Text): Text {
    if s == [] then []
    else if StartsChar(s) then s[..Matched(s)] + DecodeLossy(s[Matched(s)..])
    else REPLACEMENT + DecodeLossy(s[if Matched(s) == 0 then 1 else Matched(s)..])
  }

  /** What a path segment reads as. */
  function DecodedText(segment: Text): Text { DecodeLossy(PercentDecode(segment)) }

  lemma {:induction false} LossyKeepsValid(s: Text)
    requires ValidUtf8(s)
    ensures DecodeLossy(s) == s
  {
    if s != [] {
      LossyKeepsValid(s[Matched(s)..]);
      assert s == s[..Matched(s)] + s[Matched(s)..];
    }
  }

  /** Whether a character begins a text shows in the bytes of that character. */
  lemma StartsAlike(s: Text, rest: Text)
    requires StartsChar(s)
    ensures StartsChar(s + rest) && Matched(s + rest) == Matched(s)
    ensures (s + rest)[Matched(s)..] == s[Matched(s)..] + rest
    ensures StartsChar(s[..Matched(s)]) && Matched(s[..Matched(s)]) == Matched(s)
  {}

  lemma {:induction false} ValidConcat(s: Text, t: Text)
    requires ValidUtf8(s) && ValidUtf8(t)
    ensures ValidUtf8(s + t)
    decreases |s|
  {
    if s == [] {
      assert s + t == t;
    } else {
      StartsAlike(s, t);
      ValidConcat(s[Matched(s)..], t);
    }
  }

  lemma OneCharValid(s: Text)
    requires StartsChar(s)
    ensures ValidUtf8(s[..Matched(s)])
  {
    StartsAlike(s, []);
    assert s[..Matched(s)][Matched(s)..] == [];
  }

  /** Lossy decoding gives well-formed text whatever the bytes. */
  lemma {:induction false} LossyIsValid(s: Text)
    ensures ValidUtf8(DecodeLossy(s))
    decreases |s|
  {
    if s != [] {
      var n := if Matched(s) == 0 then 1 else Matched(s);
      LossyIsValid(s[n..]);
      if StartsChar(s) {
        OneCharValid(s);
        ValidConcat(s[..n], DecodeLossy(s[n..]));
      } else {
        assert REPLACEMENT[3..] == [];
        assert ValidUtf8(REPLACEMENT);
        ValidConcat(REPLACEMENT, DecodeLossy(s[n..]));
      }
    }
  }

  /** Lossy decoding changes nothing exactly on well-formed text. */
  lemma {:induction false} LossyKeepsExactlyValid(s: Text)
    ensures ValidUtf8(DecodeLossy(s))
    ensures DecodeLossy(s) == s <==> ValidUtf8(s)
  {
    LossyIsValid(s);
    if ValidUtf8(s) { LossyKeepsValid(s); }
  }

  /** A well-formed text can be cut in front of an ASCII byte: no character is split. */
  lemma {:induction false} CutBeforeAscii(s: Text, i: nat)
    requires ValidUtf8(s) && i <= |s| && (i < |s| ==> s[i] < 0x80)
    ensures ValidUtf8(s[..i]) && ValidUtf8(s[i..])
    decreases |s|
  {
    if i > 0 {
      var n := Matched(s);
      var first, rest := s[..n], s[n..];
      assert n <= i;
      CutBeforeAscii(rest, i - n);
      assert rest[i - n..] == s[i..];
      OneCharValid(s);
      ValidConcat(first, rest[..i - n]);
      assert rest[..i - n] == s[n..i];
      assert s[..i] == first + s[n..i];
    }
  }

  // ----- percent decoding undoes percent encoding -----

  /** A hexadecimal digit, with letters in either case. */
  function HexOf(n: nat, upper: bool): byte
    requires n < 16
  {
    if n < 10 then (0x30 + n) as byte
    else if upper then (0x41 + n - 10) as byte
    else (0x61 + n - 10) as byte
  }

  /** Every byte written as a percent sign and two digits, except where `plain` allows it as it is. */
  function PercentEncode(s: Text, plain: set<byte>, upper: bool): Text {
    if s == [] then []
    else
      (if s[0] in plain then [s[0]]
       else [PERCENT, HexOf(s[0] as nat / 16, upper), HexOf(s[0] as nat % 16, upper)])
      + PercentEncode(s[1..], plain, upper)
  }

  lemma HexRoundTrip(n: nat, upper: bool)
    requires n < 16
    ensures HexDigit(HexOf(n, upper)) == Some(n as byte)
  {}

  /** Decoding undoes any encoding that does not leave percent signs as they are. */
  lemma {:induction false} DecodeUndoesEncode(s: Text, plain: set<byte>, upper: bool)
    requires PERCENT !in plain
    ensures PercentDecode(PercentEncode(s, plain, upper)) == s
  {
    if s != [] {
      var rest := PercentEncode(s[1..], plain, upper);
      DecodeUndoesEncode(s[1..], plain, upper);
      if s[0] in plain {
        assert ([s[0]] + rest)[1..] == rest;
      } else {
        EscapeDecodes(s[0], upper, upper, rest);
      }
    }
  }

  /** What a text of a URL is written with: bytes that stand for themselves, and escapes. */
  datatype Token = Plain(b: byte) | Escape(b: byte, upperHigh: bool, upperLow: bool) {
    function Written(): Text {
      match this
      case Plain(b) => [b]
      case Escape(b, upperHigh, upperLow) =>
        [PERCENT, HexOf(b as nat / 16, upperHigh), HexOf(b as nat % 16, upperLow)]
    }
  }

  function Written(tokens: seq<Token>): Text {
    if tokens == [] then [] else tokens[0].Written() + Written(tokens[1..])
  }

  function Meant(tokens: seq<Token>): Text {
    if tokens == [] then [] else [tokens[0].b] + Meant(tokens[1..])
  }

  predicate StartsEscape(s: Text) {
    |s| >= 3 && s[0] == PERCENT && HexDigit(s[1]).Some? && HexDigit(s[2]).Some?
  }

  /** No plain percent sign is followed by two digits, so that there is one way to read the tokens. */
  predicate Legible(tokens: seq<Token>) {
    tokens != [] ==> (tokens[0].Plain? ==> !StartsEscape(Written(tokens))) && Legible(tokens[1..])
  }

  lemma EscapeDecodes(b: byte, upperHigh: bool, upperLow: bool, rest: Text)
    ensures var s := Escape(b, upperHigh, upperLow).Written() + rest;
      StartsEscape(s) && PercentDecode(s) == [b] + PercentDecode(rest)
  {
    var hi, lo := b as nat / 16, b as nat % 16;
    var code := Escape(b, upperHigh, upperLow).Written();
    HexRoundTrip(hi, upperHigh);
    HexRoundTrip(lo, upperLow);
    assert hi * 16 + lo == b as nat;
    assert (code + rest)[3..] == rest;
  }

  lemma {:induction false} DecodeWritten(tokens: seq<Token>)
    requires Legible(tokens)
    ensures PercentDecode(Written(tokens)) == Meant(tokens)
  {
    if tokens != [] {
      var rest := Written(tokens[1..]);
      DecodeWritten(tokens[1..]);
      match tokens[0]
      case Plain(b) => assert ([b] + rest)[1..] == rest;
      case Escape(b, upperHigh, upperLow) => EscapeDecodes(b, upperHigh, upperLow, rest);
    }
  }

  lemma HexOfDigit(b: byte)
    requires HexDigit(b).Some?
    ensures HexDigit(b).value < 16 && HexOf(HexDigit(b).value as nat, b <= 0x46) == b
  {}

  lemma EscapeAhead(s: Text) returns (token: Token)
    requires StartsEscape(s)
    ensures token.Escape? && s == token.Written() + s[3..]
  {
    var hi, lo := HexDigit(s[1]).value, HexDigit(s[2]).value;
    HexOfDigit(s[1]);
    HexOfDigit(s[2]);
    var b := hi as nat * 16 + lo as nat;
    assert b / 16 == hi as nat && b % 16 == lo as nat;
    token := Escape(b as byte, s[1] <= 0x46, s[2] <= 0x46);
    assert token.Written() == s[..3];
  }

  /** Every text can be read as tokens. */
  lemma {:induction false} EveryTextIsWritten(s: Text) returns (tokens: seq<Token>)
    ensures Legible(tokens) && Written(tokens) == s
    decreases |s|
  {
    tokens := [];
    if s != [] {
      var first := Plain(s[0]);
      if StartsEscape(s) { first := EscapeAhead(s); }
      var rest := EveryTextIsWritten(s[|first.Written()|..]);
      tokens := [first] + rest;
      assert tokens[1..] == rest;
      assert s == first.Written() + Written(rest);
    }
  }

  /** Percent decoding reads every text as the tokens it is written with, in the only way there is. */
  lemma PercentDecodeExactly(s: Text)
    ensures exists tokens: seq<Token> :: Legible(tokens) && Written(tokens) == s
    ensures forall tokens: seq<Token> :: Legible(tokens) && Written(tokens) == s ==> PercentDecode(s) == Meant(tokens)
  {
    var tokens := EveryTextIsWritten(s);
    forall tokens: seq<Token> | Legible(tokens) && Written(tokens) == s ensures PercentDecode(s) == Meant(tokens) {
      DecodeWritten(tokens);
    }
  }

  /** A segment reads as the text that it encodes. */
  lemma EncodedSegmentReads(s: Text, plain: set<byte>, upper: bool)
    requires ValidUtf8(s) && PERCENT !in plain
    ensures DecodedText(PercentEncode(s, plain, upper)) == s
  {
    DecodeUndoesEncode(s, plain, upper);
    LossyKeepsValid(s);
  }

  /** An encoding has only slashes that the text has and that are left as they are. */
  lemma {:induction false} EncodedSlashes(s: Text, plain: set<byte>, upper: bool, b: byte)
    requires b == 0x2F && !(b in s && b in plain)
    ensures b !in PercentEncode(s, plain, upper)
    ensures s != [] ==> PercentEncode(s, plain, upper) != []
  {
    if s != [] {
      assert s[0] in s;
      EncodedSlashes(s[1..], plain, upper, b);
    }
  }

  // ----- well-formed text is the encoding of characters -----

  /** A Unicode scalar value. */
  predicate IsScalar(c: nat) { c < 0xD800 || 0xE000 <= c <= 0x10FFFF }

  function Trailing(n: nat): byte { (0x80 + n % 64) as byte }

  /** The table of section 3 of RFC 3629. */
  function EncodeScalar(c: nat): Text
    requires IsScalar(c)
  {
    if c < 0x80 then [c as byte]
    else if c < 0x800 then [(0xC0 + c / 64) as byte, Trailing(c)]
    else if c < 0x10000 then [(0xE0 + c / 4096) as byte, Trailing(c / 64), Trailing(c)]
    else [(0xF0 + c / 262144) as byte, Trailing(c / 4096), Trailing(c / 64), Trailing(c)]
  }

  lemma ScalarStartsChar(c: nat, rest: Text)
    requires IsScalar(c)
    ensures StartsChar(EncodeScalar(c) + rest) && Matched(EncodeScalar(c) + rest) == |EncodeScalar(c)|
  {}

  /** The digits of a number in base 64. */
  lemma Base64Digits(w: nat, x: nat, y: nat, z: nat)
    requires x < 64 && y < 64 && z < 64
    ensures var c := w * 262144 + x * 4096 + y * 64 + z;
      c % 64 == z && c / 64 % 64 == y && c / 4096 % 64 == x && c / 262144 == w
  {
    var high := w * 64 + x;
    var upper := high * 64 + y;
    Digit64(upper, z);
    Digit64(high, y);
    Digit64(w, x);
  }

  lemma Digit64(high: nat, low: nat)
    requires low < 64
    ensures (high * 64 + low) / 64 == high && (high * 64 + low) % 64 == low
  {}

  lemma CharIsScalar(s: Text) returns (c: nat)
    requires StartsChar(s)
    ensures IsScalar(c) && EncodeScalar(c) == s[..Matched(s)]
  {
    var n := Matched(s);
    var a := s[0] as nat;
    if n == 1 {
      c := a;
    } else if n == 2 {
      c := TwoByteChar(s[0], s[1]);
    } else if n == 3 {
      c := ThreeByteChar(s[0], s[1], s[2]);
    } else {
      c := FourByteChar(s[0], s[1], s[2], s[3]);
    }
  }

  lemma TwoByteChar(b0: byte, b1: byte) returns (c: nat)
    requires CharLen(b0) == 2 && SecondOk(b0, b1)
    ensures IsScalar(c) && EncodeScalar(c) == [b0, b1]
  {
    var y, z := b0 as nat - 0xC0, b1 as nat - 0x80;
    c := y * 64 + z;
    Base64Digits(0, 0, y, z);
  }

  lemma ThreeByteChar(b0: byte, b1: byte, b2: byte) returns (c: nat)
    requires CharLen(b0) == 3 && SecondOk(b0, b1) && Continues(b2)
    ensures IsScalar(c) && EncodeScalar(c) == [b0, b1, b2]
  {
    var x, y, z := b0 as nat - 0xE0, b1 as nat - 0x80, b2 as nat - 0x80;
    c := x * 4096 + y * 64 + z;
    Base64Digits(0, x, y, z);
  }

  lemma FourByteChar(b0: byte, b1: byte, b2: byte, b3: byte) returns (c: nat)
    requires CharLen(b0) == 4 && SecondOk(b0, b1) && Continues(b2) && Continues(b3)
    ensures IsScalar(c) && EncodeScalar(c) == [b0, b1, b2, b3]
  {
    var w, x, y, z := b0 as nat - 0xF0, b1 as nat - 0x80, b2 as nat - 0x80, b3 as nat - 0x80;
    c := w * 262144 + x * 4096 + y * 64 + z;
    Base64Digits(w, x, y, z);
  }

  predicate AreScalars(cs: seq<nat>) { forall k :: 0 <= k < |cs| ==> IsScalar(cs[k]) }

  function Encode(cs: seq<nat>): Text
    requires AreScalars(cs)
  {
    if cs == [] then [] else EncodeScalar(cs[0]) + Encode(cs[1..])
  }

  lemma {:induction false} EncodedIsValid(cs: seq<nat>)
    requires AreScalars(cs)
    ensures ValidUtf8(Encode(cs))
  {
    if cs != [] {
      EncodedIsValid(cs[1..]);
      var first, rest := EncodeScalar(cs[0]), Encode(cs[1..]);
      ScalarStartsChar(cs[0], rest);
      assert (first + rest)[|first|..] == rest;
    }
  }

  lemma {:induction false} ValidIsEncoded(s: Text) returns (cs: seq<nat>)
    requires ValidUtf8(s)
    ensures AreScalars(cs) && Encode(cs) == s
  {
    cs := [];
    if s != [] {
      var c := CharIsScalar(s);
      var rest := ValidIsEncoded(s[Matched(s)..]);
      cs := [c] + rest;
      assert cs[1..] == rest;
      assert s == s[..Matched(s)] + s[Matched(s)..];
    }
  }

  /** The check accepts exactly the encodings of sequences of characters. */
  lemma ValidExactlyEncoded(s: Text)
    ensures ValidUtf8(s) <==> exists cs: seq<nat> :: AreScalars(cs) && Encode(cs) == s
  {
    if ValidUtf8(s) {
      var cs := ValidIsEncoded(s);
    }
    if cs: seq<nat> :| AreScalars(cs) && Encode(cs) == s {
      EncodedIsValid(cs);
    }
  }

  // ----- what becomes of ill-formed bytes -----

  predicate IsPrefix(t: Text, s: Text) { |t| <= |s| && s[..|t|] == t }

  /** The beginning of a character that stops short of its end. */
  ghost predicate Truncated(t: Text) {
    exists c: nat :: IsScalar(c) && |t| < |EncodeScalar(c)| && IsPrefix(t, EncodeScalar(c))
  }

  /** A whole character is kept. */
  lemma LossyKeepsChar(c: nat, rest: Text)
    requires IsScalar(c)
    ensures DecodeLossy(EncodeScalar(c) + rest) == EncodeScalar(c) + DecodeLossy(rest)
  {
    var first := EncodeScalar(c);
    ScalarStartsChar(c, rest);
    assert (first + rest)[..|first|] == first && (first + rest)[|first|..] == rest;
  }

  lemma NoCharBegins(s: Text)
    requires forall c: nat :: IsScalar(c) ==> !IsPrefix(EncodeScalar(c), s)
    ensures !StartsChar(s)
  {
    if StartsChar(s) {
      var c := CharIsScalar(s);
      assert false;
    }
  }

  /** A second byte that can follow the first one. */
  function SomeSecond(lead: byte): byte {
    if lead == 0xE0 then 0xA0 else if lead == 0xF0 then 0x90 else 0x80
  }

  lemma CompletedIsTruncated(t: Text, whole: Text)
    requires StartsChar(whole) && Matched(whole) == |whole| && |t| < |whole| && IsPrefix(t, whole)
    ensures Truncated(t)
  {
    var c := CharIsScalar(whole);
    assert whole[..|whole|] == whole;
  }

  /** What is matched of an ill-formed stretch could have gone on to be a character. */
  lemma MatchedIsTruncated(s: Text)
    requires s != [] && !StartsChar(s) && Matched(s) > 0
    ensures Truncated(s[..Matched(s)])
  {
    var n, len := Matched(s), CharLen(s[0]);
    var second := if n == 1 then SomeSecond(s[0]) else s[1];
    var third := if n <= 2 then 0x80 else s[2];
    var whole: Text :=
      if len == 2 then [s[0], second] else if len == 3 then [s[0], second, third] else [s[0], second, third, 0x80];
    assert IsPrefix(s[..n], whole);
    CompletedIsTruncated(s[..n], whole);
  }

  /** Nothing longer could have. */
  lemma NothingLonger(s: Text, m: nat)
    requires s != [] && !StartsChar(s) && Matched(s) < m <= |s| && 1 < m
    ensures !Truncated(s[..m])
  {
    if Truncated(s[..m]) {
      var c: nat :| IsScalar(c) && m < |EncodeScalar(c)| && IsPrefix(s[..m], EncodeScalar(c));
      var whole := EncodeScalar(c);
      ScalarStartsChar(c, []);
      assert whole + [] == whole;
      assert forall k :: 0 <= k < m ==> s[k] == s[..m][k] == whole[k];
    }
  }

  /**
    Where no character begins, the longest stretch that could have become one, or else one byte, is
    replaced by U+FFFD, and decoding goes on after it.
   */
  lemma LossyReplacesStretch(s: Text) returns (n: nat)
    requires s != [] && forall c: nat :: IsScalar(c) ==> !IsPrefix(EncodeScalar(c), s)
    ensures 1 <= n <= |s| && (n == 1 || Truncated(s[..n]))
    ensures forall m :: n < m <= |s| ==> !Truncated(s[..m])
    ensures DecodeLossy(s) == [0xEF, 0xBF, 0xBD] + DecodeLossy(s[n..])
  {
    NoCharBegins(s);
    n := if Matched(s) == 0 then 1 else Matched(s);
    if Matched(s) > 0 { MatchedIsTruncated(s); }
    forall m | n < m <= |s| ensures !Truncated(s[..m]) {
      NothingLonger(s, m);
    }
  }
}
