/**
  Origin checking and preflight requests (src/security/origin.rs): what a wrapped filter is asked, and
  what is answered in its place.
 */
module Cors {
  import opened Wrappers
  import opened Strings
  import opened Http

  const VARY_ORIGIN_METHOD_HEADERS := "Origin, Access-Control-Request-Method, Access-Control-Request-Headers"
  const VARY_METHOD_HEADERS := "Access-Control-Request-Method, Access-Control-Request-Headers"

  // ----- configuration -----

  datatype Config = Config(
    origins: Option<seq<string>>,
    methods: seq<string>,
    allowHeaders: seq<string>,
    exposeHeaders: seq<string>,
    maxAge: Option<nat>,
    credentials: bool)
  {
    /** What the builder and `apply` establish. */
    predicate Valid() {
      && methods != []
      && (forall m :: m in methods ==> IsToken(m) && m != "OPTIONS")
      && (forall h :: h in allowHeaders + exposeHeaders ==> IsToken(h) && Lower(h) == h)
      && (origins.Some? ==> origins.value != [])
    }
  }

  type ValidConfig = c: Config | c.Valid() witness Config(None, ["GET"], [], [], None, false)

  /** Characters of a token (section 5.6.2 of RFC 9110). */
  predicate TokenChar(c: char) {
    '!' <= c <= '~' && c !in "\"(),/:;<=>?@[\\]{}"
  }

  predicate IsToken(s: string) { s != [] && forall c :: c in s ==> TokenChar(c) }

  function LowerChar(c: char): char { if 'A' <= c <= 'Z' then c - 'A' + 'a' else c }

  /** Header names compare without regard to ASCII case. */
  function Lower(s: string): (t: string)
    ensures |t| == |s| && forall k :: 0 <= k < |s| ==> t[k] == LowerChar(s[k])
  {
    if s == [] then [] else [LowerChar(s[0])] + Lower(s[1..])
  }

  /** The same character but for the case of an ASCII letter. */
  predicate SameLetter(c: char, d: char) {
    || c == d
    || ('A' <= c <= 'Z' && d as int == c as int + 32)
    || ('A' <= d <= 'Z' && c as int == d as int + 32)
  }

  lemma SameLowerChar(c: char, d: char)
    ensures LowerChar(c) == LowerChar(d) <==> SameLetter(c, d)
  {
    assert LowerChar(c) as int == if 'A' <= c <= 'Z' then c as int + 32 else c as int;
    assert LowerChar(d) as int == if 'A' <= d <= 'Z' then d as int + 32 else d as int;
  }

  predicate SameText(s: string, t: string) {
    if s == [] || t == [] then s == t else SameLetter(s[0], t[0]) && SameText(s[1..], t[1..])
  }

  lemma SameCons(c: char, d: char, s: string, t: string)
    ensures [c] + s == [d] + t <==> c == d && s == t
  {
    assert ([c] + s)[0] == c && ([c] + s)[1..] == s;
    assert ([d] + t)[0] == d && ([d] + t)[1..] == t;
  }

  /** Two names are the same in lower case exactly if they differ at most in the case of letters. */
  lemma {:induction false} SameLower(s: string, t: string)
    ensures Lower(s) == Lower(t) <==> SameText(s, t)
  {
    if s != [] && t != [] {
      SameLowerChar(s[0], t[0]);
      SameLower(s[1..], t[1..]);
      SameCons(LowerChar(s[0]), LowerChar(t[0]), Lower(s[1..]), Lower(t[1..]));
    }
  }

  /** One call on the builder; a method or header name has already been validated by its type. */
  datatype BuilderCall =
    | AddOrigin(origin: string)
    | AnyOrigin
    | AddMethod(verb: string)
    | AllowHeader(name: string)
    | ExposeHeader(name: string)
    | SetMaxAge(seconds: nat)
    | SetCredentials
  {
    /** The calls that do not panic. */
    predicate Accepted() {
      match this
      case AddMethod(verb) => IsToken(verb) && verb != "OPTIONS"
      case AllowHeader(name) => IsToken(name)
      case ExposeHeader(name) => IsToken(name)
      case _ => true
    }
  }

  const NEW_CONFIG := Config(Some([]), [], [], [], None, false)

  function PushNew(list: seq<string>, s: string): seq<string> {
    if s in list then list else list + [s]
  }

  function Apply(config: Config, call: BuilderCall): Config {
    match call
    case AddOrigin(origin) =>
      config.(origins := Some((if config.origins.Some? then config.origins.value else []) + [origin]))
    case AnyOrigin => config.(origins := None)
    case AddMethod(verb) => config.(methods := PushNew(config.methods, verb))
    case AllowHeader(name) => config.(allowHeaders := PushNew(config.allowHeaders, Lower(name)))
    case ExposeHeader(name) => config.(exposeHeaders := PushNew(config.exposeHeaders, Lower(name)))
    case SetMaxAge(seconds) => config.(maxAge := Some(seconds))
    case SetCredentials => config.(credentials := true)
  }

  function Build(calls: seq<BuilderCall>): Config {
    if calls == [] then NEW_CONFIG else Apply(Build(calls[..|calls| - 1]), calls[|calls| - 1])
  }

  lemma LowerToken(s: string)
    requires IsToken(s)
    ensures IsToken(Lower(s)) && Lower(Lower(s)) == Lower(s)
  {
    forall c | c in Lower(s) ensures TokenChar(c) {
      var k :| 0 <= k < |s| && c == LowerChar(s[k]);
      assert s[k] in s;
    }
  }

  /** Every configuration the builder can make, and `apply` accepts, is valid. */
  lemma {:induction false} BuiltConfigsAreValid(calls: seq<BuilderCall>)
    requires forall k :: 0 <= k < |calls| ==> calls[k].Accepted()
    ensures var c := Build(calls);
      && (forall m :: m in c.methods ==> IsToken(m) && m != "OPTIONS")
      && (forall h :: h in c.allowHeaders + c.exposeHeaders ==> IsToken(h) && Lower(h) == h)
      && (c.methods != [] && (c.origins.Some? ==> c.origins.value != []) ==> c.Valid())
      && (c.methods != [] <==> exists k :: 0 <= k < |calls| && calls[k].AddMethod?)
  {
    if calls != [] {
      var init, last := calls[..|calls| - 1], calls[|calls| - 1];
      BuiltConfigsAreValid(init);
      if last.AllowHeader? { LowerToken(last.name); }
      if last.ExposeHeader? { LowerToken(last.name); }
    }
  }

  // ----- header maps -----

  predicate Absent(entries: seq<Header>, name: HeaderName) { forall h :: h in entries ==> h.name != name }

  function Without(entries: seq<Header>, name: HeaderName): (rest: seq<Header>)
    ensures Absent(rest, name)
    ensures Absent(entries, name) ==> rest == entries
  {
    if entries == [] then []
    else if entries[0].name == name then Without(entries[1..], name)
    else [entries[0]] + Without(entries[1..], name)
  }

  function Inserted(entries: seq<Header>, name: HeaderName, value: string): seq<Header> {
    Without(entries, name) + [Header(name, value)]
  }

  class HeaderMap {
    var entries: seq<Header>

    constructor ()
      ensures entries == []
    {
      entries := [];
    }

    /** Replaces all values of the name. */
    method Insert(name: HeaderName, value: string)
      modifies this
      ensures entries == Inserted(old(entries), name, value)
    {
      entries := Without(entries, name) + [Header(name, value)];
    }

    /** Adds one more value of the name. */
    method Append(name: HeaderName, value: string)
      modifies this
      ensures entries == old(entries) + [Header(name, value)]
    {
      entries := entries + [Header(name, value)];
    }
  }

  method JoinToHeaderValue(values: seq<string>) returns (s: string)
    requires values != []
    ensures s == Join(values, ", ")
  {
    s := values[0];
    assert values[..1] == [values[0]];
    for i := 1 to |values|
      invariant s == Join(values[..i], ", ")
    {
      JoinSnoc(values[..i], values[i], ", ");
      assert values[..i + 1] == values[..i] + [values[i]];
      Associate(s, ", ", values[i]);
      s := s + ", ";
      s := s + values[i];
    }
    assert values[..|values|] == values;
  }

  function Decimal(n: nat): string {
    if n < 10 then ["0123456789"[n]] else Decimal(n / 10) + ["0123456789"[n % 10]]
  }

  /** Reading decimal digits, the inverse of writing them. */
  function DecimalValue(s: string): nat {
    if s == [] then 0
    else
      var last := s[|s| - 1];
      DecimalValue(s[..|s| - 1]) * 10 + if '0' <= last <= '9' then (last - '0') as nat else 0
  }

  lemma {:induction false} DecimalRoundTrip(n: nat)
    ensures Decimal(n) != [] && DecimalValue(Decimal(n)) == n
    ensures forall c :: c in Decimal(n) ==> '0' <= c <= '9'
    ensures Decimal(n)[0] == '0' ==> n == 0 && |Decimal(n)| == 1
  {
    if n >= 10 {
      DecimalRoundTrip(n / 10);
      assert Decimal(n)[..|Decimal(n)| - 1] == Decimal(n / 10);
    } else {
      assert DecimalValue([]) == 0;
    }
  }

  /** A header that is only there under a condition. */
  function When(condition: bool, name: HeaderName, value: string): seq<Header> {
    if condition then [Header(name, value)] else []
  }

  /** The headers of every preflight reply, before the origin is looked at. */
  function PreflightHeadersOf(c: Config): seq<Header> { PolicyHeaders(c) + ExtraHeaders(c) }

  function PolicyHeaders(c: Config): seq<Header> {
    When(c.origins.None?, AllowOrigin, "*")
    + When(true, Vary, VaryOf(c))
    + When(true, AllowMethods, Join(c.methods, ", "))
    + When(c.allowHeaders != [], AllowHeaders, Join(c.allowHeaders, ", "))
  }

  function ExtraHeaders(c: Config): seq<Header> {
    When(c.exposeHeaders != [], ExposeHeaders, Join(c.exposeHeaders, ", ")) + SharingHeaders(c)
  }

  function SharingHeaders(c: Config): seq<Header> {
    When(c.credentials, AllowCredentials, "true")
    + When(c.maxAge.Some?, MaxAge, if c.maxAge.Some? then Decimal(c.maxAge.value) else "")
  }

  function VaryOf(c: Config): string {
    if c.origins.Some? then VARY_ORIGIN_METHOD_HEADERS else VARY_METHOD_HEADERS
  }

  method PreflightHeaders(c: Config) returns (headers: HeaderMap)
    requires c.methods != []
    ensures fresh(headers) && headers.entries == PreflightHeadersOf(c)
  {
    headers := new HeaderMap();
    InsertPolicy(c, headers);
    NoExtrasYet(c);
    InsertExtras(c, headers);
  }

  lemma NoExtrasYet(c: Config)
    ensures Absent(PolicyHeaders(c), ExposeHeaders)
    ensures Absent(PolicyHeaders(c), AllowCredentials)
    ensures Absent(PolicyHeaders(c), MaxAge)
  {
    forall h | h in PolicyHeaders(c) ensures h.name in {AllowOrigin, Vary, AllowMethods, AllowHeaders} {}
  }

  method InsertPolicy(c: Config, headers: HeaderMap)
    requires c.methods != [] && headers.entries == []
    modifies headers
    ensures headers.entries == PolicyHeaders(c)
  {
    InsertOrigins(c, headers);
    var methods := JoinToHeaderValue(c.methods);
    headers.Insert(AllowMethods, methods);
    if c.allowHeaders != [] {
      var allowed := JoinToHeaderValue(c.allowHeaders);
      headers.Insert(AllowHeaders, allowed);
    }
  }

  method InsertOrigins(c: Config, headers: HeaderMap)
    requires headers.entries == []
    modifies headers
    ensures headers.entries == When(c.origins.None?, AllowOrigin, "*") + When(true, Vary, VaryOf(c))
  {
    match c.origins {
      case Some(_) =>
        headers.Insert(Vary, VARY_ORIGIN_METHOD_HEADERS);
      case None =>
        headers.Insert(AllowOrigin, "*");
        headers.Insert(Vary, VARY_METHOD_HEADERS);
    }
  }

  method InsertExtras(c: Config, headers: HeaderMap)
    requires Absent(headers.entries, ExposeHeaders)
    requires Absent(headers.entries, AllowCredentials)
    requires Absent(headers.entries, MaxAge)
    modifies headers
    ensures headers.entries == old(headers.entries) + ExtraHeaders(c)
  {
    ghost var policy := headers.entries;
    if c.exposeHeaders != [] {
      var exposed := JoinToHeaderValue(c.exposeHeaders);
      headers.Insert(ExposeHeaders, exposed);
    }
    ghost var exposes := When(c.exposeHeaders != [], ExposeHeaders, Join(c.exposeHeaders, ", "));
    assert headers.entries == policy + exposes;
    InsertSharing(c, headers);
    assert headers.entries == policy + (exposes + SharingHeaders(c));
  }

  method InsertSharing(c: Config, headers: HeaderMap)
    requires Absent(headers.entries, AllowCredentials)
    requires Absent(headers.entries, MaxAge)
    modifies headers
    ensures headers.entries == old(headers.entries) + SharingHeaders(c)
  {
    if c.credentials {
      headers.Insert(AllowCredentials, "true");
    }
    if c.maxAge.Some? {
      headers.Insert(MaxAge, Decimal(c.maxAge.value));
    }
  }

  // ----- the preflight decision -----

  datatype OriginCheck = Allowed | Disallowed | Any

  function CheckOrigin(c: Config, origin: string): OriginCheck {
    match c.origins
    case None => Any
    case Some(origins) => if origin in origins then Allowed else Disallowed
  }

  /** `HeaderValue::to_str` succeeds on visible ASCII, spaces and tabs. */
  predicate IsStr(s: string) { forall c :: c in s ==> ' ' <= c <= '~' || c == '\t' }

  /** One header name, in any case, with optional blanks around it. */
  predicate IsPadded(value: string, names: seq<string>) { Lower(Trim(value)) in names }

  /** What a preflight request is answered, in plain terms. */
  function PreflightStatus(c: Config, request: Request, origin: string): nat {
    if CheckOrigin(c, origin).Disallowed? then 403
    else match request.HeaderOf(RequestMethod)
      case None => 400
      case Some(verb) =>
        if verb !in c.methods then 403
        else if forall v :: v in request.HeaderAll(RequestHeaders) ==> IsPadded(v, c.allowHeaders) then 204
        else 403
  }

  function PreflightReply(c: Config, request: Request, origin: string): Response {
    Response(PreflightStatus(c, request, origin),
      PreflightHeadersOf(c) + When(CheckOrigin(c, origin).Allowed?, AllowOrigin, origin))
  }

  /** The maximal runs without blanks (`split_whitespace` on text that has no other white space). */
  function Tokens(s: string): seq<string>
    decreases |s|
  {
    if s == [] then []
    else if Blank(s[0]) then Tokens(s[1..])
    else var n := RunLength(s); [s[..n]] + Tokens(s[n..])
  }

  function RunLength(s: string): (n: nat)
    requires s != [] && !Blank(s[0])
    ensures 0 < n <= |s|
    ensures forall k :: 0 <= k < n ==> !Blank(s[k])
    ensures n < |s| ==> Blank(s[n])
  {
    if |s| > 1 && !Blank(s[1]) then 1 + RunLength(s[1..]) else 1
  }

  predicate AllNamed(parts: seq<string>, names: seq<string>) {
    forall k :: 0 <= k < |parts| ==> Lower(parts[k]) in names
  }

  // ----- why the two scans accept exactly the padded names -----

  predicate AllBlank(s: string) { forall c :: c in s ==> Blank(c) }

  lemma {:induction false} TrimLeftShape(s: string) returns (pad: string)
    ensures AllBlank(pad) && s == pad + TrimLeft(s)
  {
    pad := [];
    if s != [] && Blank(s[0]) {
      var rest := TrimLeftShape(s[1..]);
      pad := [s[0]] + rest;
      assert s == [s[0]] + s[1..];
    }
  }

  lemma {:induction false} TrimRightShape(s: string) returns (pad: string)
    ensures AllBlank(pad) && s == TrimRight(s) + pad
  {
    pad := [];
    if s != [] && Blank(s[|s| - 1]) {
      var rest := TrimRightShape(s[..|s| - 1]);
      pad := rest + [s[|s| - 1]];
      assert s == s[..|s| - 1] + [s[|s| - 1]];
    }
  }

  lemma {:induction false} RunOfWord(word: string, rest: string)
    requires word != [] && forall c :: c in word ==> !Blank(c)
    requires rest != [] ==> Blank(rest[0])
    ensures !Blank((word + rest)[0]) && RunLength(word + rest) == |word|
  {
    assert word[0] in word;
    if |word| > 1 {
      assert word[1] in word;
      assert (word + rest)[1..] == word[1..] + rest;
      RunOfWord(word[1..], rest);
    }
  }

  lemma {:induction false} TokensOfPadded(left: string, word: string, right: string)
    requires AllBlank(left) && AllBlank(right) && word != [] && forall c :: c in word ==> !Blank(c)
    ensures Tokens(left + word + right) == [word]
    decreases |left|
  {
    var s := left + word + right;
    if left == [] {
      assert right != [] ==> right[0] in right;
      RunOfWord(word, right);
      assert s == word + right && s[..|word|] == word && s[|word|..] == right;
      TokensOfBlank(right);
    } else {
      assert left[0] in left;
      assert s[0] == left[0] && s[1..] == left[1..] + word + right;
      TokensOfPadded(left[1..], word, right);
    }
  }

  lemma {:induction false} TokensOfBlank(s: string)
    requires AllBlank(s)
    ensures Tokens(s) == []
  {
    if s != [] {
      assert s[0] in s;
      TokensOfBlank(s[1..]);
    }
  }

  /** Every character that is not blank is in some token. */
  lemma {:induction false} TokensCover(s: string, c: char) returns (t: string)
    requires c in s && !Blank(c)
    ensures t in Tokens(s) && c in t
    decreases |s|
  {
    if Blank(s[0]) {
      t := TokensCover(s[1..], c);
    } else {
      var n := RunLength(s);
      assert s == s[..n] + s[n..];
      if c in s[..n] {
        t := s[..n];
      } else {
        t := TokensCover(s[n..], c);
      }
    }
  }

  lemma LowerOfToken(w: string)
    requires IsToken(Lower(w))
    ensures IsToken(w)
  {
    forall c | c in w ensures TokenChar(c) {
      var k :| 0 <= k < |w| && w[k] == c;
      assert Lower(w)[k] in Lower(w);
    }
  }

  /** A comma would be in some token, and no allowed name has a comma. */
  lemma NoComma(value: string, names: seq<string>)
    requires forall h :: h in names ==> IsToken(h)
    requires AllNamed(Tokens(value), names)
    ensures ',' !in value
  {
    if ',' in value {
      var t := TokensCover(value, ',');
      var i :| 0 <= i < |Tokens(value)| && Tokens(value)[i] == t;
      LowerOfToken(t);
    }
  }

  lemma TwoScansMeanPadded(value: string, names: seq<string>)
    requires forall h :: h in names ==> IsToken(h)
    ensures IsStr(value) && AllNamed(ParseList(value), names) && AllNamed(Tokens(value), names)
       <==> IsPadded(value, names)
  {
    if AllNamed(ParseList(value), names) && AllNamed(Tokens(value), names) {
      NoComma(value, names);
      ParseWord(value);
      assert ParseList(value)[0] == Trim(value);
    }
    if IsPadded(value, names) {
      PaddedPassesScans(value, names);
    }
  }

  lemma PaddedPassesScans(value: string, names: seq<string>)
    requires forall h :: h in names ==> IsToken(h)
    requires IsPadded(value, names)
    ensures IsStr(value) && AllNamed(ParseList(value), names) && AllNamed(Tokens(value), names)
  {
    var word := Trim(value);
    LowerOfToken(word);
    var left, right := TrimShape(value);
    forall c | c in value ensures (Blank(c) || TokenChar(c)) && c != ',' {
      assert c in left || c in word || c in right;
    }
    TokensOfPadded(left, word, right);
    ParseWord(value);
  }

  lemma TrimShape(s: string) returns (left: string, right: string)
    ensures AllBlank(left) && AllBlank(right) && s == left + Trim(s) + right
  {
    left := TrimLeftShape(s);
    right := TrimRightShape(TrimLeft(s));
    assert left + (Trim(s) + right) == left + Trim(s) + right;
  }

  lemma {:induction false} TrimLeftPadded(pad: string, s: string)
    requires AllBlank(pad) && (s == [] || !Blank(s[0]))
    ensures TrimLeft(pad + s) == s
  {
    if pad == [] {
      assert pad + s == s;
    } else {
      assert pad[0] in pad && (pad + s)[1..] == pad[1..] + s;
      TrimLeftPadded(pad[1..], s);
    }
  }

  lemma {:induction false} TrimRightPadded(s: string, pad: string)
    requires AllBlank(pad) && (s == [] || !Blank(s[|s| - 1]))
    ensures TrimRight(s + pad) == s
  {
    if pad == [] {
      assert s + pad == s;
    } else {
      var n := |pad| - 1;
      assert pad[n] in pad && (s + pad)[..|s| + n] == s + pad[..n];
      TrimRightPadded(s, pad[..n]);
    }
  }

  /** A header name written in a request: in any case, with any blanks around it. */
  ghost predicate Spells(value: string, name: string) {
    exists left: string, word: string, right: string ::
      AllBlank(left) && AllBlank(right) && value == left + word + right && Lower(word) == name
  }

  lemma PaddedMeans(value: string, names: seq<string>)
    requires forall h :: h in names ==> IsToken(h)
    ensures IsPadded(value, names) <==> exists name :: name in names && Spells(value, name)
  {
    if IsPadded(value, names) {
      var left, right := TrimShape(value);
      assert Spells(value, Lower(Trim(value)));
    }
    if name :| name in names && Spells(value, name) {
      var left: string, word: string, right: string :|
        AllBlank(left) && AllBlank(right) && value == left + word + right && Lower(word) == name;
      LowerOfToken(word);
      assert word[0] in word && word[|word| - 1] in word;
      TrimRightPadded(word, right);
      assert value == left + (word + right);
      TrimLeftPadded(left, word + right);
    }
  }

  // ----- what is advertised is what is enforced -----

  lemma ValuesOfWhen(condition: bool, name: HeaderName, value: string, asked: HeaderName)
    ensures ValuesOf(When(condition, name, value), asked) == if condition && name == asked then [value] else []
  {
    assert [Header(name, value)][1..] == [];
  }

  lemma ValuesOfPolicy(c: Config, asked: HeaderName)
    ensures ValuesOf(PolicyHeaders(c), asked) ==
      match asked
      case AllowOrigin => if c.origins.None? then ["*"] else []
      case Vary => [VaryOf(c)]
      case AllowMethods => [Join(c.methods, ", ")]
      case AllowHeaders => if c.allowHeaders == [] then [] else [Join(c.allowHeaders, ", ")]
      case _ => []
  {
    var one := When(c.origins.None?, AllowOrigin, "*");
    var two := one + When(true, Vary, VaryOf(c));
    var three := two + When(true, AllowMethods, Join(c.methods, ", "));
    ValuesOfWhen(c.origins.None?, AllowOrigin, "*", asked);
    ValuesOfSnoc(one, true, Vary, VaryOf(c), asked);
    ValuesOfSnoc(two, true, AllowMethods, Join(c.methods, ", "), asked);
    ValuesOfSnoc(three, c.allowHeaders != [], AllowHeaders, Join(c.allowHeaders, ", "), asked);
  }

  lemma ValuesOfExtras(c: Config, asked: HeaderName)
    ensures ValuesOf(ExtraHeaders(c), asked) ==
      match asked
      case ExposeHeaders => if c.exposeHeaders == [] then [] else [Join(c.exposeHeaders, ", ")]
      case AllowCredentials => if c.credentials then ["true"] else []
      case MaxAge => if c.maxAge.Some? then [Decimal(c.maxAge.value)] else []
      case _ => []
  {
    var exposes := When(c.exposeHeaders != [], ExposeHeaders, Join(c.exposeHeaders, ", "));
    ValuesOfConcat(exposes, SharingHeaders(c), asked);
    ValuesOfWhen(c.exposeHeaders != [], ExposeHeaders, Join(c.exposeHeaders, ", "), asked);
    ValuesOfWhen(c.credentials, AllowCredentials, "true", asked);
    ValuesOfSnoc(When(c.credentials, AllowCredentials, "true"), c.maxAge.Some?, MaxAge,
      if c.maxAge.Some? then Decimal(c.maxAge.value) else "", asked);
  }

  lemma ValuesOfReply(c: Config, request: Request, origin: string, asked: HeaderName)
    ensures ValuesOf(PreflightReply(c, request, origin).headers, asked) ==
      ValuesOf(PolicyHeaders(c), asked) + ValuesOf(ExtraHeaders(c), asked)
      + if CheckOrigin(c, origin).Allowed? && asked == AllowOrigin then [origin] else []
  {
    ValuesOfConcat(PolicyHeaders(c), ExtraHeaders(c), asked);
    ValuesOfSnoc(PreflightHeadersOf(c), CheckOrigin(c, origin).Allowed?, AllowOrigin, origin, asked);
    ValuesOfPolicy(c, asked);
    ValuesOfExtras(c, asked);
  }

  lemma ValuesOfSnoc(entries: seq<Header>, condition: bool, name: HeaderName, value: string, asked: HeaderName)
    ensures ValuesOf(entries + When(condition, name, value), asked)
         == ValuesOf(entries, asked) + (if condition && name == asked then [value] else [])
  {
    ValuesOfConcat(entries, When(condition, name, value), asked);
    ValuesOfWhen(condition, name, value, asked);
  }

  /** Reading back the list in a header of the reply; nothing when the header is missing. */
  function Advertised(reply: Response, name: HeaderName): seq<string> {
    var values := ValuesOf(reply.headers, name);
    if values == [] then [] else ParseList(values[0])
  }

  /** A preflight reply advertises exactly the configured methods and header names. */
  lemma AdvertisedIsConfigured(c: Config, request: Request, origin: string)
    requires c.Valid()
    ensures var reply := PreflightReply(c, request, origin);
      && Advertised(reply, AllowMethods) == c.methods
      && Advertised(reply, AllowHeaders) == c.allowHeaders
      && ValuesOf(reply.headers, AllowOrigin) ==
        match c.origins
        case None => ["*"]
        case Some(origins) => if origin in origins then [origin] else []
  {
    forall asked | asked in {AllowMethods, AllowHeaders, AllowOrigin}
      ensures ValuesOf(PreflightReply(c, request, origin).headers, asked) ==
        ValuesOf(PolicyHeaders(c), asked) + if CheckOrigin(c, origin).Allowed? && asked == AllowOrigin then [origin] else []
    {
      ValuesOfReply(c, request, origin, asked);
      ValuesOfExtras(c, asked);
    }
    ValuesOfPolicy(c, AllowMethods);
    ValuesOfPolicy(c, AllowHeaders);
    ValuesOfPolicy(c, AllowOrigin);
    ParseTokens(c.methods);
    if c.allowHeaders != [] { ParseTokens(c.allowHeaders); }
  }

  /**
    The rest of a preflight reply: credentials are allowed exactly if configured, the exposed headers
    and the seconds read back as configured, caches are told that the reply depends on the origin
    exactly if origins are listed, and nothing else is said.
   */
  lemma SharingIsConfigured(c: Config, request: Request, origin: string, other: HeaderName)
    requires c.Valid()
    requires other !in {AllowOrigin, AllowMethods, AllowHeaders, AllowCredentials, ExposeHeaders, MaxAge, Vary}
    ensures var reply := PreflightReply(c, request, origin);
      && ValuesOf(reply.headers, AllowCredentials) == (if c.credentials then ["true"] else [])
      && Advertised(reply, ExposeHeaders) == c.exposeHeaders
      && (match c.maxAge
          case None => ValuesOf(reply.headers, MaxAge) == []
          case Some(seconds) =>
            var values := ValuesOf(reply.headers, MaxAge);
            |values| == 1 && DecimalValue(values[0]) == seconds && forall d :: d in values[0] ==> '0' <= d <= '9')
      && ValuesOf(reply.headers, Vary) ==
        [if c.origins.Some? then "Origin, Access-Control-Request-Method, Access-Control-Request-Headers"
         else "Access-Control-Request-Method, Access-Control-Request-Headers"]
      && ValuesOf(reply.headers, other) == []
  {
    forall asked | asked in {AllowCredentials, ExposeHeaders, MaxAge, Vary, other}
      ensures ValuesOf(PreflightReply(c, request, origin).headers, asked) ==
        ValuesOf(PolicyHeaders(c), asked) + ValuesOf(ExtraHeaders(c), asked)
    {
      ValuesOfReply(c, request, origin, asked);
    }
    SharingValues(c, other);
    if c.exposeHeaders != [] { ParseTokens(c.exposeHeaders); }
    if c.maxAge.Some? { DecimalRoundTrip(c.maxAge.value); }
  }

  lemma SharingValues(c: Config, other: HeaderName)
    requires other !in {AllowOrigin, AllowMethods, AllowHeaders, AllowCredentials, ExposeHeaders, MaxAge, Vary}
    ensures ValuesOf(PolicyHeaders(c), Vary) == [VaryOf(c)] && ValuesOf(ExtraHeaders(c), Vary) == []
    ensures forall asked :: asked in {AllowCredentials, ExposeHeaders, MaxAge, other} ==> ValuesOf(PolicyHeaders(c), asked) == []
    ensures ValuesOf(ExtraHeaders(c), ExposeHeaders) == if c.exposeHeaders == [] then [] else [Join(c.exposeHeaders, ", ")]
    ensures ValuesOf(ExtraHeaders(c), AllowCredentials) == if c.credentials then ["true"] else []
    ensures ValuesOf(ExtraHeaders(c), MaxAge) == if c.maxAge.Some? then [Decimal(c.maxAge.value)] else []
    ensures ValuesOf(ExtraHeaders(c), other) == []
  {
    ValuesOfPolicy(c, Vary);
    ValuesOfExtras(c, Vary);
    forall asked | asked in {AllowCredentials, ExposeHeaders, MaxAge, other} ensures ValuesOf(PolicyHeaders(c), asked) == [] {
      ValuesOfPolicy(c, asked);
    }
    ValuesOfExtras(c, ExposeHeaders);
    ValuesOfExtras(c, AllowCredentials);
    ValuesOfExtras(c, MaxAge);
    ValuesOfExtras(c, other);
  }

  lemma ParseTokens(words: seq<string>)
    requires words != [] && forall w :: w in words ==> IsToken(w)
    ensures ParseList(Join(words, ", ")) == words
  {
    forall k | 0 <= k < |words| ensures IsWord(words[k]) {
      assert words[k] in words;
    }
    ParseJoined(words, []);
    assert [] + Join(words, ", ") == Join(words, ", ");
  }

  /**
    A preflight request is accepted exactly when its origin is allowed, its method is in the list the
    reply advertises, and each of its request header values is one advertised name, possibly padded
    with blanks. So a comma separated list of names, which browsers may send, is always refused.
   */
  lemma PreflightDecision(c: Config, request: Request, origin: string)
    requires c.Valid()
    ensures var reply := PreflightReply(c, request, origin);
      var verb := request.HeaderOf(RequestMethod);
      && (reply.status == 204 <==>
          && IsConfigured(c, origin)
          && verb.Some? && verb.value in Advertised(reply, AllowMethods)
          && forall v :: v in request.HeaderAll(RequestHeaders) ==>
               exists name :: name in Advertised(reply, AllowHeaders) && Spells(v, name))
      && (reply.status == 400 <==> IsConfigured(c, origin) && verb.None?)
      && (reply.status in {204, 400, 403})
      && ((exists v :: v in request.HeaderAll(RequestHeaders) && ',' in v) ==> reply.status != 204)
  {
    AdvertisedIsConfigured(c, request, origin);
    forall v ensures IsPadded(v, c.allowHeaders) <==> exists name :: name in c.allowHeaders && Spells(v, name) {
      PaddedMeans(v, c.allowHeaders);
    }
    forall v | IsPadded(v, c.allowHeaders) ensures ',' !in v {
      PaddedPassesScans(v, c.allowHeaders);
      NoComma(v, c.allowHeaders);
    }
  }

  // ----- the decision as the program takes it -----

  /** The scan of the pieces between commas. */
  method ScanPieces(value: string, names: seq<string>) returns (ok: bool)
    ensures ok <==> AllNamed(ParseList(value), names)
  {
    var pieces := Split(value, ',');
    TrimAllAt(pieces, 0);
    for i := 0 to |pieces|
      invariant AllNamed(TrimAll(pieces)[..i], names)
    {
      TrimAllAt(pieces, i);
      if Lower(Trim(pieces[i])) !in names {
        return false;
      }
    }
    assert TrimAll(pieces)[..|pieces|] == TrimAll(pieces);
    ok := true;
  }

  /** The scan of the parts between blanks. */
  method ScanTokens(value: string, names: seq<string>) returns (ok: bool)
    ensures ok <==> AllNamed(Tokens(value), names)
  {
    var tokens := Tokens(value);
    for i := 0 to |tokens|
      invariant AllNamed(tokens[..i], names)
    {
      if Lower(tokens[i]) !in names {
        return false;
      }
    }
    ok := true;
  }

  lemma {:induction false} TrimAllAt(pieces: seq<string>, i: nat)
    requires i < |pieces|
    ensures |TrimAll(pieces)| == |pieces| && TrimAll(pieces)[i] == Trim(pieces[i])
  {
    if |pieces| > 1 { TrimAllAt(pieces[1..], if i == 0 then 0 else i - 1); }
  }

  method PreflightImpl(c: Config, headers: HeaderMap, request: Request, origin: string)
    returns (r: Result<(), nat>)
    requires c.Valid()
    modifies headers
    ensures headers.entries == old(headers.entries) + When(CheckOrigin(c, origin).Allowed?, AllowOrigin, origin)
    ensures PreflightStatus(c, request, origin) == match r case Ok(_) => 204 case Err(status) => status
    ensures r.Err? ==> r.error != 204
  {
    match CheckOrigin(c, origin) {
      case Allowed => headers.Append(AllowOrigin, origin);
      case Disallowed => return Err(403);
      case Any =>
    }
    ghost var entries := headers.entries;
    assert entries == old(headers.entries) + When(CheckOrigin(c, origin).Allowed?, AllowOrigin, origin);
    var requestMethod := request.HeaderOf(RequestMethod);
    if requestMethod.None? {
      return Err(400);
    }
    if requestMethod.value !in c.methods {
      return Err(403);
    }
    var values := request.HeaderAll(RequestHeaders);
    for i := 0 to |values|
      invariant headers.entries == entries
      invariant forall k :: 0 <= k < i ==> IsPadded(values[k], c.allowHeaders)
    {
      assert values[i] in values;
      TwoScansMeanPadded(values[i], c.allowHeaders);
      if !IsStr(values[i]) {
        return Err(403);
      }
      var piecesOk := ScanPieces(values[i], c.allowHeaders);
      if !piecesOk {
        return Err(403);
      }
      var tokensOk := ScanTokens(values[i], c.allowHeaders);
      if !tokensOk {
        return Err(403);
      }
    }
    r := Ok(());
  }

  method Preflight(c: Config, request: Request, origin: string) returns (response: Response)
    requires c.Valid()
    ensures response == PreflightReply(c, request, origin)
  {
    var headers := PreflightHeaders(c);
    var r := PreflightImpl(c, headers, request, origin);
    response := Response(match r case Ok(_) => 204 case Err(status) => status, headers.entries);
  }

  // ----- the wrapped filter -----

  /** What is done to the response of the wrapped filter: `VaryOrigin` and `ApplyHeaders`. */
  datatype Decoration =
    | VaryOnly
    | Share(origin: string, expose: Option<string>, credentials: bool, vary: bool)

  /** Either an answer in place of the wrapped filter, or the filter runs and is decorated. */
  datatype Gate = Respond(response: Response) | Run(decoration: Decoration)

  const FORBIDDEN :=
    Response(403, [Header(ContentType, "text/plain; charset=utf-8"), Header(Vary, "origin")])

  function CorsGate(c: Config, request: Request): Gate {
    match request.HeaderOf(Origin)
    case None => Run(VaryOnly)
    case Some(origin) =>
      if request.verb == "OPTIONS" then Respond(PreflightReply(c, request, origin))
      else match CheckOrigin(c, origin)
        case Disallowed => Respond(FORBIDDEN)
        case Allowed => if request.verb in c.methods then Run(Sharing(c, origin, true)) else Respond(FORBIDDEN)
        case Any => if request.verb in c.methods then Run(Sharing(c, "*", false)) else Respond(FORBIDDEN)
  }

  predicate IsConfigured(c: Config, origin: string) { c.origins.Some? ==> origin in c.origins.value }

  /** Requests for the wrapped filter: not from another origin, or from a configured one by a configured method. */
  predicate Admitted(c: Config, request: Request) {
    match request.HeaderOf(Origin)
    case None => true
    case Some(origin) => IsConfigured(c, origin) && request.verb in c.methods
  }

  /**
    Exactly the admitted requests get to the wrapped filter. Others are answered: preflight requests
    according to the policy, everything else by a 403, and no origin is named that is not configured.
   */
  lemma GateMeans(c: Config, request: Request)
    requires c.Valid()
    ensures var gate := CorsGate(c, request);
      && (gate.Run? <==> Admitted(c, request))
      && (gate.Respond? ==>
          && request.HeaderOf(Origin).Some?
          && (gate.response.status == 403 || request.verb == "OPTIONS")
          && (request.verb != "OPTIONS" ==> ValuesOf(gate.response.headers, Vary) == ["origin"])
          && (ValuesOf(gate.response.headers, AllowOrigin) != [] ==>
              request.verb == "OPTIONS" && IsConfigured(c, request.HeaderOf(Origin).value)))
  {
    var header := request.HeaderOf(Origin);
    if header.Some? && request.verb == "OPTIONS" {
      AdvertisedIsConfigured(c, request, header.value);
    }
  }

  /** `Cors::execute` up to running the wrapped filter. */
  method DecideGate(c: Config, request: Request) returns (gate: Gate)
    requires c.Valid()
    ensures gate == CorsGate(c, request)
    ensures gate.Run? <==> Admitted(c, request)
    ensures gate.Respond? ==> gate.response.status == 403 || request.verb == "OPTIONS"
  {
    GateMeans(c, request);
    var header := request.HeaderOf(Origin);
    if header.None? {
      return Run(VaryOnly);
    }
    var origin := header.value;
    if request.verb == "OPTIONS" {
      var response := Preflight(c, request, origin);
      return Respond(response);
    }
    var check := CheckOrigin(c, origin);
    if check.Disallowed? {
      return Respond(FORBIDDEN);
    }
    var shared, vary := if check.Allowed? then origin else "*", check.Allowed?;
    if request.verb in c.methods {
      gate := Run(Sharing(c, shared, vary));
    } else {
      gate := Respond(FORBIDDEN);
    }
  }

  function Sharing(c: Config, origin: string, vary: bool): Decoration {
    Share(origin, if c.exposeHeaders == [] then None else Some(Join(c.exposeHeaders, ", ")), c.credentials, vary)
  }

  function Decorate(d: Decoration, response: Response): Response {
    match d
    case VaryOnly => response.(headers := response.headers + [Header(Vary, "origin")])
    case Share(origin, expose, credentials, vary) =>
      var shared := Inserted(response.headers, AllowOrigin, origin);
      var exposed := if expose.Some? then Inserted(shared, ExposeHeaders, expose.value) else shared;
      var credited := if credentials then Inserted(exposed, AllowCredentials, "true") else exposed;
      response.(headers := credited + When(vary, Vary, "origin"))
  }

  /**
    The preflight answer predicts the real request: an accepted preflight means that the request it
    announces reaches the wrapped filter, and the response shares with the origin that the preflight
    named; a preflight that announces no headers is accepted only then.
   */
  lemma PreflightPredictsRequest(c: Config, preflight: Request, actual: Request, origin: string)
    requires c.Valid()
    requires preflight.HeaderOf(Origin) == actual.HeaderOf(Origin) == Some(origin)
    requires preflight.verb == "OPTIONS" && preflight.HeaderOf(RequestMethod) == Some(actual.verb)
    ensures CorsGate(c, preflight).Respond?
    ensures CorsGate(c, preflight).response.status == 204 ==>
      && CorsGate(c, actual).Run? && CorsGate(c, actual).decoration.Share?
      && ValuesOf(CorsGate(c, preflight).response.headers, AllowOrigin) == [CorsGate(c, actual).decoration.origin]
    ensures preflight.HeaderAll(RequestHeaders) == [] ==>
      (CorsGate(c, preflight).response.status == 204 <==> CorsGate(c, actual).Run?)
  {
    AdvertisedIsConfigured(c, preflight, origin);
  }

  lemma {:induction false} ValuesOfWithout(entries: seq<Header>, name: HeaderName, asked: HeaderName)
    ensures ValuesOf(Without(entries, name), asked) == if asked == name then [] else ValuesOf(entries, asked)
  {
    if entries != [] {
      ValuesOfWithout(entries[1..], name, asked);
      if entries[0].name != name {
        assert ([entries[0]] + Without(entries[1..], name))[1..] == Without(entries[1..], name);
      }
    }
  }

  lemma ValuesOfInserted(entries: seq<Header>, name: HeaderName, value: string, asked: HeaderName)
    ensures ValuesOf(Inserted(entries, name, value), asked)
         == if asked == name then [value] else ValuesOf(entries, asked)
  {
    ValuesOfWithout(entries, name, asked);
    ValuesOfSnoc(Without(entries, name), true, name, value, asked);
  }

  /**
    Whatever headers the wrapped filter has set, a shared response names one origin, the one that was
    checked (or all), permits credentials and exposes headers only as configured on top of what the
    filter itself said, and tells caches when it depends on the origin. Other headers are untouched.
   */
  lemma SharedResponse(c: Config, origin: string, vary: bool, response: Response, other: HeaderName)
    requires other !in {AllowOrigin, ExposeHeaders, AllowCredentials, Vary}
    ensures var shared := Decorate(Sharing(c, origin, vary), response);
      && shared.status == response.status
      && ValuesOf(shared.headers, AllowOrigin) == [origin]
      && ValuesOf(shared.headers, ExposeHeaders)
        == (if c.exposeHeaders == [] then ValuesOf(response.headers, ExposeHeaders) else [Join(c.exposeHeaders, ", ")])
      && ValuesOf(shared.headers, AllowCredentials)
        == (if c.credentials then ["true"] else ValuesOf(response.headers, AllowCredentials))
      && ValuesOf(shared.headers, Vary) == ValuesOf(response.headers, Vary) + (if vary then ["origin"] else [])
      && ValuesOf(shared.headers, other) == ValuesOf(response.headers, other)
  {
    DecoratedValues(c, origin, vary, response, AllowOrigin);
    DecoratedValues(c, origin, vary, response, ExposeHeaders);
    DecoratedValues(c, origin, vary, response, AllowCredentials);
    DecoratedValues(c, origin, vary, response, Vary);
    DecoratedValues(c, origin, vary, response, other);
  }

  lemma DecoratedValues(c: Config, origin: string, vary: bool, response: Response, asked: HeaderName)
    ensures ValuesOf(Decorate(Sharing(c, origin, vary), response).headers, asked) ==
      (if asked == AllowOrigin then [origin]
       else if asked == ExposeHeaders && c.exposeHeaders != [] then [Join(c.exposeHeaders, ", ")]
       else if asked == AllowCredentials && c.credentials then ["true"]
       else ValuesOf(response.headers, asked)) + (if vary && asked == Vary then ["origin"] else [])
  {
    var exposes := Join(c.exposeHeaders, ", ");
    var shared := Inserted(response.headers, AllowOrigin, origin);
    var exposed := if c.exposeHeaders != [] then Inserted(shared, ExposeHeaders, exposes) else shared;
    var credited := if c.credentials then Inserted(exposed, AllowCredentials, "true") else exposed;
    ValuesOfInserted(response.headers, AllowOrigin, origin, asked);
    ValuesOfInserted(shared, ExposeHeaders, exposes, asked);
    ValuesOfInserted(exposed, AllowCredentials, "true", asked);
    ValuesOfSnoc(credited, vary, Vary, "origin", asked);
  }
}
