/**
  Why a filter did not match: `Forwarding` and its bit set of attempted methods (src/forward.rs).
 */
module Forwardings {
  import opened Wrappers
  import opened Strings

  datatype Method = GET | POST | PUT | DELETE | HEAD | OPTIONS | CONNECT | PATCH | TRACE {
    function Name(): string {
      match this
      case GET => "GET"
      case POST => "POST"
      case PUT => "PUT"
      case DELETE => "DELETE"
      case HEAD => "HEAD"
      case OPTIONS => "OPTIONS"
      case CONNECT => "CONNECT"
      case PATCH => "PATCH"
      case TRACE => "TRACE"
    }

    function Bit(): Attempted {
      match this
      case GET => 1
      case POST => 2
      case PUT => 4
      case DELETE => 8
      case HEAD => 16
      case OPTIONS => 32
      case CONNECT => 64
      case PATCH => 128
      case TRACE => 256
    }
  }

  /** `AttemptedMethods(u16)`. */
  type Attempted = bv16

  /** In the order in which `into_header_value` looks at them. */
  const METHODS: seq<Method> := [GET, POST, PUT, DELETE, HEAD, OPTIONS, CONNECT, PATCH, TRACE]

  predicate Has(mask: Attempted, m: Method) { mask & m.Bit() != 0 }

  /** `BitOr for AttemptedMethods`. */
  function Union(a: Attempted, b: Attempted): Attempted { a | b }

  function MethodSet(mask: Attempted): set<Method> { set m | m in METHODS && Has(mask, m) }

  datatype Forwarding = NotFound | MethodNotAllowed(attempted: Attempted) {
    function Combine(other: Forwarding): Forwarding {
      match this
      case NotFound => other
      case MethodNotAllowed(attempted) =>
        match other
        case NotFound => MethodNotAllowed(attempted)
        case MethodNotAllowed(otherAttempted) => MethodNotAllowed(Union(attempted, otherAttempted))
    }

    /** The methods that would have matched. */
    function Methods(): set<Method> {
      match this
      case NotFound => {}
      case MethodNotAllowed(mask) => MethodSet(mask)
    }

    /** A forwarding that method filters and combination can produce: it names some method. */
    predicate Genuine() { MethodNotAllowed? ==> Methods() != {} }
  }

  // ----- the Allow header -----

  /** The names, in table order, of the methods among the first `k` that are in `mask`. */
  function Names(mask: Attempted, k: nat): (names: seq<string>)
    requires k <= |METHODS|
    ensures forall i :: 0 <= i < |names| ==> IsWord(names[i])
    ensures |names| <= k
  {
    if k == 0 then []
    else if Has(mask, METHODS[k - 1]) then Names(mask, k - 1) + [METHODS[k - 1].Name()]
    else Names(mask, k - 1)
  }

  function AllowValue(mask: Attempted): string { Join(Names(mask, |METHODS|), ", ") }

  /** One expansion of the macro `check_method!`. */
  method CheckMethod(mask: Attempted, k: nat, soFar: string) returns (value: string)
    requires k < |METHODS| && soFar == Join(Names(mask, k), ", ")
    ensures value == Join(Names(mask, k + 1), ", ")
  {
    value := soFar;
    if mask & METHODS[k].Bit() != 0 {
      if value != [] {
        value := value + ", ";
      }
      Associate(soFar, ", ", METHODS[k].Name());
      value := value + METHODS[k].Name();
      if Names(mask, k) == [] {
        assert Names(mask, k + 1) == [METHODS[k].Name()];
      } else {
        JoinNonEmpty(Names(mask, k));
        JoinSnoc(Names(mask, k), METHODS[k].Name(), ", ");
      }
    }
  }

  lemma JoinNonEmpty(words: seq<string>)
    requires |words| > 0 && IsWord(words[0])
    ensures Join(words, ", ") != []
  {}

  method IntoHeaderValue(mask: Attempted) returns (value: string)
    ensures value == AllowValue(mask)
    ensures MethodSet(mask) != {} ==> ParseList(value) == Names(mask, |METHODS|)
  {
    value := CheckMethod(mask, 0, "");
    value := CheckMethod(mask, 1, value);
    value := CheckMethod(mask, 2, value);
    value := CheckMethod(mask, 3, value);
    value := CheckMethod(mask, 4, value);
    value := CheckMethod(mask, 5, value);
    value := CheckMethod(mask, 6, value);
    value := CheckMethod(mask, 7, value);
    value := CheckMethod(mask, 8, value);
    if MethodSet(mask) != {} {
      AllowListsEachMethodOnce(mask);
    }
  }

  /** Which names appear, and that none appears twice. */
  lemma {:induction false} NamesAre(mask: Attempted, k: nat)
    requires k <= |METHODS|
    ensures forall i :: 0 <= i < k ==> (METHODS[i].Name() in Names(mask, k) <==> Has(mask, METHODS[i]))
    ensures forall name :: name in Names(mask, k) ==> exists i :: 0 <= i < k && METHODS[i].Name() == name
    ensures forall i, j :: 0 <= i < j < |Names(mask, k)| ==> Names(mask, k)[i] != Names(mask, k)[j]
  {
    if k > 0 {
      NamesAre(mask, k - 1);
      NamesDistinct();
      assert METHODS[k - 1].Name() !in Names(mask, k - 1);
    }
  }

  lemma NamesDistinct()
    ensures forall i, j :: 0 <= i < j < |METHODS| ==> METHODS[i].Name() != METHODS[j].Name()
  {
    forall i, j | 0 <= i < j < |METHODS| ensures METHODS[i].Name() != METHODS[j].Name() {
      DistinctByPrefix(METHODS[i], METHODS[j]);
    }
  }

  lemma DistinctByPrefix(a: Method, b: Method)
    requires a != b
    ensures a.Name() != b.Name()
  {
    assert a.Name()[0] != b.Name()[0] || a.Name()[1] != b.Name()[1] || |a.Name()| != |b.Name()|;
  }

  /** Reading the Allow header back gives exactly the attempted methods, each once. */
  lemma AllowListsEachMethodOnce(mask: Attempted)
    requires MethodSet(mask) != {}
    ensures var read := ParseList(AllowValue(mask));
      && read == Names(mask, |METHODS|)
      && (forall m: Method :: m.Name() in read <==> m in MethodSet(mask))
      && (forall name :: name in read ==> exists m: Method :: m.Name() == name)
      && (forall i, j :: 0 <= i < j < |read| ==> read[i] != read[j])
  {
    NamesAre(mask, |METHODS|);
    forall m: Method ensures m.Name() in Names(mask, |METHODS|) <==> m in MethodSet(mask) {
      NameOfMethod(mask, m);
    }
    var m :| m in MethodSet(mask);
    assert m.Name() in Names(mask, |METHODS|);
    ParseNames(mask);
  }

  lemma NameOfMethod(mask: Attempted, m: Method)
    ensures m.Name() in Names(mask, |METHODS|) <==> m in MethodSet(mask)
  {
    NamesAre(mask, |METHODS|);
    assert METHODS[IndexOf(m)] == m;
  }

  lemma ParseNames(mask: Attempted)
    requires Names(mask, |METHODS|) != []
    ensures ParseList(AllowValue(mask)) == Names(mask, |METHODS|)
  {
    ParseJoined(Names(mask, |METHODS|), []);
    assert [] + AllowValue(mask) == AllowValue(mask);
  }

  function IndexOf(m: Method): (i: nat)
    ensures i < |METHODS| && METHODS[i] == m
  {
    match m
    case GET => 0
    case POST => 1
    case PUT => 2
    case DELETE => 3
    case HEAD => 4
    case OPTIONS => 5
    case CONNECT => 6
    case PATCH => 7
    case TRACE => 8
  }

  // ----- combination is a semilattice, and is union on the methods -----

  lemma BitUnion(a: Attempted, b: Attempted, m: Method)
    ensures Has(Union(a, b), m) <==> Has(a, m) || Has(b, m)
  {
    match m
    case GET => assert (a | b) & 1 == (a & 1) | (b & 1);
    case POST => assert (a | b) & 2 == (a & 2) | (b & 2);
    case PUT => assert (a | b) & 4 == (a & 4) | (b & 4);
    case DELETE => assert (a | b) & 8 == (a & 8) | (b & 8);
    case HEAD => assert (a | b) & 16 == (a & 16) | (b & 16);
    case OPTIONS => assert (a | b) & 32 == (a & 32) | (b & 32);
    case CONNECT => assert (a | b) & 64 == (a & 64) | (b & 64);
    case PATCH => assert (a | b) & 128 == (a & 128) | (b & 128);
    case TRACE => assert (a | b) & 256 == (a & 256) | (b & 256);
  }

  lemma MaskUnion(a: Attempted, b: Attempted)
    ensures MethodSet(Union(a, b)) == MethodSet(a) + MethodSet(b)
  {
    forall m: Method ensures m in MethodSet(Union(a, b)) <==> m in MethodSet(a) || m in MethodSet(b) {
      assert METHODS[IndexOf(m)] == m;
      BitUnion(a, b, m);
    }
  }

  lemma CombineIsUnion(f: Forwarding, g: Forwarding)
    ensures f.Combine(g).Methods() == f.Methods() + g.Methods()
    ensures f.Combine(g).NotFound? <==> f.NotFound? && g.NotFound?
    ensures f.Genuine() && g.Genuine() ==> f.Combine(g).Genuine()
  {
    match (f, g)
    case (MethodNotAllowed(a), MethodNotAllowed(b)) => MaskUnion(a, b);
    case (NotFound, _) => assert {} + g.Methods() == g.Methods();
    case (_, NotFound) => assert f.Methods() + {} == f.Methods();
  }

  lemma CombineAssociative(f: Forwarding, g: Forwarding, h: Forwarding)
    ensures f.Combine(g).Combine(h) == f.Combine(g.Combine(h))
  {
    if f.NotFound? || g.NotFound? || h.NotFound? {
    } else {
      OrAssociative(f.attempted, g.attempted, h.attempted);
    }
  }

  lemma CombineCommutative(f: Forwarding, g: Forwarding)
    ensures f.Combine(g) == g.Combine(f)
  {
    match (f, g)
    case (MethodNotAllowed(a), MethodNotAllowed(b)) => OrCommutative(a, b);
    case _ =>
  }

  lemma CombineIdempotent(f: Forwarding)
    ensures f.Combine(f) == f
  {
    match f
    case NotFound =>
    case MethodNotAllowed(a) => OrIdempotent(a);
  }

  lemma OrAssociative(a: Attempted, b: Attempted, c: Attempted)
    ensures Union(Union(a, b), c) == Union(a, Union(b, c))
  {}

  lemma OrCommutative(a: Attempted, b: Attempted)
    ensures Union(a, b) == Union(b, a)
  {}

  lemma OrIdempotent(a: Attempted)
    ensures Union(a, a) == a
  {}

  lemma MethodBitIsGenuine(m: Method)
    ensures MethodSet(m.Bit()) == {m}
  {
    forall n: Method ensures n in MethodSet(m.Bit()) <==> n == m {
      assert METHODS[IndexOf(n)] == n;
    }
  }

  // ----- the default reply to a request that nothing matched -----

  datatype ForwardReply = ForwardReply(status: nat, allow: Option<string>)

  function Reply(f: Forwarding): ForwardReply {
    match f
    case NotFound => ForwardReply(404, None)
    case MethodNotAllowed(mask) => ForwardReply(405, Some(AllowValue(mask)))
  }
}
