/** The values filters pass along, and appending tuples (src/generics/tuples.rs). */
module Tuples {
  import opened Http
  import opened Bodies

  datatype Value =
    | TextValue(text: Text)
    | PathValue(components: seq<Text>)
    | BufferValue(chunks: seq<Chunk>)
    | ReplyValue(response: Response)
    | Opaque(id: int)
    | TupleValue(elems: Tuple)

  /** A tuple type's value; the arities are those the types declare. */
  type Tuple = seq<Value>

  /** The static type of a value, as far as tuple arities and responses are concerned. */
  datatype Shape = Scalar | ReplyShape | TupleShape(elems: seq<Shape>)

  predicate HasShape(v: Value, s: Shape)
    decreases s
  {
    match s
    case Scalar => !v.TupleValue? && !v.ReplyValue?
    case ReplyShape => v.ReplyValue?
    case TupleShape(elems) => v.TupleValue? && Fits(v.elems, elems)
  }

  predicate Fits(t: Tuple, shapes: seq<Shape>)
    decreases shapes
  {
    |t| == |shapes| && forall k :: 0 <= k < |t| ==> HasShape(t[k], shapes[k])
  }

  /** `Append::append`: moves the elements of the ending over one by one. */
  function Append(t: Tuple, ending: Tuple): (appended: Tuple)
    ensures appended == t + ending
    decreases |ending|
  {
    if ending == [] then t else Append(t + [ending[0]], ending[1..])
  }

  /** `Append::remove` for an ending of `n` elements. */
  function Remove(appended: Tuple, n: nat): (r: (Tuple, Tuple))
    requires n <= |appended|
    ensures |r.1| == n && r.0 + r.1 == appended
  {
    if n == 0 then (appended, [])
    else
      var (beginning, ending) := Remove(appended, n - 1);
      (beginning[..|beginning| - 1], [beginning[|beginning| - 1]] + ending)
  }

  /** `remove` is the two-sided inverse of `append` at the declared arity. */
  lemma AppendRemove(t: Tuple, ending: Tuple)
    ensures Remove(Append(t, ending), |ending|) == (t, ending)
    ensures forall n :: 0 <= n <= |t| ==> Append(Remove(t, n).0, Remove(t, n).1) == t
  {
    var (beginning, removed) := Remove(Append(t, ending), |ending|);
    assert beginning + removed == t + ending;
    assert beginning == (beginning + removed)[..|t|] == t;
    assert removed == (beginning + removed)[|t|..] == ending;
  }

  lemma FitsAppend(a: Tuple, b: Tuple, sa: seq<Shape>, sb: seq<Shape>)
    requires Fits(a, sa) && Fits(b, sb)
    ensures Fits(a + b, sa + sb)
  {}
}
