/** Decoded JSON values as Python holds them, and Python's == on them. */
module PythonJson {

  datatype PyValue =
    | Null
    | Bool(b: bool)
    | Int(i: int)
    | Float(r: real)
    | Str(s: string)
    | List(items: seq<PyValue>)
    | Dict(fields: map<string, PyValue>)

  type PyDict = map<string, PyValue>

  /** Booleans are numbers. */
  predicate IsNumber(v: PyValue)
  {
    v.Bool? || v.Int? || v.Float?
  }

  function NumberOf(v: PyValue): real
    requires IsNumber(v)
  {
    match v
    case Bool(b) => if b then 1.0 else 0.0
    case Int(i) => i as real
    case Float(r) => r
  }

  predicate PyEq(a: PyValue, b: PyValue)
  {
    if IsNumber(a) && IsNumber(b) then NumberOf(a) == NumberOf(b)
    else
      match (a, b)
      case (Null, Null) => true
      case (Str(s), Str(t)) => s == t
      case (List(x), List(y)) => |x| == |y| && forall i :: 0 <= i < |x| ==> PyEq(x[i], y[i])
      case (Dict(x), Dict(y)) => x.Keys == y.Keys && forall k :: k in x && k in y ==> PyEq(x[k], y[k])
      case _ => false
  }

  lemma {:induction false} PyEqReflexive(a: PyValue)
    ensures PyEq(a, a)
  {
    match a {
      case List(x) =>
        forall i | 0 <= i < |x| ensures PyEq(x[i], x[i]) { PyEqReflexive(x[i]); }
      case Dict(x) =>
        forall k | k in x ensures PyEq(x[k], x[k]) { PyEqReflexive(x[k]); }
      case _ =>
    }
  }

  lemma {:induction false} PyEqSymmetric(a: PyValue, b: PyValue)
    requires PyEq(a, b)
    ensures PyEq(b, a)
    decreases a
  {
    match (a, b) {
      case (List(x), List(y)) =>
        forall i | 0 <= i < |x| ensures PyEq(y[i], x[i]) { PyEqSymmetric(x[i], y[i]); }
      case (Dict(x), Dict(y)) =>
        forall k | k in x && k in y ensures PyEq(y[k], x[k]) { PyEqSymmetric(x[k], y[k]); }
      case _ =>
    }
  }

  lemma {:induction false} PyEqTransitive(a: PyValue, b: PyValue, c: PyValue)
    requires PyEq(a, b) && PyEq(b, c)
    ensures PyEq(a, c)
    decreases a
  {
    match (a, b, c) {
      case (List(x), List(y), List(z)) =>
        forall i | 0 <= i < |x| ensures PyEq(x[i], z[i]) { PyEqTransitive(x[i], y[i], z[i]); }
      case (Dict(x), Dict(y), Dict(z)) =>
        forall k | k in x && k in z ensures PyEq(x[k], z[k]) {
          assert k in y;
          PyEqTransitive(x[k], y[k], z[k]);
        }
      case _ =>
    }
  }
}
