/**
 * The values that records of both monitoring systems are made of.
 *
 * Icinga 1 records (parsed from its object and status caches) map a key to a
 * string or to nothing; Icinga 2 records are the decoded JSON answers of its
 * REST API, nested mappings and lists. Both are `Record`s here.
 */
module Values {

  datatype Option<+T> = None | Some(value: T)

  /** A JSON-like value, as Python holds it after decoding. */
  datatype Value =
    | Str(s: string)
    | Null
    | Bool(b: bool)
    | Num(r: real)
    | Map(m: map<string, Value>)
    | List(items: seq<Value>)

  type Record = map<string, Value>

  /** The empty mapping `{}`. */
  const EmptyMap: Value := Map(map[])

  /** Python's truth value of a value: empty strings, collections, zero, `None` and `False` are false. */
  predicate Truthy(v: Value) {
    match v
    case Str(s) => s != ""
    case Null => false
    case Bool(b) => b
    case Num(r) => r != 0.0
    case Map(m) => m != map[]
    case List(xs) => xs != []
  }

  /** The number Python compares a boolean or a number as (`True == 1.0`). */
  function NumericView(v: Value): Option<real> {
    match v
    case Bool(b) => Some(if b then 1.0 else 0.0)
    case Num(r) => Some(r)
    case _ => None
  }

  /**
   * Python's `==` on two values at the top level: booleans and numbers compare
   * numerically, everything else structurally.
   */
  predicate PyEq(a: Value, b: Value) {
    if NumericView(a).Some? && NumericView(b).Some? then NumericView(a) == NumericView(b)
    else a == b
  }

  /** Strict subscript `v[k]`: `None` where Python raises (KeyError on a mapping, TypeError otherwise). */
  function At(v: Value, k: string): (r: Option<Value>)
    ensures r.Some? <==> v.Map? && k in v.m
  {
    match v
    case Map(m) => if k in m then Some(m[k]) else None
    case _ => None
  }

  /** Strict chain of subscripts `v[k0][k1]...`: `None` as soon as one of them raises. */
  function AtPath(v: Value, path: seq<string>): Option<Value>
    decreases |path|
  {
    if path == [] then Some(v)
    else
      match At(v, path[0])
      case None => None
      case Some(w) => AtPath(w, path[1..])
  }

  /** `r.get(k, default)` on a record. */
  function Get(r: Record, k: string, default: Value): (v: Value)
    ensures k in r ==> v == r[k]
    ensures k !in r ==> v == default
  {
    if k in r then r[k] else default
  }

  /** The elements of `s` that satisfy `p`, in their original order. */
  function Filter<T(!new)>(s: seq<T>, p: T -> bool): (r: seq<T>)
    ensures |r| <= |s|
    ensures forall x :: x in r <==> x in s && p(x)
    decreases |s|
  {
    if s == [] then []
    else (if p(s[0]) then [s[0]] else []) + Filter(s[1..], p)
  }

  /** Filtering distributes over concatenation; with it, filtering is computed element by element. */
  lemma {:induction false} FilterAppend<T(!new)>(s: seq<T>, t: seq<T>, p: T -> bool)
    ensures Filter(s + t, p) == Filter(s, p) + Filter(t, p)
    decreases |s|
  {
    if s == [] {
      assert s + t == t;
    } else {
      assert (s + t)[1..] == s[1..] + t;
      FilterAppend(s[1..], t, p);
    }
  }

  /** Filtering by `p` and then by `q` keeps exactly what satisfies both. */
  lemma {:induction false} FilterFilter<T(!new)>(s: seq<T>, p: T -> bool, q: T -> bool, pq: T -> bool)
    requires forall x :: pq(x) == (p(x) && q(x))
    ensures Filter(Filter(s, p), q) == Filter(s, pq)
    decreases |s|
  {
    if s != [] {
      FilterFilter(s[1..], p, q, pq);
      FilterAppend(if p(s[0]) then [s[0]] else [], Filter(s[1..], p), q);
    }
  }

  /** Filtering only depends on which elements the predicate accepts. */
  lemma {:induction false} FilterExt<T(!new)>(s: seq<T>, p: T -> bool, q: T -> bool)
    requires forall x :: p(x) == q(x)
    ensures Filter(s, p) == Filter(s, q)
    decreases |s|
  {
    if s != [] {
      FilterExt(s[1..], p, q);
    }
  }

  /** `s[i]` is the first element of `s` that satisfies `p`. */
  predicate FirstWith<T>(s: seq<T>, p: T -> bool, i: int) {
    0 <= i < |s| && p(s[i]) && forall j :: 0 <= j < i ==> !p(s[j])
  }

  /** The head of a non-empty filtering is the first element that satisfies the predicate. */
  lemma {:induction false} FilterHead<T(!new)>(s: seq<T>, p: T -> bool)
    requires Filter(s, p) != []
    ensures exists i :: FirstWith(s, p, i) && Filter(s, p)[0] == s[i]
    decreases |s|
  {
    if !p(s[0]) {
      FilterHead(s[1..], p);
      var i :| FirstWith(s[1..], p, i) && Filter(s[1..], p)[0] == s[1..][i];
      assert FirstWith(s, p, i + 1);
    } else {
      assert FirstWith(s, p, 0);
    }
  }

  /** Filtering a list grown by one element. */
  lemma FilterSnoc<T(!new)>(s: seq<T>, x: T, p: T -> bool)
    ensures Filter(s + [x], p) == Filter(s, p) + (if p(x) then [x] else [])
  {
    FilterAppend(s, [x], p);
  }
}
