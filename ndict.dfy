/**
 * The safe nested lookup `ndict` (icinga_migration_utils/utils.py).
 *
 * `ndict(data)` first drops every `None` entry of every mapping and list in
 * `data`, at any depth, and then wraps the result in an auto-vivifying view:
 * subscripting it with a missing key gives a fresh, empty (so falsy) mapping
 * instead of a KeyError. Subscripting a value that is not a mapping (a string,
 * say) still raises TypeError; `Lookup` answers `None` there.
 */
module NestedDict {
  import opened Values

  /** The `remap` pass: every `None` entry removed from every mapping and list, at any depth. */
  function Strip(v: Value): Value
  {
    match v
    case Map(m) => Map(map k | k in m && m[k] != Null :: Strip(m[k]))
    case List(xs) => List(StripList(xs))
    case _ => v
  }

  function StripList(xs: seq<Value>): seq<Value>
    decreases xs
  {
    if xs == [] then []
    else (if xs[0] == Null then [] else [Strip(xs[0])]) + StripList(xs[1..])
  }

  /** `ndict(data)`. */
  function Ndict(data: Record): (v: Value)
    ensures v.Map?
  {
    Strip(Map(data))
  }

  /** Subscript on the view: the value under `k`, the empty mapping for a missing key, `None` for a TypeError. */
  function Lookup(v: Value, k: string): Option<Value>
  {
    match v
    case Map(m) => Some(if k in m then m[k] else EmptyMap)
    case _ => None
  }

  /** A chain of subscripts `ndict(data)[k0][k1]...`. */
  function LookupPath(v: Value, path: seq<string>): Option<Value>
    decreases |path|
  {
    if path == [] then Some(v)
    else
      match Lookup(v, path[0])
      case None => None
      case Some(w) => LookupPath(w, path[1..])
  }

  /** `ndict(record)[k0][k1]...` raises nowhere. */
  predicate Defined(r: Record, path: seq<string>) {
    LookupPath(Ndict(r), path).Some?
  }

  /** The value of `ndict(record)[k0][k1]...` where it raises nowhere. */
  function Path(r: Record, path: seq<string>): Value
    requires Defined(r, path)
  {
    LookupPath(Ndict(r), path).value
  }

  /** No `None` anywhere inside a value. */
  predicate NoNulls(v: Value) {
    match v
    case Null => false
    case Map(m) => forall k | k in m :: NoNulls(m[k])
    case List(xs) => forall i | 0 <= i < |xs| :: NoNulls(xs[i])
    case _ => true
  }

  // ---- properties ----

  /** Once a chain has reached the empty mapping, it stays there, however long it goes on. */
  lemma {:induction false} EmptyStaysEmpty(path: seq<string>)
    ensures LookupPath(EmptyMap, path) == Some(EmptyMap)
    decreases |path|
  {
    if path != [] {
      EmptyStaysEmpty(path[1..]);
    }
  }

  /**
   * A key absent from the record yields the empty mapping instead of raising,
   * and so does every longer chain of lookups through it; the result is falsy.
   */
  lemma AbsentKey(data: Record, k: string, rest: seq<string>)
    requires k !in data
    ensures LookupPath(Ndict(data), [k] + rest) == Some(EmptyMap)
    ensures !Truthy(Path(data, [k] + rest))
  {
    assert ([k] + rest)[1..] == rest;
    EmptyStaysEmpty(rest);
  }

  /** A key whose value is `None` behaves exactly like an absent key, also for lookups through it. */
  lemma NullIsAbsent(data: Record, k: string, rest: seq<string>)
    requires k in data && data[k] == Null
    ensures LookupPath(Ndict(data), [k] + rest) == LookupPath(Ndict(data - {k}), [k] + rest)
    ensures LookupPath(Ndict(data), [k] + rest) == Some(EmptyMap)
  {
    assert ([k] + rest)[1..] == rest;
    EmptyStaysEmpty(rest);
  }

  /**
   * A chain that meets a missing link (a missing key, or one that held `None`)
   * after any number of present mappings is total and ends in the empty,
   * falsy mapping: "absent" reads as false.
   */
  lemma {:induction false} MissingLinkIsFalsy(v: Value, path: seq<string>, i: nat)
    requires i < |path|
    requires LookupPath(v, path[..i]).Some? && LookupPath(v, path[..i]).value.Map?
    requires path[i] !in LookupPath(v, path[..i]).value.m
    ensures LookupPath(v, path) == Some(EmptyMap)
    ensures !Truthy(LookupPath(v, path).value)
    decreases i
  {
    if i == 0 {
      assert path[1..] == path[i + 1..];
      EmptyStaysEmpty(path[1..]);
    } else {
      assert path[..i][1..] == path[1..][..i - 1];
      var w := Lookup(v, path[0]).value;
      MissingLinkIsFalsy(w, path[1..], i - 1);
    }
  }

  /** The `remap` pass leaves a value without `None`s as it is. */
  lemma {:induction false} StripKeeps(v: Value)
    requires NoNulls(v)
    ensures Strip(v) == v
    decreases v
  {
    match v
    case Map(m) =>
      forall k | k in m ensures Strip(m[k]) == m[k] {
        StripKeeps(m[k]);
      }
      assert Strip(v).m == m;
    case List(xs) =>
      StripListKeeps(xs);
    case _ =>
  }

  lemma {:induction false} StripListKeeps(xs: seq<Value>)
    requires forall i | 0 <= i < |xs| :: NoNulls(xs[i])
    ensures StripList(xs) == xs
    decreases xs
  {
    if xs != [] {
      StripKeeps(xs[0]);
      StripListKeeps(xs[1..]);
    }
  }

  /** A present value without `None`s inside is returned unchanged, at any depth below it. */
  lemma PresentValueUnchanged(data: Record, k: string)
    requires k in data && NoNulls(data[k])
    ensures Lookup(Ndict(data), k) == Some(data[k])
  {
    StripKeeps(data[k]);
  }
}
