/**
 * The two ways both monitoring systems' records are indexed by host name:
 * a dictionary filled in a loop, where a later record with the same name
 * replaces an earlier one (`get_hosts_dict`), and a `defaultdict(list)` that
 * collects every record under its name, in order (`get_services_by_hostname`).
 */
module Index {
  import opened Values

  /** The last record in `recs` whose key is `n`, if any. */
  function LastWith(recs: seq<Record>, keyOf: Record -> Value, n: Value): Option<Record>
    decreases |recs|
  {
    if recs == [] then None
    else if keyOf(recs[|recs| - 1]) == n then Some(recs[|recs| - 1])
    else LastWith(recs[..|recs| - 1], keyOf, n)
  }

  /** What `LastWith` finds is a record of `recs` with that key, and no later record has the key. */
  lemma {:induction false} LastWithIsLast(recs: seq<Record>, keyOf: Record -> Value, n: Value)
    requires LastWith(recs, keyOf, n).Some?
    ensures exists i :: 0 <= i < |recs| && recs[i] == LastWith(recs, keyOf, n).value
                        && keyOf(recs[i]) == n
                        && forall j :: i < j < |recs| ==> keyOf(recs[j]) != n
    decreases |recs|
  {
    var k := |recs| - 1;
    if keyOf(recs[k]) != n {
      LastWithIsLast(recs[..k], keyOf, n);
      var i :| 0 <= i < k && recs[..k][i] == LastWith(recs[..k], keyOf, n).value
               && keyOf(recs[..k][i]) == n
               && forall j :: i < j < k ==> keyOf(recs[..k][j]) != n;
      assert recs[i] == recs[..k][i];
      assert forall j :: i < j < k ==> keyOf(recs[j]) != n by {
        forall j | i < j < k ensures keyOf(recs[j]) != n {
          assert recs[j] == recs[..k][j];
        }
      }
    }
  }

  /** No record has key `n` exactly when `LastWith` finds nothing. */
  lemma {:induction false} LastWithNone(recs: seq<Record>, keyOf: Record -> Value, n: Value)
    ensures LastWith(recs, keyOf, n).None? <==> forall i :: 0 <= i < |recs| ==> keyOf(recs[i]) != n
    decreases |recs|
  {
    if recs != [] {
      var k := |recs| - 1;
      LastWithNone(recs[..k], keyOf, n);
      assert forall i :: 0 <= i < k ==> recs[..k][i] == recs[i];
    }
  }

  /**
   * `d = {}; for r in recs: d[key(r)] = r`: every key present in `recs` maps to
   * the last record that has it, and nothing else is in the dictionary.
   */
  method IndexLast(recs: seq<Record>, keyOf: Record -> Value) returns (d: map<Value, Record>)
    ensures forall n :: n in d <==> LastWith(recs, keyOf, n).Some?
    ensures forall n | n in d :: d[n] == LastWith(recs, keyOf, n).value
  {
    d := map[];
    for i := 0 to |recs|
      invariant forall n :: n in d <==> LastWith(recs[..i], keyOf, n).Some?
      invariant forall n | n in d :: d[n] == LastWith(recs[..i], keyOf, n).value
    {
      assert recs[..i + 1][..i] == recs[..i];
      d := d[keyOf(recs[i]) := recs[i]];
    }
    assert recs[..|recs|] == recs;
  }

  /** `defaultdict(list)` lookup: the list under `n`, or the empty list. */
  function Group(d: map<Value, seq<Record>>, n: Value): seq<Record> {
    if n in d then d[n] else []
  }

  /** The test "has name `n`" as a predicate value, for `Filter`. */
  function NamedBy(keyOf: Record -> Value, n: Value): Record -> bool {
    r => keyOf(r) == n
  }

  /**
   * `d = defaultdict(list); for r in recs: d[key(r)].append(r)`: under every
   * name, exactly the records with that name, in their original order; no name
   * holds an empty list.
   */
  method GroupBy(recs: seq<Record>, keyOf: Record -> Value) returns (d: map<Value, seq<Record>>)
    ensures forall n :: Group(d, n) == Filter(recs, NamedBy(keyOf, n))
    ensures forall n | n in d :: d[n] != []
  {
    d := map[];
    for i := 0 to |recs|
      invariant forall n :: Group(d, n) == Filter(recs[..i], NamedBy(keyOf, n))
      invariant forall n | n in d :: d[n] != []
    {
      var n0 := keyOf(recs[i]);
      ghost var d0 := d;
      d := d[n0 := Group(d, n0) + [recs[i]]];
      assert recs[..i + 1] == recs[..i] + [recs[i]];
      forall n ensures Group(d, n) == Filter(recs[..i + 1], NamedBy(keyOf, n)) {
        FilterSnoc(recs[..i], recs[i], NamedBy(keyOf, n));
        assert Group(d0, n) == Filter(recs[..i], NamedBy(keyOf, n));
      }
    }
    assert recs[..|recs|] == recs;
  }
}
