/**
 * Host comparison, `compare_hosts` (icinga_migration_utils/compare/compare.py).
 *
 * The Icinga 1 hosts are visited in sorted order of their names. A host
 * without an Icinga 2 counterpart is reported as missing; every other host is
 * checked for the no-sla marker and has its check and retry intervals and its
 * maximum number of check attempts compared. Icinga 1 gives intervals in
 * minutes and Icinga 2 in seconds, so those two are scaled by 60 first.
 * The line printed for a host whose no-sla mark got lost tests `'nosla' in`
 * the Icinga 2 `vars`, which raises when `vars` is missing or `null`; the
 * comparison then gives no report.
 *
 * `float()` on the attribute values is the parameter `toReal`; the
 * comparison is on exact reals.
 */
module CompareHosts {
  import opened Values
  import NestedDict
  import Strings

  /** The attributes compared on every host present on both sides, in visiting order. */
  const CompareAttributes: seq<string> := ["check_interval", "max_check_attempts", "retry_interval"]

  const NoSlaPath: seq<string> := ["attrs", "vars", "nosla"]

  /** The factor that brings an Icinga 1 value into Icinga 2's unit. */
  function Scale(attrib: string): real {
    if attrib == "retry_interval" || attrib == "check_interval" then 60.0 else 1.0
  }

  /** One differing attribute: the host and both raw values, as reported. */
  datatype Difference = Difference(host: string, icinga1: Value, icinga2: Value)

  /**
   * The `result` dictionary: the hosts missing in Icinga 2, the hosts whose
   * no-sla marker got lost, and the differences of each compared attribute
   * (`differences[k]` belongs to `CompareAttributes[k]`).
   */
  datatype HostReport = HostReport(missing: seq<string>, nosla: seq<string>, differences: seq<seq<Difference>>)

  /** `icinga2_host['attrs'][attrib]` exists. */
  predicate HasAttribute(h1: Record, h2: Record, attrib: string) {
    attrib in h1 && AtPath(Map(h2), ["attrs", attrib]).Some?
  }

  function Attribute2(h2: Record, attrib: string): Value
    requires AtPath(Map(h2), ["attrs", attrib]).Some?
  {
    AtPath(Map(h2), ["attrs", attrib]).value
  }

  /**
   * Icinga 1 marks the host `no-sla` in its notes, and Icinga 2 has no truthy
   * `vars.nosla` (a missing key reads as false through `ndict`).
   */
  predicate NoSlaLost(h1: Record, h2: Record) {
    NestedDict.Defined(h2, NoSlaPath)
    && PyEq(Get(h1, "notes", Null), Str("no-sla"))
    && !Truthy(NestedDict.Path(h2, NoSlaPath))
  }

  /** `'nosla' in icinga2_host['attrs']['vars']`, evaluated for the report line, does not raise. */
  predicate VarsPrintable(h2: Record) {
    var vars := AtPath(Map(h2), ["attrs", "vars"]);
    vars.Some? && (vars.value.Str? || vars.value.Map? || vars.value.List?)
  }

  predicate AttributesPresent(h1: Record, h2: Record) {
    forall a :: a in CompareAttributes ==> HasAttribute(h1, h2, a)
  }

  /**
   * The keys a host present on both sides must carry: the compared attributes,
   * and an `attrs` that `ndict` can subscript.
   */
  predicate Comparable(h1: Record, h2: Record) {
    AttributesPresent(h1, h2)
    && NestedDict.Defined(h2, NoSlaPath)
  }

  /**
   * The report line of a host whose no-sla mark was lost raises: `vars` is
   * missing (KeyError) or `None`, a number or a boolean (TypeError).
   */
  predicate RaisesOn(h1: Record, h2: Record) {
    NoSlaLost(h1, h2) && !VarsPrintable(h2)
  }

  /** The comparison of some listed host present on both sides raises. */
  predicate HostRaises(names: seq<string>, hosts1: map<string, Record>, hosts2: map<string, Record>) {
    exists h :: h in names && h in hosts1 && h in hosts2 && RaisesOn(hosts1[h], hosts2[h])
  }

  /** The difference recorded for one attribute of one host, if the values differ. */
  function DifferenceOf(host: string, h1: Record, h2: Record, attrib: string, toReal: Value -> real): Option<Difference> {
    if HasAttribute(h1, h2, attrib) && toReal(h1[attrib]) * Scale(attrib) != toReal(Attribute2(h2, attrib))
    then Some(Difference(host, h1[attrib], Attribute2(h2, attrib)))
    else None
  }

  function OptList<T>(o: Option<T>): seq<T> {
    if o.Some? then [o.value] else []
  }

  // ---- the report over a list of host names ----

  function NotIn(hosts2: map<string, Record>): string -> bool {
    (h: string) => h !in hosts2
  }

  function NoSlaHost(hosts1: map<string, Record>, hosts2: map<string, Record>): string -> bool {
    (h: string) => h in hosts1 && h in hosts2 && NoSlaLost(hosts1[h], hosts2[h])
  }

  function AttributeDifferences(names: seq<string>, hosts1: map<string, Record>, hosts2: map<string, Record>,
                                attrib: string, toReal: Value -> real): seq<Difference>
    decreases |names|
  {
    if names == [] then []
    else
      var h := names[|names| - 1];
      AttributeDifferences(names[..|names| - 1], hosts1, hosts2, attrib, toReal)
        + (if h in hosts1 && h in hosts2 then OptList(DifferenceOf(h, hosts1[h], hosts2[h], attrib, toReal)) else [])
  }

  /** The differing attributes of one host, appended to the lists they belong to. */
  function AddDifferences(differences: seq<seq<Difference>>, host: string, h1: Record, h2: Record,
                          toReal: Value -> real): (r: seq<seq<Difference>>)
    requires |differences| == |CompareAttributes|
    ensures |r| == |CompareAttributes|
  {
    seq(|CompareAttributes|, k requires 0 <= k < |CompareAttributes| =>
      differences[k] + OptList(DifferenceOf(host, h1, h2, CompareAttributes[k], toReal)))
  }

  /** The report after visiting one more host. */
  function Visit(r: HostReport, h: string, hosts1: map<string, Record>, hosts2: map<string, Record>, toReal: Value -> real): (r': HostReport)
    requires |r.differences| == |CompareAttributes|
    ensures |r'.differences| == |CompareAttributes|
  {
    if h !in hosts2 then r.(missing := r.missing + [h])
    else if h !in hosts1 then r
    else r.(nosla := r.nosla + (if NoSlaLost(hosts1[h], hosts2[h]) then [h] else []),
            differences := AddDifferences(r.differences, h, hosts1[h], hosts2[h], toReal))
  }

  const EmptyReport: HostReport := HostReport([], [], [[], [], []])

  /** The report after visiting `names` in order. */
  function Report(names: seq<string>, hosts1: map<string, Record>, hosts2: map<string, Record>, toReal: Value -> real): (r: HostReport)
    ensures |r.differences| == |CompareAttributes|
    decreases |names|
  {
    if names == [] then EmptyReport
    else Visit(Report(names[..|names| - 1], hosts1, hosts2, toReal), names[|names| - 1], hosts1, hosts2, toReal)
  }

  // ---- the comparison ----

  /** The loop over the compared attributes of one host. */
  method CompareAttributesOf(host: string, h1: Record, h2: Record, toReal: Value -> real,
                             differences: seq<seq<Difference>>) returns (updated: seq<seq<Difference>>)
    requires AttributesPresent(h1, h2)
    requires |differences| == |CompareAttributes|
    ensures updated == AddDifferences(differences, host, h1, h2, toReal)
  {
    updated := differences;
    for j := 0 to |CompareAttributes|
      invariant |updated| == |CompareAttributes|
      invariant forall k :: 0 <= k < j ==>
        updated[k] == differences[k] + OptList(DifferenceOf(host, h1, h2, CompareAttributes[k], toReal))
      invariant forall k :: j <= k < |CompareAttributes| ==> updated[k] == differences[k]
    {
      var attrib := CompareAttributes[j];
      assert HasAttribute(h1, h2, attrib);
      var value1 := toReal(h1[attrib]);
      var value2 := toReal(Attribute2(h2, attrib));
      if attrib in ["retry_interval", "check_interval"] {
        value1 := value1 * 60.0;
      }
      if value1 != value2 {
        updated := updated[j := updated[j] + [Difference(host, h1[attrib], Attribute2(h2, attrib))]];
      }
    }
  }

  /**
   * `compare_hosts`: `hostOrder` lists the Icinga 1 host names (the keys of
   * its host dictionary); the report is built over them in sorted order, and
   * there is none when the comparison of a host raises.
   */
  method Compare(hosts1: map<string, Record>, hosts2: map<string, Record>, hostOrder: seq<string>, toReal: Value -> real)
    returns (result: Option<HostReport>)
    requires forall h :: h in hostOrder <==> h in hosts1
    requires forall h :: h in hosts1 && h in hosts2 ==> Comparable(hosts1[h], hosts2[h])
    ensures result.None? <==> HostRaises(hostOrder, hosts1, hosts2)
    ensures result.Some? ==> result.value == Report(Strings.Sort(hostOrder), hosts1, hosts2, toReal)
  {
    var names := Strings.Sort(hostOrder);
    SortKeepsMembers(hostOrder);
    var sofar := EmptyReport;
    for i := 0 to |names|
      invariant sofar == Report(names[..i], hosts1, hosts2, toReal)
      invariant !HostRaises(names[..i], hosts1, hosts2)
    {
      ReportStep(names, i, hosts1, hosts2, toReal);
      assert names[i] in names;
      var next := CompareHost(sofar, names[i], hosts1, hosts2, toReal);
      if next.None? {
        return None;
      }
      HostRaisesSnoc(names, i, hosts1, hosts2);
      sofar := next.value;
    }
    assert names[..|names|] == names;
    result := Some(sofar);
  }

  /** The report over one more name visits that name last. */
  lemma ReportStep(names: seq<string>, i: int, hosts1: map<string, Record>, hosts2: map<string, Record>, toReal: Value -> real)
    requires 0 <= i < |names|
    ensures Report(names[..i + 1], hosts1, hosts2, toReal)
         == Visit(Report(names[..i], hosts1, hosts2, toReal), names[i], hosts1, hosts2, toReal)
  {
    assert names[..i + 1][..i] == names[..i];
  }

  /** Some host among one more name raises iff one before it does or that name does. */
  lemma HostRaisesSnoc(names: seq<string>, i: int, hosts1: map<string, Record>, hosts2: map<string, Record>)
    requires 0 <= i < |names|
    ensures HostRaises(names[..i + 1], hosts1, hosts2) <==>
      HostRaises(names[..i], hosts1, hosts2)
      || (names[i] in hosts1 && names[i] in hosts2 && RaisesOn(hosts1[names[i]], hosts2[names[i]]))
  {
    assert names[..i + 1] == names[..i] + [names[i]];
  }

  /** One host of the loop: missing in Icinga 2, or its `no-sla` note and attributes compared. */
  method CompareHost(result: HostReport, hostname: string, hosts1: map<string, Record>, hosts2: map<string, Record>,
                     toReal: Value -> real) returns (r: Option<HostReport>)
    requires |result.differences| == |CompareAttributes|
    requires hostname in hosts1
    requires hostname in hosts2 ==> Comparable(hosts1[hostname], hosts2[hostname])
    ensures r.None? <==> hostname in hosts2 && RaisesOn(hosts1[hostname], hosts2[hostname])
    ensures r.Some? ==> r.value == Visit(result, hostname, hosts1, hosts2, toReal)
  {
    if hostname !in hosts2 {
      r := Some(result.(missing := result.missing + [hostname]));
    } else {
      var host1 := hosts1[hostname];
      var host2 := hosts2[hostname];
      var nosla := result.nosla;
      if PyEq(Get(host1, "notes", Null), Str("no-sla")) && !Truthy(NestedDict.Path(host2, NoSlaPath)) {
        nosla := nosla + [hostname];
        // the report line evaluates `'nosla' in icinga2_host['attrs']['vars']`
        if !VarsPrintable(host2) {
          return None;
        }
      }
      var updated := CompareAttributesOf(hostname, host1, host2, toReal, result.differences);
      r := Some(result.(nosla := nosla, differences := updated));
    }
  }

  lemma SortKeepsMembers(xs: seq<string>)
    ensures forall x :: x in Strings.Sort(xs) <==> x in xs
  {
    var s := Strings.Sort(xs);
    assert forall x :: x in s <==> x in multiset(s);
    assert forall x :: x in xs <==> x in multiset(xs);
  }

  // ---- properties ----

  /** The differences recorded for an attribute are exactly those of the listed hosts present on both sides. */
  lemma {:induction false} AttributeDifferencesMeaning(names: seq<string>, hosts1: map<string, Record>, hosts2: map<string, Record>,
                                                       attrib: string, toReal: Value -> real, d: Difference)
    ensures d in AttributeDifferences(names, hosts1, hosts2, attrib, toReal) <==>
      d.host in names && d.host in hosts1 && d.host in hosts2
      && HasAttribute(hosts1[d.host], hosts2[d.host], attrib)
      && d.icinga1 == hosts1[d.host][attrib] && d.icinga2 == Attribute2(hosts2[d.host], attrib)
      && toReal(d.icinga1) * Scale(attrib) != toReal(d.icinga2)
    decreases |names|
  {
    if names != [] {
      var init := names[..|names| - 1];
      AttributeDifferencesMeaning(init, hosts1, hosts2, attrib, toReal, d);
      assert names == init + [names[|names| - 1]];
    }
  }

  /** The report's lists, each described on its own over the visited names. */
  lemma ReportFields(names: seq<string>, hosts1: map<string, Record>, hosts2: map<string, Record>, toReal: Value -> real)
    ensures Report(names, hosts1, hosts2, toReal).missing == Filter(names, NotIn(hosts2))
    ensures Report(names, hosts1, hosts2, toReal).nosla == Filter(names, NoSlaHost(hosts1, hosts2))
    ensures forall k :: 0 <= k < |CompareAttributes| ==>
      Report(names, hosts1, hosts2, toReal).differences[k] == AttributeDifferences(names, hosts1, hosts2, CompareAttributes[k], toReal)
  {
    ReportMissing(names, hosts1, hosts2, toReal);
    ReportNoSla(names, hosts1, hosts2, toReal);
    forall k | 0 <= k < |CompareAttributes|
      ensures Report(names, hosts1, hosts2, toReal).differences[k] == AttributeDifferences(names, hosts1, hosts2, CompareAttributes[k], toReal)
    {
      ReportDifferences(names, hosts1, hosts2, toReal, k);
    }
  }

  lemma {:induction false} ReportMissing(names: seq<string>, hosts1: map<string, Record>, hosts2: map<string, Record>, toReal: Value -> real)
    ensures Report(names, hosts1, hosts2, toReal).missing == Filter(names, NotIn(hosts2))
    decreases |names|
  {
    if names != [] {
      var init, h := names[..|names| - 1], names[|names| - 1];
      ReportMissing(init, hosts1, hosts2, toReal);
      assert names == init + [h];
      FilterSnoc(init, h, NotIn(hosts2));
    }
  }

  lemma {:induction false} ReportNoSla(names: seq<string>, hosts1: map<string, Record>, hosts2: map<string, Record>, toReal: Value -> real)
    ensures Report(names, hosts1, hosts2, toReal).nosla == Filter(names, NoSlaHost(hosts1, hosts2))
    decreases |names|
  {
    if names != [] {
      var init, h := names[..|names| - 1], names[|names| - 1];
      ReportNoSla(init, hosts1, hosts2, toReal);
      assert names == init + [h];
      FilterSnoc(init, h, NoSlaHost(hosts1, hosts2));
    }
  }

  lemma {:induction false} ReportDifferences(names: seq<string>, hosts1: map<string, Record>, hosts2: map<string, Record>,
                                             toReal: Value -> real, k: nat)
    requires k < |CompareAttributes|
    ensures Report(names, hosts1, hosts2, toReal).differences[k] == AttributeDifferences(names, hosts1, hosts2, CompareAttributes[k], toReal)
    decreases |names|
  {
    if names != [] {
      var init := names[..|names| - 1];
      ReportDifferences(init, hosts1, hosts2, toReal, k);
    }
  }

  /**
   * Every Icinga 1 host ends up on exactly one side: it is missing, or it is
   * compared, and only compared hosts have attribute or no-sla entries.
   */
  lemma MissingOrCompared(hostOrder: seq<string>, hosts1: map<string, Record>, hosts2: map<string, Record>,
                          toReal: Value -> real, h: string)
    requires forall x :: x in hostOrder <==> x in hosts1
    ensures var r := Report(Strings.Sort(hostOrder), hosts1, hosts2, toReal);
      (h in r.missing <==> h in hosts1 && h !in hosts2)
      && (h in r.nosla ==> h in hosts1 && h in hosts2)
      && (forall k, d :: 0 <= k < |CompareAttributes| && d in r.differences[k] ==> d.host in hosts1 && d.host in hosts2)
  {
    var names := Strings.Sort(hostOrder);
    SortKeepsMembers(hostOrder);
    ReportFields(names, hosts1, hosts2, toReal);
    var r := Report(names, hosts1, hosts2, toReal);
    forall k, d | 0 <= k < |CompareAttributes| && d in r.differences[k] ensures d.host in hosts1 && d.host in hosts2 {
      AttributeDifferencesMeaning(names, hosts1, hosts2, CompareAttributes[k], toReal, d);
    }
  }

  /** The missing hosts come out in sorted order. */
  lemma MissingSorted(hostOrder: seq<string>, hosts1: map<string, Record>, hosts2: map<string, Record>, toReal: Value -> real)
    ensures Strings.Sorted(Report(Strings.Sort(hostOrder), hosts1, hosts2, toReal).missing)
  {
    ReportFields(Strings.Sort(hostOrder), hosts1, hosts2, toReal);
    FilterSorted(Strings.Sort(hostOrder), NotIn(hosts2));
  }

  lemma {:induction false} FilterSorted(s: seq<string>, p: string -> bool)
    requires Strings.Sorted(s)
    ensures Strings.Sorted(Filter(s, p))
    decreases |s|
  {
    if s != [] {
      assert Strings.Sorted(s[1..]) by { Strings.SortedTail(s); }
      FilterSorted(s[1..], p);
      var rest := Filter(s[1..], p);
      forall j | 0 <= j < |rest| ensures Strings.LessEq(s[0], rest[j]) {
        assert rest[j] in s[1..];
      }
    }
  }

  /** The report does not depend on the order in which the Icinga 1 host names are listed. */
  lemma KeyOrderIrrelevant(order1: seq<string>, order2: seq<string>, hosts1: map<string, Record>, hosts2: map<string, Record>,
                           toReal: Value -> real)
    requires forall i, j :: 0 <= i < j < |order1| ==> order1[i] != order1[j]
    requires forall i, j :: 0 <= i < j < |order2| ==> order2[i] != order2[j]
    requires forall h :: h in order1 <==> h in order2
    ensures Report(Strings.Sort(order1), hosts1, hosts2, toReal) == Report(Strings.Sort(order2), hosts1, hosts2, toReal)
  {
    forall x ensures multiset(order1)[x] == multiset(order2)[x] {
      Strings.DistinctCount(order1, x);
      Strings.DistinctCount(order2, x);
      assert x in order1 <==> x in multiset(order1);
      assert x in order2 <==> x in multiset(order2);
    }
    assert multiset(order1) == multiset(order2);
    Strings.SortedUnique(Strings.Sort(order1), Strings.Sort(order2));
  }

  /**
   * A host Icinga 1 marks `no-sla` is reported whenever Icinga 2's `vars`
   * lacks the `nosla` key: `ndict` turns the missing key into an empty
   * mapping, which is falsy.
   */
  lemma NoSlaMissingKeyReported(h1: Record, h2: Record, attrs: map<string, Value>, vars: map<string, Value>)
    ensures (PyEq(Get(h1, "notes", Null), Str("no-sla")) && "attrs" in h2 && h2["attrs"] == Map(attrs)
             && "vars" in attrs && attrs["vars"] == Map(vars) && "nosla" !in vars) ==> NoSlaLost(h1, h2)
  {
    if "attrs" in h2 && h2["attrs"] == Map(attrs) && "vars" in attrs && attrs["vars"] == Map(vars) && "nosla" !in vars {
      var a := NestedDict.Lookup(NestedDict.Ndict(h2), "attrs").value;
      assert a == NestedDict.Strip(Map(attrs));
      var v := NestedDict.Lookup(a, "vars").value;
      assert v == NestedDict.Strip(Map(vars));
      assert NestedDict.Lookup(v, "nosla") == Some(EmptyMap);
      assert NoSlaPath[1..][1..][1..] == [];
      assert NestedDict.LookupPath(NestedDict.Ndict(h2), NoSlaPath) == Some(EmptyMap);
    }
  }

  /**
   * Icinga 2 gives `vars` as `null` for a host without custom variables; when
   * Icinga 1 marks that host `no-sla`, the mark counts as lost and the report
   * line raises.
   */
  lemma NullVarsRaises(h1: Record, h2: Record, attrs: map<string, Value>)
    ensures (PyEq(Get(h1, "notes", Null), Str("no-sla")) && "attrs" in h2 && h2["attrs"] == Map(attrs)
             && "vars" in attrs && attrs["vars"] == Null) ==> RaisesOn(h1, h2)
  {
    if PyEq(Get(h1, "notes", Null), Str("no-sla")) && "attrs" in h2 && h2["attrs"] == Map(attrs)
       && "vars" in attrs && attrs["vars"] == Null {
      var a := NestedDict.Lookup(NestedDict.Ndict(h2), "attrs").value;
      assert a == NestedDict.Strip(Map(attrs));
      assert NestedDict.Lookup(a, "vars") == Some(EmptyMap);
      assert NoSlaPath[1..][1..][1..] == [];
      assert NestedDict.LookupPath(NestedDict.Ndict(h2), NoSlaPath) == Some(EmptyMap);
      assert AtPath(Map(h2), ["attrs", "vars"]) == Some(Null);
    }
  }
}
