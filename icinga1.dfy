/**
 * Icinga 1 records (icinga_migration_utils/icinga1/icinga1.py): the assembly
 * of flat records from the matches of the cache-file regex, the lazily filled
 * caches of `Icinga1Config`, and the queries and indexes over those records.
 *
 * The regex itself and the file access are not modelled: a cache file is the
 * sequence of its matches, each a `Token` that says which of the regex's
 * groups are set.
 */
module Icinga1 {
  import opened Values
  import Strings
  import Index

  // ---------------------------------------------------------------------------
  // Record assembly (parse_icinga_cache)
  // ---------------------------------------------------------------------------

  /** One regex match. Names are non-empty (they match `\w+`). */
  datatype Token =
    | ObjectStart(objectType: string)     // `define <type> {` or `<type> {`: the object_type group
    | KeyOnly(key: string)                // a key and no value: the keyonly group
    | KeyValue(key: string, value: string) // a key and a possibly empty value
    | Close                               // `}`: every group empty

  const ObjectTypeKey := "object_type"
  const SourceKey := "monitoring_source"

  /** The value a token writes under `k`, if it writes `k` at all. */
  function Written(t: Token, k: string, source: string): Option<Value> {
    match t
    case ObjectStart(ty) =>
      if k == ObjectTypeKey then Some(Str(ty))
      else if k == SourceKey then Some(Str(source))
      else None
    case KeyOnly(key) => if k == key then Some(Null) else None
    case KeyValue(key, value) => if k == key && value != "" then Some(Str(value)) else None
    case Close => None
  }

  /** The effect of one non-closing match on the record being built. */
  function Step(obj: Record, t: Token, source: string): (r: Record)
    ensures forall k :: Written(t, k, source).Some? ==> k in r && r[k] == Written(t, k, source).value
    ensures forall k :: Written(t, k, source).None? ==> (k in r <==> k in obj) && (k in obj ==> r[k] == obj[k])
  {
    match t
    case ObjectStart(ty) => obj[ObjectTypeKey := Str(ty)][SourceKey := Str(source)]
    case KeyOnly(key) => obj[key := Null]
    case KeyValue(key, value) => if value == "" then obj else obj[key := Str(value)]
    case Close => obj
  }

  /** The records emitted from the matches `ts`, `obj` being the record under construction. */
  function Assemble(ts: seq<Token>, obj: Record, source: string): seq<Record>
    decreases |ts|
  {
    if ts == [] then []
    else if ts[0].Close? then [obj] + Assemble(ts[1..], map[], source)
    else Assemble(ts[1..], Step(obj, ts[0], source), source)
  }

  /** The record built from `obj` by matches without a closing one. */
  function Build(ts: seq<Token>, obj: Record, source: string): Record
    decreases |ts|
  {
    if ts == [] then obj else Build(ts[1..], Step(obj, ts[0], source), source)
  }

  /** The value the last match in `ts` that writes `k` writes there. */
  function LastWrite(ts: seq<Token>, k: string, source: string): Option<Value>
    decreases |ts|
  {
    if ts == [] then None
    else
      match LastWrite(ts[1..], k, source)
      case Some(v) => Some(v)
      case None => Written(ts[0], k, source)
  }

  function CountCloses(ts: seq<Token>): nat
    decreases |ts|
  {
    if ts == [] then 0 else (if ts[0].Close? then 1 else 0) + CountCloses(ts[1..])
  }

  /** `parse_icinga_cache`: the loop over the matches, appending a record at every closing match. */
  method ParseCache(tokens: seq<Token>, source: string) returns (result: seq<Record>)
    ensures result == Assemble(tokens, map[], source)
  {
    result := [];
    var obj: Record := map[];
    for i := 0 to |tokens|
      invariant result + Assemble(tokens[i..], obj, source) == Assemble(tokens, map[], source)
    {
      assert tokens[i..][1..] == tokens[i + 1..];
      if tokens[i].Close? {
        result := result + [obj];
        obj := map[];
      } else {
        obj := Step(obj, tokens[i], source);
      }
    }
  }

  /** Exactly one record per closing match. */
  lemma {:induction false} OneRecordPerClose(ts: seq<Token>, obj: Record, source: string)
    ensures |Assemble(ts, obj, source)| == CountCloses(ts)
    decreases |ts|
  {
    if ts != [] {
      OneRecordPerClose(ts[1..], if ts[0].Close? then map[] else Step(obj, ts[0], source), source);
    }
  }

  /**
   * The matches up to the first closing one make the first record, and the
   * rest start afresh from an empty record: records come out in order.
   */
  lemma {:induction false} RecordPerSegment(pre: seq<Token>, post: seq<Token>, obj: Record, source: string)
    requires forall i :: 0 <= i < |pre| ==> !pre[i].Close?
    ensures Assemble(pre + [Close] + post, obj, source) == [Build(pre, obj, source)] + Assemble(post, map[], source)
    decreases |pre|
  {
    if pre == [] {
      assert pre + [Close] + post == [Close] + post;
    } else {
      assert (pre + [Close] + post)[1..] == pre[1..] + [Close] + post;
      RecordPerSegment(pre[1..], post, Step(obj, pre[0], source), source);
    }
  }

  /** A record still being built when the matches run out is dropped. */
  lemma {:induction false} UnclosedRecordDropped(ts: seq<Token>, obj: Record, source: string)
    requires forall i :: 0 <= i < |ts| ==> !ts[i].Close?
    ensures Assemble(ts, obj, source) == []
    decreases |ts|
  {
    if ts != [] {
      UnclosedRecordDropped(ts[1..], Step(obj, ts[0], source), source);
    }
  }

  /**
   * Every key of a record holds what the last match writing it wrote: an
   * object-type match writes both `object_type` and `monitoring_source`, a
   * key-only match writes `None` (present, yet empty), a key with an empty
   * value writes nothing, and a repeated key overwrites the earlier value.
   */
  lemma {:induction false} LastWriteWins(ts: seq<Token>, obj: Record, k: string, source: string)
    ensures LastWrite(ts, k, source).Some? ==>
      k in Build(ts, obj, source) && Build(ts, obj, source)[k] == LastWrite(ts, k, source).value
    ensures LastWrite(ts, k, source).None? ==>
      (k in Build(ts, obj, source) <==> k in obj) && (k in obj ==> Build(ts, obj, source)[k] == obj[k])
    decreases |ts|
  {
    if ts != [] {
      LastWriteWins(ts[1..], Step(obj, ts[0], source), k, source);
    }
  }

  /** A key-only match makes the key present with `None`, which is not the same as absent. */
  lemma KeyOnlyIsPresent(pre: seq<Token>, k: string, obj: Record, source: string)
    ensures k in Build(pre + [KeyOnly(k)], obj, source)
    ensures Build(pre + [KeyOnly(k)], obj, source)[k] == Null
  {
    LastWriteSnoc(pre, KeyOnly(k), k, source);
    LastWriteWins(pre + [KeyOnly(k)], obj, k, source);
  }

  /** The last write of a list grown by one match. */
  lemma {:induction false} LastWriteSnoc(ts: seq<Token>, t: Token, k: string, source: string)
    ensures LastWrite(ts + [t], k, source) ==
      if Written(t, k, source).Some? then Written(t, k, source) else LastWrite(ts, k, source)
    decreases |ts|
  {
    if ts != [] {
      assert (ts + [t])[1..] == ts[1..] + [t];
      LastWriteSnoc(ts[1..], t, k, source);
    }
  }

  // ---------------------------------------------------------------------------
  // Icinga1Config: parsing on first access
  // ---------------------------------------------------------------------------

  /** A cache file: the monitoring server it came from and the matches in it. */
  datatype CacheFile = CacheFile(source: string, tokens: seq<Token>)

  /** The records of all files, file after file. */
  function ParseAll(files: seq<CacheFile>): seq<Record>
    decreases |files|
  {
    if files == [] then []
    else ParseAll(files[..|files| - 1]) + Assemble(files[|files| - 1].tokens, map[], files[|files| - 1].source)
  }

  /**
   * The configuration as `Icinga1Config` holds it: the files its globs matched
   * and the caches the `objects` and `status` properties fill on first access.
   */
  class Icinga1Config {
    const objectFiles: seq<CacheFile>
    const statusFiles: seq<CacheFile>
    var objectsCache: seq<Record>
    var statusCache: seq<Record>

    constructor (objectFiles: seq<CacheFile>, statusFiles: seq<CacheFile>)
      ensures this.objectFiles == objectFiles && this.statusFiles == statusFiles
      ensures objectsCache == [] && statusCache == []
    {
      this.objectFiles := objectFiles;
      this.statusFiles := statusFiles;
      objectsCache := [];
      statusCache := [];
    }

    /** The `objects` property: parse on first access; `None` stands for the exception raised when nothing was found. */
    method Objects() returns (r: Option<seq<Record>>)
      modifies this`objectsCache
      ensures old(objectsCache) != [] ==> objectsCache == old(objectsCache)
      ensures old(objectsCache) == [] ==> objectsCache == ParseAll(objectFiles)
      ensures r == if objectsCache == [] then None else Some(objectsCache)
    {
      if objectsCache == [] {
        objectsCache := ParseFiles(objectFiles);
      }
      r := if objectsCache == [] then None else Some(objectsCache);
    }

    /** The `status` property, likewise over the status files. */
    method Status() returns (r: Option<seq<Record>>)
      modifies this`statusCache
      ensures old(statusCache) != [] ==> statusCache == old(statusCache)
      ensures old(statusCache) == [] ==> statusCache == ParseAll(statusFiles)
      ensures r == if statusCache == [] then None else Some(statusCache)
    {
      if statusCache == [] {
        statusCache := ParseFiles(statusFiles);
      }
      r := if statusCache == [] then None else Some(statusCache);
    }
  }

  /** The loop of the properties: extend the cache with the records of each file in turn. */
  method ParseFiles(files: seq<CacheFile>) returns (recs: seq<Record>)
    ensures recs == ParseAll(files)
  {
    recs := [];
    for i := 0 to |files|
      invariant recs == ParseAll(files[..i])
    {
      var parsed := ParseCache(files[i].tokens, files[i].source);
      assert files[..i + 1][..i] == files[..i];
      recs := recs + parsed;
    }
    assert files[..|files|] == files;
  }

  // ---------------------------------------------------------------------------
  // Queries over the parsed records
  // ---------------------------------------------------------------------------

  /** `obj.get('object_type', None) == object_type`. */
  predicate HasType(o: Record, objectType: string) {
    Get(o, ObjectTypeKey, Null) == Str(objectType)
  }

  function OfType(objectType: string): Record -> bool {
    o => HasType(o, objectType)
  }

  /** `key in obj.keys() and obj[key] == value`. */
  predicate Matches(o: Record, f: (string, Value)) {
    f.0 in o && PyEq(o[f.0], f.1)
  }

  /** The keyword filters, all of them. */
  predicate MatchesAll(o: Record, filters: seq<(string, Value)>) {
    forall i | 0 <= i < |filters| :: Matches(o, filters[i])
  }

  function Selected(objectType: string, filters: seq<(string, Value)>): Record -> bool {
    o => HasType(o, objectType) && MatchesAll(o, filters)
  }

  /**
   * `_get_objects`: keep the objects of the type, then narrow the list once per
   * keyword filter. The result is, in the original order, exactly the objects
   * of the type that satisfy every filter (a conjunction).
   */
  method GetObjects(objects: seq<Record>, objectType: string, filters: seq<(string, Value)>)
    returns (r: seq<Record>)
    ensures r == Filter(objects, Selected(objectType, filters))
  {
    r := Filter(objects, OfType(objectType));
    FilterExt(objects, OfType(objectType), Selected(objectType, []));
    for i := 0 to |filters|
      invariant r == Filter(objects, Selected(objectType, filters[..i]))
    {
      var f := filters[i];
      forall o ensures Selected(objectType, filters[..i + 1])(o)
                       == (Selected(objectType, filters[..i])(o) && Matches(o, f)) {
        assert forall j | 0 <= j < i :: filters[..i + 1][j] == filters[..i][j];
      }
      FilterFilter(objects, Selected(objectType, filters[..i]), o => Matches(o, f),
                   Selected(objectType, filters[..i + 1]));
      r := Filter(r, o => Matches(o, f));
    }
    assert filters[..|filters|] == filters;
  }

  /** The keyword filters whose keyword is not `k`. */
  function OtherKey(k: string): ((string, Value)) -> bool {
    (f: (string, Value)) => f.0 != k
  }

  /**
   * `kwargs[k] = v`: the filters with `k` bound to `v` and every other binding
   * kept (keyword arguments form a dictionary, and the filters are a
   * conjunction, so where the binding sits does not matter).
   */
  function SetKeyword(filters: seq<(string, Value)>, k: string, v: Value): (r: seq<(string, Value)>)
    ensures (k, v) in r
    ensures forall f | f in r :: f == (k, v) || (f in filters && f.0 != k)
    ensures forall f | f in filters && f.0 != k :: f in r
  {
    Filter(filters, OtherKey(k)) + [(k, v)]
  }

  /**
   * `get_services(hostname, **kwargs)`: the service objects satisfying the
   * filters, with `host_name == hostname` added when a host name is given.
   */
  method GetServices(objects: seq<Record>, hostname: string, filters: seq<(string, Value)>)
    returns (r: seq<Record>)
    ensures r == Filter(objects, Selected("service",
                   if hostname != "" then SetKeyword(filters, "host_name", Str(hostname)) else filters))
    ensures hostname != "" ==> forall o | o in r :: "host_name" in o && o["host_name"] == Str(hostname)
  {
    var kwargs := if hostname != "" then SetKeyword(filters, "host_name", Str(hostname)) else filters;
    r := GetObjects(objects, "service", kwargs);
  }

  /** The value of a key every record of the list carries (the source subscripts it directly). */
  function Field(k: string): Record -> Value {
    o => Get(o, k, Null)
  }

  predicate AllHave(recs: seq<Record>, k: string) {
    forall o | o in recs :: k in o
  }

  /** `get_hosts_dict`: the host objects by `host_name`; the last host with a name wins. */
  method GetHostsDict(objects: seq<Record>) returns (d: map<Value, Record>)
    requires AllHave(Filter(objects, OfType("host")), "host_name")
    ensures forall n :: n in d <==> Index.LastWith(Filter(objects, OfType("host")), Field("host_name"), n).Some?
    ensures forall n | n in d :: d[n] == Index.LastWith(Filter(objects, OfType("host")), Field("host_name"), n).value
    ensures forall n | n in d :: "host_name" in d[n] && d[n]["host_name"] == n && HasType(d[n], "host")
  {
    var hosts := GetObjects(objects, "host", []);
    FilterExt(objects, Selected("host", []), OfType("host"));
    d := Index.IndexLast(hosts, Field("host_name"));
    forall n | n in d ensures "host_name" in d[n] && d[n]["host_name"] == n && HasType(d[n], "host") {
      Index.LastWithIsLast(hosts, Field("host_name"), n);
      assert d[n] in hosts;
    }
  }

  /** `get_hoststatus_by_host`: the host status records by `host_name`; the last one wins. */
  method GetHostStatusByHost(status: seq<Record>) returns (d: map<Value, Record>)
    requires AllHave(status, ObjectTypeKey)
    requires AllHave(Filter(status, OfType("hoststatus")), "host_name")
    ensures forall n :: n in d <==> Index.LastWith(Filter(status, OfType("hoststatus")), Field("host_name"), n).Some?
    ensures forall n | n in d :: d[n] == Index.LastWith(Filter(status, OfType("hoststatus")), Field("host_name"), n).value
  {
    d := Index.IndexLast(Filter(status, OfType("hoststatus")), Field("host_name"));
  }

  /**
   * `get_services_by_hostname`: the service objects (narrowed by the filters)
   * grouped by `host_name`, in their original order; a name without services
   * gives the empty list.
   */
  method GetServicesByHostname(objects: seq<Record>, filters: seq<(string, Value)>)
    returns (d: map<Value, seq<Record>>)
    requires AllHave(Filter(objects, Selected("service", filters)), "host_name")
    ensures forall n :: Index.Group(d, n) == Filter(Filter(objects, Selected("service", filters)), Index.NamedBy(Field("host_name"), n))
    ensures forall n, o | o in Index.Group(d, n) :: "host_name" in o && o["host_name"] == n
  {
    var services := GetServices(objects, "", filters);
    d := Index.GroupBy(services, Field("host_name"));
  }

  /** `get_servicestatus_by_host`: the service status records grouped by `host_name`, in order. */
  method GetServiceStatusByHost(status: seq<Record>) returns (d: map<Value, seq<Record>>)
    requires AllHave(status, ObjectTypeKey)
    requires AllHave(Filter(status, OfType("servicestatus")), "host_name")
    ensures forall n :: Index.Group(d, n) == Filter(Filter(status, OfType("servicestatus")), Index.NamedBy(Field("host_name"), n))
    ensures forall n, o | o in Index.Group(d, n) :: "host_name" in o && o["host_name"] == n
  {
    d := Index.GroupBy(Filter(status, OfType("servicestatus")), Field("host_name"));
  }

  /** Entry type 4: a user comment, i.e. an acknowledgement. */
  predicate IsAcknowledgement(o: Record) {
    Get(o, "entry_type", Null) == Str("4")
  }

  /** `service_acknowledgements`: exactly the `servicecomment` status records with `entry_type == '4'`, in order. */
  function ServiceAcknowledgements(status: seq<Record>): (r: seq<Record>)
    requires AllHave(Filter(status, OfType("servicecomment")), "entry_type")
    ensures forall a :: a in r <==> a in status && HasType(a, "servicecomment") && a["entry_type"] == Str("4")
  {
    Filter(Filter(status, OfType("servicecomment")), o => IsAcknowledgement(o))
  }

  /** `host_acknowledgements`: exactly the `hostcomment` status records with `entry_type == '4'`, in order. */
  function HostAcknowledgements(status: seq<Record>): (r: seq<Record>)
    requires AllHave(Filter(status, OfType("hostcomment")), "entry_type")
    ensures forall a :: a in r <==> a in status && HasType(a, "hostcomment") && a["entry_type"] == Str("4")
  {
    Filter(Filter(status, OfType("hostcomment")), o => IsAcknowledgement(o))
  }

  /** `hostdowntimes + servicedowntimes`. */
  function Downtimes(status: seq<Record>): seq<Record> {
    Filter(status, OfType("hostdowntime")) + Filter(status, OfType("servicedowntime"))
  }

  /** `get_downtimes(hostname)`: the host downtimes, then the service downtimes, of that host. */
  function GetDowntimes(status: seq<Record>, hostname: string): (r: seq<Record>)
    requires AllHave(Downtimes(status), "host_name")
    ensures forall d :: d in r <==> d in status && (HasType(d, "hostdowntime") || HasType(d, "servicedowntime"))
                                    && d["host_name"] == Str(hostname)
  {
    Filter(Downtimes(status), Index.NamedBy(Field("host_name"), Str(hostname)))
  }

  /** `get_acknowledgements(hostname)`: the service, then the host acknowledgements of that host. */
  function GetAcknowledgements(status: seq<Record>, hostname: string): (r: seq<Record>)
    requires AllHave(Filter(status, OfType("servicecomment")), "entry_type")
    requires AllHave(Filter(status, OfType("hostcomment")), "entry_type")
    requires AllHave(ServiceAcknowledgements(status) + HostAcknowledgements(status), "host_name")
    ensures forall a :: a in r <==> a in status && (HasType(a, "servicecomment") || HasType(a, "hostcomment"))
                                    && a["entry_type"] == Str("4") && a["host_name"] == Str(hostname)
  {
    Filter(ServiceAcknowledgements(status) + HostAcknowledgements(status),
           Index.NamedBy(Field("host_name"), Str(hostname)))
  }

  /** A contact object without its `monitoring_source` key. */
  function WithoutSource(c: Record): Record {
    c - {SourceKey}
  }

  /**
   * `contacts`: the contact objects with `monitoring_source` popped (a KeyError
   * where it is missing), each distinct contact once.
   */
  method Contacts(objects: seq<Record>) returns (r: seq<Record>)
    requires AllHave(Filter(objects, OfType("contact")), SourceKey)
    ensures forall i, j :: 0 <= i < j < |r| ==> r[i] != r[j]
    ensures forall c :: c in r <==> exists o :: o in objects && HasType(o, "contact") && c == WithoutSource(o)
    ensures forall c | c in r :: SourceKey !in c
  {
    var contacts := GetObjects(objects, "contact", []);
    FilterExt(objects, Selected("contact", []), OfType("contact"));
    r := [];
    for i := 0 to |contacts|
      invariant forall a, b :: 0 <= a < b < |r| ==> r[a] != r[b]
      invariant forall c :: c in r <==> exists k :: 0 <= k < i && c == WithoutSource(contacts[k])
    {
      var c := WithoutSource(contacts[i]);
      if c !in r {
        r := r + [c];
      }
    }
    forall c ensures c in r <==> exists o :: o in objects && HasType(o, "contact") && c == WithoutSource(o) {
      if c in r {
        var k :| 0 <= k < |contacts| && c == WithoutSource(contacts[k]);
        assert contacts[k] in contacts;
      }
      if exists o :: o in objects && HasType(o, "contact") && c == WithoutSource(o) {
        var o :| o in objects && HasType(o, "contact") && c == WithoutSource(o);
        assert o in contacts;
        var k :| 0 <= k < |contacts| && contacts[k] == o;
      }
    }
  }
}
