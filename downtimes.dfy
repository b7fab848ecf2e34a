/**
 * Migration of downtimes (icinga_migration_utils/migrate/downtimes.py):
 * every one-off Icinga 1 downtime whose host (and service) Icinga 2 knows is
 * scheduled in Icinga 2 unless its existence check finds a downtime; `simulate`
 * only looks.
 *
 * The existence check as written compares every attribute but the host and
 * service name with itself, so it finds any downtime of the host or service
 * (`AsWrittenQueryMeaning`); the migrations here send that check. The
 * corrected check, which finds only the same downtime, is `ExistenceQuery`;
 * the lemmas whose names begin with `Corrected` state what a migration sending it would do.
 */
module MigrateDowntimes {
  import opened Values
  import opened Strings
  import opened NestedDict
  import opened Icinga2Filters
  import opened Icinga2
  import Index

  // ---------------------------------------------------------------------------
  // Icinga 1 downtime records
  // ---------------------------------------------------------------------------

  /** The text under `k`, or "" where there is none. */
  function Text(r: Record, k: string): string {
    if k in r && r[k].Str? then r[k].s else ""
  }

  predicate HasText(r: Record, keys: seq<string>) {
    forall k | k in keys :: k in r && r[k].Str?
  }

  /** The fields both migrations read with a subscript. */
  const DowntimeFields: seq<string> := ["host_name", "author", "comment", "start_time", "end_time", "duration", "fixed"]

  /** A recurring downtime: its comment mentions `daily` or `weekly`, in any case. */
  predicate Recurring(r: Record) {
    Contains(Lower(Text(r, "comment")), "daily") || Contains(Lower(Text(r, "comment")), "weekly")
  }

  function OneOff(): Record -> bool {
    r => !Recurring(r)
  }

  function OnHost(hostname: string): Record -> bool {
    r => Text(r, "host_name") == hostname
  }

  /**
   * The downtimes a migration considers: the one-off ones, and with a host
   * name given ("" stands for none) only those of that host, in order.
   */
  function ToMigrate(downtimes: seq<Record>, hostname: string): (r: seq<Record>)
    ensures forall x :: x in r <==> x in downtimes && !Recurring(x) && (hostname == "" || Text(x, "host_name") == hostname)
    ensures |r| <= |downtimes|
  {
    var once := Filter(downtimes, OneOff());
    if hostname == "" then once else Filter(once, OnHost(hostname))
  }

  /** The downtime to schedule: the comment with the suffix, `fixed` from `'1'`, the times as integers. */
  function ToDowntime(r: Record, suffix: string, service: Option<string>, toInt: string -> int): Downtime {
    Downtime(Text(r, "host_name"), service, Text(r, "author"), Text(r, "comment") + suffix,
             toInt(Text(r, "start_time")), toInt(Text(r, "end_time")), toInt(Text(r, "duration")),
             Text(r, "fixed") == "1")
  }

  // ---------------------------------------------------------------------------
  // The existence check as written (icinga2.get_downtimes with the filter dict)
  // ---------------------------------------------------------------------------

  /** The keyword arguments of the host existence check and of `schedule_host_downtime`. */
  function HostDowntimeFilter(d: Downtime): seq<(string, Value)> {
    [("host_name", Str(d.host)), ("author", Str(d.author)), ("comment", Str(d.comment)),
     ("start_time", Num(d.startTime as real)), ("end_time", Num(d.endTime as real)),
     ("duration", Num(d.duration as real)), ("fixed", Bool(d.fixed))]
  }

  /** The keyword arguments of the service existence check and of `schedule_service_downtime`. */
  function ServiceDowntimeFilter(d: Downtime, serviceName: string): seq<(string, Value)> {
    [("host_name", Str(d.host)), ("service_name", Str(serviceName)), ("downtime_author", Str(d.author)),
     ("downtime_comment", Str(d.comment)), ("downtime_start_time", Num(d.startTime as real)),
     ("downtime_end_time", Num(d.endTime as real)), ("downtime_duration", Num(d.duration as real)),
     ("downtime_fixed", Bool(d.fixed))]
  }

  /** A key without a character of `host_name` and one of `service_name` is not renamed. */
  lemma RenameKeeps(key: string, h: char, s: char)
    requires h in "host_name" && h !in key && s in "service_name" && s !in key
    ensures Rename(key) == key
  {
    Absent(key, "host_name", h);
    Absent(key, "service_name", s);
    RenameOther(key);
  }

  /** A key without `v` and without one of `h` and `s`: it holds neither `host_name` nor `service_name`. */
  predicate Unrenamed(k: string) {
    'v' !in k && ('h' !in k || 's' !in k)
  }

  /** Keys without `v` and without one of `h` and `s` are kept by the renaming. */
  lemma RenameKeepsAll(keys: seq<string>)
    requires forall k | k in keys :: Unrenamed(k)
    ensures forall k | k in keys :: Rename(k) == k
  {
    forall k | k in keys ensures Rename(k) == k {
      if 'h' !in k {
        RenameKeeps(k, 'h', 'v');
      } else {
        RenameKeeps(k, 's', 'v');
      }
    }
  }

  const HostFilterKeys: seq<string> := ["host_name", "author", "comment", "start_time", "end_time", "duration", "fixed"]

  const ServiceFilterKeys: seq<string> :=
    ["host_name", "service_name", "downtime_author", "downtime_comment", "downtime_start_time",
     "downtime_end_time", "downtime_duration", "downtime_fixed"]

  /** The host filter's keys after `host_name` contain neither name to rename. */
  lemma HostKeysUnrenamed()
    ensures forall k | k in HostFilterKeys[1..] :: Unrenamed(k)
  {
  }

  /** The service filter's keys after the two names contain neither name to rename. */
  lemma ServiceKeysUnrenamed()
    ensures forall k | k in ServiceFilterKeys[2..] :: Unrenamed(k)
  {
    DowntimeKeysUnrenamed();
  }

  /** Each `downtime_` key of the service filter lacks `v` and one of `h` and `s`. */
  lemma DowntimeKeysUnrenamed()
    ensures Unrenamed("downtime_author") && Unrenamed("downtime_comment") && Unrenamed("downtime_start_time")
    ensures Unrenamed("downtime_end_time") && Unrenamed("downtime_duration") && Unrenamed("downtime_fixed")
  {
    assert Unrenamed("downtime_author") && Unrenamed("downtime_comment") && Unrenamed("downtime_start_time")
    by {
      assert Unrenamed("downtime_author");
      assert Unrenamed("downtime_comment");
      assert Unrenamed("downtime_start_time");
    }
  }

  /** The keys of the host filter are distinct. */
  lemma HostFilterDistinct(d: Downtime)
    ensures DistinctKeys(HostDowntimeFilter(d))
  {
    var f := HostDowntimeFilter(d);
    var keys := HostFilterKeys;
    assert forall i | 0 <= i < 7 :: f[i].0 == keys[i];
    assert forall i, j | 0 <= i < j < 7 :: keys[i] != keys[j] by {
      assert forall i | 0 <= i < 7 :: |keys[i]| == [9, 6, 7, 10, 8, 8, 5][i];
      assert keys[4][0] != keys[5][0];
    }
  }

  /** The keys of the service filter are distinct. */
  lemma ServiceFilterDistinct(d: Downtime, serviceName: string)
    ensures DistinctKeys(ServiceDowntimeFilter(d, serviceName))
  {
    var f := ServiceDowntimeFilter(d, serviceName);
    var keys := ServiceFilterKeys;
    assert forall i | 0 <= i < 8 :: f[i].0 == keys[i];
    assert forall i, j | 0 <= i < j < 8 :: keys[i] != keys[j] by {
      assert forall i | 0 <= i < 8 :: |keys[i]| == [9, 12, 15, 16, 19, 17, 17, 14][i];
      assert keys[5][9] != keys[6][9] && keys[0][0] != keys[1][0];
    }
  }

  /** A clause `k==k` comparing a keyword with itself. */
  predicate SelfComparison(c: Clause) {
    c.Compare? && c.attribute == c.variable
  }

  /** The clauses `get_downtimes` builds from the host filter: the host name, then six self-comparisons. */
  lemma HostFilterClauses(d: Downtime)
    ensures var cs := DowntimeClauses(HostDowntimeFilter(d));
      |cs| == 7 && cs[0] == Compare("host.name", "host_name") &&
      forall i | 1 <= i < |cs| :: SelfComparison(cs[i])
  {
    var f := HostDowntimeFilter(d);
    RenameHostName();
    HostKeysUnrenamed();
    RenameKeepsAll(HostFilterKeys[1..]);
    forall i | 1 <= i < 7 ensures Rename(f[i].0) == f[i].0 {
      assert f[i].0 == HostFilterKeys[1..][i - 1];
    }
  }

  /** The clauses `get_downtimes` builds from the service filter: host and service name, then six self-comparisons. */
  lemma ServiceFilterClauses(d: Downtime, serviceName: string)
    ensures var cs := DowntimeClauses(ServiceDowntimeFilter(d, serviceName));
      |cs| == 8 && cs[0] == Compare("host.name", "host_name") && cs[1] == Compare("service.name", "service_name") &&
      forall i | 2 <= i < |cs| :: SelfComparison(cs[i])
  {
    ServiceFilterNames(d, serviceName);
    ServiceFilterOthers(d, serviceName);
  }

  /** The first two clauses of the service filter compare the dotted names with their variables. */
  lemma ServiceFilterNames(d: Downtime, serviceName: string)
    ensures var cs := DowntimeClauses(ServiceDowntimeFilter(d, serviceName));
      cs[0] == Compare("host.name", "host_name") && cs[1] == Compare("service.name", "service_name")
  {
    RenameHostName();
    RenameServiceName();
  }

  /** The remaining clauses of the service filter compare each key with itself. */
  lemma ServiceFilterOthers(d: Downtime, serviceName: string)
    ensures var cs := DowntimeClauses(ServiceDowntimeFilter(d, serviceName));
      forall i | 2 <= i < |cs| :: SelfComparison(cs[i])
  {
    var f := ServiceDowntimeFilter(d, serviceName);
    ServiceKeysUnrenamed();
    RenameKeepsAll(ServiceFilterKeys[2..]);
    forall i | 2 <= i < 8 ensures Rename(f[i].0) == f[i].0 {
      assert f[i].0 == ServiceFilterKeys[2..][i - 2];
    }
  }

  /** The attributes of a downtime's view and their values. */
  lemma DowntimeViewKeys(e: Downtime)
    ensures var v := DowntimeView(e);
      "host.name" in v && v["host.name"] == Str(e.host) &&
      "downtime.author" in v && v["downtime.author"] == Str(e.author) &&
      "downtime.comment" in v && v["downtime.comment"] == Str(e.comment) &&
      "downtime.start_time" in v && v["downtime.start_time"] == Num(e.startTime as real) &&
      "downtime.end_time" in v && v["downtime.end_time"] == Num(e.endTime as real) &&
      "downtime.duration" in v && v["downtime.duration"] == Num(e.duration as real) &&
      "downtime.fixed" in v && v["downtime.fixed"] == Bool(e.fixed) &&
      ("service.name" in v <==> e.service.Some?) &&
      (e.service.Some? ==> v["service.name"] == Str(e.service.value)) &&
      "host_name" !in v && "service_name" !in v
  {
  }

  /**
   * As written, the host existence check selects every downtime of the host,
   * whatever its author, comment, times or service.
   */
  lemma HostExistenceAsWritten(d: Downtime, e: Downtime)
    ensures DistinctKeys(HostDowntimeFilter(d))
    ensures DowntimesQuery(HostDowntimeFilter(d)).Some?
    ensures Selects(DowntimesQuery(HostDowntimeFilter(d)).value, DowntimeView(e)) <==> e.host == d.host
  {
    HostFilterDistinct(d);
    var f := HostDowntimeFilter(d);
    var q := DowntimesQuery(f).value;
    HostFilterClauses(d);
    assert f[0].0 == "host_name";
    assert q.vars["host_name"] == Str(d.host);
    HostQueryMeaning(q, e, d.host);
  }

  /** A query made of the host-name clause and self-comparisons selects by host name alone. */
  lemma HostQueryMeaning(q: Query, e: Downtime, host: string)
    requires |q.clauses| >= 1 && q.clauses[0] == Compare("host.name", "host_name")
    requires forall i | 1 <= i < |q.clauses| :: SelfComparison(q.clauses[i])
    requires "host_name" in q.vars && q.vars["host_name"] == Str(host)
    ensures Selects(q, DowntimeView(e)) <==> e.host == host
  {
    var v := DowntimeView(e);
    DowntimeViewKeys(e);
    assert Holds(Compare("host.name", "host_name"), v, q.vars) <==> e.host == host;
    if e.host == host {
      forall c | c in q.clauses ensures Holds(c, v, q.vars) {
      }
    } else {
      ClauseRequired(q, Compare("host.name", "host_name"));
    }
  }

  /** As written, the service existence check selects every downtime of the service. */
  lemma ServiceExistenceAsWritten(d: Downtime, serviceName: string, e: Downtime)
    ensures DistinctKeys(ServiceDowntimeFilter(d, serviceName))
    ensures DowntimesQuery(ServiceDowntimeFilter(d, serviceName)).Some?
    ensures Selects(DowntimesQuery(ServiceDowntimeFilter(d, serviceName)).value, DowntimeView(e)) <==>
      e.host == d.host && e.service == Some(serviceName)
  {
    ServiceFilterDistinct(d, serviceName);
    var q := DowntimesQuery(ServiceDowntimeFilter(d, serviceName)).value;
    ServiceFilterClauses(d, serviceName);
    ServiceFilterVars(d, serviceName);
    ServiceQueryMeaning(q, e, d.host, serviceName);
  }

  /** The variables of the service existence check: the names, and no dotted attribute. */
  lemma ServiceFilterVars(d: Downtime, serviceName: string)
    requires DistinctKeys(ServiceDowntimeFilter(d, serviceName))
    ensures var vs := DowntimesQuery(ServiceDowntimeFilter(d, serviceName)).value.vars;
      "host_name" in vs && vs["host_name"] == Str(d.host) &&
      "service_name" in vs && vs["service_name"] == Str(serviceName) && "service.name" !in vs
  {
    var f := ServiceDowntimeFilter(d, serviceName);
    assert f[0].0 == "host_name" && f[1].0 == "service_name";
    forall i | 0 <= i < 8 ensures f[i].0 != "service.name" {
      assert f[i].0 == ServiceFilterKeys[i];
      assert '.' !in ServiceFilterKeys[i];
    }
  }

  /** A query made of the host- and service-name clauses and self-comparisons selects by those names alone. */
  lemma ServiceQueryMeaning(q: Query, e: Downtime, host: string, serviceName: string)
    requires |q.clauses| >= 2 && q.clauses[0] == Compare("host.name", "host_name")
    requires q.clauses[1] == Compare("service.name", "service_name")
    requires forall i | 2 <= i < |q.clauses| :: SelfComparison(q.clauses[i])
    requires "host_name" in q.vars && q.vars["host_name"] == Str(host)
    requires "service_name" in q.vars && q.vars["service_name"] == Str(serviceName)
    requires "service.name" !in q.vars
    ensures Selects(q, DowntimeView(e)) <==> e.host == host && e.service == Some(serviceName)
  {
    var v := DowntimeView(e);
    DowntimeViewKeys(e);
    assert Holds(Compare("host.name", "host_name"), v, q.vars) <==> e.host == host;
    assert Holds(Compare("service.name", "service_name"), v, q.vars) <==> e.service == Some(serviceName);
    if e.host == host && e.service == Some(serviceName) {
      forall c | c in q.clauses ensures Holds(c, v, q.vars) {
      }
    } else {
      ClauseRequired(q, Compare("host.name", "host_name"));
      ClauseRequired(q, Compare("service.name", "service_name"));
    }
  }

  /** The host existence check as written runs and selects downtime `e` when it looks for `d`. */
  predicate SelectedAsWritten(d: Downtime, e: Downtime) {
    DistinctKeys(HostDowntimeFilter(d)) && DowntimesQuery(HostDowntimeFilter(d)).Some? &&
    Selects(DowntimesQuery(HostDowntimeFilter(d)).value, DowntimeView(e))
  }

  /** A host downtime with another comment already in Icinga 2 stops the migration of this one. */
  lemma HostExistenceAsWrittenCounterexample()
    ensures var d := Downtime("web1", None, "alice", "kernel update", 100, 200, 100, true);
            var e := Downtime("web1", None, "bob", "disk swap", 300, 400, 100, true);
            d != e && SelectedAsWritten(d, e)
  {
    var d := Downtime("web1", None, "alice", "kernel update", 100, 200, 100, true);
    var e := Downtime("web1", None, "bob", "disk swap", 300, 400, 100, true);
    HostExistenceAsWritten(d, e);
  }

  // ---------------------------------------------------------------------------
  // The existence check the migrations send
  // ---------------------------------------------------------------------------

  /**
   * The check sent before scheduling a target: `get_downtimes` with the host
   * filter for a host downtime and with the service filter for a service
   * downtime.
   */
  function AsWrittenQuery(d: Downtime): Query {
    if d.service.None? then
      HostFilterDistinct(d);
      DowntimesQuery(HostDowntimeFilter(d)).value
    else
      ServiceFilterDistinct(d, d.service.value);
      DowntimesQuery(ServiceDowntimeFilter(d, d.service.value)).value
  }

  /** `e` is on the host of `d` and, when `d` is a service downtime, on its service too. */
  predicate OnSameObject(d: Downtime, e: Downtime) {
    e.host == d.host && (d.service.Some? ==> e.service == d.service)
  }

  /**
   * The check as sent selects every downtime of the host (for a host
   * downtime, service downtimes included) or of the service, whatever its
   * author, comment and times.
   */
  lemma AsWrittenQueryMeaning(d: Downtime, e: Downtime)
    ensures Selects(AsWrittenQuery(d), DowntimeView(e)) <==> OnSameObject(d, e)
  {
    if d.service.None? {
      HostExistenceAsWritten(d, e);
    } else {
      ServiceExistenceAsWritten(d, d.service.value, e);
    }
  }

  // ---------------------------------------------------------------------------
  // The corrected existence check
  // ---------------------------------------------------------------------------

  function ServiceValue(service: Option<string>): Value {
    if service.Some? then Str(service.value) else Null
  }

  /**
   * The existence check as intended: every attribute of the downtime compared
   * with its dotted name, and the service name (null for a host downtime).
   */
  function ExistenceQuery(d: Downtime): Query {
    Query([Compare("host.name", "host_name"), Compare("service.name", "service_name"),
           Compare("downtime.author", "author"), Compare("downtime.comment", "comment"),
           Compare("downtime.start_time", "start_time"), Compare("downtime.end_time", "end_time"),
           Compare("downtime.duration", "duration"), Compare("downtime.fixed", "fixed")],
          map["host_name" := Str(d.host), "service_name" := ServiceValue(d.service), "author" := Str(d.author),
              "comment" := Str(d.comment), "start_time" := Num(d.startTime as real),
              "end_time" := Num(d.endTime as real), "duration" := Num(d.duration as real), "fixed" := Bool(d.fixed)])
  }

  /** The corrected check selects exactly the downtime it asks for. */
  lemma ExistenceQuerySelectsSame(d: Downtime, e: Downtime)
    ensures Selects(ExistenceQuery(d), DowntimeView(e)) <==> e == d
  {
    if Selects(ExistenceQuery(d), DowntimeView(e)) {
      SelectedIsSame(d, e);
    } else if e == d {
      SameIsSelected(d);
    }
  }

  lemma SameIsSelected(d: Downtime)
    ensures Selects(ExistenceQuery(d), DowntimeView(d))
  {
    var q := ExistenceQuery(d);
    var v := DowntimeView(d);
    DowntimeViewKeys(d);
    ExistenceVars(d);
    ViewLacksVariables(d);
    forall c | c in q.clauses ensures Holds(c, v, q.vars) {
    }
  }

  lemma SelectedIsSame(d: Downtime, e: Downtime)
    requires Selects(ExistenceQuery(d), DowntimeView(e))
    ensures e == d
  {
    SelectedSameText(d, e);
    SelectedSameTimes(d, e);
  }

  /** The corrected check pins the host, service, author, comment and the `fixed` flag. */
  lemma SelectedSameText(d: Downtime, e: Downtime)
    requires Selects(ExistenceQuery(d), DowntimeView(e))
    ensures e.host == d.host && e.service == d.service && e.author == d.author && e.comment == d.comment
    ensures e.fixed == d.fixed
  {
    var q := ExistenceQuery(d);
    var v := DowntimeView(e);
    DowntimeViewKeys(e);
    ExistenceVars(d);
    ViewLacksVariables(e);
    CompareForces(q, v, "host.name", "host_name");
    CompareForces(q, v, "service.name", "service_name");
    CompareForces(q, v, "downtime.author", "author");
    CompareForces(q, v, "downtime.comment", "comment");
    CompareForces(q, v, "downtime.fixed", "fixed");
  }

  /** The corrected check pins the start and end times and the duration. */
  lemma SelectedSameTimes(d: Downtime, e: Downtime)
    requires Selects(ExistenceQuery(d), DowntimeView(e))
    ensures e.startTime == d.startTime && e.endTime == d.endTime && e.duration == d.duration
  {
    var q := ExistenceQuery(d);
    var v := DowntimeView(e);
    DowntimeViewKeys(e);
    ExistenceVars(d);
    ViewLacksVariables(e);
    CompareForces(q, v, "downtime.start_time", "start_time");
    CompareForces(q, v, "downtime.end_time", "end_time");
    CompareForces(q, v, "downtime.duration", "duration");
  }

  /** The variables of the corrected check. */
  lemma ExistenceVars(d: Downtime)
    ensures var vs := ExistenceQuery(d).vars;
      "host_name" in vs && vs["host_name"] == Str(d.host) &&
      "service_name" in vs && vs["service_name"] == ServiceValue(d.service) &&
      "author" in vs && vs["author"] == Str(d.author) &&
      "comment" in vs && vs["comment"] == Str(d.comment) &&
      "start_time" in vs && vs["start_time"] == Num(d.startTime as real) &&
      "end_time" in vs && vs["end_time"] == Num(d.endTime as real) &&
      "duration" in vs && vs["duration"] == Num(d.duration as real) &&
      "fixed" in vs && vs["fixed"] == Bool(d.fixed) &&
      "service.name" !in vs
  {
  }

  /** No variable of the corrected check is an attribute of a downtime. */
  lemma ViewLacksVariables(e: Downtime)
    ensures var v := DowntimeView(e);
      "author" !in v && "comment" !in v && "start_time" !in v && "end_time" !in v && "duration" !in v && "fixed" !in v
  {
  }

  // ---------------------------------------------------------------------------
  // What a migration schedules, for a given existence check
  // ---------------------------------------------------------------------------

  /** The downtime counts as existing for `check`: the check did not raise and found something. */
  predicate Exists(d: Downtime, downtimes: seq<Downtime>, fails: Query -> bool, check: Downtime -> Query) {
    !fails(check(d)) && Filter(downtimes, SelectedBy(check(d))) != []
  }

  /** As sent, a downtime counts as existing iff the check does not raise and its host (or service) has any downtime. */
  lemma AsWrittenExistsIff(d: Downtime, downtimes: seq<Downtime>, fails: Query -> bool)
    ensures Exists(d, downtimes, fails, AsWrittenQuery) <==>
      !fails(AsWrittenQuery(d)) && exists e | e in downtimes :: OnSameObject(d, e)
  {
    ExistsMeaning(d, downtimes, fails, AsWrittenQuery);
    forall e ensures Selects(AsWrittenQuery(d), DowntimeView(e)) <==> OnSameObject(d, e) {
      AsWrittenQueryMeaning(d, e);
    }
  }

  /** A downtime counts as existing iff its check does not raise and selects some downtime. */
  lemma ExistsMeaning(d: Downtime, downtimes: seq<Downtime>, fails: Query -> bool, check: Downtime -> Query)
    ensures Exists(d, downtimes, fails, check) <==>
      !fails(check(d)) && exists e | e in downtimes :: Selects(check(d), DowntimeView(e))
  {
    var found := Filter(downtimes, SelectedBy(check(d)));
    if found != [] {
      assert found[0] in found;
    }
  }

  /** With the corrected check, a downtime exists exactly when the check does not raise and the very downtime is there. */
  lemma CorrectedExistsIff(d: Downtime, downtimes: seq<Downtime>, fails: Query -> bool)
    ensures Exists(d, downtimes, fails, ExistenceQuery) <==> !fails(ExistenceQuery(d)) && d in downtimes
  {
    var found := Filter(downtimes, SelectedBy(ExistenceQuery(d)));
    if d in downtimes {
      SameIsSelected(d);
      assert d in found;
    }
    if found != [] {
      assert found[0] in found;
      SelectedIsSame(d, found[0]);
    }
  }

  /** The targets scheduled one after the other, each only when it does not exist by then. */
  function Scheduled(targets: seq<Downtime>, existing: seq<Downtime>, fails: Query -> bool, check: Downtime -> Query): seq<Downtime>
    decreases |targets|
  {
    if targets == [] then []
    else
      var before := Scheduled(targets[..|targets| - 1], existing, fails, check);
      var d := targets[|targets| - 1];
      before + (if Exists(d, existing + before, fails, check) then [] else [d])
  }

  predicate NeverFails(targets: seq<Downtime>, fails: Query -> bool, check: Downtime -> Query) {
    forall d | d in targets :: !fails(check(d))
  }

  /** The check of every target selects that target itself. */
  predicate FindsItself(targets: seq<Downtime>, check: Downtime -> Query) {
    forall d | d in targets :: Selects(check(d), DowntimeView(d))
  }

  /** The check of the `j`th scheduled downtime selects nothing that was on the server before it. */
  predicate FoundNothingBefore(s: seq<Downtime>, existing: seq<Downtime>, check: Downtime -> Query, j: int)
    requires 0 <= j < |s|
  {
    forall e | e in existing + s[..j] :: !Selects(check(s[j]), DowntimeView(e))
  }

  predicate NoDuplicates(s: seq<Downtime>) {
    forall i, j | 0 <= i < j < |s| :: s[i] != s[j]
  }

  /** Every scheduled downtime is a target, and there are no more of them than targets. */
  lemma {:induction false} ScheduledAreTargets(targets: seq<Downtime>, existing: seq<Downtime>, fails: Query -> bool,
                                               check: Downtime -> Query)
    ensures forall d | d in Scheduled(targets, existing, fails, check) :: d in targets
    ensures |Scheduled(targets, existing, fails, check)| <= |targets|
    decreases |targets|
  {
    if targets != [] {
      ScheduledAreTargets(targets[..|targets| - 1], existing, fails, check);
    }
  }

  /**
   * When no check raises, each scheduled downtime was scheduled because its
   * check found nothing among the downtimes on the server before it.
   */
  lemma {:induction false} ScheduledFoundNothing(targets: seq<Downtime>, existing: seq<Downtime>, fails: Query -> bool,
                                                 check: Downtime -> Query)
    requires NeverFails(targets, fails, check)
    ensures forall j | 0 <= j < |Scheduled(targets, existing, fails, check)| ::
      FoundNothingBefore(Scheduled(targets, existing, fails, check), existing, check, j)
    decreases |targets|
  {
    if targets != [] {
      var init := targets[..|targets| - 1];
      var d := targets[|targets| - 1];
      var before := Scheduled(init, existing, fails, check);
      var s := Scheduled(targets, existing, fails, check);
      assert NeverFails(init, fails, check);
      ScheduledFoundNothing(init, existing, fails, check);
      var extra := s[|before|..];
      assert s == before + extra;
      forall j | 0 <= j < |before| ensures FoundNothingBefore(s, existing, check, j) {
        FoundNothingExtends(before, extra, existing, check, j);
      }
      if extra != [] {
        assert extra == [d];
        forall e | e in existing + before ensures !Selects(check(d), DowntimeView(e)) {
          assert e !in Filter(existing + before, SelectedBy(check(d)));
        }
        assert s[..|before|] == before;
        assert FoundNothingBefore(s, existing, check, |before|);
      }
    }
  }

  /** Later downtimes do not change what the check of an earlier one found. */
  lemma FoundNothingExtends(s: seq<Downtime>, t: seq<Downtime>, existing: seq<Downtime>, check: Downtime -> Query, j: int)
    requires 0 <= j < |s| && FoundNothingBefore(s, existing, check, j)
    ensures FoundNothingBefore(s + t, existing, check, j)
  {
    assert (s + t)[..j] == s[..j] && (s + t)[j] == s[j];
  }

  /** A downtime found among some downtimes is found once more are added. */
  lemma ExistsGrows(d: Downtime, a: seq<Downtime>, b: seq<Downtime>, fails: Query -> bool, check: Downtime -> Query)
    requires Exists(d, a, fails, check)
    ensures Exists(d, a + b, fails, check)
  {
    var found := Filter(a, SelectedBy(check(d)));
    assert found[0] in found;
    assert found[0] in Filter(a + b, SelectedBy(check(d)));
  }

  /** A further target whose check does not raise and finds itself is found afterwards; the earlier downtimes stay. */
  lemma ScheduledGrows(init: seq<Downtime>, d: Downtime, existing: seq<Downtime>, fails: Query -> bool, check: Downtime -> Query)
    requires !fails(check(d)) && Selects(check(d), DowntimeView(d))
    ensures var before := existing + Scheduled(init, existing, fails, check);
      var after := existing + Scheduled(init + [d], existing, fails, check);
      Exists(d, after, fails, check) && after[..|before|] == before
  {
    var before := existing + Scheduled(init, existing, fails, check);
    var after := existing + Scheduled(init + [d], existing, fails, check);
    ScheduledSnoc(init, d, existing, fails, check);
    if Exists(d, before, fails, check) {
      assert after == before;
    } else {
      assert after == before + [d];
      assert SelectedBy(check(d))(d);
      assert d in Filter(after, SelectedBy(check(d)));
    }
    assert after[..|before|] == before;
  }

  /**
   * When no check raises and each target's check finds the target itself,
   * the check of every target finds something once the migration is over.
   */
  lemma {:induction false} ScheduledCovers(targets: seq<Downtime>, existing: seq<Downtime>, fails: Query -> bool,
                                           check: Downtime -> Query)
    requires NeverFails(targets, fails, check) && FindsItself(targets, check)
    ensures forall d | d in targets :: Exists(d, existing + Scheduled(targets, existing, fails, check), fails, check)
    decreases |targets|
  {
    if targets != [] {
      var init := targets[..|targets| - 1];
      var d := targets[|targets| - 1];
      assert targets == init + [d];
      assert NeverFails(init, fails, check) && FindsItself(init, check);
      ScheduledCovers(init, existing, fails, check);
      ScheduledGrows(init, d, existing, fails, check);
      forall x | x in targets ensures Exists(x, existing + Scheduled(targets, existing, fails, check), fails, check) {
        if x != d {
          assert x in init;
          StillExists(x, init, d, existing, fails, check);
        }
      }
    }
  }

  /** A downtime found before a further target is migrated is still found afterwards. */
  lemma StillExists(x: Downtime, init: seq<Downtime>, d: Downtime, existing: seq<Downtime>, fails: Query -> bool,
                    check: Downtime -> Query)
    requires !fails(check(d)) && Selects(check(d), DowntimeView(d))
    requires Exists(x, existing + Scheduled(init, existing, fails, check), fails, check)
    ensures Exists(x, existing + Scheduled(init + [d], existing, fails, check), fails, check)
  {
    var before := existing + Scheduled(init, existing, fails, check);
    var after := existing + Scheduled(init + [d], existing, fails, check);
    ScheduledGrows(init, d, existing, fails, check);
    assert after == before + after[|before|..];
    ExistsGrows(x, before, after[|before|..], fails, check);
  }

  /** When every target already exists, nothing is scheduled. */
  lemma {:induction false} NothingMissing(targets: seq<Downtime>, existing: seq<Downtime>, fails: Query -> bool,
                                          check: Downtime -> Query)
    requires forall d | d in targets :: Exists(d, existing, fails, check)
    ensures Scheduled(targets, existing, fails, check) == []
    decreases |targets|
  {
    if targets != [] {
      var init := targets[..|targets| - 1];
      NothingMissing(init, existing, fails, check);
      assert existing + [] == existing;
    }
  }

  /** When no check raises and each target's check finds the target itself, a second run schedules nothing. */
  lemma RerunSchedulesNothing(targets: seq<Downtime>, existing: seq<Downtime>, fails: Query -> bool, check: Downtime -> Query)
    requires NeverFails(targets, fails, check) && FindsItself(targets, check)
    ensures Scheduled(targets, existing + Scheduled(targets, existing, fails, check), fails, check) == []
  {
    ScheduledCovers(targets, existing, fails, check);
    NothingMissing(targets, existing + Scheduled(targets, existing, fails, check), fails, check);
  }

  /** The check as sent finds every target itself. */
  lemma AsWrittenFindsItself(targets: seq<Downtime>)
    ensures FindsItself(targets, AsWrittenQuery)
  {
    forall d | d in targets ensures Selects(AsWrittenQuery(d), DowntimeView(d)) {
      AsWrittenQueryMeaning(d, d);
    }
  }

  /**
   * As written, when no check raises, a downtime is scheduled only where its
   * host (for a host downtime) or its service had no downtime before it: on
   * each host or service at most one is added, and none where one was.
   */
  lemma AsWrittenOneEach(targets: seq<Downtime>, existing: seq<Downtime>, fails: Query -> bool)
    requires NeverFails(targets, fails, AsWrittenQuery)
    ensures var s := Scheduled(targets, existing, fails, AsWrittenQuery);
      forall j, e | 0 <= j < |s| && e in existing + s[..j] :: !OnSameObject(s[j], e)
  {
    var s := Scheduled(targets, existing, fails, AsWrittenQuery);
    ScheduledFoundNothing(targets, existing, fails, AsWrittenQuery);
    forall j, e | 0 <= j < |s| && e in existing + s[..j] ensures !OnSameObject(s[j], e) {
      assert FoundNothingBefore(s, existing, AsWrittenQuery, j);
      AsWrittenQueryMeaning(s[j], e);
    }
  }

  /** As written, when no check raises, every target's host (or service) has a downtime after the migration. */
  lemma AsWrittenCovers(targets: seq<Downtime>, existing: seq<Downtime>, fails: Query -> bool)
    requires NeverFails(targets, fails, AsWrittenQuery)
    ensures forall d | d in targets ::
      exists e | e in existing + Scheduled(targets, existing, fails, AsWrittenQuery) :: OnSameObject(d, e)
  {
    AsWrittenFindsItself(targets);
    ScheduledCovers(targets, existing, fails, AsWrittenQuery);
    forall d | d in targets
      ensures exists e | e in existing + Scheduled(targets, existing, fails, AsWrittenQuery) :: OnSameObject(d, e)
    {
      AsWrittenExistsIff(d, existing + Scheduled(targets, existing, fails, AsWrittenQuery), fails);
    }
  }

  /**
   * Two different host downtimes of one host, none in Icinga 2 yet, no check
   * raising: as written only the first is scheduled, while the corrected
   * check schedules both.
   */
  lemma AsWrittenSkipsSecond(d1: Downtime, d2: Downtime, fails: Query -> bool)
    requires d1 != d2 && d1.host == d2.host && d1.service.None? && d2.service.None?
    requires !fails(AsWrittenQuery(d1)) && !fails(AsWrittenQuery(d2))
    requires !fails(ExistenceQuery(d1)) && !fails(ExistenceQuery(d2))
    ensures Scheduled([d1, d2], [], fails, AsWrittenQuery) == [d1]
    ensures Scheduled([d1, d2], [], fails, ExistenceQuery) == [d1, d2]
  {
    AsWrittenSchedulesFirst(d1, d2, fails);
    CorrectedKeepsSecond(d1, d2, fails);
  }

  /** As written, the second downtime of a host finds the first and is not scheduled. */
  lemma AsWrittenSchedulesFirst(d1: Downtime, d2: Downtime, fails: Query -> bool)
    requires d1.host == d2.host && d2.service.None?
    requires !fails(AsWrittenQuery(d1)) && !fails(AsWrittenQuery(d2))
    ensures Scheduled([d1, d2], [], fails, AsWrittenQuery) == [d1]
  {
    AsWrittenQueryMeaning(d2, d1);
    SecondFindsFirst(d1, d2, fails, AsWrittenQuery);
  }

  /** When the check sent for `d2` selects `d1`, only `d1` of the two is scheduled. */
  lemma SecondFindsFirst(d1: Downtime, d2: Downtime, fails: Query -> bool, check: Downtime -> Query)
    requires !fails(check(d1)) && !fails(check(d2))
    requires Selects(check(d2), DowntimeView(d1))
    ensures Scheduled([d1, d2], [], fails, check) == [d1]
  {
    ScheduledSnoc([], d1, [], fails, check);
    assert [] + [d1] == [d1];
    assert Scheduled([d1], [], fails, check) == [d1];
    ScheduledSnoc([d1], d2, [], fails, check);
    assert [d1] + [d2] == [d1, d2];
    ExistsMeaning(d2, [d1], fails, check);
    assert d1 in [d1];
  }

  /** With the corrected check, the second of two downtimes on one host is scheduled after the first. */
  lemma CorrectedKeepsSecond(d1: Downtime, d2: Downtime, fails: Query -> bool)
    requires d1 != d2
    requires !fails(ExistenceQuery(d1)) && !fails(ExistenceQuery(d2))
    ensures Scheduled([d1, d2], [], fails, ExistenceQuery) == [d1, d2]
  {
    ScheduledSnoc([], d1, [], fails, ExistenceQuery);
    CorrectedExistsIff(d1, [], fails);
    assert Scheduled([d1], [], fails, ExistenceQuery) == [d1];
    ScheduledSnoc([d1], d2, [], fails, ExistenceQuery);
    assert [d1] + [d2] == [d1, d2];
    assert [] + [d1] == [d1];
    CorrectedExistsIff(d2, [d1], fails);
  }

  /**
   * When no check raises and each target's check finds the target itself, a server without duplicate
   * downtimes has none afterwards.
   */
  lemma ScheduledNoDuplicates(targets: seq<Downtime>, existing: seq<Downtime>, fails: Query -> bool,
                              check: Downtime -> Query)
    requires NeverFails(targets, fails, check) && FindsItself(targets, check) && NoDuplicates(existing)
    ensures NoDuplicates(existing + Scheduled(targets, existing, fails, check))
  {
    var s := Scheduled(targets, existing, fails, check);
    ScheduledFoundNothing(targets, existing, fails, check);
    ScheduledAreTargets(targets, existing, fails, check);
    forall i, j | 0 <= i < j < |existing + s| ensures (existing + s)[i] != (existing + s)[j] {
      if j >= |existing| {
        var k := j - |existing|;
        assert s[k] in s;
        PriorDiffers(s, existing, check, i, k);
      }
    }
  }

  /** A scheduled downtime whose check finds itself differs from everything on the server before it. */
  lemma PriorDiffers(s: seq<Downtime>, existing: seq<Downtime>, check: Downtime -> Query, i: int, k: int)
    requires 0 <= k < |s| && 0 <= i < |existing| + k
    requires FoundNothingBefore(s, existing, check, k) && Selects(check(s[k]), DowntimeView(s[k]))
    ensures (existing + s)[i] != (existing + s)[|existing| + k]
  {
    assert (existing + s)[|existing| + k] == s[k];
    assert (existing + s)[i] == (existing + s[..k])[i];
    assert (existing + s)[i] in existing + s[..k];
  }

  /** As written and with no check raising, a server without duplicate downtimes has none afterwards. */
  lemma AsWrittenNoDuplicates(targets: seq<Downtime>, existing: seq<Downtime>, fails: Query -> bool)
    requires NeverFails(targets, fails, AsWrittenQuery) && NoDuplicates(existing)
    ensures NoDuplicates(existing + Scheduled(targets, existing, fails, AsWrittenQuery))
  {
    AsWrittenFindsItself(targets);
    ScheduledNoDuplicates(targets, existing, fails, AsWrittenQuery);
  }

  /** With the corrected check and no check raising, a server without duplicate downtimes has none afterwards. */
  lemma CorrectedNoDuplicates(targets: seq<Downtime>, existing: seq<Downtime>, fails: Query -> bool)
    requires NeverFails(targets, fails, ExistenceQuery) && NoDuplicates(existing)
    ensures NoDuplicates(existing + Scheduled(targets, existing, fails, ExistenceQuery))
  {
    forall d | d in targets ensures Selects(ExistenceQuery(d), DowntimeView(d)) {
      SameIsSelected(d);
    }
    ScheduledNoDuplicates(targets, existing, fails, ExistenceQuery);
  }

  /** With the corrected check and no check raising, every target is on the server after the migration. */
  lemma CorrectedComplete(targets: seq<Downtime>, existing: seq<Downtime>, fails: Query -> bool)
    requires NeverFails(targets, fails, ExistenceQuery)
    ensures forall d | d in targets :: d in existing + Scheduled(targets, existing, fails, ExistenceQuery)
  {
    assert FindsItself(targets, ExistenceQuery) by {
      forall d | d in targets ensures Selects(ExistenceQuery(d), DowntimeView(d)) {
        SameIsSelected(d);
      }
    }
    ScheduledCovers(targets, existing, fails, ExistenceQuery);
    forall d | d in targets ensures d in existing + Scheduled(targets, existing, fails, ExistenceQuery) {
      CorrectedExistsIff(d, existing + Scheduled(targets, existing, fails, ExistenceQuery), fails);
    }
  }

  function ScheduleCalls(ds: seq<Downtime>): (r: seq<Call>)
    ensures |r| == |ds| && forall i | 0 <= i < |ds| :: r[i] == ScheduleDowntime(ds[i])
  {
    seq(|ds|, i requires 0 <= i < |ds| => ScheduleDowntime(ds[i]))
  }

  // ---------------------------------------------------------------------------
  // migrate_host_downtimes
  // ---------------------------------------------------------------------------

  /** The host downtimes to schedule: the candidates whose host Icinga 2 knows. */
  function HostTargets(candidates: seq<Record>, hosts: map<Value, Record>, suffix: string, toInt: string -> int): seq<Downtime>
    decreases |candidates|
  {
    if candidates == [] then []
    else
      var r := candidates[|candidates| - 1];
      HostTargets(candidates[..|candidates| - 1], hosts, suffix, toInt)
      + (if Str(Text(r, "host_name")) in hosts then [ToDowntime(r, suffix, None, toInt)] else [])
  }

  /** Every host target is a one-off downtime of the selected host, on a host Icinga 2 knows. */
  lemma {:induction false} HostTargetsKnown(candidates: seq<Record>, hosts: map<Value, Record>, suffix: string, toInt: string -> int)
    ensures forall d | d in HostTargets(candidates, hosts, suffix, toInt) ::
      Str(d.host) in hosts && d.service.None? && exists r | r in candidates :: d == ToDowntime(r, suffix, None, toInt)
    decreases |candidates|
  {
    if candidates != [] {
      HostTargetsKnown(candidates[..|candidates| - 1], hosts, suffix, toInt);
    }
  }

  /** The host targets grow by the last candidate when its host is known. */
  lemma HostTargetsSnoc(candidates: seq<Record>, i: nat, hosts: map<Value, Record>, suffix: string, toInt: string -> int)
    requires i < |candidates|
    ensures HostTargets(candidates[..i + 1], hosts, suffix, toInt)
         == HostTargets(candidates[..i], hosts, suffix, toInt)
            + (if Str(Text(candidates[i], "host_name")) in hosts then [ToDowntime(candidates[i], suffix, None, toInt)] else [])
  {
    assert candidates[..i + 1][..i] == candidates[..i];
  }

  /** Scheduling one more target: it is added when it does not exist by then. */
  lemma ScheduledSnoc(targets: seq<Downtime>, d: Downtime, existing: seq<Downtime>, fails: Query -> bool, check: Downtime -> Query)
    ensures Scheduled(targets + [d], existing, fails, check)
         == Scheduled(targets, existing, fails, check)
            + (if Exists(d, existing + Scheduled(targets, existing, fails, check), fails, check) then [] else [d])
  {
    assert (targets + [d])[..|targets|] == targets;
  }

  lemma ScheduleCallsSnoc(ds: seq<Downtime>, d: Downtime)
    ensures ScheduleCalls(ds + [d]) == ScheduleCalls(ds) + [ScheduleDowntime(d)]
  {
  }

  /**
   * `migrate_host_downtimes`: the new downtimes are exactly those `Scheduled`
   * gives for the host targets, the count is their number, and `simulate`
   * changes nothing.
   */
  method MigrateHostDowntimes(server: Icinga2Server, icinga1Downtimes: seq<Record>, icinga2Hosts: map<Value, Record>,
                              simulate: bool, suffix: string, hostname: string, toInt: string -> int)
    returns (count: nat)
    requires forall r | r in icinga1Downtimes :: HasText(r, DowntimeFields)
    modifies server`downtimes, server`calls
    ensures var s := Scheduled(HostTargets(ToMigrate(icinga1Downtimes, hostname), icinga2Hosts, suffix, toInt),
                               old(server.downtimes), server.queryFails, AsWrittenQuery);
      !simulate ==> count == |s| && server.downtimes == old(server.downtimes) + s && server.calls == old(server.calls) + ScheduleCalls(s)
    ensures simulate ==> count == 0 && server.downtimes == old(server.downtimes) && server.calls == old(server.calls)
  {
    count := MigrateHostCandidates(server, ToMigrate(icinga1Downtimes, hostname), icinga2Hosts, simulate, suffix, toInt,
                                   AsWrittenQuery);
  }

  /** The loop of `migrate_host_downtimes` over the downtimes it considers, sending `check` for each target. */
  method MigrateHostCandidates(server: Icinga2Server, candidates: seq<Record>, icinga2Hosts: map<Value, Record>,
                               simulate: bool, suffix: string, toInt: string -> int, check: Downtime -> Query)
    returns (count: nat)
    modifies server`downtimes, server`calls
    ensures Progress(simulate, count, server.downtimes, server.calls, old(server.downtimes), old(server.calls),
                     HostTargets(candidates, icinga2Hosts, suffix, toInt), server.queryFails, check)
  {
    count := 0;
    ghost var targets: seq<Downtime> := [];
    for i := 0 to |candidates|
      invariant targets == HostTargets(candidates[..i], icinga2Hosts, suffix, toInt)
      invariant Progress(simulate, count, server.downtimes, server.calls, old(server.downtimes), old(server.calls),
                         targets, server.queryFails, check)
    {
      var r := candidates[i];
      HostTargetsSnoc(candidates, i, icinga2Hosts, suffix, toInt);
      if Str(Text(r, "host_name")) in icinga2Hosts {
        var d := ToDowntime(r, suffix, None, toInt);
        count := ScheduleTarget(server, targets, d, simulate, count, old(server.downtimes), old(server.calls), check);
        targets := targets + [d];
      }
    }
    assert candidates[..|candidates|] == candidates;
    assert targets == HostTargets(candidates, icinga2Hosts, suffix, toInt);
  }

  /** One downtime: scheduled exactly when not simulating and the check finds nothing. */
  method MigrateOne(server: Icinga2Server, d: Downtime, simulate: bool, check: Downtime -> Query) returns (scheduled: bool)
    modifies server`downtimes, server`calls
    ensures scheduled == (!simulate && !Exists(d, old(server.downtimes), server.queryFails, check))
    ensures server.downtimes == old(server.downtimes) + (if scheduled then [d] else [])
    ensures server.calls == old(server.calls) + (if scheduled then [ScheduleDowntime(d)] else [])
  {
    var present := DowntimeExists(server, d, check);
    scheduled := !present && !simulate;
    if scheduled {
      server.Schedule(d);
    }
  }

  /** The existence check: `get_downtimes(...) != []`, with an API exception read as "does not exist". */
  method DowntimeExists(server: Icinga2Server, d: Downtime, check: Downtime -> Query) returns (present: bool)
    ensures present == Exists(d, server.downtimes, server.queryFails, check)
  {
    var found := server.QueryDowntimes(check(d));
    present := found.Some? && found.value != [];
  }

  // ---------------------------------------------------------------------------
  // migrate_service_downtimes
  // ---------------------------------------------------------------------------

  /** What the Icinga 1 services need for the lookup: a description and an extracted command. */
  predicate Icinga1ServiceShape(s: Record) {
    "service_description" in s && "check_command_extracted" in s
  }

  const CommentPath: seq<string> := ["attrs", "vars", "comment"]

  /** What the Icinga 2 services need: an extracted command, a nested comment lookup that does not raise, and a name. */
  predicate Icinga2ServiceShape(s: Record) {
    "check_command_extracted" in s && Defined(s, CommentPath)
    && AtPath(Map(s), ["attrs", "name"]).Some? && AtPath(Map(s), ["attrs", "name"]).value.Str?
  }

  predicate Shaped(services1: map<Value, seq<Record>>, services2: map<Value, seq<Record>>) {
    (forall h | h in services1 :: forall s | s in services1[h] :: Icinga1ServiceShape(s)) &&
    (forall h | h in services2 :: forall s | s in services2[h] :: Icinga2ServiceShape(s))
  }

  /** `service['attrs']['name']` of an Icinga 2 service. */
  function ServiceName(s: Record): string {
    match AtPath(Map(s), ["attrs", "name"])
    case Some(Str(n)) => n
    case _ => ""
  }

  function DescribedAs(description: Value): Record -> bool {
    s => "service_description" in s && s["service_description"] == description
  }

  /** An Icinga 2 service matches an Icinga 1 service: same extracted command, or its `vars.comment` is the Icinga 1 check command. */
  function SameCheck(s1: Record): Record -> bool {
    s2 => PyEq(Get(s2, "check_command_extracted", Null), Get(s1, "check_command_extracted", Null))
          || (Defined(s2, CommentPath) && PyEq(Path(s2, CommentPath), Get(s1, "check_command", Null)))
  }

  datatype Resolution = Skip | Target(downtime: Downtime) | Abort(error: string)

  /**
   * One service downtime: skipped when the host is not in Icinga 2;
   * aborted (IndexError) when Icinga 1 has no service of the host with its
   * description; skipped when no Icinga 2 service of the host matches;
   * otherwise the first match, however many there are, is the target.
   */
  function ResolveService(r: Record, suffix: string, toInt: string -> int, hosts: map<Value, Record>,
                          services1: map<Value, seq<Record>>, services2: map<Value, seq<Record>>): Resolution
  {
    var host := Str(Text(r, "host_name"));
    if host !in hosts then Skip
    else
      var described := Filter(Index.Group(services1, host), DescribedAs(Get(r, "service_description", Null)));
      if described == [] then Abort("IndexError")
      else
        var matching := Filter(Index.Group(services2, host), SameCheck(described[0]));
        if matching == [] then Skip
        else Target(ToDowntime(r, suffix, Some(ServiceName(matching[0])), toInt))
  }

  /**
   * A service downtime is skipped when its host is not in Icinga 2, aborts
   * the run exactly when Icinga 1 has no service of the host with the
   * downtime's description, and otherwise either is skipped because no
   * Icinga 2 service matches or targets a service of the host that matches
   * a service with the downtime's description.
   */
  lemma ResolveServiceMeaning(r: Record, suffix: string, toInt: string -> int, hosts: map<Value, Record>,
                              services1: map<Value, seq<Record>>, services2: map<Value, seq<Record>>)
    ensures var host := Str(Text(r, "host_name"));
      var res := ResolveService(r, suffix, toInt, hosts, services1, services2);
      var described := Filter(Index.Group(services1, host), DescribedAs(Get(r, "service_description", Null)));
      (host !in hosts ==> res == Skip) &&
      (res.Abort? <==> host in hosts && described == []) &&
      (host in hosts && described != [] ==>
         (res.Skip? <==> forall s2 | s2 in Index.Group(services2, host) :: !SameCheck(described[0])(s2))) &&
      (res.Target? ==>
         host in hosts &&
         exists s1, s2 | s1 in Index.Group(services1, host) && s2 in Index.Group(services2, host) ::
           DescribedAs(Get(r, "service_description", Null))(s1) && SameCheck(s1)(s2)
           && res.downtime == ToDowntime(r, suffix, Some(ServiceName(s2)), toInt))
  {
    var host := Str(Text(r, "host_name"));
    if host in hosts {
      var described := Filter(Index.Group(services1, host), DescribedAs(Get(r, "service_description", Null)));
      if described != [] {
        var matching := Filter(Index.Group(services2, host), SameCheck(described[0]));
        if matching != [] {
          assert described[0] in described && matching[0] in matching;
        } else {
          forall s2 | s2 in Index.Group(services2, host) ensures !SameCheck(described[0])(s2) {
            assert s2 !in matching;
          }
        }
      }
    }
  }

  /** The targets of the first downtimes, and the error that stopped the run, if any. */
  datatype Plan = Plan(targets: seq<Downtime>, error: Option<string>)

  /** The plan after the downtimes `candidates`, each resolved by `resolve`, stopping at the first abort. */
  function PlanOf(candidates: seq<Record>, resolve: Record -> Resolution): Plan
    decreases |candidates|
  {
    if candidates == [] then Plan([], None)
    else
      var p := PlanOf(candidates[..|candidates| - 1], resolve);
      if p.error.Some? then p
      else Advance(p, resolve(candidates[|candidates| - 1]))
  }

  function ServiceResolver(suffix: string, toInt: string -> int, hosts: map<Value, Record>,
                           services1: map<Value, seq<Record>>, services2: map<Value, seq<Record>>): Record -> Resolution {
    r => ResolveService(r, suffix, toInt, hosts, services1, services2)
  }

  /** The plan of `migrate_service_downtimes`: its downtimes resolved against both systems. */
  function ServicePlan(candidates: seq<Record>, suffix: string, toInt: string -> int, hosts: map<Value, Record>,
                       services1: map<Value, seq<Record>>, services2: map<Value, seq<Record>>): Plan
  {
    PlanOf(candidates, ServiceResolver(suffix, toInt, hosts, services1, services2))
  }

  /** The plan after one more resolved downtime. */
  function Advance(p: Plan, res: Resolution): Plan {
    match res
    case Skip => p
    case Target(d) => Plan(p.targets + [d], None)
    case Abort(e) => Plan(p.targets, Some(e))
  }

  /** Every service target is a downtime of a service on a host Icinga 2 knows. */
  lemma ServiceTargetsKnown(candidates: seq<Record>, suffix: string, toInt: string -> int, hosts: map<Value, Record>,
                            services1: map<Value, seq<Record>>, services2: map<Value, seq<Record>>)
    ensures forall d | d in ServicePlan(candidates, suffix, toInt, hosts, services1, services2).targets ::
      Str(d.host) in hosts && d.service.Some?
  {
    PlanTargetsKnown(candidates, ServiceResolver(suffix, toInt, hosts, services1, services2), hosts);
  }

  lemma {:induction false} PlanTargetsKnown(candidates: seq<Record>, resolve: Record -> Resolution, hosts: map<Value, Record>)
    requires forall r | r in candidates :: resolve(r).Target? ==> Str(resolve(r).downtime.host) in hosts && resolve(r).downtime.service.Some?
    ensures forall d | d in PlanOf(candidates, resolve).targets :: Str(d.host) in hosts && d.service.Some?
    decreases |candidates|
  {
    if candidates != [] {
      var init := candidates[..|candidates| - 1];
      assert forall r | r in init :: r in candidates;
      PlanTargetsKnown(init, resolve, hosts);
    }
  }

  lemma PlanSnoc(candidates: seq<Record>, i: nat, resolve: Record -> Resolution)
    requires i < |candidates|
    ensures var p := PlanOf(candidates[..i], resolve);
      PlanOf(candidates[..i + 1], resolve) == if p.error.Some? then p else Advance(p, resolve(candidates[i]))
  {
    assert candidates[..i + 1][..i] == candidates[..i];
  }

  /**
   * `migrate_service_downtimes`: like the host migration, for the service
   * targets; an exception ends the run and is reported, and what was
   * scheduled before it stays.
   */
  method MigrateServiceDowntimes(server: Icinga2Server, icinga1Downtimes: seq<Record>, icinga2Hosts: map<Value, Record>,
                                 services1: map<Value, seq<Record>>, services2: map<Value, seq<Record>>,
                                 simulate: bool, suffix: string, hostname: string, toInt: string -> int)
    returns (count: nat, error: Option<string>)
    requires forall r | r in icinga1Downtimes :: HasText(r, DowntimeFields + ["service_description"])
    requires Shaped(services1, services2)
    modifies server`downtimes, server`calls
    ensures error == ServicePlan(ToMigrate(icinga1Downtimes, hostname), suffix, toInt, icinga2Hosts, services1, services2).error
    ensures var s := Scheduled(ServicePlan(ToMigrate(icinga1Downtimes, hostname), suffix, toInt, icinga2Hosts, services1, services2).targets,
                               old(server.downtimes), server.queryFails, AsWrittenQuery);
      !simulate ==> count == |s| && server.downtimes == old(server.downtimes) + s && server.calls == old(server.calls) + ScheduleCalls(s)
    ensures simulate ==> count == 0 && server.downtimes == old(server.downtimes) && server.calls == old(server.calls)
  {
    count, error := MigrateServiceCandidates(server, ToMigrate(icinga1Downtimes, hostname), icinga2Hosts, services1, services2,
                                             simulate, suffix, toInt, AsWrittenQuery);
  }

  /** The loop of `migrate_service_downtimes` over the downtimes it considers. */
  method MigrateServiceCandidates(server: Icinga2Server, candidates: seq<Record>, icinga2Hosts: map<Value, Record>,
                                  services1: map<Value, seq<Record>>, services2: map<Value, seq<Record>>,
                                  simulate: bool, suffix: string, toInt: string -> int, check: Downtime -> Query)
    returns (count: nat, error: Option<string>)
    modifies server`downtimes, server`calls
    ensures error == ServicePlan(candidates, suffix, toInt, icinga2Hosts, services1, services2).error
    ensures Progress(simulate, count, server.downtimes, server.calls, old(server.downtimes), old(server.calls),
                     ServicePlan(candidates, suffix, toInt, icinga2Hosts, services1, services2).targets, server.queryFails, check)
  {
    count, error := 0, None;
    ghost var resolve := ServiceResolver(suffix, toInt, icinga2Hosts, services1, services2);
    ghost var plan := Plan([], None);
    var i := 0;
    while i < |candidates| && error.None?
      invariant 0 <= i <= |candidates|
      invariant plan == PlanOf(candidates[..i], resolve)
      invariant error == plan.error
      invariant Progress(simulate, count, server.downtimes, server.calls, old(server.downtimes), old(server.calls),
                         plan.targets, server.queryFails, check)
    {
      PlanSnoc(candidates, i, resolve);
      count, error := MigrateServiceDowntime(server, plan, candidates[i], icinga2Hosts, services1, services2,
                                             simulate, suffix, toInt, count, old(server.downtimes), old(server.calls), check);
      plan := Advance(plan, resolve(candidates[i]));
      i := i + 1;
    }
    PlanSettled(candidates, resolve, i);
  }

  /** One downtime of the loop: its service resolved, then scheduled, skipped, or the run aborted. */
  method MigrateServiceDowntime(server: Icinga2Server, ghost plan: Plan, r: Record, icinga2Hosts: map<Value, Record>,
                                services1: map<Value, seq<Record>>, services2: map<Value, seq<Record>>,
                                simulate: bool, suffix: string, toInt: string -> int, count: nat,
                                ghost existing: seq<Downtime>, ghost base: seq<Call>, check: Downtime -> Query)
    returns (next: nat, error: Option<string>)
    requires plan.error.None?
    requires Progress(simulate, count, server.downtimes, server.calls, existing, base, plan.targets, server.queryFails, check)
    modifies server`downtimes, server`calls
    ensures var p := Advance(plan, ResolveService(r, suffix, toInt, icinga2Hosts, services1, services2));
      error == p.error &&
      Progress(simulate, next, server.downtimes, server.calls, existing, base, p.targets, server.queryFails, check)
  {
    var res := ResolveService(r, suffix, toInt, icinga2Hosts, services1, services2);
    next := ScheduleResolved(server, plan, res, simulate, count, existing, base, check);
    error := None;
    if res.Abort? {
      error := Some(res.error);
    }
  }

  /** The plan is settled once every downtime was looked at or one aborted the run. */
  lemma PlanSettled(candidates: seq<Record>, resolve: Record -> Resolution, n: nat)
    requires n <= |candidates|
    requires n == |candidates| || PlanOf(candidates[..n], resolve).error.Some?
    ensures PlanOf(candidates, resolve) == PlanOf(candidates[..n], resolve)
  {
    if n < |candidates| {
      PlanStopsAtError(candidates, resolve, n);
    } else {
      assert candidates[..n] == candidates;
    }
  }

  /** Once a downtime aborts the run, the later ones change nothing. */
  lemma {:induction false} PlanStopsAtError(candidates: seq<Record>, resolve: Record -> Resolution, n: nat)
    requires n <= |candidates| && PlanOf(candidates[..n], resolve).error.Some?
    ensures PlanOf(candidates, resolve) == PlanOf(candidates[..n], resolve)
    decreases |candidates| - n
  {
    if n < |candidates| {
      assert candidates[..n + 1][..n] == candidates[..n];
      PlanStopsAtError(candidates, resolve, n + 1);
    } else {
      assert candidates[..n] == candidates;
    }
  }

  /**
   * The state of a scheduling loop after `targets`: without `simulate` the
   * new downtimes and calls are those of `Scheduled` and the counter is their
   * number; with `simulate` nothing changed.
   */
  predicate Progress(simulate: bool, count: nat, downtimes: seq<Downtime>, calls: seq<Call>,
                     existing: seq<Downtime>, base: seq<Call>, targets: seq<Downtime>, fails: Query -> bool,
                     check: Downtime -> Query) {
    var s := Scheduled(targets, existing, fails, check);
    (!simulate ==> count == |s| && downtimes == existing + s && calls == base + ScheduleCalls(s)) &&
    (simulate ==> count == 0 && downtimes == existing && calls == base)
  }

  /** One target of a scheduling loop: the loop state moves on from `targets` to `targets + [d]`. */
  method ScheduleTarget(server: Icinga2Server, ghost targets: seq<Downtime>, d: Downtime, simulate: bool, count: nat,
                        ghost existing: seq<Downtime>, ghost base: seq<Call>, check: Downtime -> Query)
    returns (next: nat)
    requires Progress(simulate, count, server.downtimes, server.calls, existing, base, targets, server.queryFails, check)
    modifies server`downtimes, server`calls
    ensures Progress(simulate, next, server.downtimes, server.calls, existing, base, targets + [d], server.queryFails, check)
  {
    ScheduleCallsSnoc(Scheduled(targets, existing, server.queryFails, check), d);
    ScheduledSnoc(targets, d, existing, server.queryFails, check);
    var scheduled := MigrateOne(server, d, simulate, check);
    next := if scheduled then count + 1 else count;
  }

  /** One resolved service downtime: only a target is scheduled. */
  method ScheduleResolved(server: Icinga2Server, ghost plan: Plan, res: Resolution, simulate: bool, count: nat,
                          ghost existing: seq<Downtime>, ghost base: seq<Call>, check: Downtime -> Query)
    returns (next: nat)
    requires Progress(simulate, count, server.downtimes, server.calls, existing, base, plan.targets, server.queryFails, check)
    modifies server`downtimes, server`calls
    ensures Progress(simulate, next, server.downtimes, server.calls, existing, base, Advance(plan, res).targets, server.queryFails, check)
  {
    next := count;
    if res.Target? {
      next := ScheduleTarget(server, plan.targets, res.downtime, simulate, count, existing, base, check);
    }
  }

  // ---------------------------------------------------------------------------
  // clean_migrated_downtimes
  // ---------------------------------------------------------------------------

  /**
   * `clean_migrated_downtimes`: removes exactly the downtimes whose comment
   * the pattern `*<suffix>` matches; for a suffix without wildcards, those
   * whose comment ends with the suffix.
   */
  method CleanMigratedDowntimes(server: Icinga2Server, suffix: string)
    modifies server`downtimes, server`calls
    ensures forall d :: d in server.downtimes <==> d in old(server.downtimes) && !CleanupMatches(suffix, d.comment)
    ensures NoWildcards(suffix) ==>
      forall d :: d in server.downtimes <==> d in old(server.downtimes) && !EndsWith(d.comment, suffix)
    ensures server.calls == old(server.calls) + [RemoveDowntimes("*" + suffix)]
  {
    server.RemoveDowntimesMatching("*" + suffix);
    if NoWildcards(suffix) {
      forall d: Downtime ensures CleanupMatches(suffix, d.comment) <==> EndsWith(d.comment, suffix) {
        CleanupMatchesSuffix(suffix, d.comment);
      }
    }
  }

  /** Every downtime a migration creates carries the suffix, so the clean-up removes it, whatever the suffix. */
  lemma MigratedAreCleanedUp(r: Record, suffix: string, service: Option<string>, toInt: string -> int)
    ensures CleanupMatches(suffix, ToDowntime(r, suffix, service, toInt).comment)
  {
    GlobStarSuffix(suffix, Text(r, "comment"));
  }
}
