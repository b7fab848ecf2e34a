/**
 * The notification-state migrations (icinga_migration_utils/migrate/notification_states.py).
 *
 * A host or service whose notifications are enabled in the Icinga 1
 * configuration but disabled in the Icinga 1 status (switched off at run
 * time) gets its notifications disabled in Icinga 2, with a note saying so.
 * Update failures are caught and the loop goes on.
 */
module MigrateNotificationStates {
  import opened Values
  import opened Icinga2
  import Index
  import MigrateDowntimes

  /** The note set with the flag, before the suffix. */
  const Notes: string := "Migrated notification state from Icinga1"

  /** The attributes both migrations update: notifications off, and the note with the suffix. */
  function NotificationsOff(suffix: string): map<string, Value> {
    map["enable_notifications" := Bool(false), "notes" := Str(Notes + suffix)]
  }

  /** A host name as it is formatted into an object name (host names are strings). */
  function Name(v: Value): string {
    if v.Str? then v.s else ""
  }

  /** The update requests for a list of object names. */
  function UpdateCalls(objectType: string, names: seq<string>, suffix: string): (r: seq<Call>)
    ensures |r| == |names|
    ensures forall i | 0 <= i < |names| :: r[i] == UpdateObject(objectType, names[i], NotificationsOff(suffix))
  {
    seq(|names|, i requires 0 <= i < |names| => UpdateObject(objectType, names[i], NotificationsOff(suffix)))
  }

  lemma UpdateCallsAppend(objectType: string, a: seq<string>, b: seq<string>, suffix: string)
    ensures UpdateCalls(objectType, a + b, suffix) == UpdateCalls(objectType, a, suffix) + UpdateCalls(objectType, b, suffix)
  {
  }

  // ---------------------------------------------------------------------------
  // migrate_host_notification_states
  // ---------------------------------------------------------------------------

  /** What happens to one host: nothing, its notifications disabled, or an exception that ends the run. */
  datatype Decision = Leave | Disable | Fail(error: string)

  /**
   * One host: left alone when Icinga 1 or Icinga 2 does not know it; a
   * KeyError when the Icinga 1 status has no record of it; disabled when the
   * Icinga 1 configuration enables notifications and the status does not.
   */
  function DecideHost(h: Value, hosts1: map<Value, Record>, names2: seq<Value>, status1: map<Value, Record>): Decision {
    if h !in hosts1 || h !in names2 then Leave
    else if h !in status1 then Fail("KeyError")
    else if Get(hosts1[h], "notifications_enabled", Null) == Str("1")
            && Get(status1[h], "notifications_enabled", Null) != Str("1") then Disable
    else Leave
  }

  /** The hosts visited: the given one, or the keys of the Icinga 1 host dictionary in their order. */
  function HostNames(hostOrder: seq<Value>, hostname: string): seq<Value> {
    if hostname == "" then hostOrder else [Str(hostname)]
  }

  /** The hosts disabled so far, and the error that ended the run, if any. */
  datatype HostRun = HostRun(disabled: seq<Value>, error: Option<string>)

  function HostPlan(todo: seq<Value>, hosts1: map<Value, Record>, names2: seq<Value>, status1: map<Value, Record>): HostRun
    decreases |todo|
  {
    if todo == [] then HostRun([], None)
    else
      var p := HostPlan(todo[..|todo| - 1], hosts1, names2, status1);
      if p.error.Some? then p
      else
        match DecideHost(todo[|todo| - 1], hosts1, names2, status1)
        case Leave => p
        case Disable => HostRun(p.disabled + [todo[|todo| - 1]], None)
        case Fail(e) => HostRun(p.disabled, Some(e))
  }

  function HostCalls(disabled: seq<Value>, suffix: string): (r: seq<Call>)
    ensures |r| == |disabled|
    ensures forall i | 0 <= i < |disabled| :: r[i] == UpdateObject("Host", Name(disabled[i]), NotificationsOff(suffix))
  {
    seq(|disabled|, i requires 0 <= i < |disabled| => UpdateObject("Host", Name(disabled[i]), NotificationsOff(suffix)))
  }

  /**
   * A host is disabled exactly when both systems know it, the status has a
   * record of it, and notifications are enabled (`'1'`) in the Icinga 1
   * configuration but not in its status; the run fails on a known host
   * without status.
   */
  lemma DecideHostMeaning(h: Value, hosts1: map<Value, Record>, names2: seq<Value>, status1: map<Value, Record>)
    requires forall k | k in hosts1 :: "notifications_enabled" in hosts1[k]
    requires forall k | k in status1 :: "notifications_enabled" in status1[k]
    ensures DecideHost(h, hosts1, names2, status1) == Disable <==>
      h in hosts1 && h in names2 && h in status1 &&
      hosts1[h]["notifications_enabled"] == Str("1") && status1[h]["notifications_enabled"] != Str("1")
    ensures DecideHost(h, hosts1, names2, status1).Fail? <==> h in hosts1 && h in names2 && h !in status1
    ensures h !in hosts1 || h !in names2 ==> DecideHost(h, hosts1, names2, status1) == Leave
  {
  }

  /**
   * The hosts a run disables are visited hosts whose decision is Disable,
   * in order; a run without error disables every such host.
   */
  lemma {:induction false} HostPlanDisables(todo: seq<Value>, hosts1: map<Value, Record>, names2: seq<Value>, status1: map<Value, Record>)
    ensures var p := HostPlan(todo, hosts1, names2, status1);
      (forall h | h in p.disabled :: h in todo && DecideHost(h, hosts1, names2, status1) == Disable) &&
      (p.error.None? ==> forall h | h in todo && DecideHost(h, hosts1, names2, status1) == Disable :: h in p.disabled)
    decreases |todo|
  {
    if todo != [] {
      var init := todo[..|todo| - 1];
      HostPlanDisables(init, hosts1, names2, status1);
      assert todo == init + [todo[|todo| - 1]];
    }
  }

  lemma HostPlanSnoc(todo: seq<Value>, i: nat, hosts1: map<Value, Record>, names2: seq<Value>, status1: map<Value, Record>)
    requires i < |todo|
    ensures var p := HostPlan(todo[..i], hosts1, names2, status1);
      HostPlan(todo[..i + 1], hosts1, names2, status1)
      == if p.error.Some? then p
         else match DecideHost(todo[i], hosts1, names2, status1)
              case Leave => p
              case Disable => HostRun(p.disabled + [todo[i]], None)
              case Fail(e) => HostRun(p.disabled, Some(e))
  {
    assert todo[..i + 1][..i] == todo[..i];
  }

  lemma {:induction false} HostPlanStops(todo: seq<Value>, n: nat, hosts1: map<Value, Record>, names2: seq<Value>, status1: map<Value, Record>)
    requires n <= |todo| && HostPlan(todo[..n], hosts1, names2, status1).error.Some?
    ensures HostPlan(todo, hosts1, names2, status1) == HostPlan(todo[..n], hosts1, names2, status1)
    decreases |todo| - n
  {
    if n < |todo| {
      HostPlanSnoc(todo, n, hosts1, names2, status1);
      HostPlanStops(todo, n + 1, hosts1, names2, status1);
    } else {
      assert todo[..n] == todo;
    }
  }

  /**
   * `migrate_host_notification_states`: one update per disabled host, none
   * with `simulate`, whatever the updates answer; returns the Icinga 1 host
   * status dictionary, unless a host without status ends the run.
   */
  method MigrateHostNotificationStates(server: Icinga2Server, hosts1: map<Value, Record>, hostOrder: seq<Value>,
                                       names2: seq<Value>, status1: map<Value, Record>,
                                       simulate: bool, suffix: string, hostname: string)
    returns (statusDict: map<Value, Record>, error: Option<string>)
    requires forall k :: k in hostOrder <==> k in hosts1
    requires forall k | k in hosts1 :: "notifications_enabled" in hosts1[k]
    requires forall k | k in status1 :: "notifications_enabled" in status1[k]
    modifies server`calls
    ensures var p := HostPlan(HostNames(hostOrder, hostname), hosts1, names2, status1);
      error == p.error &&
      server.calls == old(server.calls) + (if simulate then [] else HostCalls(p.disabled, suffix))
    ensures statusDict == status1
  {
    var todo := HostNames(hostOrder, hostname);
    ghost var plan := HostRun([], None);
    statusDict, error := status1, None;
    var i := 0;
    while i < |todo| && error.None?
      invariant 0 <= i <= |todo|
      invariant plan == HostPlan(todo[..i], hosts1, names2, status1) && error == plan.error
      invariant server.calls == old(server.calls) + (if simulate then [] else HostCalls(plan.disabled, suffix))
    {
      HostPlanSnoc(todo, i, hosts1, names2, status1);
      var h := todo[i];
      var d := DecideHost(h, hosts1, names2, status1);
      if d.Fail? {
        error := Some(d.error);
        plan := HostRun(plan.disabled, error);
      } else if d == Disable {
        if !simulate {
          var ok := server.Update("Host", Name(h), NotificationsOff(suffix));
        }
        plan := HostRun(plan.disabled + [h], None);
        assert HostCalls(plan.disabled, suffix)
            == HostCalls(plan.disabled[..|plan.disabled| - 1], suffix) + [UpdateObject("Host", Name(h), NotificationsOff(suffix))];
      }
      i := i + 1;
    }
    if error.Some? {
      HostPlanStops(todo, i, hosts1, names2, status1);
    } else {
      assert todo[..i] == todo;
    }
  }

  // ---------------------------------------------------------------------------
  // migrate_service_notification_states
  // ---------------------------------------------------------------------------

  /** `state['check_command'] == service['check_command']`. */
  function SameCommand(s: Record): Record -> bool {
    st => PyEq(Get(st, "check_command", Null), Get(s, "check_command", Null))
  }

  /** `x['check_command_extracted'] == service['check_command_extracted']`: no comment alias here. */
  function SameExtracted(s: Record): Record -> bool {
    x => PyEq(Get(x, "check_command_extracted", Null), Get(s, "check_command_extracted", Null))
  }

  /** The first status record of the host with the service's check command. */
  function StateOf(s: Record, states: seq<Record>): (r: Option<Record>)
    ensures r.Some? ==> r.value in states && SameCommand(s)(r.value)
    ensures r.None? <==> forall st | st in states :: !SameCommand(s)(st)
  {
    var m := Filter(states, SameCommand(s));
    if m == [] then None
    else
      assert m[0] in m;
      Some(m[0])
  }

  /** `icinga2_service['attrs']['enable_notifications']`. */
  function EnableNotifications(x: Record): Value {
    match AtPath(Map(x), ["attrs", "enable_notifications"])
    case Some(v) => v
    case None => Null
  }

  /**
   * The Icinga 2 object to disable for one Icinga 1 service of host `h`, if
   * any: its first status record has to exist, the configuration has to say
   * `'1'` and that status `'0'`, exactly one Icinga 2 service of the host
   * has to have the same extracted command, and its notifications have to
   * be on.
   */
  function ServiceTarget(h: Value, s: Record, states: seq<Record>, services2: map<Value, seq<Record>>): Option<string> {
    match StateOf(s, states)
    case None => None
    case Some(st) =>
      if Get(s, "notifications_enabled", Null) == Str("1") && Get(st, "notifications_enabled", Null) == Str("0") then
        var cs := Filter(Index.Group(services2, h), SameExtracted(s));
        if |cs| == 1 && Truthy(EnableNotifications(cs[0]))
        then Some(Name(h) + "!" + MigrateDowntimes.ServiceName(cs[0]))
        else None
      else None
  }

  /** `ServiceTarget` for the services of host `h`, as a function of the service. */
  function TargetFor(h: Value, states: seq<Record>, services2: map<Value, seq<Record>>): Record -> Option<string> {
    s => ServiceTarget(h, s, states, services2)
  }

  /** The objects to disable for the services `ss`, in order. */
  function ServiceTargets(ss: seq<Record>, target: Record -> Option<string>): seq<string>
    decreases |ss|
  {
    if ss == [] then []
    else
      ServiceTargets(ss[..|ss| - 1], target) + TargetList(target(ss[|ss| - 1]))
  }

  /** The objects to disable for host `h`: none when Icinga 2 does not know it. */
  function HostServiceTargets(h: Value, hosts2: map<Value, Record>, services1: map<Value, seq<Record>>,
                              status1: map<Value, seq<Record>>, services2: map<Value, seq<Record>>): seq<string> {
    if h !in hosts2 then [] else ServiceTargets(Index.Group(services1, h), TargetFor(h, Index.Group(status1, h), services2))
  }

  /** The objects to disable for the hosts `todo`, in order. */
  function AllServiceTargets(todo: seq<Value>, hosts2: map<Value, Record>, services1: map<Value, seq<Record>>,
                             status1: map<Value, seq<Record>>, services2: map<Value, seq<Record>>): seq<string>
    decreases |todo|
  {
    if todo == [] then []
    else AllServiceTargets(todo[..|todo| - 1], hosts2, services1, status1, services2)
         + HostServiceTargets(todo[|todo| - 1], hosts2, services1, status1, services2)
  }

  /** The hosts visited: the given one, or the `host_name` of every Icinga 1 host, in order and with repeats. */
  function ServiceHostNames(hosts1: seq<Record>, hostname: string): (r: seq<Value>)
    ensures hostname != "" ==> r == [Str(hostname)]
    ensures hostname == "" ==> |r| == |hosts1| && forall i | 0 <= i < |hosts1| :: r[i] == Get(hosts1[i], "host_name", Null)
  {
    if hostname != "" then [Str(hostname)]
    else seq(|hosts1|, i requires 0 <= i < |hosts1| => Get(hosts1[i], "host_name", Null))
  }

  /** How many of the service updates succeed. */
  function Succeeded(names: seq<string>, fails: (string, string) -> bool): (n: nat)
    ensures n <= |names|
    decreases |names|
  {
    if names == [] then 0
    else Succeeded(names[..|names| - 1], fails) + (if fails("Service", names[|names| - 1]) then 0 else 1)
  }

  lemma {:induction false} SucceededAppend(a: seq<string>, b: seq<string>, fails: (string, string) -> bool)
    ensures Succeeded(a + b, fails) == Succeeded(a, fails) + Succeeded(b, fails)
    decreases |b|
  {
    if b == [] {
      assert a + b == a;
    } else {
      assert (a + b)[..|a + b| - 1] == a + b[..|b| - 1];
      SucceededAppend(a, b[..|b| - 1], fails);
    }
  }

  /** The counter counts every update exactly when none fails. */
  lemma {:induction false} SucceededAll(names: seq<string>, fails: (string, string) -> bool)
    ensures Succeeded(names, fails) == |names| <==> forall n | n in names :: !fails("Service", n)
    decreases |names|
  {
    if names != [] {
      var init := names[..|names| - 1];
      SucceededAll(init, fails);
      assert names == init + [names[|names| - 1]];
    }
  }

  /**
   * A service is disabled only when its configuration says `'1'` and its
   * first matching status says `'0'`, and only when exactly one Icinga 2
   * service matches; with none or several nothing happens.
   */
  lemma ServiceTargetMeaning(h: Value, s: Record, states: seq<Record>, services2: map<Value, seq<Record>>)
    ensures var t := ServiceTarget(h, s, states, services2);
      var cs := Filter(Index.Group(services2, h), SameExtracted(s));
      (t.Some? ==> StateOf(s, states).Some? && Get(s, "notifications_enabled", Null) == Str("1")
                   && Get(StateOf(s, states).value, "notifications_enabled", Null) == Str("0")
                   && |cs| == 1 && cs[0] in Index.Group(services2, h) && Truthy(EnableNotifications(cs[0]))
                   && t.value == Name(h) + "!" + MigrateDowntimes.ServiceName(cs[0])) &&
      (|cs| != 1 ==> t.None?)
  {
    var cs := Filter(Index.Group(services2, h), SameExtracted(s));
    if |cs| == 1 {
      assert cs[0] in cs;
    }
  }

  /** Only the first matching status record counts: status records after it change nothing. */
  lemma FirstStateOnly(h: Value, s: Record, states: seq<Record>, more: seq<Record>, services2: map<Value, seq<Record>>)
    requires exists st | st in states :: SameCommand(s)(st)
    ensures ServiceTarget(h, s, states + more, services2) == ServiceTarget(h, s, states, services2)
  {
    FilterAppend(states, more, SameCommand(s));
    var m := Filter(states, SameCommand(s));
    var st :| st in states && SameCommand(s)(st);
    assert st in m;
  }

  /** Icinga 1 has notifications of the host enabled. */
  predicate HostNotificationsOn(host1: Record) {
    Get(host1, "notifications_enabled", Null) == Str("1")
  }

  /**
   * The object to disable as `migrate_service_notification_states` documents
   * it: also only when Icinga 1 has notifications of the host (`host1`)
   * enabled. The loop does not check the host, so the migration uses
   * `ServiceTarget`.
   */
  function IntendedServiceTarget(host1: Record, h: Value, s: Record, states: seq<Record>,
                                 services2: map<Value, seq<Record>>): Option<string> {
    if HostNotificationsOn(host1) then ServiceTarget(h, s, states, services2) else None
  }

  /**
   * With the documented condition, a service is disabled only when all four
   * hold: Icinga 1's configuration says `'1'` and its status `'0'`, Icinga 1
   * has the host's notifications on, exactly one Icinga 2 service matches,
   * and its notifications are on.
   */
  lemma IntendedTargetMeaning(host1: Record, h: Value, s: Record, states: seq<Record>, services2: map<Value, seq<Record>>)
    ensures var t := IntendedServiceTarget(host1, h, s, states, services2);
      var cs := Filter(Index.Group(services2, h), SameExtracted(s));
      t.Some? ==> HostNotificationsOn(host1)
                  && StateOf(s, states).Some? && Get(s, "notifications_enabled", Null) == Str("1")
                  && Get(StateOf(s, states).value, "notifications_enabled", Null) == Str("0")
                  && |cs| == 1 && Truthy(EnableNotifications(cs[0]))
  {
    ServiceTargetMeaning(h, s, states, services2);
  }

  /**
   * A host whose notifications Icinga 1 has disabled, with a service whose
   * configuration says `'1'`, whose status says `'0'` and whose one Icinga 2
   * counterpart has notifications on: the loop as written still disables
   * that service, while the documented condition leaves it.
   */
  lemma HostNotificationsIgnored(host1: Record, h: Value, s: Record, st: Record, x: Record)
    requires !HostNotificationsOn(host1)
    requires SameCommand(s)(st)
    requires Get(s, "notifications_enabled", Null) == Str("1") && Get(st, "notifications_enabled", Null) == Str("0")
    requires SameExtracted(s)(x) && Truthy(EnableNotifications(x))
    ensures ServiceTarget(h, s, [st], map[h := [x]]) == Some(Name(h) + "!" + MigrateDowntimes.ServiceName(x))
    ensures IntendedServiceTarget(host1, h, s, [st], map[h := [x]]) == None
  {
    assert Filter([st], SameCommand(s)) == [st];
    assert Index.Group(map[h := [x]], h) == [x];
    assert Filter([x], SameExtracted(s)) == [x];
  }

  /** Every object disabled belongs to a visited host that Icinga 2 knows. */
  lemma {:induction false} TargetsOnKnownHosts(todo: seq<Value>, hosts2: map<Value, Record>, services1: map<Value, seq<Record>>,
                                               status1: map<Value, seq<Record>>, services2: map<Value, seq<Record>>)
    ensures forall n | n in AllServiceTargets(todo, hosts2, services1, status1, services2) ::
      exists h | h in todo && h in hosts2 :: n in HostServiceTargets(h, hosts2, services1, status1, services2)
    decreases |todo|
  {
    if todo != [] {
      var init := todo[..|todo| - 1];
      var h := todo[|todo| - 1];
      TargetsOnKnownHosts(init, hosts2, services1, status1, services2);
      assert forall x | x in init :: x in todo;
      assert h in todo;
    }
  }

  lemma AllServiceTargetsSnoc(todo: seq<Value>, i: nat, hosts2: map<Value, Record>, services1: map<Value, seq<Record>>,
                              status1: map<Value, seq<Record>>, services2: map<Value, seq<Record>>)
    requires i < |todo|
    ensures AllServiceTargets(todo[..i + 1], hosts2, services1, status1, services2)
         == AllServiceTargets(todo[..i], hosts2, services1, status1, services2)
            + HostServiceTargets(todo[i], hosts2, services1, status1, services2)
  {
    assert todo[..i + 1][..i] == todo[..i];
  }

  lemma ServiceTargetsSnoc(ss: seq<Record>, i: nat, target: Record -> Option<string>)
    requires i < |ss|
    ensures ServiceTargets(ss[..i + 1], target) == ServiceTargets(ss[..i], target) + TargetList(target(ss[i]))
  {
    assert ss[..i + 1][..i] == ss[..i];
  }

  /** What the service lookups subscript: the Icinga 1 services and states, and the Icinga 2 services. */
  predicate ServiceShaped(services1: map<Value, seq<Record>>, status1: map<Value, seq<Record>>, services2: map<Value, seq<Record>>) {
    (forall h | h in services1 :: forall s | s in services1[h] ::
       "check_command" in s && "notifications_enabled" in s && "check_command_extracted" in s) &&
    (forall h | h in status1 :: forall st | st in status1[h] :: "check_command" in st && "notifications_enabled" in st) &&
    (forall h | h in services2 :: forall x | x in services2[h] ::
       "check_command_extracted" in x && AtPath(Map(x), ["attrs", "name"]).Some? && AtPath(Map(x), ["attrs", "name"]).value.Str?
       && AtPath(Map(x), ["attrs", "enable_notifications"]).Some?)
  }

  /** The calls and the counter after the updates for `done`, from `base` on: nothing with `simulate`. */
  predicate Tally(simulate: bool, count: nat, calls: seq<Call>, base: seq<Call>, done: seq<string>,
                  fails: (string, string) -> bool, suffix: string) {
    (simulate ==> count == 0 && calls == base) &&
    (!simulate ==> count == Succeeded(done, fails) && calls == base + UpdateCalls("Service", done, suffix))
  }

  lemma TallyAppend(simulate: bool, count: nat, calls: seq<Call>, base: seq<Call>, done: seq<string>, more: seq<string>,
                    fails: (string, string) -> bool, suffix: string)
    requires Tally(simulate, count, calls, base, done, fails, suffix)
    ensures !simulate ==> count + Succeeded(more, fails) == Succeeded(done + more, fails)
    ensures !simulate ==> calls + UpdateCalls("Service", more, suffix) == base + UpdateCalls("Service", done + more, suffix)
  {
    SucceededAppend(done, more, fails);
    UpdateCallsAppend("Service", done, more, suffix);
  }

  /** Two tallies in a row make one. */
  lemma TallyCompose(simulate: bool, count: nat, calls: seq<Call>, base: seq<Call>, done: seq<string>,
                     n: nat, calls': seq<Call>, more: seq<string>, fails: (string, string) -> bool, suffix: string)
    requires Tally(simulate, count, calls, base, done, fails, suffix)
    requires Tally(simulate, n, calls', calls, more, fails, suffix)
    ensures Tally(simulate, count + n, calls', base, done + more, fails, suffix)
  {
    TallyAppend(simulate, count, calls, base, done, more, fails, suffix);
  }

  /**
   * `migrate_service_notification_states`: one update per object to
   * disable, none with `simulate`; the counter counts the updates that
   * succeed.
   */
  method MigrateServiceNotificationStates(server: Icinga2Server, hosts1: seq<Record>, hosts2: map<Value, Record>,
                                          services1: map<Value, seq<Record>>, status1: map<Value, seq<Record>>,
                                          services2: map<Value, seq<Record>>, simulate: bool, suffix: string, hostname: string)
    returns (count: nat)
    requires hostname == "" ==> forall r | r in hosts1 :: "host_name" in r
    requires ServiceShaped(services1, status1, services2)
    modifies server`calls
    ensures var t := AllServiceTargets(ServiceHostNames(hosts1, hostname), hosts2, services1, status1, services2);
      (simulate ==> count == 0 && server.calls == old(server.calls)) &&
      (!simulate ==> count == Succeeded(t, server.updateFails) && server.calls == old(server.calls) + UpdateCalls("Service", t, suffix))
  {
    var todo := ServiceHostNames(hosts1, hostname);
    ghost var done: seq<string> := [];
    count := 0;
    var i := 0;
    while i < |todo|
      invariant 0 <= i <= |todo|
      invariant done == AllServiceTargets(todo[..i], hosts2, services1, status1, services2)
      invariant Tally(simulate, count, server.calls, old(server.calls), done, server.updateFails, suffix)
    {
      AllServiceTargetsSnoc(todo, i, hosts2, services1, status1, services2);
      var h := todo[i];
      ghost var ts := HostServiceTargets(h, hosts2, services1, status1, services2);
      ghost var before := server.calls;
      var n := MigrateServicesOf(server, h, hosts2, services1, status1, services2, simulate, suffix);
      TallyCompose(simulate, count, before, old(server.calls), done, n, server.calls, ts, server.updateFails, suffix);
      count := count + n;
      done := done + ts;
      i := i + 1;
    }
    assert todo[..i] == todo;
  }

  /** The services of host `h`, skipped when Icinga 2 does not know the host. */
  method MigrateServicesOf(server: Icinga2Server, h: Value, hosts2: map<Value, Record>, services1: map<Value, seq<Record>>,
                           status1: map<Value, seq<Record>>, services2: map<Value, seq<Record>>, simulate: bool, suffix: string)
    returns (count: nat)
    modifies server`calls
    ensures Tally(simulate, count, server.calls, old(server.calls), HostServiceTargets(h, hosts2, services1, status1, services2),
                  server.updateFails, suffix)
  {
    count := 0;
    if h in hosts2 {
      count := MigrateHostServices(server, Index.Group(services1, h), TargetFor(h, Index.Group(status1, h), services2), simulate, suffix);
    }
  }

  /** The services of one host Icinga 2 knows, `target` giving the object to disable for each. */
  method MigrateHostServices(server: Icinga2Server, services: seq<Record>, target: Record -> Option<string>,
                             simulate: bool, suffix: string)
    returns (count: nat)
    modifies server`calls
    ensures Tally(simulate, count, server.calls, old(server.calls), ServiceTargets(services, target), server.updateFails, suffix)
  {
    ghost var done: seq<string> := [];
    count := 0;
    var i := 0;
    while i < |services|
      invariant 0 <= i <= |services|
      invariant done == ServiceTargets(services[..i], target)
      invariant Tally(simulate, count, server.calls, old(server.calls), done, server.updateFails, suffix)
    {
      ServiceTargetsSnoc(services, i, target);
      var t := target(services[i]);
      ghost var before := server.calls;
      var n := DisableTarget(server, t, simulate, suffix);
      TallyCompose(simulate, count, before, old(server.calls), done, n, server.calls, TargetList(t), server.updateFails, suffix);
      count := count + n;
      done := done + TargetList(t);
      i := i + 1;
    }
    assert services[..i] == services;
  }

  function TargetList(t: Option<string>): seq<string> {
    if t.Some? then [t.value] else []
  }

  /** The update for one service's target, if it has one. */
  method DisableTarget(server: Icinga2Server, t: Option<string>, simulate: bool, suffix: string) returns (count: nat)
    modifies server`calls
    ensures Tally(simulate, count, server.calls, old(server.calls), TargetList(t), server.updateFails, suffix)
  {
    count := 0;
    if t.Some? {
      OneUpdate(t.value, server.updateFails, suffix);
      var ok := DisableService(server, t.value, simulate, suffix);
      if ok {
        count := 1;
      }
    } else {
      assert Succeeded([], server.updateFails) == 0 && UpdateCalls("Service", [], suffix) == [];
    }
  }

  lemma OneUpdate(name: string, fails: (string, string) -> bool, suffix: string)
    ensures Succeeded([name], fails) == if fails("Service", name) then 0 else 1
    ensures UpdateCalls("Service", [name], suffix) == [UpdateObject("Service", name, NotificationsOff(suffix))]
  {
    assert [name][..0] == [];
  }

  /** One service: the update unless simulating; true when it was made and did not raise. */
  method DisableService(server: Icinga2Server, name: string, simulate: bool, suffix: string) returns (ok: bool)
    modifies server`calls
    ensures simulate ==> !ok && server.calls == old(server.calls)
    ensures !simulate ==> ok == !server.updateFails("Service", name)
                          && server.calls == old(server.calls) + [UpdateObject("Service", name, NotificationsOff(suffix))]
  {
    ok := false;
    if !simulate {
      ok := server.Update("Service", name, NotificationsOff(suffix));
    }
  }
}
