/**
 * The Icinga 2 side (icinga_migration_utils/icinga2/icinga2.py): the retry
 * loop around object listing, the dictionaries the client builds from API
 * answers, the rule that reads an action's answer, the merge of notification
 * users and groups, and the server state the migrations read and change.
 *
 * The HTTP client is not modelled: what the server answers is an input
 * (a function of the attempt, of the request, or of the object).
 */
module Icinga2 {
  import opened Values
  import opened Icinga2Filters
  import Index

  // ---------------------------------------------------------------------------
  // get_objects_list
  // ---------------------------------------------------------------------------

  /** What one attempt to list objects gives. */
  datatype Attempt =
    | Listed(records: seq<Record>)
    | ChunkedEncodingError
    | Failed(error: string)      // any other exception, which is not caught

  /** What `get_objects_list` gives: the objects, `Icinga2Error`, or an exception it let through. */
  datatype Listing =
    | Objects(records: seq<Record>)
    | Icinga2Error
    | Raised(error: string)

  /** How many attempts `range(0, retries + 1)` allows: none for a negative count. */
  function Tries(retries: int): nat {
    if retries < 0 then 0 else retries + 1
  }

  /**
   * `get_objects_list`: attempt `i` for `i` in `0..retries`, retrying only
   * after a `ChunkedEncodingError`. At most `retries + 1` attempts are made;
   * `Icinga2Error` is raised exactly when every one of them failed that way,
   * so at once when `retries` is negative.
   */
  method GetObjectsList(retries: int, attempt: nat -> Attempt) returns (r: Listing, attempts: nat)
    ensures attempts <= Tries(retries)
    ensures forall i | 0 <= i < attempts - 1 :: attempt(i).ChunkedEncodingError?
    ensures r.Icinga2Error? <==> forall i | 0 <= i <= retries :: attempt(i).ChunkedEncodingError?
    ensures r.Icinga2Error? ==> attempts == Tries(retries)
    ensures !r.Icinga2Error? ==> attempts >= 1
    ensures r.Objects? <==> attempts >= 1 && attempt(attempts - 1).Listed?
    ensures r.Objects? ==> r.records == attempt(attempts - 1).records
    ensures r.Raised? <==> attempts >= 1 && attempt(attempts - 1).Failed?
    ensures r.Raised? ==> r.error == attempt(attempts - 1).error
  {
    var i := 0;
    while i < retries + 1
      invariant i <= Tries(retries)
      invariant forall j | 0 <= j < i :: attempt(j).ChunkedEncodingError?
    {
      match attempt(i)
      case Listed(recs) =>
        r, attempts := Objects(recs), i + 1;
        return;
      case Failed(e) =>
        r, attempts := Raised(e), i + 1;
        return;
      case ChunkedEncodingError =>
      i := i + 1;
    }
    r, attempts := Icinga2Error, i;
  }

  // ---------------------------------------------------------------------------
  // Dictionaries built from API answers
  // ---------------------------------------------------------------------------

  /** `r[k0][k1]...` for records where it is known to succeed. */
  function KeyAt(path: seq<string>): Record -> Value {
    r => match AtPath(Map(r), path) case Some(v) => v case None => Null
  }

  predicate AllAt(recs: seq<Record>, path: seq<string>) {
    forall r | r in recs :: AtPath(Map(r), path).Some?
  }

  const HostNamePath: seq<string> := ["attrs", "name"]
  const JoinedHostNamePath: seq<string> := ["joins", "host", "name"]

  /**
   * `get_hosts_dict`: the hosts by `attrs.name`. Every name present maps to
   * the last host with that name, and to a host that has it.
   */
  method GetHostsDict(hosts: seq<Record>) returns (d: map<Value, Record>)
    requires AllAt(hosts, HostNamePath)
    ensures forall n :: n in d <==> Index.LastWith(hosts, KeyAt(HostNamePath), n).Some?
    ensures forall n | n in d :: d[n] == Index.LastWith(hosts, KeyAt(HostNamePath), n).value
    ensures forall n | n in d :: d[n] in hosts && AtPath(Map(d[n]), HostNamePath) == Some(n)
  {
    d := Index.IndexLast(hosts, KeyAt(HostNamePath));
    forall n | n in d ensures d[n] in hosts && AtPath(Map(d[n]), HostNamePath) == Some(n) {
      Index.LastWithIsLast(hosts, KeyAt(HostNamePath), n);
    }
  }

  /** `get_services_by_hostname`: the services grouped by `joins.host.name`, in order. */
  method GetServicesByHostname(services: seq<Record>) returns (d: map<Value, seq<Record>>)
    requires AllAt(services, JoinedHostNamePath)
    ensures forall n :: Index.Group(d, n) == Filter(services, Index.NamedBy(KeyAt(JoinedHostNamePath), n))
    ensures forall n, s | s in Index.Group(d, n) :: AtPath(Map(s), JoinedHostNamePath) == Some(n)
  {
    d := Index.GroupBy(services, KeyAt(JoinedHostNamePath));
  }

  datatype HostLookup = Found(host: Record) | HostNotFound(hostName: string)

  /**
   * The hosts `get_hosts` asks for: with a name, the server filter
   * `host.name==hostname`; an empty name sends no filter, so every host.
   */
  function Wanted(hostName: string): Record -> bool {
    (h: Record) => hostName == "" || KeyAt(HostNamePath)(h) == Str(hostName)
  }

  /**
   * `get_host` over the server's hosts: the first host the query selects, or
   * `HostNotFoundException` when it selects none.
   */
  function GetHost(hosts: seq<Record>, hostName: string): (r: HostLookup)
    ensures r.HostNotFound? <==> forall h | h in hosts :: !Wanted(hostName)(h)
    ensures r.HostNotFound? ==> r.hostName == hostName
    ensures r.Found? ==> exists i :: FirstWith(hosts, Wanted(hostName), i) && r.host == hosts[i]
  {
    var answer := Filter(hosts, Wanted(hostName));
    if answer == [] then HostNotFound(hostName)
    else
      FilterHead(hosts, Wanted(hostName));
      assert answer[0] in answer;
      Found(answer[0])
  }

  // ---------------------------------------------------------------------------
  // Actions
  // ---------------------------------------------------------------------------

  /** One entry of an action's `results`. */
  datatype ActionResult = ActionResult(code: int, status: string)

  /** The verdict of `acknowledge_service` and `acknowledge_host`. */
  predicate Acknowledged(results: seq<ActionResult>) {
    results != [] && results[0].code == 200
  }

  // ---------------------------------------------------------------------------
  // get_service_notification_contacts
  // ---------------------------------------------------------------------------

  /** The part of a user the merge copies: `name`, `email` and `groups` of its attributes. */
  datatype User = User(name: string, email: Value, groups: seq<string>)

  /** A user object: its object name (`user['name']`) and its attributes. */
  datatype UserObject = UserObject(objectName: string, attrs: User)

  /** A notification's attributes; missing or empty user lists are empty sequences. */
  datatype Notification = Notification(hostName: string, serviceName: string, users: seq<string>, userGroups: seq<string>)

  datatype Contacts = Contacts(users: seq<User>, groups: seq<string>)

  /** A service with notification users set in its `vars` (empty when there are none). */
  datatype ServiceOverride = ServiceOverride(name: string, hostName: string, users: seq<string>)

  /** `host_name`, then `!service_name` when the notification belongs to a service. */
  function NotificationKey(n: Notification): string {
    n.hostName + (if n.serviceName != "" then "!" + n.serviceName else "")
  }

  /** The users whose attribute `name` is `name`, in order. */
  function Named(us: seq<UserObject>, name: string): (r: seq<User>)
    ensures forall u :: u in r <==> exists x :: x in us && x.attrs == u && u.name == name
    decreases |us|
  {
    if us == [] then []
    else (if us[0].attrs.name == name then [us[0].attrs] else []) + Named(us[1..], name)
  }

  /** The users that are members of `group`, in order. */
  function Members(us: seq<UserObject>, group: string): (r: seq<User>)
    ensures forall u :: u in r <==> exists x :: x in us && x.attrs == u && group in u.groups
    decreases |us|
  {
    if us == [] then []
    else (if group in us[0].attrs.groups then [us[0].attrs] else []) + Members(us[1..], group)
  }

  /** The named users, one name after the other, duplicates kept. */
  function UsersNamed(us: seq<UserObject>, names: seq<string>): seq<User>
    decreases |names|
  {
    if names == [] then [] else UsersNamed(us, names[..|names| - 1]) + Named(us, names[|names| - 1])
  }

  /** The members of the groups, one group after the other, duplicates kept. */
  function GroupMembers(us: seq<UserObject>, groups: seq<string>): seq<User>
    decreases |groups|
  {
    if groups == [] then [] else GroupMembers(us, groups[..|groups| - 1]) + Members(us, groups[|groups| - 1])
  }

  /** The entry one notification produces: the named users, then the members of its groups. */
  function Entry(us: seq<UserObject>, n: Notification): Contacts {
    Contacts(UsersNamed(us, n.users) + GroupMembers(us, n.userGroups), n.userGroups)
  }

  /** A user is among the named users iff it is a user object's attributes and its name is one of the names. */
  lemma {:induction false} UsersNamedMeaning(us: seq<UserObject>, names: seq<string>, u: User)
    ensures u in UsersNamed(us, names) <==> (u.name in names && exists x :: x in us && x.attrs == u)
    decreases |names|
  {
    if names != [] {
      var init := names[..|names| - 1];
      var last := names[|names| - 1];
      UsersNamedMeaning(us, init, u);
      assert names == init + [last];
      assert u in Named(us, last) <==> (u.name == last && exists x :: x in us && x.attrs == u);
    }
  }

  /** A user is among the group members iff it is a user object's attributes and in one of the groups. */
  lemma {:induction false} GroupMembersMeaning(us: seq<UserObject>, groups: seq<string>, u: User)
    ensures u in GroupMembers(us, groups) <==> ((exists g :: g in groups && g in u.groups) && exists x :: x in us && x.attrs == u)
    decreases |groups|
  {
    if groups != [] {
      var init := groups[..|groups| - 1];
      var last := groups[|groups| - 1];
      GroupMembersMeaning(us, init, u);
      assert groups == init + [last];
      assert u in Members(us, last) <==> (last in u.groups && exists x :: x in us && x.attrs == u);
      assert (exists g :: g in groups && g in u.groups) <==> ((exists g :: g in init && g in u.groups) || last in u.groups);
    }
  }

  /** Every user in an entry is a user object's attributes, named by the notification or a member of one of its groups. */
  lemma EntryUsers(us: seq<UserObject>, names: seq<string>, groups: seq<string>, u: User)
    ensures u in UsersNamed(us, names) + GroupMembers(us, groups) <==>
      exists x :: x in us && x.attrs == u && (u.name in names || exists g :: g in groups && g in u.groups)
  {
    UsersNamedMeaning(us, names, u);
    GroupMembersMeaning(us, groups, u);
  }

  /** The last notification with key `k` among the first `n`, if any. */
  function LastNotification(ns: seq<Notification>, k: string): Option<Notification>
    decreases |ns|
  {
    if ns == [] then None
    else if NotificationKey(ns[|ns| - 1]) == k then Some(ns[|ns| - 1])
    else LastNotification(ns[..|ns| - 1], k)
  }

  /** A notification found is one with that key, and no later notification has the key. */
  lemma {:induction false} LastNotificationIsLast(ns: seq<Notification>, k: string)
    ensures LastNotification(ns, k).None? <==> forall i | 0 <= i < |ns| :: NotificationKey(ns[i]) != k
    ensures LastNotification(ns, k).Some? ==>
      exists i :: 0 <= i < |ns| && ns[i] == LastNotification(ns, k).value && NotificationKey(ns[i]) == k
                  && forall j | i < j < |ns| :: NotificationKey(ns[j]) != k
    decreases |ns|
  {
    if ns != [] {
      var m := |ns| - 1;
      LastNotificationIsLast(ns[..m], k);
      assert forall i | 0 <= i < m :: ns[..m][i] == ns[i];
      if NotificationKey(ns[m]) != k && LastNotification(ns[..m], k).Some? {
        var i :| 0 <= i < m && ns[..m][i] == LastNotification(ns[..m], k).value && NotificationKey(ns[..m][i]) == k
                 && forall j | i < j < m :: NotificationKey(ns[..m][j]) != k;
        assert ns[i] == LastNotification(ns, k).value;
      }
    }
  }

  /**
   * The first loop of `get_service_notification_contacts`: one entry per
   * key; a later notification with the same key replaces the earlier entry.
   */
  method MergeNotifications(us: seq<UserObject>, ns: seq<Notification>) returns (result: map<string, Contacts>)
    ensures forall k :: k in result <==> LastNotification(ns, k).Some?
    ensures forall k | k in result :: result[k] == Entry(us, LastNotification(ns, k).value)
  {
    result := map[];
    for i := 0 to |ns|
      invariant forall k :: k in result <==> LastNotification(ns[..i], k).Some?
      invariant forall k | k in result :: result[k] == Entry(us, LastNotification(ns[..i], k).value)
    {
      assert ns[..i + 1][..i] == ns[..i];
      var n := ns[i];
      var users := UsersNamed(us, n.users) + GroupMembers(us, n.userGroups);
      result := result[NotificationKey(n) := Contacts(users, n.userGroups)];
    }
    assert ns[..|ns|] == ns;
  }

  /** `[x for x in users if x['name'] == username][0]`: the first user object with that object name. */
  function FirstWithObjectName(us: seq<UserObject>, username: string): Option<User>
    decreases |us|
  {
    if us == [] then None
    else if us[0].objectName == username then Some(us[0].attrs)
    else FirstWithObjectName(us[1..], username)
  }

  /** The user found is that of the first user object with the object name; there is none iff no object has it. */
  lemma {:induction false} FirstWithObjectNameMeaning(us: seq<UserObject>, username: string)
    ensures FirstWithObjectName(us, username).None? <==> forall i | 0 <= i < |us| :: us[i].objectName != username
    ensures FirstWithObjectName(us, username).Some? ==>
      exists i :: 0 <= i < |us| && us[i].objectName == username && us[i].attrs == FirstWithObjectName(us, username).value
                  && forall j | 0 <= j < i :: us[j].objectName != username
    decreases |us|
  {
    if us != [] && us[0].objectName != username {
      FirstWithObjectNameMeaning(us[1..], username);
      assert forall i | 1 <= i < |us| :: us[1..][i - 1] == us[i];
      if FirstWithObjectName(us, username).Some? {
        var i :| 0 <= i < |us[1..]| && us[1..][i].objectName == username && us[1..][i].attrs == FirstWithObjectName(us, username).value
                 && forall j | 0 <= j < i :: us[1..][j].objectName != username;
        assert us[i + 1] == us[1..][i];
        assert forall j | 0 <= j < i + 1 :: us[j].objectName != username by {
          forall j | 0 <= j < i + 1 ensures us[j].objectName != username {
            if j > 0 {
              assert us[j] == us[1..][j - 1];
            }
          }
        }
      }
    } else if us != [] {
      assert 0 <= 0 < |us| && us[0].objectName == username;
    }
  }

  /** Append the override users of one service to its entry; `None` is the IndexError of a missing user. */
  function AddOverride(result: map<string, Contacts>, us: seq<UserObject>, s: ServiceOverride, n: nat): Option<map<string, Contacts>>
    requires n <= |s.users|
    decreases n
  {
    if n == 0 then
      Some(if s.name in result then result else result[s.name := Contacts([], [])])
    else
      match AddOverride(result, us, s, n - 1)
      case None => None
      case Some(r) =>
        match FirstWithObjectName(us, s.users[n - 1])
        case None => None
        case Some(u) => Some(r[s.name := Contacts(r[s.name].users + [u], r[s.name].groups)])
  }

  /** The services whose overrides apply: those with users, of the host when one is given. */
  function OverridesFor(services: seq<ServiceOverride>, hostname: string): seq<ServiceOverride> {
    Filter(Filter(services, (s: ServiceOverride) => s.users != []),
           (s: ServiceOverride) => hostname == "" || s.hostName == hostname)
  }

  /** The second loop, applied to the first `n` services. */
  function ApplyOverrides(result: map<string, Contacts>, us: seq<UserObject>, services: seq<ServiceOverride>): Option<map<string, Contacts>>
    decreases |services|
  {
    if services == [] then Some(result)
    else
      match ApplyOverrides(result, us, services[..|services| - 1])
      case None => None
      case Some(r) => AddOverride(r, us, services[|services| - 1], |services[|services| - 1].users|)
  }

  lemma AddOverrideFacts(result: map<string, Contacts>, us: seq<UserObject>, s: ServiceOverride, n: nat)
    requires n <= |s.users|
    ensures AddOverride(result, us, s, n).None? <==> exists i :: 0 <= i < n && FirstWithObjectName(us, s.users[i]).None?
    ensures AddOverride(result, us, s, n).Some? ==>
      var r := AddOverride(result, us, s, n).value;
      (forall k :: k in r <==> k in result || k == s.name) && forall k | k in result && k != s.name :: r[k] == result[k]
  {
    AddOverrideFails(result, us, s, n);
    if AddOverride(result, us, s, n).Some? {
      AddOverrideKeys(result, us, s, n);
    }
  }

  /** One of the first `n` override users of `s` has no user object. */
  predicate UnknownAmong(us: seq<UserObject>, s: ServiceOverride, n: nat)
    requires n <= |s.users|
  {
    exists i :: 0 <= i < n && FirstWithObjectName(us, s.users[i]).None?
  }

  lemma UnknownAmongSnoc(us: seq<UserObject>, s: ServiceOverride, n: nat)
    requires 0 < n <= |s.users|
    ensures UnknownAmong(us, s, n) <==> UnknownAmong(us, s, n - 1) || FirstWithObjectName(us, s.users[n - 1]).None?
  {
    if FirstWithObjectName(us, s.users[n - 1]).None? {
      assert 0 <= n - 1 < n && FirstWithObjectName(us, s.users[n - 1]).None?;
    }
  }

  lemma {:induction false} AddOverrideFails(result: map<string, Contacts>, us: seq<UserObject>, s: ServiceOverride, n: nat)
    requires n <= |s.users|
    ensures AddOverride(result, us, s, n).None? <==> UnknownAmong(us, s, n)
    decreases n
  {
    if n > 0 {
      AddOverrideFails(result, us, s, n - 1);
      AddOverrideLast(result, us, s, n);
      UnknownAmongSnoc(us, s, n);
    }
  }

  lemma AddOverrideLast(result: map<string, Contacts>, us: seq<UserObject>, s: ServiceOverride, n: nat)
    requires 0 < n <= |s.users|
    ensures AddOverride(result, us, s, n).None? <==>
      AddOverride(result, us, s, n - 1).None? || FirstWithObjectName(us, s.users[n - 1]).None?
  {
  }

  lemma {:induction false} AddOverrideKeys(result: map<string, Contacts>, us: seq<UserObject>, s: ServiceOverride, n: nat)
    requires n <= |s.users| && AddOverride(result, us, s, n).Some?
    ensures var r := AddOverride(result, us, s, n).value;
      (forall k :: k in r <==> k in result || k == s.name) && forall k | k in result && k != s.name :: r[k] == result[k]
    decreases n
  {
    if n > 0 {
      AddOverrideKeys(result, us, s, n - 1);
    }
  }

  /**
   * The override loop fails (IndexError) exactly when some override names a
   * user no user object has as its object name.
   */
  lemma {:induction false} ApplyOverridesFails(result: map<string, Contacts>, us: seq<UserObject>, services: seq<ServiceOverride>)
    ensures ApplyOverrides(result, us, services).None? <==>
      exists j, i :: 0 <= j < |services| && 0 <= i < |services[j].users| && FirstWithObjectName(us, services[j].users[i]).None?
    decreases |services|
  {
    if services != [] {
      var m := |services| - 1;
      var init := services[..m];
      ApplyOverridesFails(result, us, init);
      assert forall j | 0 <= j < m :: init[j] == services[j];
      match ApplyOverrides(result, us, init)
      case None =>
      case Some(r) =>
        AddOverrideFacts(r, us, services[m], |services[m].users|);
    }
  }

  /**
   * When it succeeds, the override loop adds an entry per overriding service
   * and changes no entry no override names.
   */
  lemma ApplyOverridesKeeps(result: map<string, Contacts>, us: seq<UserObject>, services: seq<ServiceOverride>)
    requires ApplyOverrides(result, us, services).Some?
    ensures var r := ApplyOverrides(result, us, services).value;
      (forall k :: k in r <==> k in result || exists j :: 0 <= j < |services| && services[j].name == k) &&
      (forall k | k in result && (forall j | 0 <= j < |services| :: services[j].name != k) :: r[k] == result[k])
  {
    ApplyOverridesKeys(result, us, services);
    ApplyOverridesUnchanged(result, us, services);
  }

  /** A successful loop succeeded on all but the last service, and the last one's overrides were added to that. */
  lemma ApplyOverridesLast(result: map<string, Contacts>, us: seq<UserObject>, services: seq<ServiceOverride>)
    requires services != [] && ApplyOverrides(result, us, services).Some?
    ensures var init, last := services[..|services| - 1], services[|services| - 1];
      ApplyOverrides(result, us, init).Some? &&
      AddOverride(ApplyOverrides(result, us, init).value, us, last, |last.users|) == ApplyOverrides(result, us, services)
  {
  }

  /** Some service of `services` is named `k`. */
  predicate NamedIn(services: seq<ServiceOverride>, k: string) {
    exists j :: 0 <= j < |services| && services[j].name == k
  }

  lemma NamedInSnoc(services: seq<ServiceOverride>, k: string)
    requires services != []
    ensures NamedIn(services, k) <==> NamedIn(services[..|services| - 1], k) || services[|services| - 1].name == k
  {
    var init := services[..|services| - 1];
    if NamedIn(services, k) {
      var j :| 0 <= j < |services| && services[j].name == k;
      if j < |init| {
        assert init[j].name == k;
      }
    }
    if NamedIn(init, k) {
      var j :| 0 <= j < |init| && init[j].name == k;
      assert services[j].name == k;
    }
  }

  lemma {:induction false} ApplyOverridesKeys(result: map<string, Contacts>, us: seq<UserObject>, services: seq<ServiceOverride>)
    requires ApplyOverrides(result, us, services).Some?
    ensures forall k :: k in ApplyOverrides(result, us, services).value <==> k in result || NamedIn(services, k)
    decreases |services|
  {
    if services != [] {
      var m := |services| - 1;
      var init := services[..m];
      ApplyOverridesLast(result, us, services);
      var r0 := ApplyOverrides(result, us, init).value;
      ApplyOverridesKeys(result, us, init);
      AddOverrideKeys(r0, us, services[m], |services[m].users|);
      forall k ensures k in ApplyOverrides(result, us, services).value <==> k in result || NamedIn(services, k) {
        NamedInSnoc(services, k);
      }
    }
  }

  lemma {:induction false} ApplyOverridesUnchanged(result: map<string, Contacts>, us: seq<UserObject>, services: seq<ServiceOverride>)
    requires ApplyOverrides(result, us, services).Some?
    ensures forall k | k in result && (forall j | 0 <= j < |services| :: services[j].name != k) ::
      k in ApplyOverrides(result, us, services).value && ApplyOverrides(result, us, services).value[k] == result[k]
    decreases |services|
  {
    if services != [] {
      var m := |services| - 1;
      var init := services[..m];
      ApplyOverridesLast(result, us, services);
      var r0 := ApplyOverrides(result, us, init).value;
      ApplyOverridesUnchanged(result, us, init);
      AddOverrideKeys(r0, us, services[m], |services[m].users|);
      var r := ApplyOverrides(result, us, services).value;
      forall k | k in result && (forall j | 0 <= j < |services| :: services[j].name != k) ensures k in r && r[k] == result[k] {
        assert forall j | 0 <= j < m :: init[j].name != k by {
          forall j | 0 <= j < m ensures init[j].name != k {
            assert init[j] == services[j];
          }
        }
        assert services[m].name != k;
      }
    }
  }

  /** `merged` is the result of the first loop: an entry per key, from its last notification. */
  ghost predicate IsMerge(merged: map<string, Contacts>, us: seq<UserObject>, ns: seq<Notification>) {
    (forall k :: k in merged <==> LastNotification(ns, k).Some?) &&
    (forall k | k in merged :: merged[k] == Entry(us, LastNotification(ns, k).value))
  }

  /**
   * `get_service_notification_contacts`: the merged notification entries,
   * then the overrides of the selected services appended in order; `None`
   * when an override names an unknown user.
   */
  method NotificationContacts(us: seq<UserObject>, ns: seq<Notification>, services: seq<ServiceOverride>, hostname: string)
    returns (r: Option<map<string, Contacts>>)
    ensures exists merged :: IsMerge(merged, us, ns) && r == ApplyOverrides(merged, us, OverridesFor(services, hostname))
  {
    var merged := MergeNotifications(us, ns);
    r := ApplyAllOverrides(merged, us, OverridesFor(services, hostname));
    assert IsMerge(merged, us, ns);
  }

  /** The second loop: the overrides of each selected service in turn, stopping at the first unknown user. */
  method ApplyAllOverrides(merged: map<string, Contacts>, us: seq<UserObject>, selected: seq<ServiceOverride>)
    returns (r: Option<map<string, Contacts>>)
    ensures r == ApplyOverrides(merged, us, selected)
  {
    var result := merged;
    for j := 0 to |selected|
      invariant ApplyOverrides(merged, us, selected[..j]) == Some(result)
    {
      assert selected[..j + 1][..j] == selected[..j];
      var added := AddOverrideUsers(result, us, selected[j]);
      if added.None? {
        ApplyOverridesNone(merged, us, selected, j + 1);
        return None;
      }
      result := added.value;
    }
    assert selected[..|selected|] == selected;
    r := Some(result);
  }

  /** The inner loop: the entry of service `s` is created if needed and its override users appended. */
  method AddOverrideUsers(result: map<string, Contacts>, us: seq<UserObject>, s: ServiceOverride)
    returns (r: Option<map<string, Contacts>>)
    ensures r == AddOverride(result, us, s, |s.users|)
  {
    var entries := result;
    if s.name !in entries {
      entries := entries[s.name := Contacts([], [])];
    }
    for i := 0 to |s.users|
      invariant AddOverride(result, us, s, i) == Some(entries)
    {
      var u := FirstWithObjectName(us, s.users[i]);
      if u.None? {
        AddOverrideNone(result, us, s, i);
        return None;
      }
      entries := entries[s.name := Contacts(entries[s.name].users + [u.value], entries[s.name].groups)];
    }
    r := Some(entries);
  }

  /** Once an override fails, the whole service fails. */
  lemma {:induction false} AddOverrideNone(result: map<string, Contacts>, us: seq<UserObject>, s: ServiceOverride, i: nat)
    requires i < |s.users| && FirstWithObjectName(us, s.users[i]).None?
    ensures AddOverride(result, us, s, |s.users|).None?
  {
    AddOverrideFacts(result, us, s, |s.users|);
  }

  /** Once a service fails, the whole loop fails. */
  lemma {:induction false} ApplyOverridesNone(result: map<string, Contacts>, us: seq<UserObject>, services: seq<ServiceOverride>, j: nat)
    requires j <= |services| && ApplyOverrides(result, us, services[..j]).None?
    ensures ApplyOverrides(result, us, services).None?
    decreases |services| - j
  {
    if j < |services| {
      assert services[..j + 1][..j] == services[..j];
      ApplyOverridesNone(result, us, services, j + 1);
    } else {
      assert services[..j] == services;
    }
  }

  // ---------------------------------------------------------------------------
  // The server state the migrations read and change
  // ---------------------------------------------------------------------------

  datatype Downtime = Downtime(host: string, service: Option<string>, author: string, comment: string,
                               startTime: int, endTime: int, duration: int, fixed: bool)

  datatype Comment = Comment(host: string, service: Option<string>, author: string, text: string)

  /** The service join as a filter sees it: `service.name` only for an object of a service. */
  function ServiceJoin(service: Option<string>): map<string, Value> {
    if service.Some? then map["service.name" := Str(service.value)] else map[]
  }

  /** A downtime as a filter sees it: its own attributes and those of its host and service. */
  function DowntimeView(d: Downtime): map<string, Value> {
    map["host.name" := Str(d.host), "downtime.author" := Str(d.author), "downtime.comment" := Str(d.comment),
        "downtime.start_time" := Num(d.startTime as real), "downtime.end_time" := Num(d.endTime as real),
        "downtime.duration" := Num(d.duration as real), "downtime.fixed" := Bool(d.fixed)]
    + ServiceJoin(d.service)
  }

  /** A comment as a filter sees it. */
  function CommentView(c: Comment): map<string, Value> {
    map["host.name" := Str(c.host), "comment.author" := Str(c.author), "comment.text" := Str(c.text)]
    + ServiceJoin(c.service)
  }

  /** A host as a filter sees it. */
  function HostView(host: string): map<string, Value> {
    map["host.name" := Str(host)]
  }

  /** A mutating request sent to the server. */
  datatype Call =
    | ScheduleDowntime(downtime: Downtime)
    | AcknowledgeProblem(comment: Comment)
    | UpdateObject(objectType: string, name: string, attrs: map<string, Value>)
    | AddComment(comment: Comment)
    | RemoveComments(objectType: string, query: Query)
    | RemoveDowntimes(pattern: string)

  /** The downtimes a filter selects, as a predicate. */
  function SelectedBy(q: Query): Downtime -> bool {
    (d: Downtime) => Selects(q, DowntimeView(d))
  }

  /** The comments a filter selects, as a predicate. */
  function CommentSelectedBy(q: Query): Comment -> bool {
    (c: Comment) => Selects(q, CommentView(c))
  }

  function NotSelectedBy(q: Query, view: Comment -> map<string, Value>): Comment -> bool {
    (c: Comment) => !Selects(q, view(c))
  }

  function ViewOfComment(): Comment -> map<string, Value> {
    (c: Comment) => CommentView(c)
  }

  /** `Enabling active checks` or `Disabling active checks`. */
  function DefaultActiveChecksComment(enabled: bool): string {
    (if enabled then "Enabling" else "Disabling") + " active checks"
  }

  function ActiveChecks(enabled: bool): map<string, Value> {
    map["enable_active_checks" := Bool(enabled)]
  }

  /** The service updates of `set_active_checks`, one per service, in order. */
  function ServiceUpdates(names: seq<string>, enabled: bool): (r: seq<Call>)
    ensures |r| == |names| && forall i | 0 <= i < |names| :: r[i] == UpdateObject("Service", names[i], ActiveChecks(enabled))
  {
    seq(|names|, i requires 0 <= i < |names| => UpdateObject("Service", names[i], ActiveChecks(enabled)))
  }

  /** The comment request of `set_active_checks`: the removal as written when enabling, the new host comment when disabling. */
  function CommentCall(hostname: string, enabled: bool, text: string, who: string): Call {
    if enabled then RemoveComments("Host", RemoveQueryAsWritten(hostname, text))
    else AddComment(Comment(hostname, None, who, text))
  }

  /**
   * How many of the services `set_active_checks` updates when the updates
   * `refused` marks raise: all of them, or up to and including the first
   * refused one.
   */
  function Attempted(names: seq<string>, refused: string -> bool): (n: nat)
    ensures n <= |names|
    ensures forall i | 0 <= i < n - 1 :: !refused(names[i])
    ensures n == |names| || (n > 0 && refused(names[n - 1]))
    decreases |names|
  {
    if names == [] then 0
    else if refused(names[0]) then 1
    else 1 + Attempted(names[1..], refused)
  }

  /** The loop's view of `Attempted`: every service is updated iff none is refused; otherwise it stops after the first refusal. */
  lemma {:induction false} AttemptedStops(names: seq<string>, refused: string -> bool, i: nat)
    requires i <= |names| && forall j | 0 <= j < i :: !refused(names[j])
    ensures i < |names| && refused(names[i]) ==> Attempted(names, refused) == i + 1
    ensures i == |names| ==> Attempted(names, refused) == |names|
    decreases i
  {
    if i > 0 {
      AttemptedStops(names[1..], refused, i - 1);
    }
  }

  /**
   * The removal filter `set_active_checks` sends when enabling, as written:
   * `host.name==hostname && comment==comment` on Host objects. A bare
   * `comment` is the filter variable, so the clause always holds.
   */
  function RemoveQueryAsWritten(hostname: string, comment: string): Query {
    Query([Compare("host.name", "hostname"), Compare("comment", "comment")],
          map["hostname" := Str(hostname), "comment" := Str(comment)])
  }

  /**
   * What a removal on Host objects keeps: a Host object owns only the host
   * comments, so service comments stay, and so do the comments of hosts the
   * query does not select.
   */
  function KeptByHostRemoval(q: Query): Comment -> bool {
    (c: Comment) => c.service.Some? || !Selects(q, HostView(c.host))
  }

  /** The comments left after the removal `set_active_checks` sends when enabling. */
  function RemainingAsWritten(comments: seq<Comment>, hostname: string, comment: string): seq<Comment> {
    Filter(comments, KeptByHostRemoval(RemoveQueryAsWritten(hostname, comment)))
  }

  /** As written, enabling active checks removes every host comment of the host, whatever its text, and nothing else. */
  lemma RemovalAsWrittenTakesAllComments(comments: seq<Comment>, hostname: string, comment: string)
    ensures forall c | c in comments ::
      c in RemainingAsWritten(comments, hostname, comment) <==> c.host != hostname || c.service.Some?
  {
    forall c | c in comments
      ensures KeptByHostRemoval(RemoveQueryAsWritten(hostname, comment))(c) <==> c.host != hostname || c.service.Some?
    {
      var q := RemoveQueryAsWritten(hostname, comment);
      assert Compare("host.name", "hostname") in q.clauses;
      SelfComparisonHolds("comment", HostView(c.host), q.vars);
    }
  }

  /** An acknowledgement someone else left on the host is removed by the as-written filter. */
  lemma RemovalAsWrittenCounterexample()
    ensures Comment("web1", None, "alice", "Disk replaced")
      !in RemainingAsWritten([Comment("web1", None, "alice", "Disk replaced")], "web1", "Enabling active checks")
  {
    RemovalAsWrittenTakesAllComments([Comment("web1", None, "alice", "Disk replaced")], "web1", "Enabling active checks");
  }

  /**
   * The removal filter as intended: on Comment objects,
   * `host.name==hostname && comment.text==text && service.name==null`.
   */
  function RemoveQuery(hostname: string, comment: string): Query {
    Query([Compare("host.name", "hostname"), Compare("comment.text", "text"), IsNull("service.name")],
          map["hostname" := Str(hostname), "text" := Str(comment)])
  }

  /** The intended filter removes exactly the host comments of that host with that text. */
  lemma RemoveQuerySelects(hostname: string, comment: string, c: Comment)
    ensures Selects(RemoveQuery(hostname, comment), CommentView(c)) <==>
      c.host == hostname && c.text == comment && c.service.None?
  {
    var q := RemoveQuery(hostname, comment);
    var v := CommentView(c);
    var byHost, byText, noService := Compare("host.name", "hostname"), Compare("comment.text", "text"), IsNull("service.name");
    assert q.clauses == [byHost, byText, noService];
    CommentViewKeys(c);
    assert Holds(byHost, v, q.vars) <==> c.host == hostname;
    assert Holds(byText, v, q.vars) <==> c.text == comment;
    assert Holds(noService, v, q.vars) <==> c.service.None?;
    if Selects(q, v) {
      ClauseRequired(q, byHost);
      ClauseRequired(q, byText);
      ClauseRequired(q, noService);
    }
  }

  /** The attributes of a comment's view and their values. */
  lemma CommentViewKeys(c: Comment)
    ensures var v := CommentView(c);
      "hostname" !in v && "text" !in v && "comment" !in v &&
      "host.name" in v && v["host.name"] == Str(c.host) &&
      "comment.text" in v && v["comment.text"] == Str(c.text) &&
      "comment.author" in v && v["comment.author"] == Str(c.author) &&
      ("service.name" in v <==> c.service.Some?) &&
      (c.service.Some? ==> v["service.name"] == Str(c.service.value))
  {
  }

  /**
   * The Icinga 2 server as the migrations see it: its downtimes and comments,
   * the mutating requests received so far, and the inputs that decide the
   * answers the model does not compute.
   */
  class Icinga2Server {
    var downtimes: seq<Downtime>
    var comments: seq<Comment>
    var calls: seq<Call>
    /** The names of a host's services, as the service listing answers. */
    const serviceNames: string -> seq<string>
    /** The `results` of an acknowledgement request. */
    const ackResults: Comment -> seq<ActionResult>
    /** Whether a downtime query raises `Icinga2ApiException`. */
    const queryFails: Query -> bool
    /** Whether updating the object of this type and name raises. */
    const updateFails: (string, string) -> bool

    constructor (downtimes: seq<Downtime>, comments: seq<Comment>, serviceNames: string -> seq<string>,
                 ackResults: Comment -> seq<ActionResult>, queryFails: Query -> bool, updateFails: (string, string) -> bool)
      ensures this.downtimes == downtimes && this.comments == comments && calls == []
      ensures this.serviceNames == serviceNames && this.ackResults == ackResults
      ensures this.queryFails == queryFails && this.updateFails == updateFails
    {
      this.downtimes := downtimes;
      this.comments := comments;
      this.calls := [];
      this.serviceNames := serviceNames;
      this.ackResults := ackResults;
      this.queryFails := queryFails;
      this.updateFails := updateFails;
    }

    /** `get_downtimes`: the downtimes the filter selects, or `None` when the query raises. */
    method QueryDowntimes(q: Query) returns (r: Option<seq<Downtime>>)
      ensures queryFails(q) <==> r.None?
      ensures r.Some? ==> r.value == Filter(downtimes, SelectedBy(q))
      ensures r.Some? ==> forall d :: d in r.value <==> d in downtimes && Selects(q, DowntimeView(d))
    {
      if queryFails(q) {
        r := None;
      } else {
        r := Some(Filter(downtimes, SelectedBy(q)));
      }
    }

    /** `get_acknowledgements`: the comments the filter selects. */
    method QueryComments(q: Query) returns (r: seq<Comment>)
      ensures r == Filter(comments, CommentSelectedBy(q))
      ensures forall c :: c in r <==> c in comments && Selects(q, CommentView(c))
    {
      r := Filter(comments, CommentSelectedBy(q));
    }

    /** `schedule_host_downtime` / `schedule_service_downtime`: the server creates the downtime. */
    method Schedule(d: Downtime)
      modifies this`downtimes, this`calls
      ensures downtimes == old(downtimes) + [d]
      ensures calls == old(calls) + [ScheduleDowntime(d)]
    {
      downtimes := downtimes + [d];
      calls := calls + [ScheduleDowntime(d)];
    }

    /** `remove_downtime` on Downtime objects with `match(pattern, downtime.comment)`. */
    method RemoveDowntimesMatching(pattern: string)
      modifies this`downtimes, this`calls
      ensures downtimes == Filter(old(downtimes), (d: Downtime) => !Glob(pattern, d.comment))
      ensures calls == old(calls) + [RemoveDowntimes(pattern)]
    {
      downtimes := Filter(downtimes, (d: Downtime) => !Glob(pattern, d.comment));
      calls := calls + [RemoveDowntimes(pattern)];
    }

    /** `acknowledge_service` / `acknowledge_host`: true exactly when the first result has code 200. */
    method Acknowledge(c: Comment) returns (ok: bool)
      modifies this`comments, this`calls
      ensures ok == Acknowledged(ackResults(c))
      ensures comments == old(comments) + (if ok then [c] else [])
      ensures calls == old(calls) + [AcknowledgeProblem(c)]
    {
      ok := ackResults(c) != [] && ackResults(c)[0].code == 200;
      if ok {
        comments := comments + [c];
      }
      calls := calls + [AcknowledgeProblem(c)];
    }

    /** `set_host_notifications` / `set_service_notifications`: false when the update raises. */
    method Update(objectType: string, name: string, attrs: map<string, Value>) returns (ok: bool)
      modifies this`calls
      ensures ok == !updateFails(objectType, name)
      ensures calls == old(calls) + [UpdateObject(objectType, name, attrs)]
    {
      calls := calls + [UpdateObject(objectType, name, attrs)];
      ok := !updateFails(objectType, name);
    }

    /** Whether updating the service of this name raises. */
    function RefusedServices(): string -> bool {
      (name: string) => updateFails("Service", name)
    }

    /**
     * `set_active_checks`: update the host, then remove the host comment when
     * enabling or add it when disabling, then update every service of the
     * host with the same flag. An empty comment means the default one, an
     * empty author the current user. A refused update raises: a refused host
     * update ends the call before the comment is touched, a refused service
     * update ends the loop over the services. `ok` says that nothing raised.
     */
    method SetActiveChecks(hostname: string, enabled: bool, comment: string, author: string, currentUser: string)
      returns (ok: bool)
      modifies this`comments, this`calls
      ensures var names := serviceNames(hostname);
              ok <==> !updateFails("Host", hostname) && forall i | 0 <= i < |names| :: !updateFails("Service", names[i])
      ensures updateFails("Host", hostname) ==> calls == old(calls) + [UpdateObject("Host", hostname, ActiveChecks(enabled))]
      ensures var text := if comment == "" then DefaultActiveChecksComment(enabled) else comment;
              var who := if author == "" then currentUser else author;
              var names := serviceNames(hostname);
              !updateFails("Host", hostname) ==>
                calls == old(calls) + [UpdateObject("Host", hostname, ActiveChecks(enabled)), CommentCall(hostname, enabled, text, who)]
                         + ServiceUpdates(names[..Attempted(names, RefusedServices())], enabled)
      ensures var text := if comment == "" then DefaultActiveChecksComment(enabled) else comment;
              var who := if author == "" then currentUser else author;
              comments == if updateFails("Host", hostname) then old(comments)
                          else if enabled then RemainingAsWritten(old(comments), hostname, text)
                          else old(comments) + [Comment(hostname, None, who, text)]
    {
      var text := if comment == "" then DefaultActiveChecksComment(enabled) else comment;
      var who := if author == "" then currentUser else author;
      calls := calls + [UpdateObject("Host", hostname, ActiveChecks(enabled))];
      if updateFails("Host", hostname) {
        return false;
      }
      ghost var before := old(calls) + [UpdateObject("Host", hostname, ActiveChecks(enabled)), CommentCall(hostname, enabled, text, who)];
      ToggleComment(hostname, enabled, text, who);
      assert calls == before;
      ok := UpdateServices(serviceNames(hostname), enabled);
    }

    /** The comment step of `set_active_checks`: remove the host comment when enabling, add it when disabling. */
    method ToggleComment(hostname: string, enabled: bool, text: string, who: string)
      modifies this`comments, this`calls
      ensures calls == old(calls) + [CommentCall(hostname, enabled, text, who)]
      ensures comments == if enabled then RemainingAsWritten(old(comments), hostname, text)
                          else old(comments) + [Comment(hostname, None, who, text)]
    {
      if enabled {
        comments := RemainingAsWritten(comments, hostname, text);
        calls := calls + [RemoveComments("Host", RemoveQueryAsWritten(hostname, text))];
      } else {
        var c := Comment(hostname, None, who, text);
        comments := comments + [c];
        calls := calls + [AddComment(c)];
      }
    }

    /** The loop over the host's services: one update per service, in order, until one is refused. */
    method UpdateServices(names: seq<string>, enabled: bool) returns (ok: bool)
      modifies this`calls
      ensures ok <==> forall i | 0 <= i < |names| :: !updateFails("Service", names[i])
      ensures calls == old(calls) + ServiceUpdates(names[..Attempted(names, RefusedServices())], enabled)
    {
      for i := 0 to |names|
        invariant forall j | 0 <= j < i :: !updateFails("Service", names[j])
        invariant calls == old(calls) + ServiceUpdates(names[..i], enabled)
      {
        calls := calls + [UpdateObject("Service", names[i], ActiveChecks(enabled))];
        assert ServiceUpdates(names[..i + 1], enabled) == ServiceUpdates(names[..i], enabled)
                 + [UpdateObject("Service", names[i], ActiveChecks(enabled))];
        if updateFails("Service", names[i]) {
          AttemptedStops(names, RefusedServices(), i);
          return false;
        }
      }
      AttemptedStops(names, RefusedServices(), |names|);
      assert names[..|names|] == names;
      ok := true;
    }
  }

  /**
   * As written, enabling after disabling restores the comments exactly when
   * the host had no host comment before: the comment disabling added goes,
   * and service comments stay.
   */
  lemma ActiveChecksRoundTripAsWritten(comments: seq<Comment>, hostname: string, text: string, who: string)
    ensures RemainingAsWritten(comments + [Comment(hostname, None, who, text)], hostname, text) == comments <==>
      forall c | c in comments :: c.host != hostname || c.service.Some?
  {
    var added := Comment(hostname, None, who, text);
    var p := KeptByHostRemoval(RemoveQueryAsWritten(hostname, text));
    RemovalAsWrittenTakesAllComments(comments + [added], hostname, text);
    FilterAppend(comments, [added], p);
    assert !p(added) by {
      assert added in comments + [added];
    }
    assert Filter([added], p) == [];
    if forall c | c in comments :: c.host != hostname || c.service.Some? {
      forall c | c in comments ensures p(c) {
        assert c in comments + [added];
      }
      FilterKeepsAll(comments, p);
    } else {
      var c :| c in comments && !(c.host != hostname || c.service.Some?);
      assert c in comments + [added];
      assert c !in Filter(comments, p);
    }
  }

  /** With the corrected filter, enabling after disabling with the same text removes the comment disabling added, and no other comment. */
  lemma ActiveChecksRoundTrip(comments: seq<Comment>, hostname: string, text: string, who: string)
    requires forall c | c in comments :: !(c.host == hostname && c.text == text && c.service.None?)
    ensures Filter(comments + [Comment(hostname, None, who, text)], NotSelectedBy(RemoveQuery(hostname, text), ViewOfComment())) == comments
  {
    var p := NotSelectedBy(RemoveQuery(hostname, text), ViewOfComment());
    forall c | c in comments ensures p(c) {
      RemoveQuerySelects(hostname, text, c);
    }
    RemoveQuerySelects(hostname, text, Comment(hostname, None, who, text));
    FilterAppend(comments, [Comment(hostname, None, who, text)], p);
    FilterKeepsAll(comments, p);
  }

  /**
   * With the default texts the round trip fails even with the corrected
   * filter: enabling looks for "Enabling active checks", so the comment
   * "Disabling active checks" that disabling added stays.
   */
  lemma DefaultTextsKeepComment(comments: seq<Comment>, hostname: string, who: string)
    ensures var added := Comment(hostname, None, who, DefaultActiveChecksComment(false));
      added in Filter(comments + [added], NotSelectedBy(RemoveQuery(hostname, DefaultActiveChecksComment(true)), ViewOfComment()))
  {
    var added := Comment(hostname, None, who, DefaultActiveChecksComment(false));
    assert DefaultActiveChecksComment(false)[0] == 'D' && DefaultActiveChecksComment(true)[0] == 'E';
    RemoveQuerySelects(hostname, DefaultActiveChecksComment(true), added);
    assert added in comments + [added];
  }

  lemma {:induction false} FilterKeepsAll<T(!new)>(s: seq<T>, p: T -> bool)
    requires forall x | x in s :: p(x)
    ensures Filter(s, p) == s
    decreases |s|
  {
    if s != [] {
      FilterKeepsAll(s[1..], p);
    }
  }
}
