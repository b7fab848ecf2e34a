/**
 * Contact comparison (icinga_migration_utils/compare/compare.py):
 * `compare_contacts`, which checks the pager number and e-mail address of
 * every Icinga 1 contact against the Icinga 2 user of the same name, and
 * `compare_service_contacts`, which checks that every Icinga 1 service
 * notifies the same users in Icinga 2 and flags services whose Icinga 1
 * contact is the placeholder `dummy`.
 */
module CompareContacts {
  import opened Values
  import NestedDict
  import Strings
  import Index
  import Icinga2

  const NamePath: seq<string> := ["attrs", "name"]
  const PagerPath: seq<string> := ["attrs", "pager"]
  const EmailPath: seq<string> := ["attrs", "email"]
  const CommentPath: seq<string> := ["attrs", "vars", "comment"]
  const Dummy: string := "dummy"

  // ---- compare_contacts ----

  /** `re.sub(r'^00', '', pager)`: the international call prefix `00`, taken off once, at the start only. */
  function StripCallPrefix(pager: string): (r: string)
    ensures Strings.StartsWith(pager, "00") ==> pager == "00" + r
    ensures !Strings.StartsWith(pager, "00") ==> r == pager
  {
    if Strings.StartsWith(pager, "00") then pager[2..] else pager
  }

  /** `user['attrs']['name']`, where it can be read. */
  function UserName(u: Record): Value {
    match AtPath(Map(u), NamePath)
    case Some(v) => v
    case None => Null
  }

  /** The Icinga 2 users whose name equals the contact's `contact_name`. */
  function SameName(c: Record): Record -> bool {
    (u: Record) => "contact_name" in c && PyEq(UserName(u), c["contact_name"])
  }

  /**
   * What the comparison of one contact reads without raising: the user names
   * (read before the contact's own name), the contact's name, and, where a
   * user matches and the contact has a pager, the pager as a string, the
   * first match's `attrs.pager` and its `attrs.email` through `ndict`.
   */
  predicate ContactShaped(c: Record, users2: seq<Record>) {
    (forall u :: u in users2 ==> AtPath(Map(u), NamePath).Some?)
    && "contact_name" in c
    && (Filter(users2, SameName(c)) != [] && "pager" in c ==>
          c["pager"].Str?
          && AtPath(Map(Filter(users2, SameName(c))[0]), PagerPath).Some?
          && NestedDict.Defined(Filter(users2, SameName(c))[0], EmailPath))
  }

  /** A reported entry: the contact's name, Icinga 1's value and Icinga 2's. */
  datatype Mismatch = Mismatch(name: Value, icinga1: Value, icinga2: Value)

  /**
   * The contacts without an Icinga 2 user (the printed warning) and the two
   * lists of the result, `wrong_pager` and `wrong_email`.
   */
  datatype ContactReport = ContactReport(missing: seq<Value>, wrongPager: seq<Mismatch>, wrongEmail: seq<Mismatch>)

  /** The pager entry of one contact, if it has one. */
  function PagerCheck(c: Record, users2: seq<Record>): Option<Mismatch>
    requires ContactShaped(c, users2)
  {
    var matching := Filter(users2, SameName(c));
    if matching == [] || "pager" !in c then None
    else
      var pager1 := Str(StripCallPrefix(c["pager"].s));
      var pager2 := AtPath(Map(matching[0]), PagerPath).value;
      if PyEq(pager1, pager2) then None else Some(Mismatch(c["contact_name"], pager1, pager2))
  }

  /** The e-mail entry of one contact, if it has one: checked, like the pager, only for a contact with a pager. */
  function EmailCheck(c: Record, users2: seq<Record>): Option<Mismatch>
    requires ContactShaped(c, users2)
  {
    var matching := Filter(users2, SameName(c));
    if matching == [] || "pager" !in c then None
    else
      var email1 := Get(c, "email", Null);
      var email2 := NestedDict.Path(matching[0], EmailPath);
      if Truthy(email1) && !PyEq(email1, email2) then Some(Mismatch(c["contact_name"], email1, email2)) else None
  }

  function OptList(m: Option<Mismatch>): seq<Mismatch> {
    if m.Some? then [m.value] else []
  }

  /** One contact's contribution. */
  function CheckContact(r: ContactReport, c: Record, users2: seq<Record>): ContactReport
    requires ContactShaped(c, users2)
  {
    ContactReport(r.missing + (if Filter(users2, SameName(c)) == [] then [c["contact_name"]] else []),
                  r.wrongPager + OptList(PagerCheck(c, users2)),
                  r.wrongEmail + OptList(EmailCheck(c, users2)))
  }

  /** The report after the contacts `contacts1`, in order. */
  function ContactsReport(contacts1: seq<Record>, users2: seq<Record>): ContactReport
    requires forall c :: c in contacts1 ==> ContactShaped(c, users2)
    decreases |contacts1|
  {
    if contacts1 == [] then ContactReport([], [], [])
    else
      var init := contacts1[..|contacts1| - 1];
      assert forall c :: c in init ==> c in contacts1;
      CheckContact(ContactsReport(init, users2), contacts1[|contacts1| - 1], users2)
  }

  /** One contact of the loop. */
  method CheckContactStep(r: ContactReport, c: Record, users2: seq<Record>) returns (r': ContactReport)
    requires ContactShaped(c, users2)
    ensures r' == CheckContact(r, c, users2)
  {
    r' := r;
    var matching := Filter(users2, SameName(c));
    if matching == [] {
      r' := r'.(missing := r'.missing + [c["contact_name"]]);
    }
    if matching != [] && "pager" in c {
      var pager1 := Str(StripCallPrefix(c["pager"].s));
      var pager2 := AtPath(Map(matching[0]), PagerPath).value;
      if !PyEq(pager1, pager2) {
        r' := r'.(wrongPager := r'.wrongPager + [Mismatch(c["contact_name"], pager1, pager2)]);
      }
      var email1 := Get(c, "email", Null);
      var email2 := NestedDict.Path(matching[0], EmailPath);
      if Truthy(email1) && !PyEq(email1, email2) {
        r' := r'.(wrongEmail := r'.wrongEmail + [Mismatch(c["contact_name"], email1, email2)]);
      }
    }
  }

  /** `compare_contacts` over the Icinga 1 contacts and the Icinga 2 users. */
  method CompareAllContacts(contacts1: seq<Record>, users2: seq<Record>) returns (report: ContactReport)
    requires forall c :: c in contacts1 ==> ContactShaped(c, users2)
    ensures report == ContactsReport(contacts1, users2)
  {
    report := ContactReport([], [], []);
    for i := 0 to |contacts1|
      invariant report == ContactsReport(contacts1[..i], users2)
    {
      assert contacts1[..i + 1][..i] == contacts1[..i];
      report := CheckContactStep(report, contacts1[i], users2);
    }
    assert contacts1[..|contacts1|] == contacts1;
  }

  // ---- properties of compare_contacts ----

  /** Only one `00` is taken off: `0000…` keeps its second pair. */
  lemma StripOnce(rest: string)
    ensures StripCallPrefix("00" + rest) == rest
    ensures StripCallPrefix("0000" + rest) == "00" + rest
  {
    assert ("00" + rest)[..2] == "00";
    assert ("0000" + rest)[..2] == "00";
    assert ("0000" + rest)[2..] == "00" + rest;
  }

  /**
   * The pager entry of a contact: there is one iff a user of that name
   * exists, the contact has a pager, and the pager without its `00` differs
   * from the first such user's; it carries those two values.
   */
  lemma PagerCheckMeaning(c: Record, users2: seq<Record>)
    requires ContactShaped(c, users2)
    ensures PagerCheck(c, users2).Some? <==>
      ((exists u :: u in users2 && SameName(c)(u)) && "pager" in c
       && !PyEq(Str(StripCallPrefix(c["pager"].s)), AtPath(Map(Filter(users2, SameName(c))[0]), PagerPath).value))
    ensures PagerCheck(c, users2).Some? ==>
      PagerCheck(c, users2).value == Mismatch(c["contact_name"], Str(StripCallPrefix(c["pager"].s)),
                                              AtPath(Map(Filter(users2, SameName(c))[0]), PagerPath).value)
  {
    var matching := Filter(users2, SameName(c));
    if matching != [] {
      assert matching[0] in matching;
    }
  }

  /** A number entered with the `00` call prefix in Icinga 1 and without it in Icinga 2 is not reported. */
  lemma CallPrefixForgiven(c: Record, users2: seq<Record>, number: string)
    requires ContactShaped(c, users2)
    requires "pager" in c && c["pager"] == Str("00" + number)
    requires Filter(users2, SameName(c)) != []
    requires AtPath(Map(Filter(users2, SameName(c))[0]), PagerPath) == Some(Str(number))
    ensures PagerCheck(c, users2).None?
  {
    StripOnce(number);
  }

  /**
   * The e-mail address is compared only for a contact that has a user of
   * its name and a pager, and only when the contact's address is non-empty;
   * a user without an address (the empty `ndict` mapping) then always differs.
   */
  lemma EmailCheckMeaning(c: Record, users2: seq<Record>)
    requires ContactShaped(c, users2)
    ensures EmailCheck(c, users2).Some? ==>
      "pager" in c && Filter(users2, SameName(c)) != [] && Truthy(Get(c, "email", Null))
    ensures ("pager" in c && Filter(users2, SameName(c)) != [] && Get(c, "email", Null).Str? && Truthy(Get(c, "email", Null))
             && NestedDict.Path(Filter(users2, SameName(c))[0], EmailPath) == EmptyMap) ==> EmailCheck(c, users2).Some?
  {
  }

  /** A contact for which no Icinga 2 user has its name. */
  function Unmatched(users2: seq<Record>): Record -> bool {
    c => Filter(users2, SameName(c)) == []
  }

  /** The `contact_name`s of the contacts that satisfy `keep`, in order. */
  function NamesWhere(contacts1: seq<Record>, keep: Record -> bool): seq<Value>
    requires forall c :: c in contacts1 ==> "contact_name" in c
    decreases |contacts1|
  {
    if contacts1 == [] then []
    else
      var k := |contacts1| - 1;
      assert forall c :: c in contacts1[..k] ==> c in contacts1;
      NamesWhere(contacts1[..k], keep) + (if keep(contacts1[k]) then [contacts1[k]["contact_name"]] else [])
  }

  /** The report's `missing` list holds the names of the unmatched contacts, in order. */
  lemma {:induction false} MissingNames(contacts1: seq<Record>, users2: seq<Record>)
    requires forall c :: c in contacts1 ==> ContactShaped(c, users2)
    ensures forall c :: c in contacts1 ==> "contact_name" in c
    ensures ContactsReport(contacts1, users2).missing == NamesWhere(contacts1, Unmatched(users2))
    decreases |contacts1|
  {
    if contacts1 != [] {
      var k := |contacts1| - 1;
      MissingSnoc(contacts1, users2);
      MissingNames(contacts1[..k], users2);
    }
  }

  /** Every contact satisfying `keep` contributes its name. */
  lemma {:induction false} NamesWhereComplete(contacts1: seq<Record>, keep: Record -> bool, i: int)
    requires forall c :: c in contacts1 ==> "contact_name" in c
    requires 0 <= i < |contacts1| && keep(contacts1[i])
    ensures contacts1[i]["contact_name"] in NamesWhere(contacts1, keep)
    decreases |contacts1|
  {
    var k := |contacts1| - 1;
    if i < k {
      assert forall c :: c in contacts1[..k] ==> c in contacts1;
      assert contacts1[..k][i] == contacts1[i];
      NamesWhereComplete(contacts1[..k], keep, i);
    }
  }

  /** Every name listed comes from a contact satisfying `keep`. */
  lemma {:induction false} NamesWhereSound(contacts1: seq<Record>, keep: Record -> bool, n: Value)
    requires forall c :: c in contacts1 ==> "contact_name" in c
    requires n in NamesWhere(contacts1, keep)
    ensures exists i :: 0 <= i < |contacts1| && contacts1[i]["contact_name"] == n && keep(contacts1[i])
    decreases |contacts1|
  {
    var k := |contacts1| - 1;
    assert forall c :: c in contacts1[..k] ==> c in contacts1;
    if n in NamesWhere(contacts1[..k], keep) {
      NamesWhereSound(contacts1[..k], keep, n);
      var i :| 0 <= i < k && contacts1[..k][i]["contact_name"] == n && keep(contacts1[..k][i]);
      assert contacts1[..k][i] == contacts1[i];
    } else {
      assert contacts1[k]["contact_name"] == n && keep(contacts1[k]);
    }
  }

  /** Every contact without an Icinga 2 user is reported missing by its name. */
  lemma MissingComplete(contacts1: seq<Record>, users2: seq<Record>, i: int)
    requires forall c :: c in contacts1 ==> ContactShaped(c, users2)
    requires 0 <= i < |contacts1| && "contact_name" in contacts1[i] && Filter(users2, SameName(contacts1[i])) == []
    ensures contacts1[i]["contact_name"] in ContactsReport(contacts1, users2).missing
  {
    MissingNames(contacts1, users2);
    NamesWhereComplete(contacts1, Unmatched(users2), i);
  }

  /** Every name reported missing belongs to a contact without an Icinga 2 user. */
  lemma MissingSound(contacts1: seq<Record>, users2: seq<Record>, n: Value)
    requires forall c :: c in contacts1 ==> ContactShaped(c, users2)
    requires n in ContactsReport(contacts1, users2).missing
    ensures exists i :: 0 <= i < |contacts1| && "contact_name" in contacts1[i] && contacts1[i]["contact_name"] == n
                        && Filter(users2, SameName(contacts1[i])) == []
  {
    MissingNames(contacts1, users2);
    NamesWhereSound(contacts1, Unmatched(users2), n);
    var i :| 0 <= i < |contacts1| && contacts1[i]["contact_name"] == n && Unmatched(users2)(contacts1[i]);
  }

  /** The last contact appends its name to the missing list iff it has no Icinga 2 user. */
  lemma MissingSnoc(contacts1: seq<Record>, users2: seq<Record>)
    requires forall c :: c in contacts1 ==> ContactShaped(c, users2)
    requires contacts1 != []
    ensures var k := |contacts1| - 1;
      forall c :: c in contacts1[..k] ==> ContactShaped(c, users2)
    ensures "contact_name" in contacts1[|contacts1| - 1]
    ensures var k := |contacts1| - 1;
      ContactsReport(contacts1, users2).missing
        == ContactsReport(contacts1[..k], users2).missing
           + (if Filter(users2, SameName(contacts1[k])) == [] then [contacts1[k]["contact_name"]] else [])
  {
    var k := |contacts1| - 1;
    assert forall c :: c in contacts1[..k] ==> c in contacts1;
    assert ContactShaped(contacts1[k], users2);
  }

  /** Over all contacts: an entry is in `wrong_pager` iff some contact produced it. */
  lemma {:induction false} WrongPagerMeaning(contacts1: seq<Record>, users2: seq<Record>, m: Mismatch)
    requires forall c :: c in contacts1 ==> ContactShaped(c, users2)
    ensures m in ContactsReport(contacts1, users2).wrongPager <==>
      exists c :: c in contacts1 && ContactShaped(c, users2) && PagerCheck(c, users2) == Some(m)
    decreases |contacts1|
  {
    if contacts1 != [] {
      var init, last := contacts1[..|contacts1| - 1], contacts1[|contacts1| - 1];
      assert contacts1 == init + [last];
      assert forall c :: c in init ==> c in contacts1;
      WrongPagerMeaning(init, users2, m);
    }
  }

  /** Over all contacts: an entry is in `wrong_email` iff some contact produced it. */
  lemma {:induction false} WrongEmailMeaning(contacts1: seq<Record>, users2: seq<Record>, m: Mismatch)
    requires forall c :: c in contacts1 ==> ContactShaped(c, users2)
    ensures m in ContactsReport(contacts1, users2).wrongEmail <==>
      exists c :: c in contacts1 && ContactShaped(c, users2) && EmailCheck(c, users2) == Some(m)
    decreases |contacts1|
  {
    if contacts1 != [] {
      var init, last := contacts1[..|contacts1| - 1], contacts1[|contacts1| - 1];
      assert contacts1 == init + [last];
      assert forall c :: c in init ==> c in contacts1;
      WrongEmailMeaning(init, users2, m);
    }
  }

  // ---- compare_service_contacts ----

  /** `[c.strip() for c in s.split(',')]` */
  function Pieces(s: string): (r: seq<string>)
    ensures |r| == |Strings.Split(s, ',')|
    ensures forall i :: 0 <= i < |r| ==> r[i] == Strings.Trim(Strings.Split(s, ',')[i])
  {
    var parts := Strings.Split(s, ',');
    seq(|parts|, i requires 0 <= i < |parts| => Strings.Trim(parts[i]))
  }

  /** The service's `contacts`, if it has a non-empty one. */
  predicate HasContacts(s1: Record) {
    Truthy(Get(s1, "contacts", Null))
  }

  /** Icinga 1's contacts of a service: the sorted, stripped entries of its `contacts` list, or none. */
  function Contacts1(s1: Record): seq<string>
    requires HasContacts(s1) ==> Get(s1, "contacts", Null).Str?
  {
    if HasContacts(s1) then Strings.Sort(Pieces(Get(s1, "contacts", Null).s)) else []
  }

  /** Icinga 2 services of the host taken as the counterpart: the same extracted command, or the command in `vars.comment`. */
  function Counterpart(s1: Record): Record -> bool {
    (s2: Record) =>
      ("check_command_extracted" in s2 && "check_command_extracted" in s1
       && PyEq(s2["check_command_extracted"], s1["check_command_extracted"]))
      || (NestedDict.Defined(s2, CommentPath) && PyEq(NestedDict.Path(s2, CommentPath), Get(s1, "check_command", Null)))
  }

  function Candidates(s1: Record, services2: map<Value, seq<Record>>): seq<Record>
    requires "host_name" in s1
  {
    Filter(Index.Group(services2, s1["host_name"]), Counterpart(s1))
  }

  /** The `contacts` value is exactly the placeholder. */
  predicate IsDummy(s1: Record) {
    PyEq(Get(s1, "contacts", Null), Str(Dummy))
  }

  /**
   * What the check of one Icinga 1 service reads without raising: host name
   * and extracted command as strings, `contacts` as a string when non-empty,
   * each Icinga 2 service's extracted command and, where that differs, its
   * `vars.comment` through `ndict`; with a counterpart, its name, and where
   * a placeholder contact's `contact_groups` is the placeholder too, the
   * counterpart's `enable_notifications`. A missing `contact_groups` raises
   * (`RaisesOn`).
   */
  predicate ServiceShaped(s1: Record, services2: map<Value, seq<Record>>) {
    "host_name" in s1 && s1["host_name"].Str?
    && "check_command_extracted" in s1 && s1["check_command_extracted"].Str?
    && (HasContacts(s1) ==> Get(s1, "contacts", Null).Str?)
    && (forall s2 :: s2 in Index.Group(services2, s1["host_name"]) ==>
          "check_command_extracted" in s2
          && (PyEq(s2["check_command_extracted"], s1["check_command_extracted"]) || NestedDict.Defined(s2, CommentPath)))
    && (Candidates(s1, services2) != [] ==>
          AtPath(Map(Candidates(s1, services2)[0]), NamePath).Some?
          && AtPath(Map(Candidates(s1, services2)[0]), NamePath).value.Str?
          && (IsDummy(s1) && "contact_groups" in s1 && PyEq(s1["contact_groups"], Str(Dummy)) ==>
                AtPath(Map(Candidates(s1, services2)[0]), ["attrs", "enable_notifications"]).Some?))
  }

  /**
   * The check of `s1` raises `KeyError`: a placeholder service with a
   * counterpart has no `contact_groups`, which Icinga 1 writes only for
   * some services.
   */
  predicate RaisesOn(s1: Record, services2: map<Value, seq<Record>>)
    requires ServiceShaped(s1, services2)
  {
    Candidates(s1, services2) != [] && IsDummy(s1) && "contact_groups" !in s1
  }

  /** The names of the users notified for a service key, each once, sorted; none when the key has no notification. */
  function Contacts2(key: string, notifications: map<string, Icinga2.Contacts>): (r: seq<string>)
    ensures Strings.Sorted(r)
    ensures forall n :: n in r <==> key in notifications && exists u :: u in notifications[key].users && u.name == n
  {
    if key in notifications then
      var users := notifications[key].users;
      var names := seq(|users|, i requires 0 <= i < |users| => users[i].name);
      assert forall n :: n in names <==> exists u :: u in users && u.name == n by {
        forall n ensures n in names <==> exists u :: u in users && u.name == n {
          if exists u :: u in users && u.name == n {
            var u :| u in users && u.name == n;
            var i :| 0 <= i < |users| && users[i] == u;
            assert names[i] == n;
          }
        }
      }
      Strings.SortedSet(names)
    else []
  }

  /** A printed difference: the service `host!command` and both sorted lists of contacts. */
  datatype UsersDiffer = UsersDiffer(service: string, icinga1: seq<string>, icinga2: seq<string>)

  /** A returned entry: host name and extracted command of a service whose placeholder contact is wrong. */
  datatype WrongSetting = WrongSetting(host: string, command: string)

  datatype ServiceContactsReport = ServiceContactsReport(differences: seq<UsersDiffer>, diff: seq<WrongSetting>)

  /** The key of the counterpart's notifications: `host!<counterpart's name>`. */
  function NotificationKey(s1: Record, s2: Record): string
    requires "host_name" in s1 && s1["host_name"].Str?
    requires AtPath(Map(s2), NamePath).Some? && AtPath(Map(s2), NamePath).value.Str?
  {
    s1["host_name"].s + "!" + AtPath(Map(s2), NamePath).value.s
  }

  /** The contact lists differ, unless Icinga 1 names only the placeholder. */
  predicate ListsDiffer(contacts1: seq<string>, contacts2: seq<string>) {
    contacts1 != [Dummy] && contacts1 != contacts2
  }

  /** A placeholder contact is wrong unless the contact groups are the placeholder too and Icinga 2 does not notify. */
  predicate WrongPlaceholder(s1: Record, s2: Record)
    requires "contact_groups" in s1
    requires PyEq(s1["contact_groups"], Str(Dummy)) ==> AtPath(Map(s2), ["attrs", "enable_notifications"]).Some?
  {
    !(PyEq(s1["contact_groups"], Str(Dummy)) && !Truthy(AtPath(Map(s2), ["attrs", "enable_notifications"]).value))
  }

  /** The printed difference for a service and its counterpart, if their users differ. */
  function UsersCheck(s1: Record, s2: Record, notifications: map<string, Icinga2.Contacts>): seq<UsersDiffer>
    requires "host_name" in s1 && s1["host_name"].Str?
    requires "check_command_extracted" in s1 && s1["check_command_extracted"].Str?
    requires HasContacts(s1) ==> Get(s1, "contacts", Null).Str?
    requires AtPath(Map(s2), NamePath).Some? && AtPath(Map(s2), NamePath).value.Str?
  {
    var contacts1 := Contacts1(s1);
    var contacts2 := Contacts2(NotificationKey(s1, s2), notifications);
    if ListsDiffer(contacts1, contacts2)
    then [UsersDiffer(s1["host_name"].s + "!" + s1["check_command_extracted"].s, contacts1, contacts2)]
    else []
  }

  /** The returned entry for a service and its counterpart, if its placeholder contact is wrong. */
  function PlaceholderCheck(s1: Record, s2: Record): seq<WrongSetting>
    requires "host_name" in s1 && s1["host_name"].Str?
    requires "check_command_extracted" in s1 && s1["check_command_extracted"].Str?
    requires IsDummy(s1) ==>
      ("contact_groups" in s1
       && (PyEq(s1["contact_groups"], Str(Dummy)) ==> AtPath(Map(s2), ["attrs", "enable_notifications"]).Some?))
  {
    if IsDummy(s1) && WrongPlaceholder(s1, s2) then [WrongSetting(s1["host_name"].s, s1["check_command_extracted"].s)] else []
  }

  /** One service's contribution: nothing without a counterpart (only a logged warning); `None` when it raises. */
  function CheckService(r: ServiceContactsReport, s1: Record, services2: map<Value, seq<Record>>,
                        notifications: map<string, Icinga2.Contacts>): Option<ServiceContactsReport>
    requires ServiceShaped(s1, services2)
  {
    var candidates := Candidates(s1, services2);
    if candidates == [] then Some(r)
    else if RaisesOn(s1, services2) then None
    else
      Some(ServiceContactsReport(r.differences + UsersCheck(s1, candidates[0], notifications),
                                 r.diff + PlaceholderCheck(s1, candidates[0])))
  }

  /** The report after the services `services1`, in order, or `None` once the check of one raises. */
  function ServicesReport(services1: seq<Record>, services2: map<Value, seq<Record>>,
                          notifications: map<string, Icinga2.Contacts>): Option<ServiceContactsReport>
    requires forall s1 :: s1 in services1 ==> ServiceShaped(s1, services2)
    decreases |services1|
  {
    if services1 == [] then Some(ServiceContactsReport([], []))
    else
      var init := services1[..|services1| - 1];
      assert forall s1 :: s1 in init ==> s1 in services1;
      var before := ServicesReport(init, services2, notifications);
      if before.None? then None
      else CheckService(before.value, services1[|services1| - 1], services2, notifications)
  }

  /**
   * `compare_service_contacts`: the Icinga 1 services (of one host or all),
   * the Icinga 2 services by host name and the notification contacts by
   * service key.
   */
  method CompareServiceContacts(services1: seq<Record>, services2: map<Value, seq<Record>>,
                                notifications: map<string, Icinga2.Contacts>)
    returns (report: Option<ServiceContactsReport>)
    requires forall s1 :: s1 in services1 ==> ServiceShaped(s1, services2)
    ensures report == ServicesReport(services1, services2, notifications)
  {
    var sofar := ServiceContactsReport([], []);
    for i := 0 to |services1|
      invariant ServicesReport(services1[..i], services2, notifications) == Some(sofar)
    {
      ReportStep(services1, i, services2, notifications);
      var next := CheckService(sofar, services1[i], services2, notifications);
      if next.None? {
        ReportStops(services1, i + 1, services2, notifications);
        return None;
      }
      sofar := next.value;
    }
    assert services1[..|services1|] == services1;
    report := Some(sofar);
  }

  /** One more service is checked on top of the report so far. */
  lemma ReportStep(services1: seq<Record>, i: nat, services2: map<Value, seq<Record>>,
                   notifications: map<string, Icinga2.Contacts>)
    requires i < |services1| && forall s1 :: s1 in services1 ==> ServiceShaped(s1, services2)
    ensures forall s1 :: s1 in services1[..i] ==> ServiceShaped(s1, services2)
    ensures ServicesReport(services1[..i + 1], services2, notifications)
         == if ServicesReport(services1[..i], services2, notifications).None? then None
            else CheckService(ServicesReport(services1[..i], services2, notifications).value, services1[i], services2, notifications)
  {
    assert services1[..i + 1][..i] == services1[..i];
  }

  /** Once the services so far give no report, all services give none. */
  lemma {:induction false} ReportStops(services1: seq<Record>, k: nat, services2: map<Value, seq<Record>>,
                                       notifications: map<string, Icinga2.Contacts>)
    requires k <= |services1| && forall s1 :: s1 in services1 ==> ServiceShaped(s1, services2)
    requires forall s1 :: s1 in services1[..k] ==> ServiceShaped(s1, services2)
    requires ServicesReport(services1[..k], services2, notifications).None?
    ensures ServicesReport(services1, services2, notifications).None?
    decreases |services1| - k
  {
    if k == |services1| {
      assert services1[..k] == services1;
    } else {
      ReportStep(services1, k, services2, notifications);
      ReportStops(services1, k + 1, services2, notifications);
    }
  }

  // ---- properties of compare_service_contacts ----

  /** A service whose Icinga 1 contacts are exactly the placeholder is never listed as having different users. */
  lemma PlaceholderNeverDiffers(s1: Record, s2: Record, notifications: map<string, Icinga2.Contacts>)
    requires "host_name" in s1 && s1["host_name"].Str?
    requires "check_command_extracted" in s1 && s1["check_command_extracted"].Str?
    requires "contacts" in s1 && s1["contacts"] == Str(Dummy)
    requires AtPath(Map(s2), NamePath).Some? && AtPath(Map(s2), NamePath).value.Str?
    ensures UsersCheck(s1, s2, notifications) == []
  {
    DummyContacts(s1);
  }

  /**
   * A service whose Icinga 1 contact is the placeholder is returned iff it
   * has a counterpart and not both its contact groups are the placeholder
   * and Icinga 2 notifications are off.
   */
  lemma PlaceholderReturned(r: ServiceContactsReport, s1: Record, services2: map<Value, seq<Record>>,
                            notifications: map<string, Icinga2.Contacts>)
    requires ServiceShaped(s1, services2)
    requires IsDummy(s1)
    ensures CheckService(r, s1, services2, notifications).None? <==>
      Candidates(s1, services2) != [] && "contact_groups" !in s1
    ensures CheckService(r, s1, services2, notifications).Some? ==>
      (CheckService(r, s1, services2, notifications).value.diff != r.diff <==>
         Candidates(s1, services2) != [] && "contact_groups" in s1 && WrongPlaceholder(s1, Candidates(s1, services2)[0]))
  {
  }

  /** The placeholder alone is Icinga 1's list `['dummy']`. */
  lemma DummyContacts(s1: Record)
    requires "contacts" in s1 && s1["contacts"] == Str(Dummy)
    ensures IsDummy(s1) && HasContacts(s1)
    ensures Contacts1(s1) == [Dummy]
  {
    DummyPieces();
    Strings.SortSingle(Dummy);
  }

  /** The placeholder has no comma and no surrounding blanks: it is a single entry. */
  lemma DummyPieces()
    ensures Pieces(Dummy) == [Dummy]
  {
    var d := Dummy;
    assert ',' !in d && d != [] && !Strings.IsSpace(d[0]) && !Strings.IsSpace(d[|d| - 1]);
    SingleEntry(d);
  }

  /** A string without a comma and without surrounding blanks is one entry of a contact list. */
  lemma SingleEntry(s: string)
    requires ',' !in s && s != [] && !Strings.IsSpace(s[0]) && !Strings.IsSpace(s[|s| - 1])
    ensures Pieces(s) == [s]
  {
    SplitWithoutSeparator(s, ',');
    Strings.TrimKeeps(s);
  }

  /**
   * The contact lists agree when Icinga 1 names each user once and exactly
   * the users Icinga 2 notifies, in whatever order and spacing.
   */
  lemma SameUsersAgree(s1: Record, key: string, notifications: map<string, Icinga2.Contacts>)
    requires HasContacts(s1) && Get(s1, "contacts", Null).Str?
    requires var p := Pieces(Get(s1, "contacts", Null).s); forall i, j :: 0 <= i < j < |p| ==> p[i] != p[j]
    requires forall n :: n in Pieces(Get(s1, "contacts", Null).s) <==> n in Contacts2(key, notifications)
    ensures Contacts1(s1) == Contacts2(key, notifications)
  {
    var p := Pieces(Get(s1, "contacts", Null).s);
    var a, b := Strings.Sort(p), Contacts2(key, notifications);
    forall n ensures multiset(a)[n] == multiset(b)[n] {
      Strings.DistinctCount(p, n);
      Strings.DistinctCount(b, n);
      assert n in p <==> n in multiset(p);
      assert n in b <==> n in multiset(b);
    }
    assert multiset(a) == multiset(b);
    Strings.SortedUnique(a, b);
  }

  /** A string without the separator splits into itself. */
  lemma {:induction false} SplitWithoutSeparator(s: string, sep: char)
    requires sep !in s
    ensures Strings.Split(s, sep) == [s]
    decreases |s|
  {
    if s != [] {
      SplitWithoutSeparator(s[1..], sep);
      assert [s[0]] + s[1..] == s;
    }
  }

  /** An element at two positions is counted at least twice. */
  lemma TwiceCounted<T>(p: seq<T>, i: int, j: int)
    requires 0 <= i < j < |p| && p[i] == p[j]
    ensures multiset(p)[p[i]] >= 2
  {
    assert p == p[..j] + p[j..];
    assert p[i] == p[..j][i] && p[j] == p[j..][0];
    assert multiset(p) == multiset(p[..j]) + multiset(p[j..]);
  }

  /** An Icinga 1 contact named twice is always reported, since Icinga 2's list names each user once. */
  lemma RepeatedContactDiffers(s1: Record, key: string, notifications: map<string, Icinga2.Contacts>, i: int, j: int)
    requires HasContacts(s1) && Get(s1, "contacts", Null).Str?
    requires 0 <= i < j < |Pieces(Get(s1, "contacts", Null).s)|
    requires Pieces(Get(s1, "contacts", Null).s)[i] == Pieces(Get(s1, "contacts", Null).s)[j]
    ensures ListsDiffer(Contacts1(s1), Contacts2(key, notifications))
  {
    var p := Pieces(Get(s1, "contacts", Null).s);
    var x := p[i];
    TwiceCounted(p, i, j);
    var a, b := Contacts1(s1), Contacts2(key, notifications);
    assert multiset(a) == multiset(p);
    Strings.DistinctCount(b, x);
    assert multiset([Dummy])[x] <= 1;
  }

  /**
   * Over all services: a service is listed with different users, or
   * returned, iff its own check produced that entry.
   */
  lemma {:induction false} ServicesReportMeaning(services1: seq<Record>, services2: map<Value, seq<Record>>,
                                                 notifications: map<string, Icinga2.Contacts>, w: WrongSetting)
    requires forall s1 :: s1 in services1 ==> ServiceShaped(s1, services2)
    ensures ServicesReport(services1, services2, notifications).Some? ==>
      (w in ServicesReport(services1, services2, notifications).value.diff <==>
         exists s1: Record :: s1 in services1 && Placed(s1, services2, w))
    decreases |services1|
  {
    if services1 != [] && ServicesReport(services1, services2, notifications).Some? {
      var init, last := services1[..|services1| - 1], services1[|services1| - 1];
      assert services1 == init + [last];
      assert forall s1 :: s1 in init ==> s1 in services1;
      ServicesReportMeaning(init, services2, notifications, w);
      DiffStep(ServicesReport(init, services2, notifications).value, last, services2, notifications, w);
      if w in ServicesReport(services1, services2, notifications).value.diff {
        if !Placed(last, services2, w) {
          var s1 :| s1 in init && Placed(s1, services2, w);
          assert s1 in services1;
        }
      } else {
        forall s1 | s1 in services1 ensures !Placed(s1, services2, w) {
          if s1 != last {
            assert s1 in init;
          }
        }
      }
    }
  }

  /**
   * The placeholder service `s1` has a counterpart whose settings are wrong,
   * and `w` names it.
   */
  predicate Placed(s1: Record, services2: map<Value, seq<Record>>, w: WrongSetting) {
    ServiceShaped(s1, services2) && IsDummy(s1) && Candidates(s1, services2) != [] && "contact_groups" in s1
    && WrongPlaceholder(s1, Candidates(s1, services2)[0])
    && w == WrongSetting(s1["host_name"].s, s1["check_command_extracted"].s)
  }

  /** One service adds `w` to the returned list iff it is a placeholder whose counterpart's settings are wrong for `w`. */
  lemma DiffStep(r: ServiceContactsReport, s1: Record, services2: map<Value, seq<Record>>,
                 notifications: map<string, Icinga2.Contacts>, w: WrongSetting)
    requires ServiceShaped(s1, services2)
    ensures CheckService(r, s1, services2, notifications).Some? ==>
      (w in CheckService(r, s1, services2, notifications).value.diff <==> w in r.diff || Placed(s1, services2, w))
  {
  }

  /** The report is missing iff the check of one of the services raises. */
  lemma {:induction false} ServicesReportRaises(services1: seq<Record>, services2: map<Value, seq<Record>>,
                                                notifications: map<string, Icinga2.Contacts>)
    requires forall s1 :: s1 in services1 ==> ServiceShaped(s1, services2)
    ensures ServicesReport(services1, services2, notifications).None? <==>
      exists s1: Record :: s1 in services1 && RaisesOn(s1, services2)
    decreases |services1|
  {
    if services1 != [] {
      var init, last := services1[..|services1| - 1], services1[|services1| - 1];
      assert services1 == init + [last];
      assert forall s1 :: s1 in init ==> s1 in services1;
      ServicesReportRaises(init, services2, notifications);
      if exists s1: Record :: s1 in services1 && RaisesOn(s1, services2) {
        if !RaisesOn(last, services2) {
          var s1: Record :| s1 in services1 && RaisesOn(s1, services2);
          assert s1 in init;
        }
      } else {
        assert !RaisesOn(last, services2);
        forall s1 | s1 in init ensures !RaisesOn(s1, services2) {
          assert s1 in services1;
        }
      }
    }
  }
}
