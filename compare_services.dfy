/**
 * Service comparison (icinga_migration_utils/compare/compare.py):
 * `compare_services`, which compares the services of each Icinga 2 host
 * with the Icinga 1 services of the same host, and the duplicate detection
 * of `compare_services_manual`.
 *
 * Services of the two systems are correlated by their extracted check
 * command. For one host the comparison yields
 *   - the Icinga 1 commands missing in Icinga 2, less one occurrence for
 *     every Icinga 2 service naming it in its `vars.comment`;
 *   - the services whose notification flag differs;
 *   - the services whose no-sla marker differs.
 */
module CompareServices {
  import opened Values
  import NestedDict
  import Strings
  import Index

  const NrpeHealth: string := "nrpe-health"
  const CommentPath: seq<string> := ["attrs", "vars", "comment"]

  // ---- the records ----

  /** Both systems' services carry their extracted check command as a string. */
  predicate HasExtracted(s: Record) {
    "check_command_extracted" in s && s["check_command_extracted"].Str?
  }

  function Extracted(s: Record): string
    requires HasExtracted(s)
  {
    s["check_command_extracted"].s
  }

  /** The keys an Icinga 1 service block always has, all string-valued. */
  predicate Icinga1Service(s: Record) {
    HasExtracted(s)
    && "check_command" in s && s["check_command"].Str?
    && "service_description" in s && s["service_description"].Str?
    && "notifications_enabled" in s
  }

  /** The keys an Icinga 1 service status block always has. */
  predicate Icinga1Status(st: Record) {
    "check_command" in st && "service_description" in st && "notifications_enabled" in st
  }

  /** `service['attrs']['name']` */
  predicate HasName(s: Record) {
    AtPath(Map(s), ["attrs", "name"]).Some?
  }

  /**
   * What the comparison reads of an Icinga 2 service without raising: the
   * extracted command, `vars.comment` through `ndict`, the live notification
   * flag and notes URL, and `original_attributes`, which may be missing or a
   * mapping (any other value raises a TypeError that nothing catches).
   */
  predicate Icinga2Service(s: Record) {
    HasExtracted(s) && NestedDict.Defined(s, CommentPath)
    && AtPath(Map(s), ["attrs", "enable_notifications"]).Some?
    && AtPath(Map(s), ["attrs", "notes_url"]).Some?
    && (AtPath(Map(s), ["attrs", "original_attributes"]).None? || AtPath(Map(s), ["attrs", "original_attributes"]).value.Map?)
  }

  /** Icinga 2 services other than the `nrpe-health` check take part in the comparison. */
  function Kept(): Record -> bool {
    (s: Record) => !(HasName(s) && PyEq(AtPath(Map(s), ["attrs", "name"]).value, Str(NrpeHealth)))
  }

  predicate HostShaped(services1: seq<Record>, states1: seq<Record>, services2: seq<Record>) {
    (forall s :: s in services1 ==> Icinga1Service(s))
    && (forall st :: st in states1 ==> Icinga1Status(st))
    && (forall s :: s in services2 ==> HasName(s) && (Kept()(s) ==> Icinga2Service(s)))
  }

  function Commands(services: seq<Record>): (r: seq<string>)
    requires forall s :: s in services ==> HasExtracted(s)
    ensures |r| == |services|
    ensures forall i :: 0 <= i < |services| ==> r[i] == Extracted(services[i])
  {
    seq(|services|, i requires 0 <= i < |services| => Extracted(services[i]))
  }

  lemma ExtractedPresent(services1: seq<Record>, kept: seq<Record>)
    requires forall s :: s in services1 ==> Icinga1Service(s)
    requires forall s :: s in kept ==> Icinga2Service(s)
    ensures forall s :: s in services1 ==> HasExtracted(s)
    ensures forall s :: s in kept ==> HasExtracted(s)
  {
    forall s | s in services1 ensures HasExtracted(s) {
      assert Icinga1Service(s);
    }
    forall s | s in kept ensures HasExtracted(s) {
      assert Icinga2Service(s);
    }
  }

  // ---- the missing list ----

  function NotAmong(cmds: seq<string>): string -> bool {
    (c: string) => c !in cmds
  }

  /** `list.remove(comment)`, with the ValueError swallowed: drops the first occurrence, if there is one. */
  function RemoveFirst(xs: seq<string>, comment: Value): (r: seq<string>)
    ensures comment.Str? && comment.s in xs ==> multiset(r) == multiset(xs) - multiset{comment.s}
    ensures !(comment.Str? && comment.s in xs) ==> r == xs
    decreases |xs|
  {
    if !comment.Str? || xs == [] then xs
    else
      assert xs == [xs[0]] + xs[1..];
      if xs[0] == comment.s then xs[1..]
      else [xs[0]] + RemoveFirst(xs[1..], comment)
  }

  /** The removals of a list of comments, one after the other. */
  function RemoveAll(xs: seq<string>, comments: seq<Value>): seq<string>
    decreases |comments|
  {
    if comments == [] then xs
    else RemoveFirst(RemoveAll(xs, comments[..|comments| - 1]), comments[|comments| - 1])
  }

  /** The `vars.comment` of each service, read through `ndict`. */
  function Comments(services: seq<Record>): (r: seq<Value>)
    requires forall s :: s in services ==> NestedDict.Defined(s, CommentPath)
    ensures |r| == |services|
    ensures forall i :: 0 <= i < |services| ==> r[i] == NestedDict.Path(services[i], CommentPath)
  {
    seq(|services|, i requires 0 <= i < |services| => NestedDict.Path(services[i], CommentPath))
  }

  /** The loop removing the commands Icinga 2 services name in their comment. */
  method RemoveAliased(missing: seq<string>, comments: seq<Value>) returns (remaining: seq<string>)
    ensures remaining == RemoveAll(missing, comments)
  {
    remaining := missing;
    for i := 0 to |comments|
      invariant remaining == RemoveAll(missing, comments[..i])
    {
      assert comments[..i + 1][..i] == comments[..i];
      remaining := RemoveFirst(remaining, comments[i]);
    }
    assert comments[..|comments|] == comments;
  }

  // ---- the per-command comparison ----

  function WithCommand(cmd: string): Record -> bool {
    (s: Record) => HasExtracted(s) && Extracted(s) == cmd
  }

  /** The status records of the same service: equal check command and equal description. */
  function SameService(s1: Record): Record -> bool {
    (st: Record) => "check_command" in st && "service_description" in st
      && "check_command" in s1 && "service_description" in s1
      && PyEq(st["check_command"], s1["check_command"]) && PyEq(st["service_description"], s1["service_description"])
  }

  /** Whether a record says `notifications_enabled == '1'`. */
  predicate Enabled(r: Record) {
    "notifications_enabled" in r && PyEq(r["notifications_enabled"], Str("1"))
  }

  /** The record Icinga 1's flag is read from: the first status record of the service, otherwise its configuration. */
  function Decider(s1: Record, states1: seq<Record>): (r: Record)
    ensures r == s1 || (r in states1 && SameService(s1)(r))
    ensures r == s1 <==> Filter(states1, SameService(s1)) == [] || Filter(states1, SameService(s1))[0] == s1
  {
    var matching := Filter(states1, SameService(s1));
    if matching != [] then
      assert matching[0] in matching;
      matching[0]
    else s1
  }

  /** Icinga 1's notification flag, as a boolean. */
  function Flag1(s1: Record, states1: seq<Record>): Value {
    Bool(Enabled(Decider(s1, states1)))
  }

  /**
   * Icinga 1's flag as the comparison reads it when no status record
   * matches: the configuration's `enable_notifications`, where a missing
   * key raises KeyError (`None`).
   */
  function Flag1AsWritten(s1: Record, states1: seq<Record>): Option<Value> {
    var matching := Filter(states1, SameService(s1));
    if matching != [] then Some(Bool(Enabled(matching[0])))
    else if "enable_notifications" in s1 then Some(s1["enable_notifications"])
    else None
  }

  /** An Icinga 1 service block as the object cache has it, with `notifications_enabled` and no `enable_notifications`. */
  const SshService: Record := map["check_command_extracted" := Str("check_ssh"), "check_command" := Str("check_ssh!22"),
                                   "service_description" := Str("SSH"), "notifications_enabled" := Str("1")]

  /**
   * A service without a status record: the as-written lookup raises
   * KeyError, while the corrected flag is the configuration's `'1'`; and
   * had the raw string been returned, it would differ from Icinga 2's `True`.
   */
  lemma Flag1AsWrittenCounterexample()
    ensures Icinga1Service(SshService)
    ensures Flag1AsWritten(SshService, []) == None
    ensures Flag1(SshService, []) == Bool(true)
    ensures Differs(Pair(SshService["notifications_enabled"], Bool(true)))
    ensures !Differs(Pair(Flag1(SshService, []), Bool(true)))
  {
  }

  /**
   * Icinga 1's flag is a boolean, true iff the first matching status record
   * says `'1'`, or, without one, iff the configuration does; the
   * configuration is read only when no status record matches.
   */
  lemma Flag1Meaning(s1: Record, states1: seq<Record>)
    requires Icinga1Service(s1)
    requires forall st :: st in states1 ==> Icinga1Status(st)
    ensures Flag1(s1, states1).Bool?
    ensures Filter(states1, SameService(s1)) == [] ==>
      (Flag1(s1, states1).b <==> PyEq(s1["notifications_enabled"], Str("1")))
    ensures Filter(states1, SameService(s1)) != [] ==>
      (Flag1(s1, states1).b <==> Filter(states1, SameService(s1))[0] in states1 && Enabled(Filter(states1, SameService(s1))[0]))
  {
    var matching := Filter(states1, SameService(s1));
    if matching != [] {
      assert matching[0] in matching;
      assert Icinga1Status(matching[0]);
    } else {
      assert Icinga1Service(s1);
    }
  }

  /** Icinga 2's notification flag: `original_attributes` first, otherwise the live attribute. */
  function Flag2(s2: Record): Value
    requires Icinga2Service(s2)
  {
    match AtPath(Map(s2), ["attrs", "original_attributes", "enable_notifications"])
    case Some(v) => v
    case None => AtPath(Map(s2), ["attrs", "enable_notifications"]).value
  }

  function NoSla1(s1: Record): Value {
    Bool(PyEq(Get(s1, "notes", Bool(false)), Str("no-sla")))
  }

  /** `vars.nosla`, where any failure of the lookup reads as `False`. */
  function NoSla2(s2: Record): Value {
    match AtPath(Map(s2), ["attrs", "vars", "nosla"])
    case Some(v) => v
    case None => Bool(false)
  }

  datatype Pair = Pair(icinga1: Value, icinga2: Value)

  /** The first services of both sides with one command, compared under the key `'<check_command> - <description>'`. */
  datatype Comparison = Comparison(key: string, notifications: Pair, nosla: Pair)

  function Key(s1: Record): string
    requires Icinga1Service(s1)
  {
    s1["check_command"].s + " - " + s1["service_description"].s
  }

  /** The comparison of one check command, when both sides have a service with it. */
  function CorrectedCompared(cmd: string, services1: seq<Record>, states1: seq<Record>, kept: seq<Record>): (r: Option<Comparison>)
    requires forall s :: s in services1 ==> Icinga1Service(s)
    requires forall s :: s in kept ==> Icinga2Service(s)
    ensures r.Some? <==> ((exists s :: s in services1 && HasExtracted(s) && Extracted(s) == cmd)
                          && (exists s :: s in kept && HasExtracted(s) && Extracted(s) == cmd))
  {
    ExtractedPresent(services1, kept);
    var with1 := Filter(services1, WithCommand(cmd));
    var with2 := Filter(kept, WithCommand(cmd));
    FilterEmpty(services1, WithCommand(cmd));
    FilterEmpty(kept, WithCommand(cmd));
    if with1 == [] || with2 == [] then None
    else
      assert with1[0] in with1 && with2[0] in with2;
      var s1, s2 := with1[0], with2[0];
      Some(Comparison(Key(s1), Pair(Flag1(s1, states1), Flag2(s2)), Pair(NoSla1(s1), NoSla2(s2))))
  }

  lemma FilterEmpty<T(!new)>(s: seq<T>, p: T -> bool)
    ensures Filter(s, p) == [] <==> forall x :: x in s ==> !p(x)
  {
    if Filter(s, p) != [] {
      assert Filter(s, p)[0] in Filter(s, p);
    }
  }

  predicate Differs(p: Pair) {
    !PyEq(p.icinga1, p.icinga2)
  }

  /** The two dictionaries `notification_states` and `nosla_diff`. */
  datatype Tables = Tables(notificationStates: map<string, Pair>, noslaDiff: map<string, Pair>)

  /** One of the two dictionaries, and the pair it compares. */
  function Table(t: Tables, flags: bool): map<string, Pair> {
    if flags then t.notificationStates else t.noslaDiff
  }

  function Chosen(c: Comparison, flags: bool): Pair {
    if flags then c.notifications else c.nosla
  }

  function Enter(t: Tables, c: Option<Comparison>): Tables {
    if c.None? then t
    else
      var cmp := c.value;
      Tables(if Differs(cmp.notifications) then t.notificationStates[cmp.key := cmp.notifications] else t.notificationStates,
             if Differs(cmp.nosla) then t.noslaDiff[cmp.key := cmp.nosla] else t.noslaDiff)
  }

  /** The tables after comparing the commands `cmds` in order, `compared` giving each command's comparison. */
  function CompareAll(cmds: seq<string>, compared: string -> Option<Comparison>): Tables
    decreases |cmds|
  {
    if cmds == [] then Tables(map[], map[])
    else Enter(CompareAll(cmds[..|cmds| - 1], compared), compared(cmds[|cmds| - 1]))
  }

  /** The comparison of each command of one host. */
  function CorrectedComparedOn(services1: seq<Record>, states1: seq<Record>, kept: seq<Record>): string -> Option<Comparison>
    requires forall s :: s in services1 ==> Icinga1Service(s)
    requires forall s :: s in kept ==> Icinga2Service(s)
  {
    (cmd: string) => CorrectedCompared(cmd, services1, states1, kept)
  }

  // ---- the comparison as written ----

  /**
   * A command's comparison as the loop performs it: `Raised` when reading
   * Icinga 1's flag raises KeyError, which ends `compare_services`.
   */
  datatype Lookup = Raised | Looked(comparison: Option<Comparison>)

  /**
   * The comparison of one command with Icinga 1's flag read as written. It
   * is made for the same commands as the corrected one, and differs from it
   * only in Icinga 1's flag, or by raising.
   */
  function ComparedAsWritten(cmd: string, services1: seq<Record>, states1: seq<Record>, kept: seq<Record>): (r: Lookup)
    requires forall s :: s in services1 ==> Icinga1Service(s)
    requires forall s :: s in kept ==> Icinga2Service(s)
    ensures r.Raised? ==> CorrectedCompared(cmd, services1, states1, kept).Some?
    ensures r.Looked? ==> (r.comparison.Some? <==> CorrectedCompared(cmd, services1, states1, kept).Some?)
    ensures r.Looked? && r.comparison.Some? ==>
      var c := CorrectedCompared(cmd, services1, states1, kept).value;
      r.comparison.value.key == c.key && r.comparison.value.nosla == c.nosla
      && r.comparison.value.notifications.icinga2 == c.notifications.icinga2
  {
    ExtractedPresent(services1, kept);
    var with1 := Filter(services1, WithCommand(cmd));
    var with2 := Filter(kept, WithCommand(cmd));
    if with1 == [] || with2 == [] then Looked(None)
    else
      assert with1[0] in with1 && with2[0] in with2;
      var s1, s2 := with1[0], with2[0];
      match Flag1AsWritten(s1, states1)
      case None => Raised
      case Some(f) => Looked(Some(Comparison(Key(s1), Pair(f, Flag2(s2)), Pair(NoSla1(s1), NoSla2(s2)))))
  }

  /** When every Icinga 1 service has a status record, the comparison as written is the corrected one. */
  lemma AsWrittenAgreesWithStatus(cmd: string, services1: seq<Record>, states1: seq<Record>, kept: seq<Record>)
    requires forall s :: s in services1 ==> Icinga1Service(s)
    requires forall s :: s in kept ==> Icinga2Service(s)
    requires forall s :: s in services1 ==> Filter(states1, SameService(s)) != []
    ensures ComparedAsWritten(cmd, services1, states1, kept) == Looked(CorrectedCompared(cmd, services1, states1, kept))
  {
    var with1 := Filter(services1, WithCommand(cmd));
    if with1 != [] {
      assert with1[0] in with1;
    }
  }

  function LookupsOn(services1: seq<Record>, states1: seq<Record>, kept: seq<Record>): string -> Lookup
    requires forall s :: s in services1 ==> Icinga1Service(s)
    requires forall s :: s in kept ==> Icinga2Service(s)
  {
    (cmd: string) => ComparedAsWritten(cmd, services1, states1, kept)
  }

  /** The comparisons of the commands that did not raise. */
  function Entries(lookup: string -> Lookup): string -> Option<Comparison> {
    (cmd: string) => if lookup(cmd).Looked? then lookup(cmd).comparison else None
  }

  /** Some command among `cmds` raises. */
  predicate RaisesAmong(cmds: seq<string>, lookup: string -> Lookup) {
    exists i :: 0 <= i < |cmds| && lookup(cmds[i]).Raised?
  }

  /** The tables after the commands `cmds` in order, or `None` once one raises. */
  function CompareAllAsWritten(cmds: seq<string>, lookup: string -> Lookup): Option<Tables>
    decreases |cmds|
  {
    if cmds == [] then Some(Tables(map[], map[]))
    else
      var before := CompareAllAsWritten(cmds[..|cmds| - 1], lookup);
      var last := lookup(cmds[|cmds| - 1]);
      if before.None? || last.Raised? then None else Some(Enter(before.value, last.comparison))
  }

  /**
   * The comparison as written raises iff one of the commands does, and
   * otherwise fills the tables exactly as the fold over the comparisons does.
   */
  lemma {:induction false} CompareAllAsWrittenMeaning(cmds: seq<string>, lookup: string -> Lookup)
    ensures CompareAllAsWritten(cmds, lookup) ==
      if RaisesAmong(cmds, lookup) then None else Some(CompareAll(cmds, Entries(lookup)))
    decreases |cmds|
  {
    if cmds != [] {
      var n := |cmds| - 1;
      CompareAllAsWrittenMeaning(cmds[..n], lookup);
      RaisesAmongSnoc(cmds, lookup);
    }
  }

  lemma RaisesAmongSnoc(cmds: seq<string>, lookup: string -> Lookup)
    requires cmds != []
    ensures RaisesAmong(cmds, lookup) <==> RaisesAmong(cmds[..|cmds| - 1], lookup) || lookup(cmds[|cmds| - 1]).Raised?
  {
    var n := |cmds| - 1;
    forall i | 0 <= i < n ensures cmds[..n][i] == cmds[i] {
    }
  }

  /** The loop over the commands of both sides; `None` when reading a flag raises. */
  method CompareCommands(cmds: seq<string>, services1: seq<Record>, states1: seq<Record>, kept: seq<Record>)
    returns (tables: Option<Tables>)
    requires forall s :: s in services1 ==> Icinga1Service(s)
    requires forall s :: s in kept ==> Icinga2Service(s)
    ensures tables == CompareAllAsWritten(cmds, LookupsOn(services1, states1, kept))
  {
    ghost var lookup := LookupsOn(services1, states1, kept);
    var notificationStates: map<string, Pair> := map[];
    var noslaDiff: map<string, Pair> := map[];
    for i := 0 to |cmds|
      invariant CompareAllAsWritten(cmds[..i], lookup) == Some(Tables(notificationStates, noslaDiff))
    {
      assert cmds[..i + 1][..i] == cmds[..i];
      var c := ComparedAsWritten(cmds[i], services1, states1, kept);
      if c.Raised? {
        CompareAllAsWrittenMeaning(cmds, lookup);
        return None;
      }
      if c.comparison.Some? {
        if Differs(c.comparison.value.notifications) {
          notificationStates := notificationStates[c.comparison.value.key := c.comparison.value.notifications];
        }
        if Differs(c.comparison.value.nosla) {
          noslaDiff := noslaDiff[c.comparison.value.key := c.comparison.value.nosla];
        }
      }
    }
    assert cmds[..|cmds|] == cmds;
    tables := Some(Tables(notificationStates, noslaDiff));
  }

  // ---- one host ----

  /** What one host contributes: its missing commands and its two tables. */
  datatype ServiceDiff = ServiceDiff(missing: seq<string>, notificationStates: map<string, Pair>, noslaDiff: map<string, Pair>)

  function KeptServices(services2: seq<Record>): (r: seq<Record>)
    requires forall s :: s in services2 ==> HasName(s) && (Kept()(s) ==> Icinga2Service(s))
    ensures forall s :: s in r ==> Icinga2Service(s) && HasExtracted(s)
    ensures forall s :: s in r <==> s in services2 && Kept()(s)
  {
    var r := Filter(services2, Kept());
    ExtractedPresent([], r);
    r
  }

  /** The Icinga 1 commands that no Icinga 2 service has, before the comment aliases are taken off. */
  function Unmatched(services1: seq<Record>, kept: seq<Record>): seq<string>
    requires forall s :: s in services1 ==> Icinga1Service(s)
    requires forall s :: s in kept ==> Icinga2Service(s)
  {
    ExtractedPresent(services1, kept);
    Filter(Commands(services1), NotAmong(Commands(kept)))
  }

  /** `icinga1_missing_icinga2` once the comment aliases are taken off. */
  function Missing(services1: seq<Record>, kept: seq<Record>): seq<string>
    requires forall s :: s in services1 ==> Icinga1Service(s)
    requires forall s :: s in kept ==> Icinga2Service(s)
  {
    RemoveAll(Unmatched(services1, kept), Comments(kept))
  }

  function CorrectedHostDiff(services1: seq<Record>, states1: seq<Record>, services2: seq<Record>): ServiceDiff
    requires HostShaped(services1, states1, services2)
  {
    var kept := KeptServices(services2);
    var tables := CompareAll(Commands(services1) + Commands(kept), CorrectedComparedOn(services1, states1, kept));
    ServiceDiff(Missing(services1, kept), tables.notificationStates, tables.noslaDiff)
  }

  /** One host's comparison as written: `None` when reading an Icinga 1 flag raises. */
  function HostDiffAsWritten(services1: seq<Record>, states1: seq<Record>, services2: seq<Record>): Option<ServiceDiff>
    requires HostShaped(services1, states1, services2)
  {
    var kept := KeptServices(services2);
    match CompareAllAsWritten(Commands(services1) + Commands(kept), LookupsOn(services1, states1, kept))
    case None => None
    case Some(tables) => Some(ServiceDiff(Missing(services1, kept), tables.notificationStates, tables.noslaDiff))
  }

  /** A host's comparison as written raises iff one of its commands does. */
  lemma HostDiffAsWrittenRaises(services1: seq<Record>, states1: seq<Record>, services2: seq<Record>)
    requires HostShaped(services1, states1, services2)
    ensures var kept := KeptServices(services2);
      HostDiffAsWritten(services1, states1, services2).None?
      <==> RaisesAmong(Commands(services1) + Commands(kept), LookupsOn(services1, states1, kept))
  {
    var kept := KeptServices(services2);
    CompareAllAsWrittenMeaning(Commands(services1) + Commands(kept), LookupsOn(services1, states1, kept));
  }

  /** When every Icinga 1 service of the host has a status record, its comparison as written is the corrected one. */
  lemma HostDiffAsWrittenAgrees(services1: seq<Record>, states1: seq<Record>, services2: seq<Record>)
    requires HostShaped(services1, states1, services2)
    requires forall s :: s in services1 ==> Filter(states1, SameService(s)) != []
    ensures HostDiffAsWritten(services1, states1, services2) == Some(CorrectedHostDiff(services1, states1, services2))
  {
    var kept := KeptServices(services2);
    var lookup, compared := LookupsOn(services1, states1, kept), CorrectedComparedOn(services1, states1, kept);
    forall cmd ensures lookup(cmd) == Looked(compared(cmd)) {
      AsWrittenAgreesWithStatus(cmd, services1, states1, kept);
    }
    NeverRaising(Commands(services1) + Commands(kept), lookup, compared);
  }

  /** Comparisons that never raise fill the tables as the fold over them does. */
  lemma {:induction false} NeverRaising(cmds: seq<string>, lookup: string -> Lookup, compared: string -> Option<Comparison>)
    requires forall cmd :: lookup(cmd) == Looked(compared(cmd))
    ensures CompareAllAsWritten(cmds, lookup) == Some(CompareAll(cmds, compared))
    decreases |cmds|
  {
    if cmds != [] {
      NeverRaising(cmds[..|cmds| - 1], lookup, compared);
    }
  }

  /** The per-host body of `compare_services`. */
  method CompareHost(services1: seq<Record>, states1: seq<Record>, services2: seq<Record>) returns (d: Option<ServiceDiff>)
    requires HostShaped(services1, states1, services2)
    ensures d == HostDiffAsWritten(services1, states1, services2)
  {
    var kept := Filter(services2, Kept());
    var commands1 := Commands(services1);
    var commands2 := Commands(kept);
    var missing := Filter(commands1, NotAmong(commands2));
    missing := RemoveAliased(missing, Comments(kept));
    var tables := CompareCommands(commands1 + commands2, services1, states1, kept);
    if tables.None? {
      return None;
    }
    d := Some(ServiceDiff(missing, tables.value.notificationStates, tables.value.noslaDiff));
  }

  /** A host is written to the result iff one of its three collections is non-empty. */
  predicate Included(d: ServiceDiff) {
    d.missing != [] || d.notificationStates != map[] || d.noslaDiff != map[]
  }

  /** `total_diff` counts the missing commands and the notification differences only. */
  function Weight(d: ServiceDiff): nat {
    |d.missing| + |d.notificationStates.Keys|
  }

  // ---- all hosts ----

  ghost predicate Shaped(services1: map<Value, seq<Record>>, status1: map<Value, seq<Record>>, services2: map<Value, seq<Record>>) {
    forall h :: HostShaped(Index.Group(services1, h), Index.Group(status1, h), Index.Group(services2, h))
  }

  /** The comparison of each host, from the `defaultdict`s of both systems. */
  function CorrectedDiffsOf(services1: map<Value, seq<Record>>, status1: map<Value, seq<Record>>, services2: map<Value, seq<Record>>)
    : Value -> ServiceDiff
    requires Shaped(services1, status1, services2)
  {
    (h: Value) => CorrectedHostDiff(Index.Group(services1, h), Index.Group(status1, h), Index.Group(services2, h))
  }

  /** The result dictionary and `total_diff`. */
  datatype Result = Result(diff: map<Value, ServiceDiff>, total: nat)

  /** Writing one host's comparison to the result. */
  function Account(r: Result, h: Value, d: ServiceDiff): Result {
    if Included(d) then Result(r.diff[h := d], r.total + Weight(d)) else r
  }

  /** The result after the hosts `hosts`, in order, `diffOf` giving each host's comparison. */
  function Summary(hosts: seq<Value>, diffOf: Value -> ServiceDiff): Result
    decreases |hosts|
  {
    if hosts == [] then Result(map[], 0)
    else
      var h := hosts[|hosts| - 1];
      Account(Summary(hosts[..|hosts| - 1], diffOf), h, diffOf(h))
  }

  /** The comparison of each host as written, from the `defaultdict`s of both systems. */
  function DiffsAsWritten(services1: map<Value, seq<Record>>, status1: map<Value, seq<Record>>, services2: map<Value, seq<Record>>)
    : Value -> Option<ServiceDiff>
    requires Shaped(services1, status1, services2)
  {
    (h: Value) => HostDiffAsWritten(Index.Group(services1, h), Index.Group(status1, h), Index.Group(services2, h))
  }

  /** Writing one host's comparison as written: a raise ends the run with no result. */
  function AccountAsWritten(r: Option<Result>, h: Value, d: Option<ServiceDiff>): Option<Result> {
    if r.None? || d.None? then None else Some(Account(r.value, h, d.value))
  }

  /** The result after the hosts `hosts`, in order, or `None` once a host's comparison raises. */
  function SummaryAsWritten(hosts: seq<Value>, diffOf: Value -> Option<ServiceDiff>): Option<Result>
    decreases |hosts|
  {
    if hosts == [] then Some(Result(map[], 0))
    else
      var h := hosts[|hosts| - 1];
      AccountAsWritten(SummaryAsWritten(hosts[..|hosts| - 1], diffOf), h, diffOf(h))
  }

  /** Each host's comparison, with a raising one read as empty (it is never used). */
  function Unwrapped(diffOf: Value -> Option<ServiceDiff>): Value -> ServiceDiff {
    (h: Value) => if diffOf(h).Some? then diffOf(h).value else ServiceDiff([], map[], map[])
  }

  /** The comparison of one of the hosts raises. */
  predicate HostRaises(hosts: seq<Value>, diffOf: Value -> Option<ServiceDiff>) {
    exists i :: 0 <= i < |hosts| && diffOf(hosts[i]).None?
  }

  /**
   * `compare_services` as written returns no result iff the comparison of
   * one of the hosts raises; otherwise its result is the summary of the
   * hosts' comparisons.
   */
  lemma {:induction false} SummaryAsWrittenMeaning(hosts: seq<Value>, diffOf: Value -> Option<ServiceDiff>)
    ensures SummaryAsWritten(hosts, diffOf) ==
      if HostRaises(hosts, diffOf) then None else Some(Summary(hosts, Unwrapped(diffOf)))
    decreases |hosts|
  {
    if hosts != [] {
      SummaryAsWrittenMeaning(hosts[..|hosts| - 1], diffOf);
      HostRaisesSnoc(hosts, diffOf);
    }
  }

  lemma HostRaisesSnoc(hosts: seq<Value>, diffOf: Value -> Option<ServiceDiff>)
    requires hosts != []
    ensures HostRaises(hosts, diffOf) <==> HostRaises(hosts[..|hosts| - 1], diffOf) || diffOf(hosts[|hosts| - 1]).None?
  {
    var n := |hosts| - 1;
    forall i | 0 <= i < n ensures hosts[..n][i] == hosts[i] {
    }
  }

  /**
   * When every Icinga 1 service has a status record, `compare_services` as
   * written gives the corrected result.
   */
  lemma {:induction false} SummaryAsWrittenAgrees(hosts: seq<Value>, services1: map<Value, seq<Record>>,
                                                  status1: map<Value, seq<Record>>, services2: map<Value, seq<Record>>)
    requires Shaped(services1, status1, services2)
    requires forall h, s :: s in Index.Group(services1, h) ==> Filter(Index.Group(status1, h), SameService(s)) != []
    ensures SummaryAsWritten(hosts, DiffsAsWritten(services1, status1, services2))
         == Some(Summary(hosts, CorrectedDiffsOf(services1, status1, services2)))
    decreases |hosts|
  {
    if hosts != [] {
      var h := hosts[|hosts| - 1];
      SummaryAsWrittenAgrees(hosts[..|hosts| - 1], services1, status1, services2);
      assert HostShaped(Index.Group(services1, h), Index.Group(status1, h), Index.Group(services2, h));
      HostDiffAsWrittenAgrees(Index.Group(services1, h), Index.Group(status1, h), Index.Group(services2, h));
    }
  }

  /** One host of the loop: its comparison, written to the result when it found something; `None` when it raises. */
  method CompareAndAccount(r: Result, h: Value, services1: seq<Record>, status1: seq<Record>, services2: seq<Record>)
    returns (r': Option<Result>)
    requires HostShaped(services1, status1, services2)
    ensures r' == AccountAsWritten(Some(r), h, HostDiffAsWritten(services1, status1, services2))
  {
    var d := CompareHost(services1, status1, services2);
    if d.None? {
      return None;
    }
    var next := AccountDiff(r, h, d.value);
    r' := Some(next);
  }

  /** Writing a host's comparison when it found a missing service or a differing state. */
  method AccountDiff(r: Result, h: Value, d: ServiceDiff) returns (r': Result)
    ensures r' == Account(r, h, d)
    ensures Included(d) ==> h in r'.diff && r'.diff[h] == d && r'.total == r.total + Weight(d)
    ensures !Included(d) ==> r' == r
  {
    r' := r;
    if d.missing != [] || d.notificationStates != map[] || d.noslaDiff != map[] {
      r' := Result(r.diff[h := d], r.total + |d.missing| + |d.notificationStates.Keys|);
    }
  }

  /**
   * `compare_services`: the hosts are the Icinga 2 host names (`hostOrder`,
   * the keys of its host dictionary), or only `hostname` when one is given;
   * the service dictionaries are the `defaultdict`s of both systems.
   */
  method Compare(hostname: Value, hostOrder: seq<Value>, services1: map<Value, seq<Record>>,
                 status1: map<Value, seq<Record>>, services2: map<Value, seq<Record>>)
    returns (result: Option<Result>)
    requires Shaped(services1, status1, services2)
    ensures result == SummaryAsWritten(if Truthy(hostname) then [hostname] else hostOrder, DiffsAsWritten(services1, status1, services2))
  {
    var hosts := if Truthy(hostname) then [hostname] else hostOrder;
    ghost var diffOf := DiffsAsWritten(services1, status1, services2);
    var sofar := Result(map[], 0);
    for i := 0 to |hosts|
      invariant SummaryAsWritten(hosts[..i], diffOf) == Some(sofar)
    {
      var next := CompareHostOf(sofar, hosts[i], services1, status1, services2);
      SummaryNext(hosts, i, diffOf, sofar, next);
      if next.None? {
        return None;
      }
      sofar := next.value;
    }
    assert hosts[..|hosts|] == hosts;
    result := Some(sofar);
  }

  /** The loop body of `compare_services` for host `h`, its services looked up in the `defaultdict`s. */
  method CompareHostOf(sofar: Result, h: Value, services1: map<Value, seq<Record>>,
                       status1: map<Value, seq<Record>>, services2: map<Value, seq<Record>>)
    returns (next: Option<Result>)
    requires Shaped(services1, status1, services2)
    ensures next == AccountAsWritten(Some(sofar), h, DiffsAsWritten(services1, status1, services2)(h))
  {
    assert HostShaped(Index.Group(services1, h), Index.Group(status1, h), Index.Group(services2, h));
    next := CompareAndAccount(sofar, h, Index.Group(services1, h), Index.Group(status1, h), Index.Group(services2, h));
  }

  /** Once the hosts so far give no result, all hosts give none. */
  lemma {:induction false} SummaryAsWrittenStops(hosts: seq<Value>, k: nat, diffOf: Value -> Option<ServiceDiff>)
    requires k <= |hosts| && SummaryAsWritten(hosts[..k], diffOf).None?
    ensures SummaryAsWritten(hosts, diffOf).None?
    decreases |hosts| - k
  {
    if k == |hosts| {
      assert hosts[..k] == hosts;
    } else {
      SummaryStep(hosts, k, diffOf);
      SummaryAsWrittenStops(hosts, k + 1, diffOf);
    }
  }

  /** The result after one more host, or no result at all once that host raises. */
  lemma SummaryNext(hosts: seq<Value>, i: nat, diffOf: Value -> Option<ServiceDiff>, sofar: Result, next: Option<Result>)
    requires i < |hosts| && SummaryAsWritten(hosts[..i], diffOf) == Some(sofar)
    requires next == AccountAsWritten(Some(sofar), hosts[i], diffOf(hosts[i]))
    ensures next.None? ==> SummaryAsWritten(hosts, diffOf).None?
    ensures next.Some? ==> SummaryAsWritten(hosts[..i + 1], diffOf) == next
  {
    SummaryStep(hosts, i, diffOf);
    if next.None? {
      SummaryAsWrittenStops(hosts, i + 1, diffOf);
    }
  }

  /** One more host accounts its comparison on top of the result so far. */
  lemma SummaryStep(hosts: seq<Value>, i: nat, diffOf: Value -> Option<ServiceDiff>)
    requires i < |hosts|
    ensures SummaryAsWritten(hosts[..i + 1], diffOf)
         == AccountAsWritten(SummaryAsWritten(hosts[..i], diffOf), hosts[i], diffOf(hosts[i]))
  {
    assert hosts[..i + 1][..i] == hosts[..i];
  }

  // ---- duplicates (`compare_services_manual`) ----

  /** The check commands occurring more than once, each once, in order of first occurrence (`Counter` order). */
  function Duplicates(cmds: seq<string>): (r: seq<string>)
    ensures forall c :: c in r <==> multiset(cmds)[c] > 1
    ensures forall i, j :: 0 <= i < j < |r| ==> r[i] != r[j]
  {
    var distinct := Strings.Dedup(cmds);
    var r := Filter(distinct, (c: string) => multiset(cmds)[c] > 1);
    assert forall c :: c in cmds <==> c in multiset(cmds);
    FilterDistinct(distinct, (c: string) => multiset(cmds)[c] > 1);
    r
  }

  /** The services of one side whose command is among the duplicates. */
  function DuplicateServices(services: seq<Record>, duplicates: seq<string>): (r: seq<Record>)
    ensures forall s :: s in r <==> s in services && HasExtracted(s) && Extracted(s) in duplicates
  {
    Filter(services, (s: Record) => HasExtracted(s) && Extracted(s) in duplicates)
  }

  lemma {:induction false} FilterDistinct<T(!new)>(s: seq<T>, p: T -> bool)
    requires forall i, j :: 0 <= i < j < |s| ==> s[i] != s[j]
    ensures forall i, j :: 0 <= i < j < |Filter(s, p)| ==> Filter(s, p)[i] != Filter(s, p)[j]
    decreases |s|
  {
    if s != [] {
      FilterDistinct(s[1..], p);
      assert s[0] !in s[1..];
      assert s[0] !in Filter(s[1..], p);
    }
  }

  /** An element counted more than once sits at two distinct positions. */
  lemma {:induction false} CountedTwice<T>(s: seq<T>, x: T)
    requires multiset(s)[x] > 1
    ensures exists i, j :: 0 <= i < j < |s| && s[i] == x && s[j] == x
    decreases |s|
  {
    assert s != [];
    assert s == [s[0]] + s[1..];
    assert multiset(s) == multiset{s[0]} + multiset(s[1..]);
    if s[0] == x {
      assert x in multiset(s[1..]);
      var k :| 0 <= k < |s[1..]| && s[1..][k] == x;
      assert s[0] == x && s[k + 1] == x;
    } else {
      CountedTwice(s[1..], x);
      var i, j :| 0 <= i < j < |s[1..]| && s[1..][i] == x && s[1..][j] == x;
      assert s[i + 1] == x && s[j + 1] == x;
    }
  }

  /**
   * Every Icinga 1 service listed for manual comparison shares its command
   * with at least one other service of the host.
   */
  lemma DuplicatesShareCommand(services1: seq<Record>, s: Record)
    requires forall x :: x in services1 ==> HasExtracted(x)
    requires s in DuplicateServices(services1, Duplicates(Commands(services1)))
    ensures exists i, j :: 0 <= i < j < |services1| && Extracted(services1[i]) == Extracted(s) == Extracted(services1[j])
  {
    var cmds := Commands(services1);
    CountedTwice(cmds, Extracted(s));
    var i, j :| 0 <= i < j < |cmds| && cmds[i] == Extracted(s) && cmds[j] == Extracted(s);
    assert Extracted(services1[i]) == Extracted(s) == Extracted(services1[j]);
  }

  // ---- properties of the missing list ----

  function Max0(n: int): nat {
    if n > 0 then n else 0
  }

  /** `remove` for each comment takes off at most one occurrence of the command it names. */
  lemma {:induction false} RemoveAllCount(xs: seq<string>, comments: seq<Value>, c: string)
    ensures multiset(RemoveAll(xs, comments))[c] == Max0(multiset(xs)[c] as int - multiset(comments)[Str(c)] as int)
    decreases |comments|
  {
    if comments != [] {
      RemoveAllCount(xs, comments[..|comments| - 1], c);
      RemoveAllStep(xs, comments, c);
    }
  }

  /** The step of `RemoveAllCount`: the last comment's `remove`. */
  lemma RemoveAllStep(xs: seq<string>, comments: seq<Value>, c: string)
    requires comments != []
    requires var init := comments[..|comments| - 1];
      multiset(RemoveAll(xs, init))[c] == Max0(multiset(xs)[c] as int - multiset(init)[Str(c)] as int)
    ensures multiset(RemoveAll(xs, comments))[c] == Max0(multiset(xs)[c] as int - multiset(comments)[Str(c)] as int)
  {
    var init, v := comments[..|comments| - 1], comments[|comments| - 1];
    LastCount(comments, Str(c));
    var ys := RemoveAll(xs, init);
    RemoveFirstCount(ys, v, c);
    Max0Step(multiset(ys)[c], multiset(xs)[c], multiset(init)[Str(c)], v == Str(c));
  }

  lemma LastCount<T>(s: seq<T>, x: T)
    requires s != []
    ensures multiset(s)[x] == multiset(s[..|s| - 1])[x] + if s[|s| - 1] == x then 1 else 0
  {
    assert s == s[..|s| - 1] + [s[|s| - 1]];
  }

  /** One `remove` takes off one occurrence of `c` exactly when the comment names `c` and `c` is there. */
  lemma RemoveFirstCount(ys: seq<string>, v: Value, c: string)
    ensures multiset(RemoveFirst(ys, v))[c] == if v == Str(c) && multiset(ys)[c] > 0 then multiset(ys)[c] - 1 else multiset(ys)[c]
  {
    assert c in ys <==> c in multiset(ys);
  }

  lemma Max0Step(prev: nat, m: int, k: int, hit: bool)
    requires prev == Max0(m - k)
    ensures (if hit && prev > 0 then prev - 1 else prev) == Max0(m - (k + if hit then 1 else 0))
  {
  }

  lemma {:induction false} FilterCount<T(!new)>(s: seq<T>, p: T -> bool, x: T)
    ensures multiset(Filter(s, p))[x] == if p(x) then multiset(s)[x] else 0
    decreases |s|
  {
    if s != [] {
      FilterCount(s[1..], p, x);
      assert s == [s[0]] + s[1..];
      assert multiset(s) == multiset{s[0]} + multiset(s[1..]);
    }
  }

  /**
   * The missing list of a host holds each Icinga 1 command that no kept
   * Icinga 2 service has as often as Icinga 1 lists it, less the number of
   * kept Icinga 2 services naming it in `vars.comment`; so it is a
   * sub-multiset of the Icinga 1 commands, and none of its commands exists
   * on the Icinga 2 side.
   */
  lemma MissingCount(services1: seq<Record>, kept: seq<Record>, c: string)
    requires forall s :: s in services1 ==> Icinga1Service(s) && HasExtracted(s)
    requires forall s :: s in kept ==> Icinga2Service(s) && HasExtracted(s) && NestedDict.Defined(s, CommentPath)
    ensures multiset(Missing(services1, kept))[c]
        == if c in Commands(kept) then 0 else Max0(multiset(Commands(services1))[c] as int - multiset(Comments(kept))[Str(c)] as int)
    ensures multiset(Missing(services1, kept))[c] <= multiset(Commands(services1))[c]
  {
    RemoveAllCount(Unmatched(services1, kept), Comments(kept), c);
    FilterCount(Commands(services1), NotAmong(Commands(kept)), c);
  }

  // ---- properties of the two tables ----

  /** Command `i` gives key `k` with a differing pair of the chosen table. */
  predicate DiffersAt(cmds: seq<string>, i: int, k: string, compared: string -> Option<Comparison>, flags: bool)
    requires 0 <= i < |cmds|
  {
    var c := compared(cmds[i]);
    c.Some? && c.value.key == k && Differs(Chosen(c.value, flags))
  }

  /** ... and no later command does. */
  predicate LastDiffering(cmds: seq<string>, i: int, k: string, compared: string -> Option<Comparison>, flags: bool) {
    0 <= i < |cmds| && DiffersAt(cmds, i, k, compared, flags)
    && forall j :: i < j < |cmds| ==> !DiffersAt(cmds, j, k, compared, flags)
  }

  /**
   * A key is in `notification_states` (`flags`) or `nosla_diff` iff some
   * compared command gave it with a differing pair; its value is the pair of
   * the last such command.
   */
  lemma {:induction false} TableMeaning(cmds: seq<string>, compared: string -> Option<Comparison>, flags: bool, k: string)
    ensures k in Table(CompareAll(cmds, compared), flags) <==> exists i :: LastDiffering(cmds, i, k, compared, flags)
    ensures forall i :: 0 <= i < |cmds| && LastDiffering(cmds, i, k, compared, flags) ==>
      k in Table(CompareAll(cmds, compared), flags) && Table(CompareAll(cmds, compared), flags)[k] == Chosen(compared(cmds[i]).value, flags)
    decreases |cmds|
  {
    if cmds != [] {
      var n := |cmds| - 1;
      TableMeaning(cmds[..n], compared, flags, k);
      LastDifferingSnoc(cmds, k, compared, flags);
      forall i | 0 <= i < n && LastDiffering(cmds[..n], i, k, compared, flags)
        ensures compared(cmds[..n][i]) == compared(cmds[i])
      {
        assert cmds[..n][i] == cmds[i];
      }
      var t := Table(CompareAll(cmds, compared), flags);
      if DiffersAt(cmds, n, k, compared, flags) {
        assert LastDiffering(cmds, n, k, compared, flags);
      } else if k in t {
        assert k in Table(CompareAll(cmds[..n], compared), flags);
        var i :| LastDiffering(cmds[..n], i, k, compared, flags);
        assert LastDiffering(cmds, i, k, compared, flags);
      }
    }
  }

  lemma LastDifferingSnoc(cmds: seq<string>, k: string, compared: string -> Option<Comparison>, flags: bool)
    requires cmds != []
    ensures var n := |cmds| - 1;
      forall i :: LastDiffering(cmds, i, k, compared, flags) <==>
        (i == n && DiffersAt(cmds, n, k, compared, flags))
        || (!DiffersAt(cmds, n, k, compared, flags) && LastDiffering(cmds[..n], i, k, compared, flags))
  {
    var n := |cmds| - 1;
    forall i ensures LastDiffering(cmds, i, k, compared, flags) <==>
        (i == n && DiffersAt(cmds, n, k, compared, flags))
        || (!DiffersAt(cmds, n, k, compared, flags) && LastDiffering(cmds[..n], i, k, compared, flags))
    {
      if 0 <= i < n {
        forall j | i <= j < n ensures DiffersAt(cmds, j, k, compared, flags) == DiffersAt(cmds[..n], j, k, compared, flags) {
          assert cmds[..n][j] == cmds[j];
        }
      }
    }
  }

  /**
   * Only the first service with a command on each side is compared: services
   * listed after it, on either side, change nothing.
   */
  lemma FirstMatchOnly(cmd: string, services1: seq<Record>, more1: seq<Record>, states1: seq<Record>,
                       kept: seq<Record>, more2: seq<Record>)
    requires forall s :: s in services1 + more1 ==> Icinga1Service(s)
    requires forall s :: s in kept + more2 ==> Icinga2Service(s)
    requires Filter(services1, WithCommand(cmd)) != [] && Filter(kept, WithCommand(cmd)) != []
    ensures CorrectedCompared(cmd, services1 + more1, states1, kept + more2) == CorrectedCompared(cmd, services1, states1, kept)
  {
    FilterAppend(services1, more1, WithCommand(cmd));
    FilterAppend(kept, more2, WithCommand(cmd));
  }

  /** The first matching status record decides; the configuration and later status records do not matter. */
  lemma StatusOverridesConfig(s1: Record, t1: Record, states1: seq<Record>, more: seq<Record>)
    requires Icinga1Service(s1) && Icinga1Service(t1)
    requires s1["check_command"] == t1["check_command"] && s1["service_description"] == t1["service_description"]
    requires Filter(states1, SameService(s1)) != []
    ensures Flag1(s1, states1 + more) == Flag1(t1, states1)
  {
    FilterAppend(states1, more, SameService(s1));
    FilterExt(states1, SameService(s1), SameService(t1));
  }

  /** The attributes the services query asks for when it fetches every service (icinga2.py). */
  const ReducedServiceAttributes: seq<string> :=
    ["check_command", "name", "vars", "enable_notifications", "last_check_result", "notes_url", "display_name"]

  /**
   * Services fetched with the reduced attribute list have no
   * `original_attributes`: for them Icinga 2's live flag is always the one compared.
   */
  lemma ReducedQueryUsesLiveFlag(s2: Record, attrs: map<string, Value>)
    requires Icinga2Service(s2)
    requires "attrs" in s2 && s2["attrs"] == Map(attrs)
    requires forall a :: a in attrs ==> a in ReducedServiceAttributes
    ensures Flag2(s2) == AtPath(Map(s2), ["attrs", "enable_notifications"]).value
  {
    assert "original_attributes" !in attrs;
  }

  // ---- the result over all hosts ----

  /** `total_diff`, summed over the hosts: the no-sla differences never count. */
  function TotalOf(hosts: seq<Value>, diffOf: Value -> ServiceDiff): nat
    decreases |hosts|
  {
    if hosts == [] then 0
    else TotalOf(hosts[..|hosts| - 1], diffOf) + Weight(diffOf(hosts[|hosts| - 1]))
  }

  /**
   * A visited host is in the result iff its comparison found something, and
   * then with that comparison; `total_diff` is the sum of the missing
   * commands and notification differences of all visited hosts.
   */
  lemma {:induction false} SummaryMeaning(hosts: seq<Value>, diffOf: Value -> ServiceDiff, h: Value)
    ensures h in Summary(hosts, diffOf).diff <==> h in hosts && Included(diffOf(h))
    ensures h in Summary(hosts, diffOf).diff ==> Summary(hosts, diffOf).diff[h] == diffOf(h)
    ensures Summary(hosts, diffOf).total == TotalOf(hosts, diffOf)
    decreases |hosts|
  {
    if hosts != [] {
      var init := hosts[..|hosts| - 1];
      SummaryMeaning(init, diffOf, h);
      assert hosts == init + [hosts[|hosts| - 1]];
      var d := diffOf(hosts[|hosts| - 1]);
      assert !Included(d) ==> Weight(d) == 0;
    }
  }
}
