/**
 * The acknowledgement migrations (icinga_migration_utils/migrate/acknowledgements.py).
 *
 * Every Icinga 1 acknowledgement (a user comment on a host or a service) is
 * replayed into Icinga 2 as an acknowledged problem whose comment carries a
 * suffix, unless `get_acknowledgements` already finds a comment with the
 * same host, author, text and (for a service) service. A service
 * acknowledgement first has to be mapped to an Icinga 2 service; a host
 * acknowledgement is sent as it is.
 */
module MigrateAcknowledgements {
  import opened Values
  import opened NestedDict
  import opened Icinga2Filters
  import opened Icinga2
  import MigrateDowntimes
  import Index

  // ---------------------------------------------------------------------------
  // Which acknowledgements, and what each one becomes
  // ---------------------------------------------------------------------------

  /** The fields the host migration reads with a subscript. */
  const HostAckFields: seq<string> := ["host_name", "author", "comment_data"]

  /** The fields the service migration reads with a subscript. */
  const ServiceAckFields: seq<string> := ["host_name", "service_description", "author", "comment_data"]

  /** The acknowledgements considered: all, or with a host name given ("" stands for none) those of that host, in order. */
  function Selected(acks: seq<Record>, hostname: string): (r: seq<Record>)
    ensures forall x :: x in r <==> x in acks && (hostname == "" || MigrateDowntimes.Text(x, "host_name") == hostname)
    ensures hostname == "" ==> r == acks
  {
    if hostname == "" then acks else Filter(acks, MigrateDowntimes.OnHost(hostname))
  }

  /** What one acknowledgement leads to: nothing, an exception that ends the run, or a comment to acknowledge with. */
  datatype AckResolution = Skip | Abort(error: string) | Target(comment: Comment)

  /** The comment of a migrated acknowledgement: the Icinga 1 comment with the suffix. */
  function AckComment(ack: Record, service: Option<string>, suffix: string): Comment {
    Comment(MigrateDowntimes.Text(ack, "host_name"), service, MigrateDowntimes.Text(ack, "author"),
            MigrateDowntimes.Text(ack, "comment_data") + suffix)
  }

  /** What the two service lookups subscript: the Icinga 1 extracted command, and the Icinga 2 service shape. */
  predicate AckShaped(services1: map<Value, seq<Record>>, services2: map<Value, seq<Record>>) {
    (forall h | h in services1 :: forall s | s in services1[h] :: "check_command_extracted" in s) &&
    (forall h | h in services2 :: forall s | s in services2[h] :: MigrateDowntimes.Icinga2ServiceShape(s))
  }

  /** `service.get('service_description', None) == description`. */
  function HasDescription(description: Value): Record -> bool {
    s => PyEq(Get(s, "service_description", Null), description)
  }

  /**
   * An Icinga 2 service is a candidate for an Icinga 1 service: the same
   * extracted command, or a `vars.comment` equal to the Icinga 1 extracted
   * command (not to its `check_command`, as for downtimes).
   */
  function AckSameCheck(s1: Record): Record -> bool {
    s2 => PyEq(Get(s2, "check_command_extracted", Null), Get(s1, "check_command_extracted", Null))
          || (Defined(s2, MigrateDowntimes.CommentPath)
              && PyEq(Path(s2, MigrateDowntimes.CommentPath), Get(s1, "check_command_extracted", Null)))
  }

  /** The Icinga 1 services of the acknowledgement's host with its description. */
  function Described(ack: Record, services1: map<Value, seq<Record>>): seq<Record> {
    Filter(Index.Group(services1, Str(MigrateDowntimes.Text(ack, "host_name"))),
           HasDescription(Str(MigrateDowntimes.Text(ack, "service_description"))))
  }

  /**
   * One service acknowledgement: skipped when its host is not in Icinga 2;
   * an AssertionError unless exactly one Icinga 1 service of the host has
   * its description; skipped when no Icinga 2 service of the host is a
   * candidate; otherwise the first candidate is acknowledged.
   */
  function ResolveServiceAck(ack: Record, suffix: string, hosts: map<Value, Record>,
                             services1: map<Value, seq<Record>>, services2: map<Value, seq<Record>>): AckResolution
  {
    var host := Str(MigrateDowntimes.Text(ack, "host_name"));
    if host !in hosts then Skip
    else
      var described := Described(ack, services1);
      if |described| != 1 then Abort("AssertionError")
      else
        var candidates := Filter(Index.Group(services2, host), AckSameCheck(described[0]));
        if candidates == [] then Skip
        else Target(AckComment(ack, Some(MigrateDowntimes.ServiceName(candidates[0])), suffix))
  }

  /** One host acknowledgement: always acknowledged, whether or not Icinga 2 knows the host. */
  function ResolveHostAck(ack: Record, suffix: string): AckResolution {
    Target(AckComment(ack, None, suffix))
  }

  /**
   * A service acknowledgement is skipped when its host is not in Icinga 2,
   * aborts the run exactly when the number of Icinga 1 services with its
   * description is not one, is skipped when no Icinga 2 service is a
   * candidate, and otherwise acknowledges a candidate service with the
   * suffixed comment.
   */
  lemma ResolveServiceAckMeaning(ack: Record, suffix: string, hosts: map<Value, Record>,
                                 services1: map<Value, seq<Record>>, services2: map<Value, seq<Record>>)
    ensures var host := Str(MigrateDowntimes.Text(ack, "host_name"));
      var res := ResolveServiceAck(ack, suffix, hosts, services1, services2);
      var described := Described(ack, services1);
      (host !in hosts ==> res == Skip) &&
      (res.Abort? <==> host in hosts && |described| != 1) &&
      (host in hosts && |described| == 1 ==>
         (res.Skip? <==> forall s2 | s2 in Index.Group(services2, host) :: !AckSameCheck(described[0])(s2))) &&
      (res.Target? ==>
         host in hosts && |described| == 1 &&
         exists s2 | s2 in Index.Group(services2, host) ::
           AckSameCheck(described[0])(s2) && res.comment == AckComment(ack, Some(MigrateDowntimes.ServiceName(s2)), suffix))
  {
    var host := Str(MigrateDowntimes.Text(ack, "host_name"));
    var described := Described(ack, services1);
    if host in hosts && |described| == 1 {
      var candidates := Filter(Index.Group(services2, host), AckSameCheck(described[0]));
      if candidates != [] {
        assert candidates[0] in candidates;
      } else {
        forall s2 | s2 in Index.Group(services2, host) ensures !AckSameCheck(described[0])(s2) {
          assert s2 !in candidates;
        }
      }
    }
  }

  // ---------------------------------------------------------------------------
  // The existence check
  // ---------------------------------------------------------------------------

  /** The service argument of `get_acknowledgements`: the service name, or none for a host. */
  function ServiceArg(service: Option<string>): string {
    if service.Some? then service.value else ""
  }

  /** The query sent before acknowledging: host, author and text, and the service for a service target. */
  function TargetQuery(c: Comment): Query {
    AcknowledgementsQuery(c.host, c.author, c.text, ServiceArg(c.service))
  }

  /** A comment the query for `c` finds: it agrees with `c` on every argument that is given (non-empty). */
  predicate Matches(c: Comment, e: Comment) {
    (c.host != "" ==> e.host == c.host) && (c.author != "" ==> e.author == c.author) &&
    (c.text != "" ==> e.text == c.text) && (ServiceArg(c.service) != "" ==> e.service == Some(ServiceArg(c.service)))
  }

  /** `get_acknowledgements(...)` is non-empty. */
  predicate Present(c: Comment, comments: seq<Comment>) {
    Filter(comments, CommentSelectedBy(TargetQuery(c))) != []
  }

  /** What the existence query selects. */
  lemma TargetQuerySelects(c: Comment, e: Comment)
    ensures Selects(TargetQuery(c), CommentView(e)) <==> Matches(c, e)
  {
    var args := AcknowledgementArgs(c.host, c.author, c.text, ServiceArg(c.service));
    var q := TargetQuery(c);
    var v := CommentView(e);
    CommentViewKeys(e);
    assert "author" !in v && "servicename" !in v;
    forall i | 0 <= i < |args| ensures args[i].variable != "service.name" {
    }
    BuiltVars(args, "service.name");
    assert "service.name" !in q.vars;
    AcknowledgementsQueryMeaning(c.host, c.author, c.text, ServiceArg(c.service));
  }

  /** The query for a comment finds that comment. */
  lemma PresentItself(c: Comment, comments: seq<Comment>)
    requires c in comments
    ensures Present(c, comments)
  {
    TargetQuerySelects(c, c);
    assert c in Filter(comments, CommentSelectedBy(TargetQuery(c)));
  }

  /** The query finds a comment exactly when one that matches is there. */
  lemma PresentIff(c: Comment, comments: seq<Comment>)
    ensures Present(c, comments) <==> exists e | e in comments :: Matches(c, e)
  {
    var found := Filter(comments, CommentSelectedBy(TargetQuery(c)));
    if found != [] {
      assert found[0] in found;
      TargetQuerySelects(c, found[0]);
    }
    forall e | e in comments && Matches(c, e) ensures found != [] {
      TargetQuerySelects(c, e);
      assert e in found;
    }
  }

  /** More comments never make the query find less. */
  lemma PresentGrows(c: Comment, comments: seq<Comment>, more: seq<Comment>)
    requires Present(c, comments)
    ensures Present(c, comments + more)
  {
    FilterAppend(comments, more, CommentSelectedBy(TargetQuery(c)));
  }

  /**
   * The host query gives no service, so a service acknowledgement with the
   * same host, author and text counts as an existing host acknowledgement;
   * the service query gives the service, so a host acknowledgement does not
   * count as an existing service acknowledgement.
   */
  lemma HostCheckSeesServiceComments(host: string, author: string, text: string, service: string)
    ensures Present(Comment(host, None, author, text), [Comment(host, Some(service), author, text)])
    ensures service != "" ==> !Present(Comment(host, Some(service), author, text), [Comment(host, None, author, text)])
  {
    PresentIff(Comment(host, None, author, text), [Comment(host, Some(service), author, text)]);
    PresentIff(Comment(host, Some(service), author, text), [Comment(host, None, author, text)]);
  }

  // ---------------------------------------------------------------------------
  // The run
  // ---------------------------------------------------------------------------

  /** Where a run has got to: the server's comments and calls, the counter, the last acknowledge result, the error that ended it. */
  datatype Run = Run(comments: seq<Comment>, calls: seq<Call>, count: nat, last: Option<bool>, error: Option<string>)

  /** A run that has done nothing yet: `result = []` is `last == None`. */
  function Start(comments: seq<Comment>, calls: seq<Call>): Run {
    Run(comments, calls, 0, None, None)
  }

  /**
   * One acknowledgement: an abort records the error; a target is left alone
   * when simulating or when the query finds it, and is otherwise
   * acknowledged, which adds its comment and counts only when Icinga 2
   * answers code 200.
   */
  function Step(st: Run, res: AckResolution, simulate: bool, ackResults: Comment -> seq<ActionResult>): Run {
    match res
    case Skip => st
    case Abort(e) => st.(error := Some(e))
    case Target(c) =>
      if simulate || Present(c, st.comments) then st
      else
        var ok := Acknowledged(ackResults(c));
        Run(st.comments + (if ok then [c] else []), st.calls + [AcknowledgeProblem(c)],
            st.count + (if ok then 1 else 0), Some(ok), st.error)
  }

  /** The run over the acknowledgements' resolutions, in order, up to the first error. */
  function Replay(rs: seq<AckResolution>, st: Run, simulate: bool, ackResults: Comment -> seq<ActionResult>): Run
    decreases |rs|
  {
    if rs == [] then st
    else
      var p := Replay(rs[..|rs| - 1], st, simulate, ackResults);
      if p.error.Some? then p else Step(p, rs[|rs| - 1], simulate, ackResults)
  }

  lemma ReplaySnoc(rs: seq<AckResolution>, i: nat, st: Run, simulate: bool, ackResults: Comment -> seq<ActionResult>)
    requires i < |rs|
    ensures var p := Replay(rs[..i], st, simulate, ackResults);
      Replay(rs[..i + 1], st, simulate, ackResults) == if p.error.Some? then p else Step(p, rs[i], simulate, ackResults)
  {
    assert rs[..i + 1][..i] == rs[..i];
  }

  /** Once an error ends the run, the later acknowledgements change nothing. */
  lemma {:induction false} ReplayStops(rs: seq<AckResolution>, n: nat, st: Run, simulate: bool, ackResults: Comment -> seq<ActionResult>)
    requires n <= |rs| && Replay(rs[..n], st, simulate, ackResults).error.Some?
    ensures Replay(rs, st, simulate, ackResults) == Replay(rs[..n], st, simulate, ackResults)
    decreases |rs| - n
  {
    if n < |rs| {
      ReplaySnoc(rs, n, st, simulate, ackResults);
      ReplayStops(rs, n + 1, st, simulate, ackResults);
    } else {
      assert rs[..n] == rs;
    }
  }

  /** With `simulate`, neither the query nor acknowledge is called: no comment, no call, no count, no result. */
  lemma {:induction false} SimulateChangesNothing(rs: seq<AckResolution>, st: Run, ackResults: Comment -> seq<ActionResult>)
    ensures var r := Replay(rs, st, true, ackResults);
      r.comments == st.comments && r.calls == st.calls && r.count == st.count && r.last == st.last
    decreases |rs|
  {
    if rs != [] {
      SimulateChangesNothing(rs[..|rs| - 1], st, ackResults);
    }
  }

  /** Whether a step acknowledges: a target, not simulating, not found by the query. */
  predicate Acts(p: Run, res: AckResolution, simulate: bool) {
    p.error.None? && res.Target? && !simulate && !Present(res.comment, p.comments)
  }

  /** What a step changes: nothing but the error, unless it acknowledges. */
  lemma StepFacts(p: Run, res: AckResolution, simulate: bool, ackResults: Comment -> seq<ActionResult>)
    requires p.error.None?
    ensures var q := Step(p, res, simulate, ackResults);
      (!Acts(p, res, simulate) ==> q.comments == p.comments && q.calls == p.calls && q.count == p.count && q.last == p.last) &&
      (Acts(p, res, simulate) ==>
         var ok := Acknowledged(ackResults(res.comment));
         q.comments == p.comments + (if ok then [res.comment] else []) &&
         q.calls == p.calls + [AcknowledgeProblem(res.comment)] &&
         q.count == p.count + (if ok then 1 else 0) && q.last == Some(ok))
  {
  }

  lemma Extend<T>(a: seq<T>, b: seq<T>, k: nat)
    requires k <= |a|
    ensures (a + b)[..k] == a[..k] && (a + b)[k..] == a[k..] + b
  {
  }

  /**
   * What a run has done since `st`: it only added comments, each one
   * acknowledged with code 200, and its own calls; the counter grew by
   * exactly the number of comments.
   */
  predicate Extends(st: Run, r: Run, ackResults: Comment -> seq<ActionResult>) {
    |st.comments| <= |r.comments| && r.comments[..|st.comments|] == st.comments &&
    r.count == st.count + (|r.comments| - |st.comments|) &&
    |st.calls| <= |r.calls| && r.calls[..|st.calls|] == st.calls &&
    forall c | c in r.comments[|st.comments|..] :: Acknowledged(ackResults(c)) && AcknowledgeProblem(c) in r.calls[|st.calls|..]
  }

  lemma StepExtends(st: Run, p: Run, res: AckResolution, simulate: bool, ackResults: Comment -> seq<ActionResult>)
    requires p.error.None? && Extends(st, p, ackResults)
    ensures Extends(st, Step(p, res, simulate, ackResults), ackResults)
  {
    StepFacts(p, res, simulate, ackResults);
    var q := Step(p, res, simulate, ackResults);
    if Acts(p, res, simulate) {
      var c := res.comment;
      var added := if Acknowledged(ackResults(c)) then [c] else [];
      Extend(p.comments, added, |st.comments|);
      Extend(p.calls, [AcknowledgeProblem(c)], |st.calls|);
    }
  }

  /** A run only adds comments, each one acknowledged with code 200, and the counter grows by exactly their number. */
  lemma {:induction false} CountIsSuccesses(rs: seq<AckResolution>, st: Run, simulate: bool, ackResults: Comment -> seq<ActionResult>)
    ensures Extends(st, Replay(rs, st, simulate, ackResults), ackResults)
    decreases |rs|
  {
    if rs != [] {
      var p := Replay(rs[..|rs| - 1], st, simulate, ackResults);
      CountIsSuccesses(rs[..|rs| - 1], st, simulate, ackResults);
      if p.error.None? {
        StepExtends(st, p, rs[|rs| - 1], simulate, ackResults);
      }
    } else {
      assert st.comments[..|st.comments|] == st.comments && st.calls[..|st.calls|] == st.calls;
    }
  }

  /** Every call a run made since `st` acknowledges a target of `rs` that the query did not find in `st`'s comments. */
  predicate CallsAbsent(st: Run, r: Run, rs: seq<AckResolution>) {
    |st.calls| <= |r.calls| &&
    forall x | x in r.calls[|st.calls|..] :: x.AcknowledgeProblem? && Target(x.comment) in rs && !Present(x.comment, st.comments)
  }

  lemma StepCallsAbsent(st: Run, p: Run, init: seq<AckResolution>, rs: seq<AckResolution>, res: AckResolution,
                        simulate: bool, ackResults: Comment -> seq<ActionResult>)
    requires p.error.None? && Extends(st, p, ackResults) && CallsAbsent(st, p, init)
    requires res in rs && forall x | x in init :: x in rs
    ensures CallsAbsent(st, Step(p, res, simulate, ackResults), rs)
  {
    StepFacts(p, res, simulate, ackResults);
    var q := Step(p, res, simulate, ackResults);
    if Acts(p, res, simulate) {
      var c := res.comment;
      Extend(p.calls, [AcknowledgeProblem(c)], |st.calls|);
      assert !Present(c, st.comments) by {
        if Present(c, st.comments) {
          assert p.comments == st.comments + p.comments[|st.comments|..];
          PresentGrows(c, st.comments, p.comments[|st.comments|..]);
        }
      }
      assert q.calls[|st.calls|..] == p.calls[|st.calls|..] + [AcknowledgeProblem(c)];
      forall x | x in q.calls[|st.calls|..]
        ensures x.AcknowledgeProblem? && Target(x.comment) in rs && !Present(x.comment, st.comments)
      {
        if x != AcknowledgeProblem(c) {
          assert x in p.calls[|st.calls|..];
        }
      }
    }
  }

  /**
   * Acknowledge is called only for a target of the run that the query did
   * not find among the comments the run started from.
   */
  lemma {:induction false} CallsOnlyWhenAbsent(rs: seq<AckResolution>, st: Run, simulate: bool, ackResults: Comment -> seq<ActionResult>)
    ensures CallsAbsent(st, Replay(rs, st, simulate, ackResults), rs)
    decreases |rs|
  {
    if rs != [] {
      var init := rs[..|rs| - 1];
      var p := Replay(init, st, simulate, ackResults);
      CallsOnlyWhenAbsent(init, st, simulate, ackResults);
      CountIsSuccesses(init, st, simulate, ackResults);
      assert forall x | x in init :: x in rs;
      if p.error.None? {
        StepCallsAbsent(st, p, init, rs, rs[|rs| - 1], simulate, ackResults);
      }
    } else {
      assert st.calls[|st.calls|..] == [];
    }
  }

  /** The comments a run added since `st` were each not found by their query just before. */
  predicate Fresh(st: Run, r: Run) {
    |st.comments| <= |r.comments| &&
    forall i | |st.comments| <= i < |r.comments| :: !Present(r.comments[i], r.comments[..i])
  }

  lemma StepFresh(st: Run, p: Run, res: AckResolution, simulate: bool, ackResults: Comment -> seq<ActionResult>)
    requires p.error.None? && Fresh(st, p)
    ensures Fresh(st, Step(p, res, simulate, ackResults))
  {
    StepFacts(p, res, simulate, ackResults);
    var q := Step(p, res, simulate, ackResults);
    if !Acts(p, res, simulate) {
      assert q.comments == p.comments;
    } else if Acknowledged(ackResults(res.comment)) {
      assert q.comments == p.comments + [res.comment];
      FreshSnoc(st, p.comments, res.comment);
    } else {
      assert q.comments == p.comments + [];
      assert q.comments == p.comments;
    }
  }

  lemma FreshSnoc(st: Run, pc: seq<Comment>, c: Comment)
    requires |st.comments| <= |pc| && forall i | |st.comments| <= i < |pc| :: !Present(pc[i], pc[..i])
    requires !Present(c, pc)
    ensures forall i | |st.comments| <= i < |pc + [c]| :: !Present((pc + [c])[i], (pc + [c])[..i])
  {
    var qc := pc + [c];
    forall i | |st.comments| <= i < |qc| ensures !Present(qc[i], qc[..i]) {
      if i < |pc| {
        assert qc[..i] == pc[..i];
        assert qc[i] == pc[i];
      } else {
        assert qc[..i] == pc;
      }
    }
  }

  /** Every comment a run adds was not found by its query just before: re-runs do not duplicate. */
  lemma {:induction false} AddedWereAbsent(rs: seq<AckResolution>, st: Run, simulate: bool, ackResults: Comment -> seq<ActionResult>)
    ensures Fresh(st, Replay(rs, st, simulate, ackResults))
    decreases |rs|
  {
    if rs != [] {
      var p := Replay(rs[..|rs| - 1], st, simulate, ackResults);
      AddedWereAbsent(rs[..|rs| - 1], st, simulate, ackResults);
      if p.error.None? {
        StepFresh(st, p, rs[|rs| - 1], simulate, ackResults);
      }
    }
  }

  /** So a run never adds a comment that is already there, nor the same comment twice. */
  lemma AddedAreNew(rs: seq<AckResolution>, st: Run, simulate: bool, ackResults: Comment -> seq<ActionResult>)
    ensures var r := Replay(rs, st, simulate, ackResults);
      |st.comments| <= |r.comments| &&
      forall i | |st.comments| <= i < |r.comments| :: r.comments[i] !in r.comments[..i]
  {
    AddedWereAbsent(rs, st, simulate, ackResults);
    var r := Replay(rs, st, simulate, ackResults);
    forall i | |st.comments| <= i < |r.comments| ensures r.comments[i] !in r.comments[..i] {
      if r.comments[i] in r.comments[..i] {
        PresentItself(r.comments[i], r.comments[..i]);
      }
    }
  }

  /**
   * The run's result is that of the last acknowledge call, and stays what
   * it was when no call is made.
   */
  lemma {:induction false} ResultIsLastCall(rs: seq<AckResolution>, st: Run, simulate: bool, ackResults: Comment -> seq<ActionResult>)
    ensures var r := Replay(rs, st, simulate, ackResults);
      |st.calls| <= |r.calls| &&
      (|r.calls| == |st.calls| ==> r.last == st.last) &&
      (|r.calls| > |st.calls| ==> r.calls[|r.calls| - 1].AcknowledgeProblem? &&
                                  r.last == Some(Acknowledged(ackResults(r.calls[|r.calls| - 1].comment))))
    decreases |rs|
  {
    if rs != [] {
      ResultIsLastCall(rs[..|rs| - 1], st, simulate, ackResults);
    }
  }

  /**
   * A run without error that is not simulated leaves every target either
   * found by its query or with a failed acknowledgement.
   */
  lemma {:induction false} TargetsCovered(rs: seq<AckResolution>, st: Run, ackResults: Comment -> seq<ActionResult>)
    requires Replay(rs, st, false, ackResults).error.None?
    ensures var r := Replay(rs, st, false, ackResults);
      forall i | 0 <= i < |rs| && rs[i].Target? :: Present(rs[i].comment, r.comments) || !Acknowledged(ackResults(rs[i].comment))
    decreases |rs|
  {
    if rs != [] {
      var init, last := rs[..|rs| - 1], rs[|rs| - 1];
      var p := Replay(init, st, false, ackResults);
      var r := Replay(rs, st, false, ackResults);
      assert p.error.None?;
      TargetsCovered(init, st, ackResults);
      var added := StepCovers(p, last, ackResults);
      CoveredGrows(init, p.comments, added, ackResults);
      forall i | 0 <= i < |rs| && rs[i].Target?
        ensures Present(rs[i].comment, r.comments) || !Acknowledged(ackResults(rs[i].comment))
      {
        if i < |init| {
          assert init[i] == rs[i];
        }
      }
    }
  }

  /** A step that is not simulated only adds comments, and leaves its own target found or failed. */
  lemma StepCovers(p: Run, res: AckResolution, ackResults: Comment -> seq<ActionResult>) returns (added: seq<Comment>)
    requires p.error.None?
    ensures Step(p, res, false, ackResults).comments == p.comments + added
    ensures res.Target? ==> Present(res.comment, Step(p, res, false, ackResults).comments) || !Acknowledged(ackResults(res.comment))
  {
    StepFacts(p, res, false, ackResults);
    var q := Step(p, res, false, ackResults);
    if !Acts(p, res, false) {
      added := [];
      assert q.comments == p.comments + added;
      if res.Target? {
        assert Present(res.comment, p.comments);
      }
    } else if Acknowledged(ackResults(res.comment)) {
      added := [res.comment];
      PresentItself(res.comment, q.comments);
    } else {
      added := [];
      assert q.comments == p.comments + added;
    }
  }

  /** Targets found in a list of comments are still found once more comments are added. */
  lemma CoveredGrows(rs: seq<AckResolution>, comments: seq<Comment>, more: seq<Comment>, ackResults: Comment -> seq<ActionResult>)
    requires forall i | 0 <= i < |rs| && rs[i].Target? :: Present(rs[i].comment, comments) || !Acknowledged(ackResults(rs[i].comment))
    ensures forall i | 0 <= i < |rs| && rs[i].Target? :: Present(rs[i].comment, comments + more) || !Acknowledged(ackResults(rs[i].comment))
  {
    forall i | 0 <= i < |rs| && rs[i].Target? && Present(rs[i].comment, comments)
      ensures Present(rs[i].comment, comments + more)
    {
      PresentGrows(rs[i].comment, comments, more);
    }
  }


  /**
   * Running the migration again, on the comments the first run left,
   * acknowledges only targets whose acknowledgement failed before.
   */
  lemma Rerun(rs: seq<AckResolution>, st: Run, ackResults: Comment -> seq<ActionResult>)
    requires Replay(rs, st, false, ackResults).error.None?
    ensures var first := Replay(rs, st, false, ackResults);
      var second := Replay(rs, Start(first.comments, first.calls), false, ackResults);
      |first.calls| <= |second.calls| &&
      forall x | x in second.calls[|first.calls|..] :: x.AcknowledgeProblem? && !Acknowledged(ackResults(x.comment))
  {
    var first := Replay(rs, st, false, ackResults);
    var start := Start(first.comments, first.calls);
    var second := Replay(rs, start, false, ackResults);
    TargetsCovered(rs, st, ackResults);
    CallsOnlyWhenAbsent(rs, start, false, ackResults);
    forall x | x in second.calls[|first.calls|..] ensures x.AcknowledgeProblem? && !Acknowledged(ackResults(x.comment)) {
      var i :| 0 <= i < |rs| && rs[i] == Target(x.comment);
    }
  }

  // ---------------------------------------------------------------------------
  // The migrations
  // ---------------------------------------------------------------------------

  /** The resolutions of the acknowledgements, one each, in order. */
  function Resolutions(acks: seq<Record>, resolve: Record -> AckResolution): (rs: seq<AckResolution>)
    ensures |rs| == |acks| && forall i | 0 <= i < |acks| :: rs[i] == resolve(acks[i])
  {
    seq(|acks|, i requires 0 <= i < |acks| => resolve(acks[i]))
  }

  function ServiceResolver(suffix: string, hosts: map<Value, Record>,
                           services1: map<Value, seq<Record>>, services2: map<Value, seq<Record>>): Record -> AckResolution {
    ack => ResolveServiceAck(ack, suffix, hosts, services1, services2)
  }

  function HostResolver(suffix: string): Record -> AckResolution {
    ack => ResolveHostAck(ack, suffix)
  }

  /**
   * `migrate_service_acknowledgements`: the run over the selected service
   * acknowledgements. `result` is the last acknowledge result (`None` for
   * `[]`), `error` the exception that ended the run, if any.
   */
  method MigrateServiceAcknowledgements(server: Icinga2Server, acks: seq<Record>, hosts: map<Value, Record>,
                                        services1: map<Value, seq<Record>>, services2: map<Value, seq<Record>>,
                                        simulate: bool, suffix: string, hostname: string)
    returns (result: Option<bool>, count: nat, error: Option<string>)
    requires forall r | r in acks :: MigrateDowntimes.HasText(r, ServiceAckFields)
    requires AckShaped(services1, services2)
    modifies server`comments, server`calls
    ensures var r := Replay(Resolutions(Selected(acks, hostname), ServiceResolver(suffix, hosts, services1, services2)),
                            Start(old(server.comments), old(server.calls)), simulate, server.ackResults);
      server.comments == r.comments && server.calls == r.calls && count == r.count && result == r.last && error == r.error
  {
    result, count, error := MigrateAll(server, Selected(acks, hostname), ServiceResolver(suffix, hosts, services1, services2), simulate);
  }

  /** `migrate_host_acknowledgements`: the same run over the selected host acknowledgements, without a host check. */
  method MigrateHostAcknowledgements(server: Icinga2Server, acks: seq<Record>, simulate: bool, suffix: string, hostname: string)
    returns (result: Option<bool>, count: nat)
    requires forall r | r in acks :: MigrateDowntimes.HasText(r, HostAckFields)
    modifies server`comments, server`calls
    ensures var r := Replay(Resolutions(Selected(acks, hostname), HostResolver(suffix)),
                            Start(old(server.comments), old(server.calls)), simulate, server.ackResults);
      server.comments == r.comments && server.calls == r.calls && count == r.count && result == r.last
  {
    var error;
    result, count, error := MigrateAll(server, Selected(acks, hostname), HostResolver(suffix), simulate);
  }

  /** The loop both migrations share. */
  method MigrateAll(server: Icinga2Server, todo: seq<Record>, resolve: Record -> AckResolution, simulate: bool)
    returns (result: Option<bool>, count: nat, error: Option<string>)
    modifies server`comments, server`calls
    ensures var r := Replay(Resolutions(todo, resolve), Start(old(server.comments), old(server.calls)), simulate, server.ackResults);
      server.comments == r.comments && server.calls == r.calls && count == r.count && result == r.last && error == r.error
  {
    ghost var rs := Resolutions(todo, resolve);
    ghost var start := Start(server.comments, server.calls);
    result, count, error := None, 0, None;
    var i := 0;
    while i < |todo| && error.None?
      invariant 0 <= i <= |todo|
      invariant Replay(rs[..i], start, simulate, server.ackResults) == Run(server.comments, server.calls, count, result, error)
    {
      ReplaySnoc(rs, i, start, simulate, server.ackResults);
      var res := resolve(todo[i]);
      match res {
        case Skip =>
        case Abort(e) =>
          error := Some(e);
        case Target(c) =>
          var acked := AcknowledgeTarget(server, c, simulate);
          if acked.Some? {
            result := acked;
            if acked.value {
              count := count + 1;
            }
          }
      }
      i := i + 1;
    }
    if error.Some? {
      ReplayStops(rs, i, start, simulate, server.ackResults);
    } else {
      assert rs[..i] == rs;
    }
  }

  /**
   * One target: unless simulating, the existence query, and acknowledge
   * when it finds nothing. Answers the acknowledge result, `None` when
   * acknowledge was not called.
   */
  method AcknowledgeTarget(server: Icinga2Server, c: Comment, simulate: bool) returns (acked: Option<bool>)
    modifies server`comments, server`calls
    ensures simulate || Present(c, old(server.comments)) ==>
      acked == None && server.comments == old(server.comments) && server.calls == old(server.calls)
    ensures !simulate && !Present(c, old(server.comments)) ==>
      var ok := Acknowledged(server.ackResults(c));
      acked == Some(ok) && server.comments == old(server.comments) + (if ok then [c] else []) &&
      server.calls == old(server.calls) + [AcknowledgeProblem(c)]
  {
    if simulate {
      return None;
    }
    var found := server.QueryComments(TargetQuery(c));
    if found != [] {
      acked := None;
    } else {
      var ok := server.Acknowledge(c);
      acked := Some(ok);
    }
  }
}
