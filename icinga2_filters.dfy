/**
 * The filter expressions the Icinga 2 client sends with its queries and
 * actions (icinga_migration_utils/icinga2/icinga2.py), and what they select.
 *
 * A filter is a conjunction of clauses joined by ` && `, with the values in
 * a separate `filter_vars` dictionary. Icinga 2 evaluates a filter once per
 * candidate object: a dotted name (`host.name`, `downtime.author`) reads an
 * attribute of the object or of an object joined to it, and a bare name reads
 * the filter variable of that name (filter variables are set in the same
 * scope). So a clause `author==author` compares a variable with itself.
 */
module Icinga2Filters {
  import opened Values
  import opened Strings

  /** One clause of a filter. */
  datatype Clause =
    | Compare(attribute: string, variable: string) // attribute==variable
    | IsNull(attribute: string)                    // attribute==null
    | NotNull(attribute: string)                   // attribute!=null
    | EqualsText(attribute: string, text: string)  // attribute=="text"

  function Render(c: Clause): string {
    match c
    case Compare(a, v) => a + "==" + v
    case IsNull(a) => a + "==null"
    case NotNull(a) => a + "!=null"
    case EqualsText(a, t) => a + "==\"" + t + "\""
  }

  function RenderAll(cs: seq<Clause>): (r: seq<string>)
    ensures |r| == |cs| && forall i | 0 <= i < |cs| :: r[i] == Render(cs[i])
  {
    seq(|cs|, i requires 0 <= i < |cs| => Render(cs[i]))
  }

  /** A filter as the client builds it: its clauses, in order, and `filter_vars`. */
  datatype Query = Query(clauses: seq<Clause>, vars: map<string, Value>)

  /** The `filter` string sent: `' && '.join(clauses)`. */
  function FilterText(q: Query): string {
    Join(RenderAll(q.clauses), " && ")
  }

  // ---------------------------------------------------------------------------
  // What a filter selects
  // ---------------------------------------------------------------------------

  /**
   * The value of a name while the filter is evaluated on an object whose
   * (dotted) attributes are `obj`: an attribute, else a filter variable, else null.
   */
  function Resolve(name: string, obj: map<string, Value>, vars: map<string, Value>): Value {
    if name in obj then obj[name] else if name in vars then vars[name] else Null
  }

  predicate Holds(c: Clause, obj: map<string, Value>, vars: map<string, Value>) {
    match c
    case Compare(a, v) => Resolve(a, obj, vars) == Resolve(v, obj, vars)
    case IsNull(a) => Resolve(a, obj, vars) == Null
    case NotNull(a) => Resolve(a, obj, vars) != Null
    case EqualsText(a, t) => Resolve(a, obj, vars) == Str(t)
  }

  /** The filter selects the object: every clause holds. */
  predicate Selects(q: Query, obj: map<string, Value>) {
    forall c | c in q.clauses :: Holds(c, obj, q.vars)
  }

  /** Every clause of a filter holds for every object the filter selects. */
  lemma ClauseRequired(q: Query, c: Clause)
    requires c in q.clauses
    ensures forall obj :: Selects(q, obj) ==> Holds(c, obj, q.vars)
  {
  }

  /** A comparison with a variable the object does not shadow pins the compared attribute to the variable's value. */
  lemma CompareForces(q: Query, obj: map<string, Value>, attr: string, variable: string)
    requires Compare(attr, variable) in q.clauses && Selects(q, obj)
    requires variable !in obj && variable in q.vars
    ensures Resolve(attr, obj, q.vars) == q.vars[variable]
  {
    assert Holds(Compare(attr, variable), obj, q.vars);
  }

  /** A clause comparing a name that is not an attribute with itself holds for every object. */
  lemma SelfComparisonHolds(name: string, obj: map<string, Value>, vars: map<string, Value>)
    ensures Holds(Compare(name, name), obj, vars)
  {
  }

  // ---------------------------------------------------------------------------
  // The optional-argument builders
  // ---------------------------------------------------------------------------

  /** An optional argument: given when its value is a non-empty string (Python truthiness). */
  datatype Arg = Arg(attribute: string, variable: string, value: string)

  predicate Given(a: Arg) {
    a.value != ""
  }

  function IsGiven(): Arg -> bool {
    a => Given(a)
  }

  function ClauseOf(a: Arg): Clause {
    Compare(a.attribute, a.variable)
  }

  function ClausesOf(args: seq<Arg>): (cs: seq<Clause>)
    ensures |cs| == |args| && forall i | 0 <= i < |args| :: cs[i] == ClauseOf(args[i])
  {
    seq(|args|, i requires 0 <= i < |args| => ClauseOf(args[i]))
  }

  predicate DistinctVariables(args: seq<Arg>) {
    forall i, j | 0 <= i < j < |args| :: args[i].variable != args[j].variable
  }

  /**
   * The pattern of the builders: for each given argument, in order, append
   * the clause `attribute==variable` and bind the variable to the value.
   * The clauses are those of the given arguments in argument order.
   */
  function Build(args: seq<Arg>): Query
    decreases |args|
  {
    if args == [] then Query([], map[])
    else
      var q0 := Build(args[..|args| - 1]);
      var a := args[|args| - 1];
      if Given(a) then Query(q0.clauses + [ClauseOf(a)], q0.vars[a.variable := Str(a.value)])
      else Query(q0.clauses, q0.vars)
  }

  /** The clauses of a built filter are those of the given arguments, in argument order. */
  lemma {:induction false} BuildClauses(args: seq<Arg>)
    ensures Build(args).clauses == ClausesOf(Filter(args, IsGiven()))
    decreases |args|
  {
    if args != [] {
      var init := args[..|args| - 1];
      var a := args[|args| - 1];
      BuildClauses(init);
      assert args == init + [a];
      FilterSnoc(init, a, IsGiven());
      if Given(a) {
        ClausesSnoc(Filter(init, IsGiven()), a);
      }
    }
  }

  lemma ClausesSnoc(args: seq<Arg>, a: Arg)
    ensures ClausesOf(args + [a]) == ClausesOf(args) + [ClauseOf(a)]
  {
  }

  /** The variables of a built filter are exactly those of the given arguments. */
  lemma {:induction false} BuiltVars(args: seq<Arg>, k: string)
    ensures k in Build(args).vars <==> exists i :: 0 <= i < |args| && Given(args[i]) && args[i].variable == k
    decreases |args|
  {
    if args != [] {
      var init := args[..|args| - 1];
      BuiltVars(init, k);
      assert forall i | 0 <= i < |init| :: init[i] == args[i];
    }
  }

  /** With distinct variables, each given argument's variable is bound to its value. */
  lemma {:induction false} BuiltValue(args: seq<Arg>, i: int)
    requires DistinctVariables(args) && 0 <= i < |args| && Given(args[i])
    ensures args[i].variable in Build(args).vars && Build(args).vars[args[i].variable] == Str(args[i].value)
    decreases |args|
  {
    var init := args[..|args| - 1];
    if i < |args| - 1 {
      assert init[i] == args[i];
      assert DistinctVariables(init) by {
        forall x, y | 0 <= x < y < |init| ensures init[x].variable != init[y].variable {
          assert init[x] == args[x] && init[y] == args[y];
        }
      }
      BuiltValue(init, i);
    }
  }

  /**
   * What a built filter means: on an object without attributes named like
   * the variables, it selects the object exactly when every given argument's
   * attribute has the argument's value.
   */
  lemma BuildSelects(args: seq<Arg>, obj: map<string, Value>)
    requires DistinctVariables(args)
    requires forall i | 0 <= i < |args| :: args[i].variable !in obj
    ensures Selects(Build(args), obj) <==>
      forall i | 0 <= i < |args| && Given(args[i]) :: Resolve(args[i].attribute, obj, Build(args).vars) == Str(args[i].value)
  {
    var q := Build(args);
    forall i | 0 <= i < |args| && Given(args[i])
      ensures Holds(ClauseOf(args[i]), obj, q.vars) <==> Resolve(args[i].attribute, obj, q.vars) == Str(args[i].value)
    {
      BuiltValue(args, i);
      assert Resolve(args[i].variable, obj, q.vars) == Str(args[i].value);
    }
    BuiltClauses(args);
  }

  /** The clauses of a built filter are those of the given arguments. */
  lemma BuiltClauses(args: seq<Arg>)
    ensures forall c :: c in Build(args).clauses <==> exists i :: 0 <= i < |args| && Given(args[i]) && c == ClauseOf(args[i])
  {
    var kept := Filter(args, IsGiven());
    var cs := Build(args).clauses;
    BuildClauses(args);
    forall c | c in cs ensures exists i :: 0 <= i < |args| && Given(args[i]) && c == ClauseOf(args[i]) {
      var j :| 0 <= j < |cs| && cs[j] == c;
      assert kept[j] in kept;
      var i :| 0 <= i < |args| && args[i] == kept[j];
      assert Given(args[i]) && c == ClauseOf(args[i]);
    }
    forall i | 0 <= i < |args| && Given(args[i]) ensures ClauseOf(args[i]) in cs {
      assert args[i] in kept;
      var j :| 0 <= j < |kept| && kept[j] == args[i];
      assert cs[j] == ClauseOf(args[i]);
    }
  }

  // ---------------------------------------------------------------------------
  // The filters of the client's queries
  // ---------------------------------------------------------------------------

  function ServiceArgs(hostAddress: string, hostName: string, serviceName: string): seq<Arg> {
    [Arg("host.address", "host_address", hostAddress),
     Arg("host.name", "host_name", hostName),
     Arg("service.name", "service_name", serviceName)]
  }

  /** The attributes `get_services` asks for when it fetches all services. */
  const ReducedServiceAttrs: seq<string> :=
    ["check_command", "name", "vars", "enable_notifications", "last_check_result", "notes_url", "display_name"]

  datatype ServicesRequest = ServicesRequest(query: Query, attrs: Option<seq<string>>, joins: seq<string>)

  /**
   * `get_services`: the clauses for host address, host name and service name,
   * each only when given, in that order, each variable bound to its argument;
   * the reduced attribute list only when no attributes and no host name are
   * given; the joins `host.address`, `host.name` when none are given.
   */
  function ServicesQuery(hostAddress: string, hostName: string, serviceName: string,
                         attrs: Option<seq<string>>, joins: seq<string>): (r: ServicesRequest)
    ensures r.query.clauses == ClausesOf(Filter(ServiceArgs(hostAddress, hostName, serviceName), IsGiven()))
    ensures ("host_address" in r.query.vars <==> hostAddress != "") && (hostAddress != "" ==> r.query.vars["host_address"] == Str(hostAddress))
    ensures ("host_name" in r.query.vars <==> hostName != "") && (hostName != "" ==> r.query.vars["host_name"] == Str(hostName))
    ensures ("service_name" in r.query.vars <==> serviceName != "") && (serviceName != "" ==> r.query.vars["service_name"] == Str(serviceName))
    ensures r.attrs == (if attrs.None? && hostName == "" then Some(ReducedServiceAttrs) else attrs)
    ensures r.joins == (if joins == [] then ["host.address", "host.name"] else joins)
  {
    var args := ServiceArgs(hostAddress, hostName, serviceName);
    BuiltVar(args, 0);
    BuiltVar(args, 1);
    BuiltVar(args, 2);
    BuildClauses(args);
    var q := Build(args);
    ServicesRequest(
      q,
      if attrs.None? && hostName == "" then Some(ReducedServiceAttrs) else attrs,
      if joins == [] then ["host.address", "host.name"] else joins)
  }

  /** A variable of a built filter is bound exactly when its argument is given, and then to its value. */
  lemma BuiltVar(args: seq<Arg>, i: int)
    requires DistinctVariables(args) && 0 <= i < |args|
    ensures args[i].variable in Build(args).vars <==> Given(args[i])
    ensures Given(args[i]) ==> Build(args).vars[args[i].variable] == Str(args[i].value)
  {
    BuiltVars(args, args[i].variable);
    if Given(args[i]) {
      BuiltValue(args, i);
    }
  }

  function AcknowledgementArgs(hostName: string, author: string, comment: string, serviceName: string): seq<Arg> {
    [Arg("host.name", "hostname", hostName),
     Arg("comment.author", "author", author),
     Arg("comment.text", "text", comment),
     Arg("service.name", "servicename", serviceName)]
  }

  /** `get_acknowledgements`: host name, author, text and service name clauses, each when given, in that order. */
  function AcknowledgementsQuery(hostName: string, author: string, comment: string, serviceName: string): Query {
    Build(AcknowledgementArgs(hostName, author, comment, serviceName))
  }

  /** The acknowledgement query's clauses, and the comments it selects: those matching every given argument. */
  lemma AcknowledgementsQueryMeaning(hostName: string, author: string, comment: string, serviceName: string)
    ensures var q := AcknowledgementsQuery(hostName, author, comment, serviceName);
      q.clauses == ClausesOf(Filter(AcknowledgementArgs(hostName, author, comment, serviceName), IsGiven())) &&
      forall obj: map<string, Value> | "hostname" !in obj && "author" !in obj && "text" !in obj && "servicename" !in obj ::
        Selects(q, obj) <==>
          (hostName != "" ==> Resolve("host.name", obj, q.vars) == Str(hostName)) &&
          (author != "" ==> Resolve("comment.author", obj, q.vars) == Str(author)) &&
          (comment != "" ==> Resolve("comment.text", obj, q.vars) == Str(comment)) &&
          (serviceName != "" ==> Resolve("service.name", obj, q.vars) == Str(serviceName))
  {
    var args := AcknowledgementArgs(hostName, author, comment, serviceName);
    BuildClauses(args);
    forall obj: map<string, Value> | "hostname" !in obj && "author" !in obj && "text" !in obj && "servicename" !in obj
      ensures Selects(Build(args), obj) <==>
        (hostName != "" ==> Resolve("host.name", obj, Build(args).vars) == Str(hostName)) &&
        (author != "" ==> Resolve("comment.author", obj, Build(args).vars) == Str(author)) &&
        (comment != "" ==> Resolve("comment.text", obj, Build(args).vars) == Str(comment)) &&
        (serviceName != "" ==> Resolve("service.name", obj, Build(args).vars) == Str(serviceName))
    {
      SelectsFour(args, obj);
    }
  }

  /** `BuildSelects` written out for four arguments. */
  lemma SelectsFour(args: seq<Arg>, obj: map<string, Value>)
    requires |args| == 4 && DistinctVariables(args)
    requires forall i | 0 <= i < |args| :: args[i].variable !in obj
    ensures Selects(Build(args), obj) <==>
      (Given(args[0]) ==> Resolve(args[0].attribute, obj, Build(args).vars) == Str(args[0].value)) &&
      (Given(args[1]) ==> Resolve(args[1].attribute, obj, Build(args).vars) == Str(args[1].value)) &&
      (Given(args[2]) ==> Resolve(args[2].attribute, obj, Build(args).vars) == Str(args[2].value)) &&
      (Given(args[3]) ==> Resolve(args[3].attribute, obj, Build(args).vars) == Str(args[3].value))
  {
    BuildSelects(args, obj);
  }

  /**
   * `get_host_notifications`: the optional host clause, the optional
   * customer-notification clause, and always `service.name==null` last.
   */
  function HostNotificationsQuery(hostName: string, customerOnly: bool): (q: Query)
    ensures q.clauses != [] && q.clauses[|q.clauses| - 1] == IsNull("service.name")
    ensures (hostName != "") == (Compare("host.name", "hostname") in q.clauses)
    ensures hostName != "" ==> q.vars == map["hostname" := Str(hostName)]
    ensures customerOnly == (EqualsText("notification.name", "customer -> Host") in q.clauses)
  {
    var clauses := (if hostName != "" then [Compare("host.name", "hostname")] else [])
                   + (if customerOnly then [EqualsText("notification.name", "customer -> Host")] else [])
                   + [IsNull("service.name")];
    Query(clauses, if hostName != "" then map["hostname" := Str(hostName)] else map[])
  }

  /** The host-notification filter ends with `service.name==null` and selects no notification of a service. */
  lemma HostNotificationsExcludeServices(hostName: string, customerOnly: bool)
    ensures EndsWith(FilterText(HostNotificationsQuery(hostName, customerOnly)), "service.name==null")
    ensures forall obj :: Selects(HostNotificationsQuery(hostName, customerOnly), obj) ==>
      Resolve("service.name", obj, HostNotificationsQuery(hostName, customerOnly).vars) == Null
  {
    var q := HostNotificationsQuery(hostName, customerOnly);
    EndsWithLastClause(q.clauses, "service.name==null");
    ClauseRequired(q, IsNull("service.name"));
  }

  /**
   * The clauses `get_service_notifications` joins: the optional host clause,
   * the optional customer-notification clause, then the service clause when a
   * service name is given and `service.name!=null` otherwise.
   */
  function ServiceNotificationClauses(hostName: string, serviceName: string, customerOnly: bool): (cs: seq<Clause>)
    ensures cs != []
    ensures cs[|cs| - 1] == if serviceName != "" then Compare("service.name", "servicename") else NotNull("service.name")
    ensures (hostName != "") == (Compare("host.name", "hostname") in cs)
    ensures customerOnly == (EqualsText("notification.name", "customer -> Service") in cs)
  {
    (if hostName != "" then [Compare("host.name", "hostname")] else [])
    + (if customerOnly then [EqualsText("notification.name", "customer -> Service")] else [])
    + (if serviceName != "" then [Compare("service.name", "servicename")] else [NotNull("service.name")])
  }

  /**
   * `get_service_notifications`: its clauses, and ` && service.name!=null`
   * appended to their joined text once more.
   */
  function ServiceNotificationsQuery(hostName: string, serviceName: string, customerOnly: bool): (q: Query)
    ensures q.clauses == ServiceNotificationClauses(hostName, serviceName, customerOnly) + [NotNull("service.name")]
    ensures serviceName != "" <==> "servicename" in q.vars
    ensures serviceName != "" ==> q.vars["servicename"] == Str(serviceName)
    ensures hostName != "" <==> "hostname" in q.vars
    ensures hostName != "" ==> q.vars["hostname"] == Str(hostName)
  {
    var vars := (if hostName != "" then map["hostname" := Str(hostName)] else map[])
                + (if serviceName != "" then map["servicename" := Str(serviceName)] else map[]);
    Query(ServiceNotificationClauses(hostName, serviceName, customerOnly) + [NotNull("service.name")], vars)
  }

  /** The text of the service-notification filter is its joined clauses plus ` && service.name!=null`. */
  lemma ServiceNotificationsText(hostName: string, serviceName: string, customerOnly: bool)
    ensures FilterText(ServiceNotificationsQuery(hostName, serviceName, customerOnly)) ==
      Join(RenderAll(ServiceNotificationClauses(hostName, serviceName, customerOnly)), " && ") + " && service.name!=null"
  {
    var inner := ServiceNotificationClauses(hostName, serviceName, customerOnly);
    var q := ServiceNotificationsQuery(hostName, serviceName, customerOnly);
    TrailingNotNull(inner, q.vars);
  }

  /** The filter always ends with ` && service.name!=null`; without a service name that clause is there twice. */
  lemma ServiceNotificationsTail(hostName: string, serviceName: string, customerOnly: bool)
    ensures EndsWith(FilterText(ServiceNotificationsQuery(hostName, serviceName, customerOnly)), " && service.name!=null")
    ensures serviceName == "" ==>
      EndsWith(FilterText(ServiceNotificationsQuery(hostName, serviceName, customerOnly)), "service.name!=null && service.name!=null")
  {
    var inner := ServiceNotificationClauses(hostName, serviceName, customerOnly);
    ServiceNotificationsText(hostName, serviceName, customerOnly);
    JoinedTail(inner);
    if serviceName == "" {
      DoubledTail();
      assert Render(inner[|inner| - 1]) + " && service.name!=null" == "service.name!=null && service.name!=null";
    }
  }

  lemma DoubledTail()
    ensures Render(NotNull("service.name")) + " && service.name!=null" == "service.name!=null && service.name!=null"
  {
  }

  lemma JoinedTail(inner: seq<Clause>)
    requires inner != []
    ensures EndsWith(Join(RenderAll(inner), " && ") + " && service.name!=null", " && service.name!=null")
    ensures EndsWith(Join(RenderAll(inner), " && ") + " && service.name!=null", Render(inner[|inner| - 1]) + " && service.name!=null")
  {
    EndsWithLastClause(inner, Render(inner[|inner| - 1]));
    EndsWithAppend(Join(RenderAll(inner), " && "), Render(inner[|inner| - 1]), " && service.name!=null");
  }

  /** The service-notification filter selects no notification without a service. */
  lemma ServiceNotificationsExcludeHosts(hostName: string, serviceName: string, customerOnly: bool)
    ensures forall obj :: Selects(ServiceNotificationsQuery(hostName, serviceName, customerOnly), obj) ==>
      Resolve("service.name", obj, ServiceNotificationsQuery(hostName, serviceName, customerOnly).vars) != Null
  {
    var q := ServiceNotificationsQuery(hostName, serviceName, customerOnly);
    assert q.clauses[|q.clauses| - 1] == NotNull("service.name");
    ClauseRequired(q, NotNull("service.name"));
  }

  /** Appending ` && service.name!=null` to the joined text is the same as joining one more clause. */
  lemma TrailingNotNull(inner: seq<Clause>, vars: map<string, Value>)
    requires inner != []
    ensures FilterText(Query(inner + [NotNull("service.name")], vars)) == FilterText(Query(inner, vars)) + " && service.name!=null"
  {
    TrailingClause(inner, NotNull("service.name"), vars);
    RenderNotNull();
    SepNotNull();
  }

  /** Joining one more clause appends the separator and its rendering. */
  lemma TrailingClause(inner: seq<Clause>, c: Clause, vars: map<string, Value>)
    requires inner != []
    ensures FilterText(Query(inner + [c], vars)) == FilterText(Query(inner, vars)) + (" && " + Render(c))
  {
    RenderAllSnoc(inner, c);
    JoinSnoc(RenderAll(inner), Render(c), " && ");
  }

  lemma SepNotNull()
    ensures " && " + "service.name!=null" == " && service.name!=null"
  {
  }

  lemma RenderAllSnoc(cs: seq<Clause>, c: Clause)
    ensures RenderAll(cs + [c]) == RenderAll(cs) + [Render(c)]
  {
    assert forall i | 0 <= i < |cs| :: (cs + [c])[i] == cs[i];
  }

  /** The filter text ends with the rendering of its last clause. */
  lemma EndsWithLastClause(cs: seq<Clause>, text: string)
    requires cs != [] && Render(cs[|cs| - 1]) == text
    ensures EndsWith(Join(RenderAll(cs), " && "), text)
  {
    EndsWithJoin(RenderAll(cs), " && ");
  }

  lemma RenderNotNull()
    ensures Render(NotNull("service.name")) == "service.name!=null"
  {
  }

  lemma EndsWithAppend(a: string, x: string, y: string)
    requires EndsWith(a, x)
    ensures EndsWith(a + y, x + y) && EndsWith(a + y, y)
  {
    assert (a + y)[|a + y| - |x + y|..] == a[|a| - |x|..] + y;
    assert (a + y)[|a + y| - |y|..] == y;
  }

  /** A joined list ends with its last part. */
  lemma EndsWithJoin(parts: seq<string>, sep: string)
    requires parts != []
    ensures EndsWith(Join(parts, sep), parts[|parts| - 1])
  {
    if |parts| > 1 {
      var init := parts[..|parts| - 1];
      assert parts == init + [parts[|parts| - 1]];
      JoinSnoc(init, parts[|parts| - 1], sep);
    }
  }

  // ---------------------------------------------------------------------------
  // get_downtimes
  // ---------------------------------------------------------------------------

  /** `key.replace('host_name', 'host.name').replace('service_name', 'service.name')`. */
  function Rename(key: string): string {
    ReplaceAll(ReplaceAll(key, "host_name", "host.name"), "service_name", "service.name")
  }

  lemma RenameHostName()
    ensures Rename("host_name") == "host.name"
  {
    ReplaceWhole("host_name", "host.name");
    assert |"host.name"| < |"service_name"|;
  }

  lemma RenameServiceName()
    ensures Rename("service_name") == "service.name"
  {
    Absent("service_name", "host_name", 'h');
    ReplaceAbsent("service_name", "host_name", "host.name");
    ReplaceWhole("service_name", "service.name");
  }

  /** Replacing a whole string by `rep` gives `rep`. */
  lemma ReplaceWhole(pat: string, rep: string)
    requires pat != []
    ensures ReplaceAll(pat, pat, rep) == rep
  {
    assert pat[..|pat|] == pat;
    assert ReplaceAll(pat[|pat|..], pat, rep) == [];
  }

  /** A key in which neither `host_name` nor `service_name` occurs is kept as it is. */
  lemma RenameOther(key: string)
    requires !Contains(key, "host_name") && !Contains(key, "service_name")
    ensures Rename(key) == key
  {
    ReplaceAbsent(key, "host_name", "host.name");
    ReplaceAbsent(key, "service_name", "service.name");
  }

  /** A string without the character `c` contains no string with `c` in it. */
  lemma Absent(s: string, sub: string, c: char)
    requires c in sub && c !in s
    ensures !Contains(s, sub)
  {
  }

  predicate DistinctKeys(query: seq<(string, Value)>) {
    forall i, j | 0 <= i < j < |query| :: query[i].0 != query[j].0
  }

  function DowntimeClauses(query: seq<(string, Value)>): (cs: seq<Clause>)
    ensures |cs| == |query| && forall i | 0 <= i < |query| :: cs[i] == Compare(Rename(query[i].0), query[i].0)
  {
    seq(|query|, i requires 0 <= i < |query| => Compare(Rename(query[i].0), query[i].0))
  }

  /**
   * `get_downtimes(**query)`: no filter and no variables for an empty query;
   * otherwise one clause `k'==k` per keyword `k`, where `k'` renames
   * `host_name` and `service_name` to their dotted attributes, and the
   * variables are the query itself.
   */
  function DowntimesQuery(query: seq<(string, Value)>): (r: Option<Query>)
    requires DistinctKeys(query)
    ensures r.None? <==> query == []
    ensures r.Some? ==> r.value.clauses == DowntimeClauses(query)
    ensures r.Some? ==> forall k :: k in r.value.vars <==> exists i :: 0 <= i < |query| && query[i].0 == k
    ensures r.Some? ==> forall i | 0 <= i < |query| :: r.value.vars[query[i].0] == query[i].1
  {
    if query == [] then None
    else Some(Query(DowntimeClauses(query), VarsOf(query)))
  }

  function VarsOf(query: seq<(string, Value)>): (m: map<string, Value>)
    requires DistinctKeys(query)
    ensures forall k :: k in m <==> exists i :: 0 <= i < |query| && query[i].0 == k
    ensures forall i | 0 <= i < |query| :: m[query[i].0] == query[i].1
    decreases |query|
  {
    if query == [] then map[]
    else
      var m := VarsOf(query[1..]);
      assert forall i | 1 <= i < |query| :: query[1..][i - 1] == query[i];
      m[query[0].0 := query[0].1]
  }

  // ---------------------------------------------------------------------------
  // match() in the clean-up filter
  // ---------------------------------------------------------------------------

  /** Icinga 2's `match(pattern, text)`: `*` matches any run of characters, `?` any one character. */
  predicate Glob(p: string, s: string)
    decreases |p| + |s|
  {
    if p == [] then s == []
    else if p[0] == '*' then Glob(p[1..], s) || (s != [] && Glob(p, s[1..]))
    else s != [] && (p[0] == '?' || p[0] == s[0]) && Glob(p[1..], s[1..])
  }

  predicate NoWildcards(p: string) {
    '*' !in p && '?' !in p
  }

  /** A pattern without wildcards matches only itself. */
  lemma {:induction false} GlobLiteral(p: string, s: string)
    requires NoWildcards(p)
    ensures Glob(p, s) <==> s == p
    decreases |p|
  {
    if p != [] {
      assert p == [p[0]] + p[1..];
      if s != [] {
        GlobLiteral(p[1..], s[1..]);
        assert s == [s[0]] + s[1..];
      }
    }
  }

  /** `match("*" + suffix, text)` holds exactly for the texts ending with `suffix`, for a suffix without wildcards. */
  lemma {:induction false} GlobSuffix(suffix: string, s: string)
    requires NoWildcards(suffix)
    ensures Glob("*" + suffix, s) <==> EndsWith(s, suffix)
    decreases |s|
  {
    var p := "*" + suffix;
    assert p[0] == '*' && p[1..] == suffix;
    assert Glob(p, s) <==> Glob(suffix, s) || (s != [] && Glob(p, s[1..]));
    GlobLiteral(suffix, s);
    EndsWithStep(s, suffix);
    if s != [] {
      GlobSuffix(suffix, s[1..]);
    }
  }

  /** A text ends with a suffix when it is the suffix or its tail ends with it. */
  lemma EndsWithStep(s: string, suffix: string)
    ensures EndsWith(s, suffix) <==> s == suffix || (s != [] && EndsWith(s[1..], suffix))
  {
    if s != [] && |suffix| <= |s| - 1 {
      assert s[1..][|s[1..]| - |suffix|..] == s[|s| - |suffix|..];
    }
    if |suffix| == |s| {
      assert s[|s| - |suffix|..] == s;
    }
  }

  /** The filter of `clean_migrated_downtimes`: `match("*<suffix>", downtime.comment)`. */
  predicate CleanupMatches(suffix: string, comment: string) {
    Glob("*" + suffix, comment)
  }

  /** Every string matches itself read as a pattern: `*` and `?` each stand for themselves among what they match. */
  lemma {:induction false} GlobSelf(s: string)
    ensures Glob(s, s)
    decreases |s|
  {
    if s != [] {
      GlobSelf(s[1..]);
      if s[0] == '*' {
        assert Glob(s, s[1..]);
      }
    }
  }

  /** `*` followed by any suffix, wildcards included, matches every string ending in that suffix. */
  lemma {:induction false} GlobStarSuffix(suffix: string, prefix: string)
    ensures Glob("*" + suffix, prefix + suffix)
    decreases |prefix|
  {
    var p := "*" + suffix;
    assert p[0] == '*' && p[1..] == suffix;
    if prefix == [] {
      GlobSelf(suffix);
      assert prefix + suffix == suffix;
    } else {
      GlobStarSuffix(suffix, prefix[1..]);
      assert (prefix + suffix)[1..] == prefix[1..] + suffix;
    }
  }

  /** The clean-up filter matches exactly the comments that end with the suffix. */
  lemma CleanupMatchesSuffix(suffix: string, comment: string)
    requires NoWildcards(suffix)
    ensures CleanupMatches(suffix, comment) <==> EndsWith(comment, suffix)
  {
    GlobSuffix(suffix, comment);
  }
}
