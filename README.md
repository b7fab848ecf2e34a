# icinga2-migration-utils, modelled in Dafny

icinga2-migration-utils helps move a monitoring setup from Icinga 1 to Icinga 2.

- **Reading Icinga 1.** It parses the Icinga 1 object and status caches (`objects.cache`, `status.dat`) into records.
- **Reading Icinga 2.** It reads hosts, services, downtimes, comments, users and notifications from the Icinga 2 REST API.
- **Comparing.** It compares the two installations: hosts, services, contacts and service contacts.
- **Migrating.** It carries over what a configuration sync cannot. That is downtimes, acknowledgements and notification states, each tagged with a comment suffix so that a migrated object can be told apart and cleaned up.

This project models that core and proves what it promises.

- **Records.** An Icinga 1 cache record and an Icinga 2 API answer are both a `Values.Record`, a mapping from keys to JSON-like `Values.Value`s.
- **`NestedDict`.** Models `ndict`, the nested default dictionary the tool reads optional keys through.
- **`Icinga1`.** Models the cache parser (`parse_icinga_cache`) and the `Icinga1Config` class:
  - its lazily filled caches;
  - `_get_objects` and the getters built on it;
  - the acknowledgement lists and the de-duplicated contacts.
- **`Icinga2Filters`.** Models the Icinga 2 filter expressions the tool builds: a list of clauses plus filter variables. It also gives an evaluator `Selects` for what a filter matches. A dotted name is an attribute of the object; a bare name is a filter variable.
- **`Icinga2`.** Models the `Icinga2Config` methods the rest of the tool relies on:
  - the retrying object listing;
  - the host and service indexes;
  - `get_host`;
  - the acknowledgement rule;
  - the notification-contacts merge.

  It also models the Icinga 2 server as a class (`Icinga2Server`). The class holds downtimes and comments and a trace of every write call. `set_active_checks` is a method on that class.
- **Comparisons.** `CompareHosts`, `CompareServices` and `CompareContacts` model `compare_hosts`, `compare_services` (and the duplicate detection of `compare_services_manual`), `compare_contacts` and `compare_service_contacts`. Each loop is a method proved equal to a fold function, and the lemmas say what the fold means.
- **Migrations.** `MigrateDowntimes`, `MigrateAcknowledgements` and `MigrateNotificationStates` model the three migration scripts. Each is a method that changes the modelled Icinga 2 server. It is proved to leave exactly the state, and make exactly the calls, that a specification function of its inputs predicts. Lemmas then prove what the migration promises:
  - the downtime migration's existence check, as written, finds any downtime of the host or service, so a host downtime is scheduled only on a host with no downtime yet and a service downtime only on a service with none; afterwards every selected host or service has a downtime;
  - a second run adds nothing;
  - a dry run (`simulate`) changes nothing.

Python dictionaries keep insertion order. Where the source iterates over one (`sorted(icinga1_hosts)` aside), the model takes the key order as an input sequence. Integers are unbounded; the tool does no fixed-width arithmetic.

## Model

| member | source | states |
|---|---|---|
| NestedDict.Ndict | icinga_migration_utils/utils.py:29-47 | `ndict` always yields a mapping |
| NestedDict.EmptyStaysEmpty | icinga_migration_utils/utils.py:29-47 | any path looked up in an empty nested dictionary yields an empty mapping, not an error |
| NestedDict.AbsentKey | icinga_migration_utils/utils.py:29-47 | a missing key, followed by any further keys, reads as `{}` and is falsy |
| NestedDict.NullIsAbsent | icinga_migration_utils/utils.py:46 | a key mapped to `None` is removed by `remap`, so reading through it is the same as reading a missing key |
| NestedDict.MissingLinkIsFalsy | icinga_migration_utils/utils.py:29-47 | a path that breaks at any level yields `{}`, which is falsy |
| NestedDict.StripKeeps | icinga_migration_utils/utils.py:46 | a value without `None` inside is left unchanged by the null-stripping `remap` |
| NestedDict.PresentValueUnchanged | icinga_migration_utils/utils.py:29-47 | a present key without nulls reads back its original value |
| Index.LastWithIsLast | icinga_migration_utils/icinga1/icinga1.py:231-241 | the record a name maps to is the last record carrying that name: no later record carries it |
| Index.LastWithNone | icinga_migration_utils/icinga1/icinga1.py:231-241 | a name is absent from the index iff no record carries it |
| Index.IndexLast | icinga_migration_utils/icinga1/icinga1.py:231-241 | building a dictionary by assignment in a loop yields, for each name, the last record with that name, and only names that occur |
| Index.GroupBy | icinga_migration_utils/icinga1/icinga1.py:337-348 | grouping into a `defaultdict(list)` yields, for every name, exactly the records with that name in their original order, and no empty group |
| Icinga1.Step | icinga_migration_utils/icinga1/icinga1.py:94-102 | a `key=value` line sets that key, a key-only line sets it to `None`, and every other key is unchanged |
| Icinga1.ParseCache | icinga_migration_utils/icinga1/icinga1.py:59-103 | the parsing loop yields exactly the records the token stream assembles into |
| Icinga1.OneRecordPerClose | icinga_migration_utils/icinga1/icinga1.py:83-85 | the parser emits one record per closing `}` |
| Icinga1.RecordPerSegment | icinga_migration_utils/icinga1/icinga1.py:79-103 | the lines before a `}` form one record, and parsing starts afresh after it |
| Icinga1.UnclosedRecordDropped | icinga_migration_utils/icinga1/icinga1.py:79-103 | a block without a closing `}` is dropped |
| Icinga1.LastWriteWins | icinga_migration_utils/icinga1/icinga1.py:99-102 | in a record the last line for a key wins, and keys never written keep their value |
| Icinga1.KeyOnlyIsPresent | icinga_migration_utils/icinga1/icinga1.py:94-96 | a key-only line leaves that key present with value `None` |
| Icinga1.Icinga1Config.constructor | icinga_migration_utils/icinga1/icinga1.py:111-126 | a new configuration holds its cache files and empty caches |
| Icinga1.Icinga1Config.Objects | icinga_migration_utils/icinga1/icinga1.py:128-146 | the first access parses the object caches; a non-empty cache is kept; an empty result raises (modelled as `None`) |
| Icinga1.Icinga1Config.Status | icinga_migration_utils/icinga1/icinga1.py:148-166 | as `Objects`, for the status caches |
| Icinga1.ParseFiles | icinga_migration_utils/icinga1/icinga1.py:128-146 | parsing several files concatenates their records in file order |
| Icinga1.GetObjects | icinga_migration_utils/icinga1/icinga1.py:168-175 | the result is the objects of the given type that match every keyword filter, in order |
| Icinga1.SetKeyword | icinga_migration_utils/icinga1/icinga1.py:285-335 | setting the `host_name` keyword replaces any earlier filter on that key and keeps the others |
| Icinga1.GetServices | icinga_migration_utils/icinga1/icinga1.py:285-335 | the services matching the filters; with a host name given, only services of that host |
| Icinga1.GetHostsDict | icinga_migration_utils/icinga1/icinga1.py:231-241 | the dictionary maps each host name to the last host object with that name, and each value is a host with that name |
| Icinga1.GetHostStatusByHost | icinga_migration_utils/icinga1/icinga1.py:243-256 | maps each host name to its last `hoststatus` record |
| Icinga1.GetServicesByHostname | icinga_migration_utils/icinga1/icinga1.py:337-348 | every host's group holds exactly that host's matching services, in order |
| Icinga1.GetServiceStatusByHost | icinga_migration_utils/icinga1/icinga1.py:270-283 | every host's group holds exactly its `servicestatus` records, in order |
| Icinga1.ServiceAcknowledgements | icinga_migration_utils/icinga1/icinga1.py:396-410 | the service acknowledgements are exactly the service comments with entry type `4` |
| Icinga1.HostAcknowledgements | icinga_migration_utils/icinga1/icinga1.py:412-426 | the host acknowledgements are exactly the host comments with entry type `4` |
| Icinga1.GetDowntimes | icinga_migration_utils/icinga1/icinga1.py:350-360 | the host and service downtimes of the given host, and nothing else |
| Icinga1.GetAcknowledgements | icinga_migration_utils/icinga1/icinga1.py:386-394 | the service and host acknowledgements of the given host, and nothing else |
| Icinga1.Contacts | icinga_migration_utils/icinga1/icinga1.py:428-438 | the contacts without `monitoring_source`, each exactly once, and exactly those of the contact objects |
| Icinga2Filters.RenderAll | icinga_migration_utils/icinga2/icinga2.py:176-179 | each clause is rendered in place |
| Icinga2Filters.ClauseRequired | icinga_migration_utils/icinga2/icinga2.py:179 | clauses joined with `&&` all have to hold for an object to be selected |
| Icinga2Filters.SelfComparisonHolds | icinga_migration_utils/icinga2/icinga2.py:176-177 | a clause comparing a name with itself holds for every object |
| Icinga2Filters.ClausesOf | icinga_migration_utils/icinga2/icinga2.py:91-101 | one clause per given argument, in order |
| Icinga2Filters.BuildClauses | icinga_migration_utils/icinga2/icinga2.py:91-101 | the filter's clauses are those of the given arguments, in argument order |
| Icinga2Filters.BuiltVars | icinga_migration_utils/icinga2/icinga2.py:91-101 | a variable is bound iff some given argument uses it |
| Icinga2Filters.BuiltValue | icinga_migration_utils/icinga2/icinga2.py:91-101 | with distinct variables, each given argument's variable is bound to its value |
| Icinga2Filters.BuildSelects | icinga_migration_utils/icinga2/icinga2.py:91-101 | a built filter selects an object iff each given argument's attribute equals its value |
| Icinga2Filters.BuiltClauses | icinga_migration_utils/icinga2/icinga2.py:91-101 | a clause is in the filter iff it stems from a given argument |
| Icinga2Filters.ServicesQuery | icinga_migration_utils/icinga2/icinga2.py:67-107 | `get_services` filters on exactly the given host address, host name and service name. Without attributes or a host name it asks for the reduced attribute list, and by default it joins `host.address` and `host.name` |
| Icinga2Filters.BuiltVar | icinga_migration_utils/icinga2/icinga2.py:91-101 | an argument's variable is bound iff the argument is given |
| Icinga2Filters.AcknowledgementsQueryMeaning | icinga_migration_utils/icinga2/icinga2.py:244-275 | `get_acknowledgements` selects a comment iff it matches each given host name, author, text and service name |
| Icinga2Filters.HostNotificationsQuery | icinga_migration_utils/icinga2/icinga2.py:369-398 | the host-notification filter ends in `service.name==null`, compares the host name iff one is given, and restricts to customer notifications iff asked |
| Icinga2Filters.HostNotificationsExcludeServices | icinga_migration_utils/icinga2/icinga2.py:369-398 | the host-notification filter never selects a service notification |
| Icinga2Filters.ServiceNotificationClauses | icinga_migration_utils/icinga2/icinga2.py:400-437 | the service-notification clauses end in the service-name comparison or in `service.name!=null`, compare the host name iff one is given, and restrict to customer notifications iff asked |
| Icinga2Filters.ServiceNotificationsQuery | icinga_migration_utils/icinga2/icinga2.py:400-437 | the service-notification filter is those clauses plus a trailing `service.name!=null`, with the host and service variables bound iff given |
| Icinga2Filters.ServiceNotificationsText | icinga_migration_utils/icinga2/icinga2.py:430 | the filter text is the joined clauses followed by ` && service.name!=null` |
| Icinga2Filters.ServiceNotificationsTail | icinga_migration_utils/icinga2/icinga2.py:430 | without a service name the filter text ends in a doubled `service.name!=null` |
| Icinga2Filters.ServiceNotificationsExcludeHosts | icinga_migration_utils/icinga2/icinga2.py:400-437 | the service-notification filter never selects a host notification |
| Icinga2Filters.TrailingNotNull | icinga_migration_utils/icinga2/icinga2.py:430 | appending the trailing clause appends ` && service.name!=null` to the text |
| Icinga2Filters.RenameHostName | icinga_migration_utils/icinga2/icinga2.py:176-177 | `host_name` becomes the attribute `host.name` |
| Icinga2Filters.RenameServiceName | icinga_migration_utils/icinga2/icinga2.py:176-177 | `service_name` becomes the attribute `service.name` |
| Icinga2Filters.RenameOther | icinga_migration_utils/icinga2/icinga2.py:176-177 | every other key is left as it is, so its clause compares the variable with itself |
| Icinga2Filters.DowntimeClauses | icinga_migration_utils/icinga2/icinga2.py:175-177 | one clause `renamed-key==key` per query key, in order |
| Icinga2Filters.DowntimesQuery | icinga_migration_utils/icinga2/icinga2.py:158-185 | no query gives no filter; otherwise the filter has those clauses and binds every key to its value |
| Icinga2Filters.VarsOf | icinga_migration_utils/icinga2/icinga2.py:178 | the filter variables bind exactly the query's keys to their values |
| Icinga2Filters.GlobLiteral | icinga_migration_utils/migrate/downtimes.py:176-179 | a pattern without wildcards matches only itself |
| Icinga2Filters.GlobSuffix | icinga_migration_utils/migrate/downtimes.py:176-179 | `*` followed by a wildcard-free suffix matches exactly the strings ending in that suffix |
| Icinga2Filters.GlobSelf | icinga_migration_utils/migrate/downtimes.py:176-179 | every string matches itself read as a pattern |
| Icinga2Filters.GlobStarSuffix | icinga_migration_utils/migrate/downtimes.py:176-179 | `*` followed by any suffix, wildcards included, matches every string ending in that suffix |
| Icinga2Filters.CleanupMatchesSuffix | icinga_migration_utils/migrate/downtimes.py:176-179 | the clean-up filter matches a downtime iff its comment ends in the suffix |
| Icinga2.GetObjectsList | icinga_migration_utils/icinga2/icinga2.py:59-65 | at most `retries + 1` attempts, none for a negative count. Only a chunked-encoding error leads to a retry. The first listing is returned and another error propagates. `Icinga2Error` is raised iff every attempt failed with a chunked-encoding error, so at once for a negative count |
| Icinga2.GetHostsDict | icinga_migration_utils/icinga2/icinga2.py:147-156 | maps each `attrs.name` to the last host with that name, and each value is a listed host with that name |
| Icinga2.GetServicesByHostname | icinga_migration_utils/icinga2/icinga2.py:109-118 | every host's group holds exactly the services whose joined `host.name` is that host, in order |
| Icinga2.GetHost | icinga_migration_utils/icinga2/icinga2.py:120-145 | `HostNotFound` for that name is raised iff no host has that `attrs.name` (with an empty name, iff there is no host at all); otherwise the first such host is returned |
| Icinga2.Named | icinga_migration_utils/icinga2/icinga2.py:461-495 | the users of a notification named directly are exactly the users with that name |
| Icinga2.Members | icinga_migration_utils/icinga2/icinga2.py:461-495 | the users of a user group are exactly the users in that group |
| Icinga2.UsersNamedMeaning | icinga_migration_utils/icinga2/icinga2.py:461-495 | a user is among those named iff its name is listed and a user object carries it |
| Icinga2.GroupMembersMeaning | icinga_migration_utils/icinga2/icinga2.py:461-495 | a user is among the group members iff it is in one of the listed groups and a user object carries it |
| Icinga2.EntryUsers | icinga_migration_utils/icinga2/icinga2.py:461-495 | a notification's contacts are exactly the users named in it or in one of its groups |
| Icinga2.LastNotificationIsLast | icinga_migration_utils/icinga2/icinga2.py:461-495 | the entry for a key comes from the last notification with that key, and there is an entry iff some notification has the key |
| Icinga2.MergeNotifications | icinga_migration_utils/icinga2/icinga2.py:461-495 | the merge loop yields, for each key, the contacts of the last notification with that key, and only keys that occur |
| Icinga2.FirstWithObjectNameMeaning | icinga_migration_utils/icinga2/icinga2.py:497-518 | a service override's user is the first user with that object name; none iff no user has it |
| Icinga2.AddOverrideFacts | icinga_migration_utils/icinga2/icinga2.py:497-518 | an override fails iff one of its users is unknown; otherwise it sets that service's key and changes no other key |
| Icinga2.ApplyOverridesFails | icinga_migration_utils/icinga2/icinga2.py:497-518 | applying the overrides fails iff some override names an unknown user |
| Icinga2.ApplyOverridesKeeps | icinga_migration_utils/icinga2/icinga2.py:497-518 | after the overrides, the keys are the merged keys plus the overridden services, and a key no override names is unchanged |
| Icinga2.AddOverrideFails | icinga_migration_utils/icinga2/icinga2.py:505-516 | adding one service's override users fails iff one of them names no known user |
| Icinga2.ApplyOverridesUnchanged | icinga_migration_utils/icinga2/icinga2.py:497-518 | an entry that no override names keeps its merged contacts |
| Icinga2.AddOverrideUsers | icinga_migration_utils/icinga2/icinga2.py:505-516 | the inner loop computes what adding that service's override users specifies |
| Icinga2.ApplyAllOverrides | icinga_migration_utils/icinga2/icinga2.py:497-518 | the override loop computes what applying the overrides in order specifies, failing at the first unknown user |
| Icinga2.NotificationContacts | icinga_migration_utils/icinga2/icinga2.py:439-520 | `get_service_notification_contacts` is the last-wins merge followed by the overrides of the given host |
| Icinga2.ServiceUpdates | icinga_migration_utils/icinga2/icinga2.py:567-583 | one update call per service of the host, setting active checks, in order |
| Icinga2.Attempted | icinga_migration_utils/icinga2/icinga2.py:574-583 | the services updated are all of them when none is refused, otherwise those up to and including the first refused one |
| Icinga2.AttemptedStops | icinga_migration_utils/icinga2/icinga2.py:574-583 | a loop that reaches a refused service after accepted ones has updated exactly up to that service; one that reaches the end has updated all |
| Icinga2.RemovalAsWrittenTakesAllComments | icinga_migration_utils/icinga2/icinga2.py:551-556 | the clean-up written there, on Host objects, removes every host comment of the host whatever its text, and keeps every service comment and every comment of another host |
| Icinga2.RemovalAsWrittenCounterexample | icinga_migration_utils/icinga2/icinga2.py:551-556 | a host comment unrelated to active checks is removed by that clean-up |
| Icinga2.RemoveQuerySelects | icinga_migration_utils/icinga2/icinga2.py:551-556 | the corrected clean-up selects a comment iff it is a host comment of that host with that text |
| Icinga2.ActiveChecksRoundTripAsWritten | icinga_migration_utils/icinga2/icinga2.py:522-564 | as written, disabling and then re-enabling active checks restores the comments iff the host had no host comment before |
| Icinga2.CommentViewKeys | icinga_migration_utils/icinga2/icinga2.py:244-275 | a comment is seen by filters under its dotted attribute names, never under a bare filter-variable name |
| Icinga2.Icinga2Server.constructor | icinga_migration_utils/icinga2/icinga2.py:29-57 | a new server holds the given downtimes and comments and no calls yet |
| Icinga2.Icinga2Server.QueryDowntimes | icinga_migration_utils/icinga2/icinga2.py:158-185 | listing downtimes fails iff the query fails; otherwise it returns exactly the downtimes the filter selects, in order |
| Icinga2.Icinga2Server.QueryComments | icinga_migration_utils/icinga2/icinga2.py:244-275 | listing comments returns exactly the comments the filter selects, in order |
| Icinga2.Icinga2Server.Schedule | icinga_migration_utils/icinga2/icinga2.py:187-232 | scheduling adds that downtime and records the call |
| Icinga2.Icinga2Server.RemoveDowntimesMatching | icinga_migration_utils/migrate/downtimes.py:171-183 | removing by a `match` pattern keeps exactly the downtimes whose comment the pattern does not match |
| Icinga2.Icinga2Server.Acknowledge | icinga_migration_utils/icinga2/icinga2.py:277-322 | the acknowledgement is recorded, and the comment is added iff the answer counts as acknowledged |
| Icinga2.Icinga2Server.Update | icinga_migration_utils/icinga2/icinga2.py:585-609 | an object update is recorded and succeeds iff the server accepts it |
| Icinga2.Icinga2Server.SetActiveChecks | icinga_migration_utils/icinga2/icinga2.py:522-583 | the host is updated first; if the server refuses that update, nothing else happens and `ok` is false. Otherwise enabling sends the removal on Host objects with the filter as written, which leaves exactly the comments `RemainingAsWritten` keeps, and disabling adds the comment with the given (or default) text, by the given author or the current user. The host's services are then updated in order up to and including the first refused one. `ok` holds iff no update was refused |
| Icinga2.Icinga2Server.UpdateServices | icinga_migration_utils/icinga2/icinga2.py:574-583 | one service update per name, in order, with the requested active-checks flag, stopping after the first refused update; `ok` holds iff none is refused |
| Icinga2.Icinga2Server.ToggleComment | icinga_migration_utils/icinga2/icinga2.py:550-565 | enabling removes the comments the as-written filter selects and records the removal; disabling adds the host comment and records it |
| Icinga2.ActiveChecksRoundTrip | icinga_migration_utils/icinga2/icinga2.py:522-564 | with the corrected clean-up, when disabling and re-enabling use the same explicit comment text and the host had no host comment with that text, re-enabling removes exactly the comment disabling added |
| Icinga2.DefaultTextsKeepComment | icinga_migration_utils/icinga2/icinga2.py:535-556 | with the default texts even the corrected clean-up keeps the comment "Disabling active checks", because enabling looks for "Enabling active checks" |
| CompareHosts.AddDifferences | icinga_migration_utils/compare/compare.py:64-76 | one difference list per compared attribute is kept |
| CompareHosts.Visit | icinga_migration_utils/compare/compare.py:48-76 | visiting a host keeps one difference list per compared attribute |
| CompareHosts.Report | icinga_migration_utils/compare/compare.py:48-77 | the report has one difference list per compared attribute |
| CompareHosts.CompareAttributesOf | icinga_migration_utils/compare/compare.py:64-76 | the attribute loop adds exactly the differing attributes of one host |
| CompareHosts.Compare | icinga_migration_utils/compare/compare.py:28-77 | `compare_hosts` gives no report iff some Icinga 1 host in Icinga 2 lost its no-sla mark and its Icinga 2 `vars` is missing, `null`, a number or a boolean (the report line raises); otherwise the report over the host names visited in sorted order |
| CompareHosts.CompareHost | icinga_migration_utils/compare/compare.py:49-76 | one loop iteration raises iff the host is in Icinga 2, lost its no-sla mark and `'nosla' in vars` cannot be evaluated; otherwise a host absent from Icinga 2 is listed missing, and any other has its `no-sla` note and attributes compared, as the visit specifies |
| CompareHosts.HostRaisesSnoc | icinga_migration_utils/compare/compare.py:48-62 | the loop raises on one more host iff it raised before or raises on that host |
| CompareHosts.NullVarsRaises | icinga_migration_utils/compare/compare.py:56-62 | a host Icinga 1 marks `no-sla` whose Icinga 2 `vars` is `null` lost its mark, and its report line raises |
| CompareHosts.AttributeDifferencesMeaning | icinga_migration_utils/compare/compare.py:64-76 | a difference is reported iff the host is in both systems, has the attribute, and the Icinga 1 value (in seconds) differs from the Icinga 2 value; both raw values are reported |
| CompareHosts.ReportFields | icinga_migration_utils/compare/compare.py:48-77 | `missing` is the hosts absent from Icinga 2; `nosla` the hosts whose no-SLA mark was lost; each attribute list is that attribute's differences |
| CompareHosts.ReportMissing | icinga_migration_utils/compare/compare.py:49-51 | the missing list is exactly the visited hosts absent from Icinga 2, in order |
| CompareHosts.ReportNoSla | icinga_migration_utils/compare/compare.py:56-62 | the no-SLA list is exactly the visited hosts whose no-SLA mark was lost, in order |
| CompareHosts.ReportDifferences | icinga_migration_utils/compare/compare.py:64-76 | each attribute's list is exactly that attribute's differences |
| CompareHosts.MissingOrCompared | icinga_migration_utils/compare/compare.py:48-77 | a host is missing iff it is in Icinga 1 and not in Icinga 2; SLA and attribute differences are only reported for hosts in both |
| CompareHosts.MissingSorted | icinga_migration_utils/compare/compare.py:48-51 | the missing hosts are reported in sorted order |
| CompareHosts.KeyOrderIrrelevant | icinga_migration_utils/compare/compare.py:48 | the report does not depend on the order of the Icinga 1 dictionary |
| CompareHosts.NoSlaMissingKeyReported | icinga_migration_utils/compare/compare.py:56-57 | a host Icinga 1 marks `no-sla` is reported as having lost it whenever Icinga 2's vars lack `nosla` |
| CompareServices.Commands | icinga_migration_utils/compare/compare.py:147-150 | the extracted check command of every service, in order |
| CompareServices.ExtractedPresent | icinga_migration_utils/compare/compare.py:147-150 | every compared service has an extracted check command |
| CompareServices.RemoveFirst | icinga_migration_utils/compare/compare.py:158-163 | removing a comment from the missing list removes one occurrence of it, if there is one |
| CompareServices.Comments | icinga_migration_utils/compare/compare.py:158-159 | the `vars.comment` of every Icinga 2 service, read through `ndict` |
| CompareServices.RemoveAliased | icinga_migration_utils/compare/compare.py:158-163 | the removal loop removes, for every Icinga 2 comment, one occurrence from the missing list |
| CompareServices.Decider | icinga_migration_utils/compare/compare.py:183-192 | the first status record of the same service when there is one, else the configuration record |
| CompareServices.Flag1AsWrittenCounterexample | icinga_migration_utils/compare/compare.py:191-192 | a service with notifications enabled but no status record makes the fallback read a missing key; with the corrected key the flags agree |
| CompareServices.Flag1Meaning | icinga_migration_utils/compare/compare.py:183-192 | the Icinga 1 notification flag is a boolean. It is the status record's `notifications_enabled == '1'` when a status exists, else the configuration's |
| CompareServices.CorrectedCompared | icinga_migration_utils/compare/compare.py:170-216 | with the corrected Icinga 1 flag, a command is compared iff both systems have a service with it |
| CompareServices.ComparedAsWritten | icinga_migration_utils/compare/compare.py:170-216 | as written, a command raises only where the corrected comparison compares it; otherwise it is compared exactly where the corrected one is, with the same key, SLA pair and Icinga 2 flag |
| CompareServices.AsWrittenAgreesWithStatus | icinga_migration_utils/compare/compare.py:183-192 | when every Icinga 1 service has a status record, the comparison as written is the corrected one |
| CompareServices.CompareAllAsWrittenMeaning | icinga_migration_utils/compare/compare.py:170-216 | the command loop as written gives no tables iff some command raises, and otherwise the tables of the fold over the comparisons |
| CompareServices.RaisesAmongSnoc | icinga_migration_utils/compare/compare.py:170-192 | the commands raise iff the earlier ones do or the last one does |
| CompareServices.HostRaisesSnoc | icinga_migration_utils/compare/compare.py:137-272 | some host raises iff an earlier one does or the last one does |
| CompareServices.NeverRaising | icinga_migration_utils/compare/compare.py:170-216 | comparisons that never raise fill the tables exactly as the fold over them |
| CompareServices.CompareCommands | icinga_migration_utils/compare/compare.py:170-216 | the per-command loop stops with no tables at the first command that raises, and otherwise fills the tables as the fold over the commands specifies |
| CompareServices.KeptServices | icinga_migration_utils/compare/compare.py:142-144 | exactly the Icinga 2 services that are not skipped, and each of them has an extracted command |
| CompareServices.HostDiffAsWrittenRaises | icinga_migration_utils/compare/compare.py:137-216 | a host's comparison as written gives no result iff one of its commands raises |
| CompareServices.HostDiffAsWrittenAgrees | icinga_migration_utils/compare/compare.py:137-216 | when every Icinga 1 service of the host has a status record, its comparison as written is the corrected one |
| CompareServices.CompareHost | icinga_migration_utils/compare/compare.py:137-216 | comparing one host yields its missing list and its flag and SLA tables, or no result when reading a flag raises |
| CompareServices.SummaryAsWrittenMeaning | icinga_migration_utils/compare/compare.py:80-272 | `compare_services` as written gives no result iff some visited host's comparison raises; otherwise the summary of the hosts' comparisons |
| CompareServices.SummaryAsWrittenStops | icinga_migration_utils/compare/compare.py:80-272 | once a host raises, the whole run gives no result |
| CompareServices.SummaryAsWrittenAgrees | icinga_migration_utils/compare/compare.py:80-272 | when every Icinga 1 service has a status record, the run as written gives the corrected summary |
| CompareServices.SummaryStep | icinga_migration_utils/compare/compare.py:137-272 | one more host accounts its comparison on top of the result so far |
| CompareServices.SummaryNext | icinga_migration_utils/compare/compare.py:137-272 | after one more host the result is extended by its comparison, or the whole run gives no result when that host raises |
| CompareServices.CompareAndAccount | icinga_migration_utils/compare/compare.py:219-272 | a host's comparison is entered and counted, or the run ends with no result when it raises |
| CompareServices.CompareHostOf | icinga_migration_utils/compare/compare.py:137-272 | the loop body for one host, whose services are looked up in the `defaultdict`s of both systems |
| CompareServices.AccountDiff | icinga_migration_utils/compare/compare.py:219-272 | a host with a missing service, a differing notification state or an SLA note difference is entered with its comparison and adds its weight to the total; any other host leaves the summary unchanged |
| CompareServices.Compare | icinga_migration_utils/compare/compare.py:80-280 | `compare_services` covers the given host, or else every Icinga 2 host in the order of its host dictionary; it gives no result when a host's comparison raises, and otherwise summarises their results |
| CompareServices.Duplicates | icinga_migration_utils/compare/compare.py:303-306 | a command is a duplicate iff it occurs more than once, and each duplicate is listed once |
| CompareServices.DuplicateServices | icinga_migration_utils/compare/compare.py:303-306 | exactly the services whose command is a duplicate |
| CompareServices.DuplicatesShareCommand | icinga_migration_utils/compare/compare.py:303-306 | every service reported as a duplicate shares its command with another service of the host |
| CompareServices.MissingCount | icinga_migration_utils/compare/compare.py:147-163 | a command matched in Icinga 2 is never missing. Any other command is missing as often as it occurs in Icinga 1, less the comments naming it, and never more often than it occurs |
| CompareServices.TableMeaning | icinga_migration_utils/compare/compare.py:170-216 | a key is in a table iff some command differs on it, and its value comes from the last such command |
| CompareServices.FirstMatchOnly | icinga_migration_utils/compare/compare.py:170-178 | only the first service with a command on either side is compared |
| CompareServices.StatusOverridesConfig | icinga_migration_utils/compare/compare.py:183-190 | once a status record exists, the configuration's own flag and later status records do not matter |
| CompareServices.ReducedQueryUsesLiveFlag | icinga_migration_utils/icinga2/icinga2.py:84-86 | with the reduced attribute list, no `original_attributes` exist, so the Icinga 2 flag compared is the live `enable_notifications` |
| CompareServices.SummaryMeaning | icinga_migration_utils/compare/compare.py:219-272 | a host is in the result iff it was compared and has a difference; its entry is its own result; the total sums every host's differences |
| CompareContacts.StripCallPrefix | icinga_migration_utils/compare/compare.py:420 | a leading `00` is removed once, and any other pager is kept |
| CompareContacts.CheckContactStep | icinga_migration_utils/compare/compare.py:410-437 | one contact is checked as specified |
| CompareContacts.CompareAllContacts | icinga_migration_utils/compare/compare.py:395-438 | `compare_contacts` reports exactly as the fold over the Icinga 1 contacts specifies |
| CompareContacts.StripOnce | icinga_migration_utils/compare/compare.py:420 | `00` is stripped once, not repeatedly |
| CompareContacts.PagerCheckMeaning | icinga_migration_utils/compare/compare.py:418-427 | a wrong pager is reported iff a user matches, the contact has a pager, and the stripped pager differs from the user's; the report carries the name and both values |
| CompareContacts.CallPrefixForgiven | icinga_migration_utils/compare/compare.py:418-427 | a pager differing only by the `00` prefix is not reported |
| CompareContacts.EmailCheckMeaning | icinga_migration_utils/compare/compare.py:429-437 | a wrong email is only reported for a matched contact with a pager and an email, and always when Icinga 2 has no email |
| CompareContacts.MissingComplete | icinga_migration_utils/compare/compare.py:410-416 | every contact without a matching Icinga 2 user is reported missing |
| CompareContacts.MissingSound | icinga_migration_utils/compare/compare.py:410-416 | every reported missing name belongs to a contact without a matching user |
| CompareContacts.MissingNames | icinga_migration_utils/compare/compare.py:410-416 | the missing list is exactly the names of the contacts without a matching user, in the order of the contacts |
| CompareContacts.WrongPagerMeaning | icinga_migration_utils/compare/compare.py:418-427 | the wrong-pager list is exactly the pager mismatches of the contacts |
| CompareContacts.WrongEmailMeaning | icinga_migration_utils/compare/compare.py:429-437 | the wrong-email list is exactly the email mismatches of the contacts |
| CompareContacts.Pieces | icinga_migration_utils/compare/compare.py:467-471 | the contact list is split on commas and each piece trimmed |
| CompareContacts.Contacts2 | icinga_migration_utils/compare/compare.py:479-490 | the Icinga 2 contacts are sorted, and are exactly the users of that service's notification entry |
| CompareContacts.CompareServiceContacts | icinga_migration_utils/compare/compare.py:441-509 | `compare_service_contacts` reports exactly as the fold over the Icinga 1 services specifies, and gives no report once the check of a service raises |
| CompareContacts.PlaceholderNeverDiffers | icinga_migration_utils/compare/compare.py:467-497 | a service whose contact is the `dummy` placeholder is never reported for differing users |
| CompareContacts.PlaceholderReturned | icinga_migration_utils/compare/compare.py:498-507 | for a placeholder service, the check raises iff it has a counterpart and no `contact_groups`; otherwise a wrong setting is recorded iff it has a counterpart and not both its contact groups are the placeholder too and the Icinga 2 service does not notify |
| CompareContacts.DummyContacts | icinga_migration_utils/compare/compare.py:467-471 | the placeholder contact list reads as the single contact `dummy` |
| CompareContacts.SameUsersAgree | icinga_migration_utils/compare/compare.py:467-492 | contacts without repeats that name the same users as Icinga 2 compare equal |
| CompareContacts.RepeatedContactDiffers | icinga_migration_utils/compare/compare.py:467-492 | a contact named twice in Icinga 1 always makes the lists differ, since Icinga 2's list comes from a set |
| CompareContacts.ServicesReportMeaning | icinga_migration_utils/compare/compare.py:498-507 | when no check raises, the returned `diff` is exactly the placeholder services with a counterpart whose contact groups are not the placeholder, or whose Icinga 2 service notifies |
| CompareContacts.ServicesReportRaises | icinga_migration_utils/compare/compare.py:498-507 | there is no report iff some service is a placeholder with a counterpart and without `contact_groups`, the subscript that raises `KeyError` |
| CompareContacts.ReportStops | icinga_migration_utils/compare/compare.py:462-509 | once a service's check raises, the whole comparison gives no report |
| CompareContacts.DiffStep | icinga_migration_utils/compare/compare.py:498-507 | when the check of a service does not raise, it adds an entry to the returned list iff it is a placeholder service whose counterpart has wrong settings |
| MigrateDowntimes.ToMigrate | icinga_migration_utils/migrate/downtimes.py:27-32 | the downtimes considered are exactly those not daily or weekly (and of the host, if given), in order |
| MigrateDowntimes.RenameKeeps | icinga_migration_utils/icinga2/icinga2.py:176-177 | a key not containing `host_name` or `service_name` is not renamed |
| MigrateDowntimes.HostFilterDistinct | icinga_migration_utils/migrate/downtimes.py:50-58 | the host-downtime query has no repeated key |
| MigrateDowntimes.ServiceFilterDistinct | icinga_migration_utils/migrate/downtimes.py:146-155 | the service-downtime query has no repeated key |
| MigrateDowntimes.HostFilterClauses | icinga_migration_utils/migrate/downtimes.py:50-61 | the host existence filter compares `host.name` with its variable and every other key with itself |
| MigrateDowntimes.ServiceFilterClauses | icinga_migration_utils/migrate/downtimes.py:146-157 | the service existence filter compares host and service names with variables and every other key with itself |
| MigrateDowntimes.DowntimeViewKeys | icinga_migration_utils/icinga2/icinga2.py:181-184 | a downtime is seen by filters under dotted names only |
| MigrateDowntimes.HostExistenceAsWritten | icinga_migration_utils/migrate/downtimes.py:50-63 | the host existence check as written matches every downtime of the host |
| MigrateDowntimes.HostQueryMeaning | icinga_migration_utils/migrate/downtimes.py:50-63 | a filter of that shape selects a downtime iff it is on the host |
| MigrateDowntimes.ServiceExistenceAsWritten | icinga_migration_utils/migrate/downtimes.py:146-159 | the service existence check as written matches every downtime of that host and service |
| MigrateDowntimes.ServiceQueryMeaning | icinga_migration_utils/migrate/downtimes.py:146-159 | a filter of that shape selects a downtime iff it is on that host and service |
| MigrateDowntimes.HostExistenceAsWrittenCounterexample | icinga_migration_utils/migrate/downtimes.py:50-66 | a different downtime on the same host makes the check report the new one as existing |
| MigrateDowntimes.ExistenceQuerySelectsSame | icinga_migration_utils/migrate/downtimes.py:50-66 | the corrected existence filter selects a downtime iff it is the same downtime |
| MigrateDowntimes.AsWrittenQueryMeaning | icinga_migration_utils/migrate/downtimes.py:50-63 | the existence query as sent selects a downtime iff it is on the same host (and, for a service downtime, the same service) |
| MigrateDowntimes.AsWrittenExistsIff | icinga_migration_utils/migrate/downtimes.py:50-66 | as written, a downtime counts as existing iff the query does not fail and its host (or service) already has any downtime |
| MigrateDowntimes.ExistsMeaning | icinga_migration_utils/migrate/downtimes.py:60-63 | for any existence query, a downtime counts as existing iff the query does not fail and selects some downtime on the server |
| MigrateDowntimes.ScheduledAreTargets | icinga_migration_utils/migrate/downtimes.py:37-69 | only target downtimes are scheduled, at most one per target |
| MigrateDowntimes.ScheduledFoundNothing | icinga_migration_utils/migrate/downtimes.py:60-69 | when no existence query fails, each scheduled downtime's query selected nothing on the server before it |
| MigrateDowntimes.ScheduledGrows | icinga_migration_utils/migrate/downtimes.py:60-69 | a further target whose query does not fail and selects itself is found afterwards, and nothing scheduled before is lost |
| MigrateDowntimes.ScheduledCovers | icinga_migration_utils/migrate/downtimes.py:60-69 | when no query fails and each target's query selects itself, every target's query finds a downtime afterwards |
| MigrateDowntimes.StillExists | icinga_migration_utils/migrate/downtimes.py:60-69 | a downtime found before one more target is migrated is still found afterwards |
| MigrateDowntimes.RerunSchedulesNothing | icinga_migration_utils/migrate/downtimes.py:60-69 | when no query fails and each target's query selects itself (true of the query as sent), a second run schedules nothing |
| MigrateDowntimes.NothingMissing | icinga_migration_utils/migrate/downtimes.py:60-69 | when all targets exist, nothing is scheduled |
| MigrateDowntimes.AsWrittenFindsItself | icinga_migration_utils/migrate/downtimes.py:50-63 | the query as sent for a downtime selects that downtime |
| MigrateDowntimes.AsWrittenOneEach | icinga_migration_utils/migrate/downtimes.py:37-69 | as written, a downtime is scheduled only where its host (or service) had no downtime before it |
| MigrateDowntimes.AsWrittenCovers | icinga_migration_utils/migrate/downtimes.py:37-69 | as written, every target's host (or service) has a downtime after the migration |
| MigrateDowntimes.AsWrittenSkipsSecond | icinga_migration_utils/migrate/downtimes.py:50-69 | two different new downtimes of one host: as written only the first is scheduled, with the corrected query both are |
| MigrateDowntimes.AsWrittenSchedulesFirst | icinga_migration_utils/migrate/downtimes.py:50-69 | as written, of two downtimes on one host only the first is scheduled |
| MigrateDowntimes.SecondFindsFirst | icinga_migration_utils/migrate/downtimes.py:60-69 | when the query for a second downtime selects the first, only the first is scheduled |
| MigrateDowntimes.CorrectedKeepsSecond | icinga_migration_utils/migrate/downtimes.py:60-69 | with the corrected query two different downtimes are both scheduled |
| MigrateDowntimes.CorrectedExistsIff | icinga_migration_utils/migrate/downtimes.py:50-63 | with the corrected query, a downtime counts as existing iff the query does not fail and the server already has that very downtime |
| MigrateDowntimes.CorrectedNoDuplicates | icinga_migration_utils/migrate/downtimes.py:60-69 | with the corrected query and no query failing, no downtime is on the server twice afterwards |
| MigrateDowntimes.ScheduledNoDuplicates | icinga_migration_utils/migrate/downtimes.py:60-69 | for any query that never fails and selects its own downtime, a server without duplicate downtimes has none after the migration |
| MigrateDowntimes.AsWrittenNoDuplicates | icinga_migration_utils/migrate/downtimes.py:50-69 | as written and with no query failing, a server without duplicate downtimes has none after the migration |
| MigrateDowntimes.CorrectedComplete | icinga_migration_utils/migrate/downtimes.py:60-69 | with the corrected query and no query failing, every target is on the server afterwards |
| MigrateDowntimes.ScheduleCalls | icinga_migration_utils/migrate/downtimes.py:69 | one schedule call per scheduled downtime, in order |
| MigrateDowntimes.HostTargetsKnown | icinga_migration_utils/migrate/downtimes.py:46-48 | only downtimes of hosts known to Icinga 2 are targeted, and each target comes from an Icinga 1 downtime |
| MigrateDowntimes.MigrateHostDowntimes | icinga_migration_utils/migrate/downtimes.py:12-71 | in earnest, exactly the targets the query as sent finds nothing for are scheduled and counted; a dry run changes nothing |
| MigrateDowntimes.MigrateHostCandidates | icinga_migration_utils/migrate/downtimes.py:37-69 | the host-downtime loop schedules exactly the targets whose query finds nothing, for the query it is given |
| MigrateDowntimes.MigrateOne | icinga_migration_utils/migrate/downtimes.py:60-69 | one downtime is scheduled iff not a dry run and its query finds nothing |
| MigrateDowntimes.DowntimeExists | icinga_migration_utils/migrate/downtimes.py:60-63 | the existence check sends the given query and answers whether it selects any downtime, false when it fails |
| MigrateDowntimes.ResolveServiceMeaning | icinga_migration_utils/migrate/downtimes.py:110-143 | an unknown host is skipped. An undescribed service raises, and a service without an Icinga 2 counterpart is skipped. A target names an Icinga 2 service with the same check |
| MigrateDowntimes.ServiceTargetsKnown | icinga_migration_utils/migrate/downtimes.py:101-143 | every service target is on a known host and names a service |
| MigrateDowntimes.MigrateServiceDowntimes | icinga_migration_utils/migrate/downtimes.py:74-168 | in earnest, exactly the targets before the first error whose query as sent finds nothing are scheduled and counted; a dry run changes nothing |
| MigrateDowntimes.MigrateServiceCandidates | icinga_migration_utils/migrate/downtimes.py:101-166 | the service-downtime loop schedules exactly the targets whose given query finds nothing, and stops at the first error |
| MigrateDowntimes.ScheduleTarget | icinga_migration_utils/migrate/downtimes.py:156-166 | one service target extends the loop state as the schedule with that target appended predicts |
| MigrateDowntimes.ScheduleResolved | icinga_migration_utils/migrate/downtimes.py:156-166 | a resolved service downtime moves the loop state on exactly as the plan advanced by it does: a target is scheduled, anything else changes nothing |
| MigrateDowntimes.MigrateServiceDowntime | icinga_migration_utils/migrate/downtimes.py:101-166 | one iteration of the service loop: the error is the one the plan records for that downtime, and the downtimes, calls and count are those of the advanced plan |
| MigrateDowntimes.PlanStopsAtError | icinga_migration_utils/migrate/downtimes.py:114-116 | an error ends the run: later downtimes are not looked at |
| MigrateDowntimes.CleanMigratedDowntimes | icinga_migration_utils/migrate/downtimes.py:171-183 | the clean-up removes exactly the downtimes whose comment the pattern `*` + suffix matches, whatever the suffix; for a suffix without wildcards, exactly those whose comment ends in the suffix |
| MigrateDowntimes.MigratedAreCleanedUp | icinga_migration_utils/migrate/downtimes.py:171-179 | every migrated downtime, whose comment ends in the migration suffix, is removed by the clean-up, for any suffix |
| MigrateAcknowledgements.Selected | icinga_migration_utils/migrate/acknowledgements.py:35-39 | all acknowledgements, or with a host given exactly that host's, in order |
| MigrateAcknowledgements.ResolveServiceAckMeaning | icinga_migration_utils/migrate/acknowledgements.py:41-62 | an unknown host is skipped; anything but exactly one described service is an assertion error; a service without counterpart is skipped; a target names a counterpart |
| MigrateAcknowledgements.TargetQuerySelects | icinga_migration_utils/migrate/acknowledgements.py:68-72 | the existence check selects a comment iff host, author, text and (if given) service match |
| MigrateAcknowledgements.PresentItself | icinga_migration_utils/migrate/acknowledgements.py:68-73 | an acknowledgement already on the server is found |
| MigrateAcknowledgements.PresentIff | icinga_migration_utils/migrate/acknowledgements.py:68-73 | an acknowledgement counts as present iff some comment matches it |
| MigrateAcknowledgements.PresentGrows | icinga_migration_utils/migrate/acknowledgements.py:68-73 | a found acknowledgement stays found as comments are added |
| MigrateAcknowledgements.HostCheckSeesServiceComments | icinga_migration_utils/migrate/acknowledgements.py:120-124 | the host check also finds a service comment with the same text; the service check does not find the host comment |
| MigrateAcknowledgements.ReplayStops | icinga_migration_utils/migrate/acknowledgements.py:50 | a failed assertion ends the run |
| MigrateAcknowledgements.SimulateChangesNothing | icinga_migration_utils/migrate/acknowledgements.py:63-65 | a dry run adds no comments and makes no calls |
| MigrateAcknowledgements.StepExtends | icinga_migration_utils/migrate/acknowledgements.py:67-82 | each step appends to comments and calls and counts successes |
| MigrateAcknowledgements.CountIsSuccesses | icinga_migration_utils/migrate/acknowledgements.py:81-82 | the count is the number of acknowledgements that succeeded, and comments are added only for those |
| MigrateAcknowledgements.CallsOnlyWhenAbsent | icinga_migration_utils/migrate/acknowledgements.py:68-80 | an acknowledgement is sent only when none was present at that moment |
| MigrateAcknowledgements.AddedWereAbsent | icinga_migration_utils/migrate/acknowledgements.py:68-80 | every added comment was absent before it was added |
| MigrateAcknowledgements.AddedAreNew | icinga_migration_utils/migrate/acknowledgements.py:68-80 | no comment is added twice |
| MigrateAcknowledgements.ResultIsLastCall | icinga_migration_utils/migrate/acknowledgements.py:75-84 | the returned result is the outcome of the last acknowledgement sent, or unchanged if none was sent |
| MigrateAcknowledgements.TargetsCovered | icinga_migration_utils/migrate/acknowledgements.py:41-82 | after a run without error, every target is present unless the server refused it |
| MigrateAcknowledgements.StepCovers | icinga_migration_utils/migrate/acknowledgements.py:63-82 | a step in earnest only appends comments, and afterwards its target is present unless the server refused it |
| MigrateAcknowledgements.CoveredGrows | icinga_migration_utils/migrate/acknowledgements.py:68-73 | targets present in the comments stay present when comments are added |
| MigrateAcknowledgements.Rerun | icinga_migration_utils/migrate/acknowledgements.py:41-82 | a second run only resends acknowledgements the server refused |
| MigrateAcknowledgements.Resolutions | icinga_migration_utils/migrate/acknowledgements.py:41 | one resolution per acknowledgement, in order |
| MigrateAcknowledgements.MigrateServiceAcknowledgements | icinga_migration_utils/migrate/acknowledgements.py:11-84 | the new comments, calls, count, result and error are those of replaying the selected service acknowledgements |
| MigrateAcknowledgements.MigrateHostAcknowledgements | icinga_migration_utils/migrate/acknowledgements.py:87-134 | the new comments, calls, count and result are those of replaying the selected host acknowledgements |
| MigrateAcknowledgements.MigrateAll | icinga_migration_utils/migrate/acknowledgements.py:41-82 | the loop replays the acknowledgements as specified |
| MigrateAcknowledgements.AcknowledgeTarget | icinga_migration_utils/migrate/acknowledgements.py:63-82 | a dry run or a present acknowledgement changes nothing; otherwise it is sent, and added iff acknowledged |
| MigrateNotificationStates.UpdateCalls | icinga_migration_utils/icinga2/icinga2.py:585-609 | one update per name, switching notifications off with the migration note |
| MigrateNotificationStates.UpdateCallsAppend | icinga_migration_utils/icinga2/icinga2.py:585-609 | the updates of two lists are those of each in turn |
| MigrateNotificationStates.HostCalls | icinga_migration_utils/migrate/notification_states.py:53-57 | one host update per disabled host, in order |
| MigrateNotificationStates.DecideHostMeaning | icinga_migration_utils/migrate/notification_states.py:41-50 | a host is disabled iff it is in both systems, its configuration enables notifications and its status does not. A missing status raises, and a host unknown to either system is left |
| MigrateNotificationStates.HostPlanDisables | icinga_migration_utils/migrate/notification_states.py:41-62 | exactly the hosts to disable are disabled, unless an error stopped the run |
| MigrateNotificationStates.HostPlanStops | icinga_migration_utils/migrate/notification_states.py:48 | an error ends the run |
| MigrateNotificationStates.MigrateHostNotificationStates | icinga_migration_utils/migrate/notification_states.py:11-64 | in earnest, one update per host to disable; a dry run makes no call; the status dictionary is returned |
| MigrateNotificationStates.StateOf | icinga_migration_utils/migrate/notification_states.py:117-120 | the first status record with the same check command; none iff there is none |
| MigrateNotificationStates.ServiceHostNames | icinga_migration_utils/migrate/notification_states.py:100-103 | the given host, or else every Icinga 1 host in order |
| MigrateNotificationStates.Succeeded | icinga_migration_utils/migrate/notification_states.py:139-151 | the count never exceeds the updates tried |
| MigrateNotificationStates.SucceededAll | icinga_migration_utils/migrate/notification_states.py:139-151 | every update is counted iff none fails |
| MigrateNotificationStates.ServiceTargetMeaning | icinga_migration_utils/migrate/notification_states.py:114-134 | a service is disabled only if Icinga 1 enables it, its status has it off, exactly one Icinga 2 service matches and has notifications on; then that service is named `host!service` |
| MigrateNotificationStates.FirstStateOnly | icinga_migration_utils/migrate/notification_states.py:117-120 | only the first matching status record matters |
| MigrateNotificationStates.IntendedTargetMeaning | icinga_migration_utils/migrate/notification_states.py:70-77 | with the documented condition, a service is disabled only when Icinga 1 has the host's notifications on, the service's configuration says `'1'` and its status `'0'`, and exactly one Icinga 2 service matches with notifications on |
| MigrateNotificationStates.HostNotificationsIgnored | icinga_migration_utils/migrate/notification_states.py:105-151 | as written, a service on a host whose Icinga 1 notifications are off is still disabled, while the documented condition leaves it |
| MigrateNotificationStates.TargetsOnKnownHosts | icinga_migration_utils/migrate/notification_states.py:107-110 | every disabled service is on a host known to Icinga 2 |
| MigrateNotificationStates.TallyAppend | icinga_migration_utils/migrate/notification_states.py:139-151 | the count and calls accumulate over hosts |
| MigrateNotificationStates.TallyCompose | icinga_migration_utils/migrate/notification_states.py:139-151 | two runs of updates in a row count and record as one run over both lists |
| MigrateNotificationStates.MigrateServiceNotificationStates | icinga_migration_utils/migrate/notification_states.py:67-158 | in earnest, one update per service to disable, and the count is the updates that succeeded; a dry run makes no call |
| MigrateNotificationStates.MigrateHostServices | icinga_migration_utils/migrate/notification_states.py:114-151 | one host's services are updated and counted as specified |
| MigrateNotificationStates.OneUpdate | icinga_migration_utils/migrate/notification_states.py:139-151 | one update is counted iff it does not fail |
| MigrateNotificationStates.DisableService | icinga_migration_utils/migrate/notification_states.py:138-151 | in earnest the update is sent and succeeds iff the server accepts it; a dry run sends nothing |
| MigrateNotificationStates.DisableTarget | icinga_migration_utils/migrate/notification_states.py:138-151 | a service with a target sends one update for it (none in a dry run) and counts it iff it succeeds; a service without one changes nothing |
| MigrateNotificationStates.MigrateServicesOf | icinga_migration_utils/migrate/notification_states.py:105-151 | the services of one host yield exactly that host's targets' updates and count; a host unknown to Icinga 2 yields nothing |

## Left out

- CompareContacts.CompareServiceContacts: when the check of a service raises, the model gives no report, so the differences the source printed before the raise are not returned either.
- Icinga2.Icinga2Server.Schedule: host names are taken to be free of the `match()` wildcards `*` and `?`. The source schedules with the filter `match("<name>", host.name)`, so a name holding a wildcard would put the downtime on every host it matches; the model adds exactly one downtime.
- CompareHosts.Compare: when the report line of a host raises, the model gives no report, so the lines the source printed before the raise are not returned either.
- Icinga2.Icinga2Server.SetActiveChecks: only refused object updates are modelled. The comment removal or addition and the listing of the host's services always succeed, because the server model has no failure for them.
- Reading files, globbing for cache files, the configuration file, HTTP and the Icinga 2 client library. Cache files are given as token streams, and the server is the `Icinga2Server` class. A query that fails, a refused update and the answers to an acknowledgement are functions fixed when the server is made.
- The regular expressions of the cache parser: a line arrives already classified as an object type, a closing brace, a key alone or a key and value.
- Logging, `print`, YAML and JSON output, the progress bar and `pretty_print_dict`. What the comparisons print is returned as data.
- The `_get_status` keyword branch of `Icinga1Config` and the lazily cached properties beyond the object and status caches. The acknowledgement and contact lists are recomputed from the status and objects each time.
- `compare_downtimes` and `compare_acknowledged_problems`, date formatting, and the boltons `remap` internals beyond dropping `None`.
- The excluded-host list of `compare_services`, which is always empty.
- `compare_services_manual` beyond its duplicate detection, which it only prints.
- CompareServices.Compare: the returned per-host entries keep each differing command with both values (the tables). The source fills the `notification_states`, `nosla_diff` and `notesurl_diff` lists with `.extend({...})`, which appends the dictionary's keys, so the data it returns holds only the strings `command`, `icinga1` and `icinga2`, once per differing command. The JSON file written from it is left out as I/O.
- Keys the source reads with a subscript, and which Icinga always writes (`host_name`, `check_command`, `notifications_enabled` and the like), are required to be present. A present key whose value is `null` is not excluded: Icinga 2's `attrs.vars` may be `null`, and the raise it causes on a host that lost its no-sla mark is modelled (`CompareHosts.RaisesOn`). `contact_groups`, which Icinga 1 writes only for some services, is not required: its absence is modelled as the raise (`CompareContacts.RaisesOn`). The source would raise `KeyError` without them. This covers the `HasText`, `Shaped`, `AckShaped`, `ServiceShaped`, `ContactShaped`, `HostShaped`, `Comparable` and `Icinga1Status` preconditions.
- CompareHosts.Compare: `float()` is an abstract `toReal` function; float rounding and a `ValueError` on malformed numbers are not modelled.
- MigrateDowntimes.MigrateHostDowntimes: `int()` is an abstract `toInt` function; a malformed number is not modelled.
- MigrateDowntimes.MigrateServiceDowntimes: `int()` is an abstract `toInt` function; a malformed number is not modelled.
- The schedule responses of `schedule_host_downtime` and `schedule_service_downtime` only feed log lines, so they are not modelled.
- The `notes_url` attribute is read by `compare_services` but never compared (its result table is never filled), so it is not modelled.
- The warning `compare_service_contacts` logs for a service without counterpart is not modelled.
- Host names are strings in the model. A non-string name in an Icinga 2 answer is not modelled.
- MigrateDowntimes.ToMigrate: `comment.lower()` is modelled on the ASCII letters only (`Strings.Lower`). A comment spelling "daily" or "weekly" with non-ASCII capitals that Python would fold is not recognised as recurring.
- Icinga1.Contacts: duplicates are removed by equality of the contact records, ignoring key order. The source's `set(tuple(d.items()))` treats the same contact with its keys in another order as different. The source also pops `monitoring_source` from the records in place; the model builds new records.

## Findings

| source | as written | input that shows it | evidently intended | confidence | as-written member | corrected member |
|---|---|---|---|---|---|---|
| icinga_migration_utils/migrate/downtimes.py:50-63 | the existence filter is built by `get_downtimes`, which renames only `host_name` and `service_name`; `author==author`, `comment==comment` and the rest compare a filter variable with itself | two one-off Icinga 1 downtimes of host `web1`, by `bob` ("disk swap") and by `alice` ("kernel update"), none in Icinga 2: once the first is scheduled, the check for the second finds it and the second is not migrated | the downtime counts as existing only if author, comment, times and fixed flag all match | medium, not executed | MigrateDowntimes.AsWrittenSkipsSecond | MigrateDowntimes.CorrectedComplete |
| icinga_migration_utils/icinga2/icinga2.py:551-556 | re-enabling active checks removes comments with `object_type='Host'` and the filter `host.name==hostname && comment==comment`; the second clause compares a variable with itself | host `web1` with the comment "Disk replaced"; enabling active checks removes it | only the comment the disabling added is removed. With the default texts even that fails: disabling adds "Disabling active checks" and enabling looks for "Enabling active checks" (Icinga2.DefaultTextsKeepComment), so the round trip needs one explicit text for both calls | medium, not executed | Icinga2.RemovalAsWrittenCounterexample | Icinga2.ActiveChecksRoundTrip |
| icinga_migration_utils/compare/compare.py:191-192 | with no status record, the Icinga 1 flag is read from `enable_notifications`, a key Icinga 1 service objects do not have (they carry `notifications_enabled`, icinga_migration_utils/icinga1/icinga1.py:310) | an Icinga 1 service `SSH` with `notifications_enabled` `1` and no status record raises `KeyError` | the fallback reads `notifications_enabled == '1'`, as the status branch does | medium, not executed | CompareServices.Flag1AsWrittenCounterexample | CompareServices.Flag1Meaning |
| icinga_migration_utils/migrate/notification_states.py:70-151 | the docstring lists "Icinga1 host notifications are enabled" among the conditions, but the loop never reads the Icinga 1 host | host `web1` with `notifications_enabled` `0` in Icinga 1, its `check_ssh` service configured `1` with status `0`, and one Icinga 2 service `ssh` with notifications on: `web1!ssh` is disabled | services of a host whose Icinga 1 notifications are off are left alone | low, not executed | MigrateNotificationStates.HostNotificationsIgnored | MigrateNotificationStates.IntendedTargetMeaning |
