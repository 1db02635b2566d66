# The Keenetic operator, verified

The operator keeps two tables of a Keenetic router in step with a Kubernetes cluster: static host
records (`ip host`) and web-app publications (`ip http proxy`). Ingresses become record and publication
objects; two actuators bring those objects onto the router by typing commands into its shell. This
project models both layers, the router's command line and the terminal session between them, and proves
what they keep over every run.

| file | what it is |
|---|---|
| `Text.dfy`, `Validation.dfy`, `Terminal.dfy` | words, lines, decimal numbers; the checks made before a value is put into a command; how far a session gets |
| `Proxies.dfy`, `RunningConfig.dfy` | one line of a proxy block, the parser of whole configurations, the commands, the comparison |
| `RouterCli.dfy`, `Durability.dfy` | the router's command line as a state machine (contexts, running and saved table, lines that cannot be read) and `EnsureProxy`/`DeleteProxy` against it; what a retry makes of a session that broke off |
| `Specs.dfy`, `WebApps.dfy`, `WebAppRuns.dfy`, `WebAppOutcomes.dfy` | publication objects, their reconciler with every point of failure, the theorems over runs, and what each case comes to when nothing fails |
| `HostTable.dfy`, `HostRecords.dfy`, `HostRuns.dfy`, `HostOutcomes.dfy` | the table of (name, address) pairs, the cap on it, the host-record reconciler, what it leaves behind, what each case comes to when nothing fails |
| `Prompt.dfy`, `Session.dfy` | waiting for a prompt through a sliding window; the send-and-wait session |
| `SharedOwnership.dfy`, `IngressSource.dfy`, `IngressReconcile.dfy`, `IngressOutcomes.dfy` | records co-owned by several Ingresses, what each Ingress asks for, the reconcile that joins the two, and all of it told by annotations, rules and status alone |

Each reconciler is a class whose method is proved equal to a function of the old state; the theorems are
about that function and runs of it. The modules named after outcomes say what these functions come to in
terms of the objects, the table and the texts, without the functions the reconcilers are built from. A router session may break off after any number of commands, list,
update and status calls may fail, and API calls may fail half way through a pass.

Where a natural promise does not hold, the code is kept and the exact condition proved:

- *A write does not always make the next read content.* Authentication cannot be switched off: the
  comparison asks for it, no command does it (`proxy.go:249`, `proxy.go:323-325`). And what stands in a
  block behind a line the parser does not know is never read (`proxy.go:172-176`). `RouterCli.WriteOnce`
  and `RouterCli.SecondRunSilentOnText`: these two cases exactly are written again for ever.
- *Authentication is not always switched on either.* An entry that is otherwise as wanted, of which the
  router does not say `no auth`, is left without it (`proxy.go:249`; `WebAppOutcomes.AuthNeverSwitchedOn`).
  `WebAppOutcomes.PublishedAsAsked` says exactly when level and authentication differ from what is asked.
- *A retried write is not always saved.* A session that broke off before the save is found done by the
  next run. `Durability.RetrySavesExactly` and `HostTable.HostRetrySavesExactly` say from which break
  points on.
- *An applied name can be lost.* The repository's README and the comment on `status.appliedName` promise
  that a rename leaves nothing behind; after a lost status write it does (`WebAppRuns.RenameStrands`).
  `WebAppRuns.UserStepExact` gives the exact condition on a user's step.
- *A recorded name is not always on the router* (`WebAppRuns.RecordedButAbsent`).
  `WebAppRuns.UserStepRecords`: it is, exactly until a user undoes a pending rename whose old entry is gone.
- *A host record does not always take its pairs along* (`HostRuns.EditThenDeleteStrands`).
  `HostRuns.UserStepExact` gives the exact condition on a user's step.
- *A host without a second label is published by the source and refused by the actuator*
  (`IngressSource.SpecAccepted`, an equivalence).
- *A chosen entry name publishes another host* (`Specs.PublishedUnderItsHost`, an equivalence).
- *A full table refuses a change of address that would not grow it* (`HostRecords.FullTableKeepsOldAddress`;
  `HostRecords.RefusalJustified` says exactly which refusals are due).
- *Several flat lines of one entry do not add up* (`RunningConfig.FlatLinesKeepTheLast`);
  `RunningConfig.FlatLinesAddUp`: they do exactly when all are of one kind.
- *A line longer than the window can pass for a prompt* (`Prompt.CutLineMisread`).
  `Prompt.WindowExact` says exactly which windows answer right whatever came before them.
- *A default scheme that is neither http nor https makes a publication depend on TLS elsewhere*
  (`IngressReconcile.TlsNeverUnpublishes`, an equivalence).

## Model

| member | source | states |
|---|---|---|
| `Validation.CheckedIsWord` | internal/keenetic/proxy.go:78-127 | a checked name, host or address is a single word, so it never breaks out of its place in a command |
| `Validation.ZoneOk` | internal/keenetic/proxy.go:68-76 | the zone of a host is a valid host name exactly when the host has a second label |
| `Validation.NameExactly` | internal/keenetic/proxy.go:78-88 | exactly a letter or digit and up to 31 more, underscores or hyphens, are an entry name |
| `Validation.HostnameExactly` | internal/keenetic/client.go:48-50 | exactly labels of up to 63 letters, digits and inner hyphens, joined by dots, are a host name |
| `Validation.Ipv4Exactly` | internal/keenetic/proxy.go:113-116 | exactly four printed numbers up to 255, joined by dots, are an address |
| `Text.FoldsExactly` | internal/keenetic/proxy.go:281-286 | texts fold to each other exactly if they differ in nothing but the case of letters |
| `Text.ScanUnlines` | internal/keenetic/proxy.go:153-156 | scanning printed lines, ended either way a terminal ends them, gives back exactly the lines |
| `Text.DecimalRoundTrip` | internal/keenetic/proxy.go:215-220 | a printed number reads back as itself |
| `Proxies.SettingRoundTrip` | internal/keenetic/proxy.go:183-227 | every line an entry can be given reads back as the setting it was printed from, the port included |
| `Proxies.RecognisedExactly` | internal/keenetic/proxy.go:183-227 | which lines are recognised, and as what: the keyword lines letter by letter, the others word by word, a port of one to five digits |
| `Proxies.HeaderRoundTrip` | internal/keenetic/proxy.go:157-163 | a printed header opens a block of exactly that name, with nothing left over |
| `Proxies.HeaderExactly` | internal/keenetic/proxy.go:89-91 | which lines open a block, and of which name |
| `Proxies.CommandSettingsOk` | internal/keenetic/proxy.go:104-127 | whatever passes validation is sent as lines that cannot be misread |
| `Proxies.ApplyCommands` | internal/keenetic/proxy.go:294-327 | the commands of an entry set everything asked for, switch nothing off, and leave `auth` on where it was on |
| `RunningConfig.Cursor.ApplyLine` | internal/keenetic/proxy.go:183-227 | the keyword switch and the three patterns recognise every line that can be printed and set what it was printed from; any other line is disowned and leaves the entry alone |
| `RunningConfig.ParseProxies` | internal/keenetic/proxy.go:142-180 | the loop with its open block and flushes computes the line-by-line reading of the text |
| `RunningConfig.BuildCommands` | internal/keenetic/proxy.go:294-327 | the appended commands are the header, the settings in order, and `exit` |
| `RunningConfig.ParseConfig` | internal/keenetic/proxy.go:142-180 | any mix of proxy blocks and foreign sections parses to exactly the blocks; foreign sections leave no trace |
| `RunningConfig.BlockOrderIrrelevant` | internal/keenetic/proxy.go:183-227 | lines that occur once may stand in any order inside a block |
| `RunningConfig.PrintThenParse` | internal/keenetic/proxy.go:294-327 | parsing the commands of any list of valid entries with distinct names gives those entries, normalised, and no others, each satisfying its origin |
| `RunningConfig.NormalisedSatisfies` | internal/keenetic/proxy.go:239-286 | an entry as it reads back satisfies the entry it was written from |
| `RunningConfig.UnknownLineCuts` | internal/keenetic/proxy.go:172-176 | of a block with a line the parser does not know, exactly what stands before that line is read |
| `RunningConfig.FlatLinesKeepTheLast` | internal/keenetic/proxy.go:157-163 | of several flat-form lines for one name only the last survives |
| `RunningConfig.FlatLinesAddUp` | internal/keenetic/proxy.go:157-163 | several flat-form lines add up exactly when all are of one kind |
| `RouterCli.ExecPrefix` | internal/keenetic/proxy.go:294-327 | a session broken off after any number of commands has touched one entry, is in the context its commands imply, and has saved only if it finished |
| `RouterCli.SentText` | internal/keenetic/proxy.go:294-327 | what is typed for an entry: its header, lines that say its settings, `exit` and the save, in that order |
| `RouterCli.ExecEnsure` | internal/keenetic/proxy.go:353-361 | a whole write ends at the top level with running and saved tables equal and every other entry as it was |
| `RouterCli.ExecDelete` | internal/keenetic/proxy.go:365-382 | a removal takes away that entry only and saves |
| `RouterCli.ReadBack` | internal/keenetic/proxy.go:142-180 | in whatever order a router prints its entries and their lines, whatever it hides and wherever it puts unknown lines, reading gives exactly the readable part of every entry |
| `RouterCli.PlannedFromText` | internal/keenetic/proxy.go:330-362 | the decision made from printed text is the decision made from the table |
| `RouterCli.MergedSatisfied` | internal/keenetic/proxy.go:239-286 | after a write the entry satisfies the request, exactly unless `auth` was on, is displayed and is not wanted, or something wanted cannot be read |
| `RouterCli.EnsuredKeeps` | internal/keenetic/proxy.go:330-362 | a run keeps other entries and every switch already on, and saves whatever it changes |
| `RouterCli.PrefixKeepsOk` | internal/keenetic/proxy.go:294-327 | however early a session breaks off, the router's table stays one that prints and reads back |
| `RouterCli.SecondRunSilent` | internal/keenetic/proxy.go:330-362 | the next run has something to write exactly when the entry is stuck: `auth` displayed and not wanted, or something wanted unreadable |
| `RouterCli.StuckNeedsWrite` | internal/keenetic/proxy.go:249-251 | a stuck entry always asks for a write |
| `RouterCli.WriteOnce` | internal/keenetic/proxy.go:330-362 | of any number of runs at most one writes to flash; with the entry stuck every one of them does |
| `RouterCli.SecondRunSilentOnText` | internal/keenetic/proxy.go:330-362 | the same from printed text to printed text, in any order, with any foreign sections and with unknown lines inside blocks |
| `RouterCli.ProxyRouter.Run` | internal/keenetic/client.go:160-169 | the lines are executed one after the other |
| `RouterCli.ProxyRouter.EnsureProxy` | internal/keenetic/proxy.go:330-362 | accepts exactly what passes validation and is not static on the router's own zone, and then executes what the printed text calls for |
| `RouterCli.ProxyRouter.DeleteProxy` | internal/keenetic/proxy.go:365-382 | removes and saves, or leaves an impossible name alone |
| `Durability.SatisfiedBySettings` | internal/keenetic/proxy.go:239-286 | the comparison holds exactly when each setting that would be sent is already there and no unwanted `auth` is displayed |
| `Durability.InterruptedNeedsWrite` | internal/keenetic/proxy.go:353-361 | after a session broken off anywhere the next run writes exactly when some setting not sent was not there before |
| `Durability.RetrySavesExactly` | internal/keenetic/proxy.go:353-361 | that retry saves in exactly those cases; otherwise it reports success and flash keeps the old table |
| `Durability.LostSaveStaysLost` | internal/keenetic/proxy.go:353-361 | a session that loses only the save leaves the whole entry running, never saved by any further run |
| `Specs.PublishedUnderItsHost` | internal/controller/ingress_controller.go:454-459 | an entry is served under its host exactly when its name is the first label of the host |
| `WebApps.Reconciler.Claimants` | internal/controller/keeneticwebapp_controller.go:253-270 | the loop finds exactly the live objects, other than itself, that ask for the name |
| `WebApps.Reconciler.NameClaimedElsewhere` | internal/controller/keeneticwebapp_controller.go:234-250 | the search finds a rival exactly when there is one |
| `WebApps.Reconciler.ReleaseName` | internal/controller/keeneticwebapp_controller.go:202-229 | an entry is removed only when nobody else claims it; failures and broken sessions included |
| `WebApps.Reconciler.EnsureProxy` | internal/controller/keeneticwebapp_controller.go:133-140 | reading printed text and typing commands one by one, with the session broken off anywhere: no other entry changes; success means the entry is there and needs no further write unless it is stuck |
| `WebAppOutcomes.AcceptedExactly` | internal/keenetic/proxy.go:104-127 | which specifications are accepted, field by field, given the router's own zone |
| `WebAppOutcomes.FineExactly` | internal/keenetic/proxy.go:239-286 | which entries are left alone, field by field: all that must be read can be read, and nothing readable speaks against it |
| `WebAppOutcomes.PublicationOutcome` | internal/controller/keeneticwebapp_controller.go:133-190 | a whole publication succeeds exactly for an acceptable specification; a fine entry is left alone, any other is written with the domain, scheme, address, port, level, switches and authentication of the specification |
| `WebAppOutcomes.FirstPublicationAsAsked` | internal/controller/keeneticwebapp_controller.go:160-190 | an entry that is new says of level and authentication exactly what the specification says, defaults filled in |
| `WebAppOutcomes.PublishedAsAsked` | internal/controller/keeneticwebapp_controller.go:160-190 | after any publication the entry leads where it should; level and authentication differ from what is asked exactly on the entries stated |
| `WebAppOutcomes.AuthNeverSwitchedOn` | internal/keenetic/proxy.go:249-251 | counterexample: authentication asked for on an otherwise fine entry is never switched on where the router does not say `no auth` |
| `WebAppOutcomes.OwnZoneNeverAnswered` | internal/keenetic/proxy.go:334-344 | over every run, with sessions broken off anywhere, no entry that answers for the router's own zone ever appears |
| `WebApps.Reconciler.Reconcile` | internal/controller/keeneticwebapp_controller.go:54-152 | one reconcile with any faults is the stated function of objects and table |
| `WebAppOutcomes.DeletedObjectGoes` | internal/controller/keeneticwebapp_controller.go:62-88 | a deleted object with its finalizer goes, whoever else asks for its name; its entry is gone, or untouched if another live object asks for it |
| `WebAppOutcomes.NewObjectFinalized` | internal/controller/keeneticwebapp_controller.go:90-97 | an object new to the operator gets its finalizer and nothing else |
| `WebAppOutcomes.RivalledObjectWaits` | internal/controller/keeneticwebapp_controller.go:106-119 | an object with a rival is marked as not applied and nothing else happens |
| `WebAppOutcomes.UnrivalledOutcome` | internal/controller/keeneticwebapp_controller.go:121-148 | any other gives back a former name nobody asks for, and is then published and recorded if acceptable, marked as not applied if not |
| `WebAppRuns.PublishEffect` | internal/controller/keeneticwebapp_controller.go:133-140 | a publication changes no entry but its own, never removes it, and never succeeds without it |
| `WebAppRuns.ReleaseEffect` | internal/controller/keeneticwebapp_controller.go:202-229 | a release changes at most the given entry, and only when nobody else claims it |
| `WebAppRuns.ReconcileFrame` | internal/controller/keeneticwebapp_controller.go:54-152 | an entry changes only by being written for an uncontested object that asks for it, or removed while nobody asks for it |
| `WebAppRuns.ReconcileKeeps` | internal/controller/keeneticwebapp_controller.go:62-148 | whatever fails, a reconcile leaves every written entry tracked by some object |
| `WebAppRuns.UserStepExact` | internal/controller/keeneticwebapp_controller.go:69-78 | a user's step keeps every written entry tracked if and only if it does not rename or delete the only object tracking an entry not recorded as applied |
| `WebAppRuns.NothingStranded` | internal/controller/keeneticwebapp_controller.go:62-148 | over every run of such steps and failing reconciles no written entry is stranded; with the last object gone none is left |
| `WebAppRuns.RenameStrands` | internal/controller/keeneticwebapp_controller.go:125-148 | counterexample from nothing: create, publish with the status write lost, rename; the old entry is left behind for good |
| `WebAppRuns.StrandedForever` | internal/controller/keeneticwebapp_controller.go:202-229 | an entry no object mentions is never touched again until an object of that name appears |
| `WebAppRuns.RivalFound` | internal/controller/keeneticwebapp_controller.go:234-250 | whoever asks for a contested name sees a rival, a third object sharing either domain included |
| `WebAppRuns.FrozenStep` | internal/controller/keeneticwebapp_controller.go:106-119 | no single step by or on anybody else touches a contested entry or settles the contest |
| `WebAppRuns.ContestedIsFrozen` | internal/controller/keeneticwebapp_controller.go:106-119 | while two live unedited objects contest a name, no run writes or removes its entry |
| `WebAppRuns.UserStepRecords` | internal/controller/keeneticwebapp_controller.go:121-130 | a user's step keeps every recorded name on the router if and only if it does not undo a pending rename whose old entry is gone |
| `WebAppRuns.ReconcileRecords` | internal/controller/keeneticwebapp_controller.go:121-148 | no reconcile, whatever fails in it, leaves a recorded name without its entry |
| `WebAppRuns.RecordsReached` | internal/controller/keeneticwebapp_controller.go:121-148 | the same over every run without such an undoing |
| `WebAppRuns.SurvivalStep` | internal/controller/keeneticwebapp_controller.go:106-130 | no step but its own object's edit or deletion takes the entry of a recorded name away, or rewrites it for another domain |
| `WebAppRuns.PublishedSurvives` | internal/controller/keeneticwebapp_controller.go:106-130 | from a start without objects and without such an undoing, a recorded name has its entry on the router through every further run that leaves its object alone, rewritten only for the same domain |
| `WebAppRuns.CalmReconcilePublishes` | internal/controller/keeneticwebapp_controller.go:121-148 | a reconcile without failures publishes an uncontested object, and the result needs no further write unless the entry is stuck |
| `WebAppRuns.SharersNeverRewrite` | internal/controller/keeneticwebapp_controller.go:231-250 | once an entry is as all its sharers want it, no order of reconciles and no failure writes it again |
| `WebAppRuns.RemovedOnlyUnclaimed` | internal/controller/keeneticwebapp_controller.go:202-229 | an entry disappears only in a reconcile, and only when no other live object asks for it |
| `WebAppRuns.GoneMeansReleased` | internal/controller/keeneticwebapp_controller.go:62-88 | an object goes away only once its entry is off the router or left to another claimant |
| `WebAppRuns.RecordedButAbsent` | internal/controller/keeneticwebapp_controller.go:74-78 | counterexample from nothing: a rename is undone after another object has come and gone with the entry |
| `HostTable.ListHosts` | internal/keenetic/client.go:371-382 | the loop groups the matched pairs by folded name, keeping every address in order |
| `HostTable.CountHosts` | internal/keenetic/client.go:354-366 | the count is the number of pairs, however names repeat |
| `HostTable.HasHost` | internal/keenetic/client.go:344-350 | true exactly when the folded name has that address |
| `HostTable.HostsReadBack` | internal/keenetic/client.go:371-382 | a printed configuration reads back as exactly its pairs, whatever other lines it has, blank ones included |
| `HostTable.BuildHostCommands` | internal/keenetic/client.go:301-315 | a removal for every other address in order, then one addition if the wanted address is missing |
| `HostTable.ExecSent` | internal/keenetic/client.go:301-315 | executing the commands removes exactly the stale pairs and adds exactly the missing one |
| `HostTable.HostConverges` | internal/keenetic/client.go:270-315 | afterwards the name has exactly the wanted address, every other name is unchanged, and the next run sends nothing |
| `HostTable.NeverLarger` | internal/keenetic/client.go:301-315 | between any two commands the table exceeds its former size by at most the one missing pair |
| `HostTable.ResumesWhereItStopped` | internal/keenetic/client.go:281-289 | after a session broken off anywhere the next run sends exactly the commands that are left |
| `HostTable.HostRetrySavesExactly` | internal/keenetic/client.go:281-289 | a retried run converges, and flash catches up exactly unless the first session had sent all but the save |
| `HostTable.HostRouter.EnsureHost` | internal/keenetic/client.go:270-291 | from printed text to running and saved table: converged, other names untouched, saved if anything was sent, and refused exactly when the input is invalid |
| `HostTable.HostRouter.DeleteHost` | internal/keenetic/client.go:318-333 | exactly that pair is removed and the result saved; invalid input is left alone |
| `HostRecords.Reconciler.EnsureHost` | internal/controller/keenetichostrecord_controller.go:125-131 | the table and the outcome, with the session broken off anywhere |
| `HostRecords.Reconciler.DeleteHost` | internal/controller/keenetichostrecord_controller.go:62-65 | the table and the outcome of a removal, with the session broken off anywhere |
| `HostRecords.Reconciler.Reconcile` | internal/controller/keenetichostrecord_controller.go:51-142 | one reconcile with any faults is the stated function of records and table |
| `HostOutcomes.RoomMeansApplied` | internal/controller/keenetichostrecord_controller.go:95-138 | a valid live record whose pair is there, or for which there is room below the cap, is applied: its name has exactly its address, all other pairs stay |
| `HostOutcomes.NoRoomMeansLimit` | internal/controller/keenetichostrecord_controller.go:113-131 | a live record is turned away exactly when its pair is missing from a full table; otherwise it is applied if valid, and marked as failed with the table untouched if not |
| `HostOutcomes.NewRecordFinalized` | internal/controller/keenetichostrecord_controller.go:86-93 | a record new to the operator gets its finalizer and nothing else |
| `HostOutcomes.DeletedRecordGoes` | internal/controller/keenetichostrecord_controller.go:59-84 | a deleted record goes, and of the table exactly its pair, if that is a valid one |
| `HostOutcomes.CreatedIsApplied` | internal/controller/keenetichostrecord_controller.go:86-138 | from its creation, two reconciles bring a valid record onto any router with room for it |
| `HostRecords.CapWithinReconcile` | internal/controller/keenetichostrecord_controller.go:95-131 | between any two commands of a reconcile the table is within the cap or its former size |
| `HostRecords.CapStep` | internal/controller/keenetichostrecord_controller.go:95-131 | the same for every step, edits and failures included |
| `HostRecords.CapHolds` | internal/controller/keenetichostrecord_controller.go:95-131 | over every run no table the router goes through exceeds the cap or the table it started with |
| `HostRecords.RefusalJustified` | internal/controller/keenetichostrecord_controller.go:113-122 | a refused record would have exceeded the cap exactly when its name has no more pairs than the table is over the cap |
| `HostRecords.FullTableKeepsOldAddress` | internal/controller/keenetichostrecord_controller.go:113-122 | a full table refuses a change of address that would leave its size as it is |
| `HostRecords.FinalizerFirst` | internal/controller/keenetichostrecord_controller.go:86-93 | the router is changed only for a record that already carries the finalizer |
| `HostRecords.GoneMeansRemoved` | internal/controller/keenetichostrecord_controller.go:59-84 | a record goes away only with its pair off the router; its name is then gone exactly when it had no other address |
| `HostRuns.ReconcileAdds` | internal/controller/keenetichostrecord_controller.go:124-131 | a reconcile adds no pair but the valid one its live record asks for |
| `HostRuns.ReconcileKeeps` | internal/controller/keenetichostrecord_controller.go:59-131 | whatever fails, a reconcile leaves every pair the operator wrote in the care of a record |
| `HostRuns.UserStepExact` | internal/controller/keenetichostrecord_controller.go:59-65 | a user's step does so if and only if it does not rename or delete the only record in whose care pairs other than its present one are |
| `HostRuns.NothingStranded` | internal/controller/keenetichostrecord_controller.go:51-142 | over every run of such steps and failing reconciles nothing is left behind; with the last record gone only pairs from before remain |
| `HostRuns.EditThenDeleteStrands` | internal/controller/keenetichostrecord_controller.go:59-65 | counterexample from nothing: a new address is not yet reconciled when the record is deleted; the old pair stays with nobody left |
| `Validation.HostnameFolds` | internal/keenetic/client.go:48-50 | whether a host name is valid does not depend on its case, so a folded table entry came from a valid name |
| `Prompt.StripAtBreak` | internal/keenetic/client.go:201-203 | removing control sequences works line by line |
| `Prompt.OnlyTheLastLineMatters` | internal/keenetic/client.go:217-223 | once text is visible after a line break nothing before it affects the test |
| `Prompt.SequenceIgnored` | internal/keenetic/client.go:201-203 | a control sequence before the text of the last line changes no answer |
| `Prompt.PromptExactly` | internal/keenetic/client.go:192-199 | a line is a prompt exactly if it is the top level's or that of a context named by letters, digits, underscores and hyphens |
| `Prompt.TailMoves` | internal/keenetic/client.go:240-247 | what is kept between reads is always the last bytes of everything read, as many as the window holds |
| `Prompt.WindowAgrees` | internal/keenetic/client.go:205-223 | a window that tells answers as everything read so far would: it shows a prompt and where its line starts, or nothing that could end one |
| `Prompt.WindowExact` | internal/keenetic/client.go:205-223 | the answer of a window is the same whatever was cut off before it if and only if it tells |
| `Prompt.LineStartTells` | internal/keenetic/client.go:205-223 | a line break with visible text after it is enough |
| `Prompt.FiresExactly` | internal/keenetic/client.go:232-253 | while windows tell, a read ends the wait exactly when it brings everything read to a prompt |
| `Prompt.ReadUntilPrompt` | internal/keenetic/client.go:232-253 | the loop stops at the first read whose window is at a prompt and returns everything read until then |
| `Prompt.StopsWhereUnboundedStops` | internal/keenetic/client.go:205-253 | while windows tell, for every stream and chunking that is the first boundary at which everything read ends in a prompt |
| `Prompt.CutLineMisread` | internal/keenetic/client.go:205-208 | counterexample: a line cut by the window passes for a prompt |
| `Prompt.PositiveExact` | internal/keenetic/client.go:205-223 | a window that shows a prompt is right whatever came before it if and only if it shows where the prompt's line starts |
| `Prompt.NegativeExact` | internal/keenetic/client.go:205-223 | a window that shows none is right whatever came before it if and only if no leftover of it, also of a control sequence cut in two, is the end of a prompt |
| `Prompt.BlankWindow` | internal/keenetic/client.go:217-223 | a window with nothing visible answers no, and that answer is never to be trusted |
| `Session.Shell.Send` | internal/keenetic/client.go:152-163 | a line sent to a ready router is acted on, any other is thrown away |
| `Session.Shell.Await` | internal/keenetic/client.go:164-168 | a wait that succeeds leaves the router ready, however its output is cut; it succeeds if the reply ends at a prompt |
| `Session.Run` | internal/keenetic/client.go:150-173 | no line is ever thrown away; on success the router acted on exactly the lines and then `exit`, on failure on the first of them in order; it succeeds if every reply ends at a prompt |
| `Session.OrderlyIsPolite` | internal/keenetic/client.go:152-168 | routers that answer in lines of at most half a window, none a prompt but the last, meet the assumptions, and sessions with them succeed |
| `Session.ListingsArePolite` | internal/keenetic/client.go:152-168 | the same for an echo, any number of plain lines and a prompt |
| `SharedOwnership.SharedStore.Attach` | internal/controller/ingress_controller.go:118-184 | ownership is taken either way, the value written only when it is the only one stated, a record created only then |
| `SharedOwnership.SharedStore.LetGo` | internal/controller/ingress_controller.go:191-221 | ownership is given up, and the record goes with its last owner |
| `SharedOwnership.SharedStore.AttachAll` | internal/controller/ingress_controller.go:118-184 | the loop over wanted keys, up to the first API failure |
| `SharedOwnership.SharedStore.LetGoAll` | internal/controller/ingress_controller.go:186-222 | the loop over unwanted records, up to the first API failure |
| `SharedOwnership.SharedStore.Reconcile` | internal/controller/ingress_controller.go:116-222 | a whole pass is the stated function of the store, one cut short has done its part on exactly the keys reached |
| `SharedOwnership.KeyOutcome` | internal/controller/ingress_controller.go:116-222 | per key: a wanted record is there if it was or if one value is agreed on, an unwanted one goes exactly with its last owner, ownership follows what is wanted, and a value changes only to the one agreed on |
| `SharedOwnership.SurvivalStep` | internal/controller/ingress_controller.go:116-222 | no step loses a record an owner goes on declaring; its value changes only to the sole one stated |
| `SharedOwnership.RecordSurvives` | internal/controller/ingress_controller.go:116-222 | the same over every run of reconciles, passes cut short, edits and collections |
| `SharedOwnership.UnsettledKeepsValue` | internal/controller/ingress_controller.go:128-159 | while owners disagree or none has a value the record is not rewritten |
| `SharedOwnership.AnyPassStabilises` | internal/controller/ingress_controller.go:98-222 | one reconcile of each owner in any order gives every record exactly its declarers and every agreed key its record |
| `SharedOwnership.StableForever` | internal/controller/ingress_controller.go:123-130 | from then on no reconcile in any order rewrites anything |
| `IngressSource.SpecAccepted` | internal/controller/ingress_controller.go:449-562 | a derived specification is accepted by the actuator sharing its zone exactly when the host has a second label |
| `IngressSource.AddressesByHost` | internal/controller/ingress_controller.go:246-269 | for every host exactly the different addresses claimed, each once |
| `IngressSource.HostsRequiringTls` | internal/controller/ingress_controller.go:583-600 | the bit of a host is the disjunction over all Ingresses listing it |
| `IngressSource.WebAppSpecsByHost` | internal/controller/ingress_controller.go:397-425 | for every host exactly the different specifications asked for, each once |
| `IngressOutcomes.SpecExactly` | internal/controller/ingress_controller.go:449-562 | each field of a derived specification is what its annotation says, or the stated default; it exists exactly when all of them are usable |
| `IngressOutcomes.PublishesExactly` | internal/controller/ingress_controller.go:433-445 | the publish annotation decides, an unreadable one against publishing; without one the default does |
| `IngressOutcomes.CollectedExactly` | internal/controller/ingress_controller.go:397-425 | a specification is collected for a host exactly when some Ingress that publishes and lists the host asks for it, field by field |
| `IngressOutcomes.CollectPublications` | internal/controller/ingress_controller.go:283-308 | the same of the lists collected with TLS taken over the whole cluster, each specification once |
| `IngressOutcomes.PublishedAsAnnotated` | internal/controller/ingress_controller.go:283-340 | what a namespace settled on for a host is what one of its Ingresses asks for and what none contradicts |
| `IngressOutcomes.TlsExactly` | internal/controller/ingress_controller.go:605-629 | a readable redirect annotation decides, the forcing one first; without one a TLS section listing the host or no host at all |
| `IngressOutcomes.ClusterTlsExactly` | internal/controller/ingress_controller.go:583-600 | a host is served over TLS when some Ingress of the cluster that lists it says so |
| `IngressOutcomes.AddressExactly` | internal/controller/ingress_controller.go:271-278 | the first address a load balancer reports wins; the default counts only where none reports any |
| `IngressOutcomes.AddressesExactly` | internal/controller/ingress_controller.go:246-269 | the addresses collected for a host are those of the Ingresses that list it, in whatever case |
| `IngressSource.ViewsWithin` | internal/controller/ingress_controller.go:246-269 | more Ingresses never take anything out of a view |
| `IngressSource.ViewsOrderFree` | internal/controller/ingress_controller.go:397-425 | order and repetition of Ingresses and rules do not affect any view |
| `IngressSource.SameVerdict` | internal/controller/ingress_controller.go:127-130 | whatever order a view was collected in, it is found settled alike and on the same value |
| `IngressSource.AlikeWants` | internal/controller/ingress_controller.go:449-562 | equal annotations give equal specifications for a shared host |
| `IngressReconcile.Reconciler.Reconcile` | internal/controller/ingress_controller.go:83-241 | one reconcile performs the shared-ownership pass on records and on publications, and comes back later exactly when a key of this Ingress is open |
| `IngressReconcile.Reconciler.ReconcileWebApps` | internal/controller/ingress_controller.go:283-393 | the publication pass, with the TLS bit taken over the whole cluster |
| `IngressReconcile.List` | internal/controller/ingress_controller.go:246-250 | the Ingresses of a namespace, all and only they |
| `IngressReconcile.DesiredHosts` | internal/controller/ingress_controller.go:98-106 | the folded hosts of all rules that name one |
| `IngressReconcile.Mine` | internal/controller/ingress_controller.go:292-301 | exactly the hosts for which this Ingress has a usable publication |
| `IngressReconcile.AddressesAreVotes` | internal/controller/ingress_controller.go:246-269 | the addresses collected for a host are what the owners of its record state |
| `IngressReconcile.SpecsAreVotes` | internal/controller/ingress_controller.go:397-425 | the specifications collected for a host are what the owners of its publication state |
| `IngressReconcile.OnlyAddressIsAgreed` | internal/controller/ingress_controller.go:119-130 | a host is settled on an address exactly when some Ingress listing it has that address and none has another |
| `IngressReconcile.HostsConverge` | internal/controller/ingress_controller.go:98-222 | with no owner but present Ingresses, after each was reconciled at least once in any order: every host with one address has a record at it, every record is owned by exactly the Ingresses listing its host, none is left for a host nobody lists except the hand-made ones, which are untouched, and any further pass changes nothing |
| `IngressReconcile.PublicationsAccepted` | internal/controller/ingress_controller.go:283-393 | for a valid host with a second label, what a namespace settled on is on record, owned by exactly the Ingresses that ask for it, and not turned down by the actuator |
| `IngressReconcile.DisagreementIsReal` | internal/controller/ingress_controller.go:310-340 | an Ingress's own specification is among those compared: a host is left open exactly when another Ingress asks for something else |
| `IngressReconcile.NamespacesAgree` | internal/controller/ingress_controller.go:574-600 | with equal annotations several namespaces settle on one specification for a shared host, whichever Ingress carries TLS |
| `IngressReconcile.TlsNeverUnpublishes` | internal/controller/ingress_controller.go:496-522 | TLS starting or stopping elsewhere takes a publication away exactly when no usable scheme is left for plain traffic |
| `IngressReconcile.StepKeepsOwned` | internal/controller/ingress_controller.go:191-221 | a reconcile never leaves a record behind that it has taken the last owner from |
| `IngressReconcile.HostRecordSurvives` | internal/controller/ingress_controller.go:116-222 | a record survives every run in which an Ingress owning it goes on listing its host |
| `IngressReconcile.PublicationSurvives` | internal/controller/ingress_controller.go:283-393 | with a usable scheme, a publication survives every run in which an Ingress owning it is left alone, even while TLS changes elsewhere |

## Left out

- SSH dialling, handshake, host keys, deadlines and the goroutine that closes the socket: a session that ends early stands for all of them.
- `filterNoise` and the refusal patterns in the router's output: they only drop lines or turn a finished session into a failed one, which the faults already cover.
- The limits on line length of the two line scanners: lines are assumed shorter.
- Folding and white space beyond what the texts here contain: case is folded for ASCII only, `strings.EqualFold` and `strings.ToLower` on other letters are not modelled.
- The five boolean switches of a proxy entry are one set of switches; each is still printed, read and compared on its own.
- Flash under the web-app and host-record reconcilers: their tables are the running ones, the saved tables are in the models of single operations.
- Flat-form commands: the parser reads them, the modelled router does not execute them.
- Hand edits to the router between two reads, and a router that displays a line at one time and hides it at another: the mask of displayed lines is fixed per entry.
- Router behaviour is taken from the repository's own description: pairs as keys, folded host names, removal of an absent entry without effect, new entries with all switches and `auth` off.
- Two host records for one hostname from different namespaces: the last reconciled wins, which the code does not arbitrate.
- Concurrent reconciles of one controller and stale caches: reconciles are serial and lists current, as the manager is configured.
- Requeue timers, watches and leader election; garbage collection appears only as a step that drops references to owners that are gone.
- Deletion of records and publications by the Ingress layer is immediate there; the two-phase deletion with finalizers is modelled in the actuators, not at the seam between the two.
- Owner references are kept by Ingress name; a deleted and re-created Ingress of the same name counts as the same owner.
- Record objects made by hand under a host's name but with another hostname in their specification: at the Ingress layer the value of a record is its address.
- Wildcard hosts: they are collected and compared like any other host, but `IngressSource.SpecAccepted` speaks of hosts that are valid host names.
- Metrics, log lines, condition messages, timestamps and generations.
- Environment variables, apart from the range of the default port and the zone shared by source and actuator, both of which appear as assumptions.
- PublicationSurvives: assumes the Ingress itself unchanged and a usable scheme, `IngressReconcile.TlsNeverUnpublishes` gives the exact condition on the scheme.
