# CORTX Manager: verified models of its state machines, compilers and stores

This project models the parts of CORTX Manager that hold real logic and proves what
they do on all inputs and over all runs. Check it with `dafny verify dfyconfig.toml`.

- **Alert life cycle** (`AlertModel`, `AlertInvariants`, `AlertTheorems`, `AlertFields`,
  `AlertServices`, `AlertQueries`). Sensor messages and user requests change a store of alerts. A message is
  handled in two phases, a lookup and a write, and user requests may land between the two.
  A run is a sequence of such steps; the theorems are about every state of every run. The
  classes in `AlertServices` are the services themselves; their contracts say that they take
  exactly the machine's steps. Good and bad states are arbitrary disjoint sets, and a state
  may be neither. Messages carry `resolved` and `acknowledged` as false, which is what
  `archive/plugins/cortx/alert.py:297-298` writes into them, and a new id each.
- **Timelion queries** (`Parens`, `Timelion`, `TimelionProofs`, `TimelionRequest`,
  `TimelionText`, `TimelionReader`, `TimelionWindow`, `TimelionSent`, `TimelionSentText`,
  `Calendar`). A rule tree is compiled by editing strings; requests join compiled metrics,
  narrow index wildcards by date and fill in the interval. `TimelionText` states the compiled
  text character by character, `TimelionReader` reads it back, and `TimelionSent` and
  `TimelionSentText` follow the rules through all edits to the query that is sent.
- **Key material** (`KeyVault`, `CertificateManager`). Files on disk cache a secure storage
  and are restored on demand.
- **Configuration** (`Payload`, `Upgrade`, `JsonKeys`). Dotted-key access to nested
  dictionaries, the three-way upgrade merge, and key removal.
- **Filter queries** (`FilterTree`, `FilterQuery`), **retention** (`Retention`), **periodic
  tasks** (`Periodic`) and **paging** (`Paging`).

Where a property one would expect does not hold of the code, the model keeps the code and
states exactly when it holds:

- A closed alert can be re-opened: a repeated message writes back the copy that its lookup
  took, and an acknowledgement in between is undone (`RepeatedMessageReopens`, `ReopensIff`).
  Comments added in between are lost in the same way (`RepeatedMessageDropsComment`,
  `CommentsOnlyGrow`).
- A bad message can stay invisible: when a user closes the alert between lookup and write,
  the update finds no open alert (`BadMessageVanishes`, `BadMessageShowsIff`).
- A lookup that fails in all its retries leads to a second open alert (`FailedLookupOpensTwo`,
  `WriteBreaksOneOpenIff`).
- An IEM alert can be resolved while its state is bad (`IemResolvedWhileBad`): resolved equals
  good throughout a run iff no request acknowledges an IEM alert that is not good
  (`InconsistentIff`, `ConsistentRunIff`). After such a request the guard on the flag drops a
  later good message (`IemGuardBlocks`, `GoodMessageTakesEffectIff`).
- A rule whose first leaf is a number or `interval` compiles to an unbalanced query
  (`CompiledBalancedIff`); so does a request without metrics (`SentQueryBalancedIff`).
- Literal arguments that follow one another run together (`LiteralsRunTogether`): a rule's nodes
  can all be read back from its query iff no two of its literals do (`RuleComesBackIff`).
- Key material is read in text mode, so bytes with a carriage return do not come back as
  they were stored (`ReadBackIff`).
- Overwriting a private key can leave a certificate of another key behind
  (`OverwriteSeparates`, `MismatchIff`).
- The support bundle misses alerts beyond the record limit, which IEM alerts count towards
  although they are not listed (`NewAlertsCutOff`, `FetchForSupportBundle`).
- Writing one configuration path makes another one readable that was blocked by a value that
  is no dictionary (`SetLeavesOthersIff`).
- An empty default on the way strands a key at an old default (`EmptyDefaultStrands`); an
  untouched key follows the defaults iff none of them is empty (`FollowsIff`).

## Model

| member | source | states |
|---|---|---|
| AlertServices.AlertRepository.RetrieveBySensorInfo | archive/core/services/alerts.py:72-78 | answers an open alert of the sensor, and nothing only when there is none |
| AlertServices.AlertRepository.UpdateBySensorInfo | archive/core/services/alerts.py:83-88 | the same ids are stored; every open alert of the sensor takes the new fields, every other alert stays |
| AlertServices.AlertMonitor.GetPreviousAlert | archive/core/services/alerts.py:678-699 | an answer exactly when some attempt within the retry bound reaches the store; otherwise no previous alert is reported |
| AlertServices.AlertMonitor.Consume | archive/core/services/alerts.py:701-778 | handling a message without interruption is the lookup step followed by the write step of the machine, or the failed lookup when no attempt got through; a message without a previous alert is stored under its id with its own sensor, state and times |
| AlertServices.AlertMonitor.ResolveAlert | archive/core/services/alerts.py:780-811 | the store becomes what the write step says in each case of old and new state; updated is reported exactly for new good or bad states |
| AlertServices.AlertMonitor.UpdateAlert | archive/core/services/alerts.py:825-862 | the parameters written, with the resolved flag reset or taken from the looked-up copy, go to the open alerts of the sensor |
| AlertServices.AlertMonitor.Resolve | archive/core/services/alerts.py:891-903 | resolves through the update unless the copy is resolved already, and then does nothing |
| AlertServices.AlertMonitor.UpdateDuplicateAlert | archive/core/services/alerts.py:905-922 | the stored alert is replaced except for its flags and comments, which come from the copy |
| AlertServices.AlertsAppService.UpdateAlert | archive/core/services/alerts.py:292-324 | not found, or refused when closed, or acknowledged as asked with IEM alerts resolved |
| AlertServices.AlertsAppService.AddCommentToAlert | archive/core/services/alerts.py:326-351 | not found, or refused when closed, or one comment appended with the next number |
| AlertServices.AlertsAppService.UpdateAllAlerts | archive/core/services/alerts.py:387-416 | acknowledges the ids in order up to the first unknown one, keeps what was done before it, and succeeds exactly when all are known |
| AlertInvariants.UserEventMoves | archive/core/services/alerts.py:292-416 | no user request changes an alert's sensor, state or details, opens a closed alert, shortens its comments, or resolves an alert that is not an IEM alert; a closed alert changes in its update time only |
| AlertInvariants.FlagsOkStep | archive/core/services/alerts.py:748-920 | every step keeps resolved equal to having a good state, in the store and in the copy in flight, for alerts that are not IEM alerts |
| AlertInvariants.LookupInvStep | archive/core/services/alerts.py:72-88 | every step but a failed lookup keeps at most one open alert per sensor, and that one is what the message in flight found |
| AlertInvariants.WriteKeepsEpisode | archive/core/services/alerts.py:780-920 | a write leaves every alert that is open before or after it showing what the scan of the messages finds |
| AlertInvariants.WrittenComments | archive/core/services/alerts.py:861-920 | a write changes comments only by putting a copy back |
| AlertTheorems.AlwaysOk | archive/core/services/alerts.py:701-920 | in every state of every run, failed lookups included, flags and comment numbers are right and the message in flight is new |
| AlertTheorems.AlwaysTracked | archive/core/services/alerts.py:701-920 | in every state of every run with successful lookups, one open alert per sensor and every open alert in step with the message scan |
| AlertTheorems.ResolvedMeansGood | archive/core/services/alerts.py:756-903 | for every alert in every reachable state that is not an IEM alert, resolved holds iff the state is good |
| AlertTheorems.InconsistentIff | archive/core/services/alerts.py:313-416 | from a state in which resolved equals good for all alerts, IEM alerts included, a step breaks that iff it acknowledges, singly or in bulk before an unknown id, an IEM alert that is not good |
| AlertTheorems.ConsistentRunIff | archive/core/services/alerts.py:313-903 | resolved equals good for all alerts in all states of a run iff no request of the run does that |
| AlertTheorems.IemResolvedWhileBad | archive/core/services/alerts.py:313-323 | a run that ends with a resolved, open IEM alert in a bad state |
| AlertTheorems.CommentIdsCount | archive/core/services/alerts.py:344-349 | comment number n + 1 is the n-th of every alert in every reachable state |
| AlertTheorems.OneOpenAlertPerSensor | archive/core/services/alerts.py:72-88 | at most one alert per sensor is open in every reachable state, wherever user requests land |
| AlertTheorems.WriteBreaksOneOpenIff | archive/core/services/alerts.py:690-766 | whatever the lookups did, a write breaks that rule iff it puts an alert in place while another of the sensor is open |
| AlertTheorems.FailedLookupOpensTwo | archive/core/services/alerts.py:690-760 | a run with a failed lookup that ends with two open alerts of one sensor |
| AlertTheorems.EpisodeRefinesScan | archive/core/services/alerts.py:748-920 | from opening through closing, state, severity and health are those of the message that a scan of the history finds, and resolved holds iff that state is good |
| AlertTheorems.ScanFindsLatestDecisive | archive/core/services/alerts.py:712-728 | the scanned state is that of the latest good-or-bad message since opening, or the opening one's |
| AlertTheorems.GoodMessageTakesEffectIff | archive/core/services/alerts.py:794-903 | a good message over a copy that is not good takes effect, and resolves, iff the stored alert is still open and the copy is not resolved; otherwise nothing changes |
| AlertTheorems.GuardNeverBlocks | archive/core/services/alerts.py:891-903 | in every run, for alerts that are not IEM alerts, the alert that was looked up is still open when a good message over a copy that was not good is written, and the write resolves it |
| AlertTheorems.IemGuardBlocks | archive/core/services/alerts.py:895-903 | a run that ends with an open IEM alert in its bad state after a good message, which the guard dropped |
| AlertTheorems.BadMessageShowsIff | archive/core/services/alerts.py:794-808 | a written bad message shows as an open unresolved alert iff it replaces an alert or the alert it updates is still open |
| AlertTheorems.BadMessageVanishes | archive/core/services/alerts.py:794-862 | a run after whose bad message the sensor has no open alert, because the good alert was acknowledged between lookup and write |
| AlertTheorems.ReopensIff | archive/core/services/alerts.py:905-920 | one step opens a closed alert iff it writes back a copy of it; otherwise only the update time changes |
| AlertTheorems.ClosedIsFrozen | archive/core/services/alerts.py:308-413 | a closed alert that no message in flight is about to put back stays closed and unchanged but for its update time, to the end of the run; so with messages handled without interruption nothing closed ever changes |
| AlertTheorems.RepeatedMessageReopens | archive/core/services/alerts.py:905-920 | a run in which an acknowledgement between lookup and write is undone |
| AlertTheorems.CommentsOnlyGrow | archive/core/services/alerts.py:339-349 | comments are only appended, except when a copy that lacks some is put back |
| AlertTheorems.RepeatedMessageDropsComment | archive/core/services/alerts.py:905-920 | a run in which a comment added between lookup and write of a repeated message is lost |
| AlertFields.NodeAlertIs | archive/core/services/alerts.py:924-931 | a module is a node's iff its name up to the first colon is "node" |
| AlertFields.AnnotateIs | archive/core/services/alerts.py:726-728 | the support text is the standard one iff the message is bad and of high risk on a node, and else its own; nothing else changes |
| AlertFields.PendingIs | archive/core/services/alerts.py:726-745 | in every run a message is in flight exactly from its lookup to its write, with a copy of the alert as it was at the lookup |
| AlertFields.StepTouches | archive/core/services/alerts.py:292-920 | in every run every step leaves every alert as one of six touches says, all fields spelled out |
| AlertFields.StoredIffOpened | archive/core/services/alerts.py:748-760 | an alert is stored iff a message opened it |
| AlertFields.FieldsComeFrom | archive/core/services/alerts.py:748-920 | in every state of every run, IEM alerts, failed lookups and closed alerts included: creation time and module are those of the latest opening or repeated message, the description that of the latest opening, repeated or bad one, state, severity, health and support text those of the latest one taken over, for IEM alerts also creation time and description; the update time is the opening message's own or that of the latest write or request after it |
| AlertFields.AcknowledgedIsAsked | archive/core/services/alerts.py:313-410 | the acknowledged flag is the value asked for last, except that a repeated message puts back what its lookup saw |
| AlertFields.CommentsAreAdded | archive/core/services/alerts.py:339-920 | the comments are those added since opening, with text, author, time and number, except that a repeated message puts back what its lookup saw |
| AlertQueries.PrepareTimeRange | archive/core/services/alerts.py:90-96 | the conditions hold of exactly the alerts created in the range |
| AlertQueries.ActiveFilter | archive/core/services/alerts.py:122-135 | the tree holds of exactly the alerts with one flag and not the other |
| AlertQueries.PrepareFilters | archive/core/services/alerts.py:98-120 | the tree selects exactly the alerts that the request's parameters ask for |
| AlertQueries.RetrieveByRange | archive/core/services/alerts.py:137-159 | the answer is the records that the request asks for, from the offset and up to the limit given, or the first thousand when none is given |
| AlertQueries.FetchForSupportBundle | archive/core/services/alerts.py:233-282 | lists open alerts and alerts created in the last seven days, without IEM alerts, each as often as stored, iff the record limit cuts none of them off; never more than that |
| AlertQueries.NewAlertsCutOff | archive/core/services/alerts.py:147-148 | among more than a thousand new alerts, those after the thousandth are cut off |
| Timelion.Parse | csm/common/timeseries.py:143-172 | the loop computes the compilation of the rule, errors included; what text that is, is stated by TimelionText.CompiledIs |
| TimelionProofs.CompilesIffKnown | csm/common/timeseries.py:145-155 | a rule compiles iff every text value in it is an operator with children or a configuration name |
| TimelionProofs.CompileOutcome | csm/common/timeseries.py:143-163 | from any output, compiling keeps depth and balance, and only a leading literal loses a parenthesis |
| TimelionProofs.CompiledBalancedIff | csm/common/timeseries.py:143-172 | with balanced fields the compiled query is balanced iff no number or configuration value is the first leaf of the rule |
| TimelionProofs.CompiledReadsQueries | csm/common/timeseries.py:143-172 | read left to right, the fragments of the compiled query are the rule's query nodes in depth-first order, none lost or repeated |
| TimelionText.CompiledIs | csm/common/timeseries.py:121-172 | the compiled query is, character by character, the post-order of the rule written from left to right in one pass: series with their four fields, `.sum` for "+", `.divide` for "/", and literals before the last parenthesis |
| TimelionReader.CompiledReadsBack | csm/common/timeseries.py:115-172 | a left-to-right reader of the compiled query gets back every node in post-order, with literals that follow one another run together |
| TimelionReader.RuleComesBackIff | csm/common/timeseries.py:143-172 | all nodes come back iff no two literals follow one another |
| TimelionReader.LiteralsRunTogether | csm/common/timeseries.py:151-157 | the literals 5 and 7 compile to the same text as the literal 57 |
| TimelionRequest.InitPanel | csm/common/timeseries.py:131-136 | fails iff a metric does not compile, and otherwise gives each name its labelled query |
| TimelionRequest.TemplateBalancedIff | csm/common/timeseries.py:134-136 | the labelled metric is balanced iff its rule does not lead with a literal |
| TimelionRequest.TemplatesBalanced | csm/common/timeseries.py:131-136 | over well-formed metrics every template of a panel is balanced |
| TimelionRequest.TimelionProvider.Init | csm/common/timeseries.py:117-141 | every panel of the rule file gets its templates, and well-formed rules give balanced ones |
| TimelionRequest.JoinMetrics | csm/common/timeseries.py:331-336 | fails iff a metric is not offered, and otherwise joins the narrowed templates in request order |
| TimelionRequest.TimelionProvider.AggregateMetric | csm/common/timeseries.py:323-340 | the query of a request, joined or given, with its interval filled in |
| TimelionRequest.NarrowingBalanced | csm/common/timeseries.py:304-321 | narrowing the index of a metric neither makes nor breaks its balance |
| TimelionRequest.SentQueryBalancedIff | csm/common/timeseries.py:331-339 | over balanced templates the query sent is balanced iff a metric is requested |
| TimelionWindow.ParseInterval | csm/common/timeseries.py:253-282 | which windows and intervals are accepted; an accepted window is not empty and keeps its length, and its interval is the one asked for, the storage interval when none is, or the length that gives the requested number of samples |
| TimelionWindow.UpdateIndex | csm/common/timeseries.py:284-321 | the first known index in the metric is replaced by its narrowed pattern |
| TimelionWindow.DayOfTime | csm/common/timeseries.py:195-196 | every hour, minute and second of a date counts to its day |
| TimelionWindow.DatePartsOfIso | csm/common/timeseries.py:306-307 | the components split out of a time text are its year, month and day |
| TimelionWindow.NarrowingExact | csm/common/timeseries.py:312-319 | in all four cases the narrowed pattern matches a daily index of the family iff its day, month or year is kept |
| TimelionWindow.NarrowingSound | csm/common/timeseries.py:193-321 | for every accepted window, every daily index between its first and last day is still matched |
| TimelionWindow.KnownIndexIsFamily | csm/common/timeseries.py:138 | each known index is a literal stem with one star at its end |
| TimelionWindow.NoKnownIndexUnchanged | csm/common/timeseries.py:308-321 | a metric without a known index is not changed |
| TimelionSent.EditedRuleCompiles | csm/common/timeseries.py:143-172 | replacing an index or the interval placeholder in the compiled text is compiling the rule with its fields and configuration values replaced |
| TimelionSent.SentMetricReads | csm/common/timeseries.py:131-339 | the fragments of a labelled, narrowed and filled-in metric are its rule's query nodes in order, edited field by field |
| TimelionSent.SentQueryReads | csm/common/timeseries.py:323-340 | the fragments of the joined query that is sent are the query nodes of the requested metrics in order, each with its first known index narrowed and its interval filled in |
| TimelionSent.SentIndexCovers | csm/common/timeseries.py:284-339 | whichever known index was narrowed, the pattern that a query node sends matches the daily index of every day of the window |
| TimelionSent.SentRequestReadsWindow | csm/common/timeseries.py:253-340 | for every window that the interval parser accepts, the sent query reads as the requested rules' query nodes, and each that names a known index covers every day of the window |
| TimelionSentText.PanelOffers | csm/common/timeseries.py:131-136 | under each metric's name a compiled panel holds that metric's template, the last one of equal names |
| TimelionSentText.SentMetricIs | csm/common/timeseries.py:131-339 | the exact text of one metric after narrowing and filling in: the labelled post-order of its rule, edited token by token |
| TimelionSentText.SentQueryIs | csm/common/timeseries.py:323-339 | the exact text of the query that is sent: the requested metrics in order with commas between them |
| TimelionSentText.SentRequestIs | csm/common/timeseries.py:253-339 | for every accepted window, that text shows the digits of the interval that the request means wherever a rule names the interval |
| KeyVault.TextModeIs | archive/core/services/usl_certificate_manager.py:89-92 | text mode turns return and line feed, and then every other return, into a line feed |
| KeyVault.ReadBackIff | archive/core/services/usl_certificate_manager.py:89-92 | text-mode reading gives back the stored bytes iff they hold no carriage return |
| KeyVault.RunStores | archive/core/services/usl_certificate_manager.py:204-242 | after every run the operations alone tell what is stored: the key of the latest creation not in vain, the first matching certificate, both only if no deletion came after |
| KeyVault.RepliesFollow | archive/core/services/usl_certificate_manager.py:190-242 | every answer in every run, reads, errors and the status of deletion included, follows from a scan of the operations before it |
| KeyVault.MismatchIff | archive/core/services/usl_certificate_manager.py:204-242 | one operation separates a certificate from its key iff it overwrites the key by one of another public key |
| KeyVault.OverwriteSeparates | archive/core/services/usl_certificate_manager.py:204-236 | a run from the empty vault that ends with a certificate of another key than the stored one |
| KeyVault.AlwaysMatched | archive/core/services/usl_certificate_manager.py:204-242 | in every run without overwriting, a stored certificate has a stored private key of the same public key |
| KeyVault.KeyStays | archive/core/services/usl_certificate_manager.py:204-219 | without overwriting and deletion a stored key stays what it is through every run |
| CertificateManager.DomainCertificateManager.RestoreToDisk | archive/core/services/usl_certificate_manager.py:55-65 | copies the secure bytes to disk iff there are any |
| CertificateManager.DomainCertificateManager.HasFile | archive/core/services/usl_certificate_manager.py:67-76 | yes iff the secure storage holds the name, and then the file is on disk |
| CertificateManager.DomainCertificateManager.GetBytes | archive/core/services/usl_certificate_manager.py:84-92 | the secure bytes in text mode, whatever was lost from disk |
| CertificateManager.DomainCertificateManager.GetPublicKeyBytes | archive/core/services/usl_certificate_manager.py:102-119 | the public key of the stored private key, if there is one that loads |
| CertificateManager.DomainCertificateManager.StoreBytes | archive/core/services/usl_certificate_manager.py:121-127 | refused iff the name is taken and not forced, and then nothing is written; otherwise both copies are |
| CertificateManager.DomainCertificateManager.DeleteBytes | archive/core/services/usl_certificate_manager.py:129-149 | removes both copies and reports whether the secure storage had the name |
| CertificateManager.DomainCertificateManager.CreatePrivateKeyFile | archive/core/services/usl_certificate_manager.py:204-219 | never fails on a taken name and never replaces a key unless told to overwrite |
| CertificateManager.DomainCertificateManager.CreateCertificateFile | archive/core/services/usl_certificate_manager.py:221-236 | stores exactly certificates that load, match the stored key and have no predecessor; each other case has its error |
| CertificateManager.DomainCertificateManager.DeleteKeyMaterial | archive/core/services/usl_certificate_manager.py:238-242 | afterwards neither key nor certificate is on disk or in the secure storage; reports whether there was a key |
| CertificateManager.DomainCertificateManager.Serve | archive/core/services/usl_certificate_manager.py:55-242 | over every run of operations with files lost from disk anywhere in it, answers and contents are those of one plain map, and every managed file on disk equals its secure copy |
| FilterQuery.RoundTrip | csm/common/filter.py:32-39 | parsing a printed query gives back its fields and operators |
| FilterQuery.SplitPrinted | csm/common/filter.py:35 | splitting at the words gives back the printed fields |
| FilterQuery.OperatorsComeBack | csm/common/filter.py:37-38 | the operator tokens of a printed query are its operators in order |
| FilterQuery.StripPadded | csm/common/filter.py:36 | stripping takes off the blanks at both ends and nothing else |
| FilterQuery.DictIs | csm/common/filter.py:36-39 | of fields with equal keys the last one counts, at the place of the first |
| FilterQuery.FoldMeans | csm/common/filter.py:72-88 | the left-to-right fold holds iff some comparison, the first or one after OR, holds together with every later one after AND |
| FilterQuery.BuildTree | csm/common/filter.py:72-88 | for every assignment of truth values the tree is the strict left-to-right fold of the comparisons; fails iff there is no field or an operator is missing |
| FilterQuery.ValidateQueryFields | csm/common/filter.py:41-58 | unknown keys are refused, and values that do not convert become defaults in place |
| FilterQuery.PrepareFilters | csm/common/filter.py:60-88 | from the text in braces to the meaning of the tree, and exactly when there is one |
| FilterQuery.PreparePrinted | csm/common/filter.py:60-88 | a printed query always yields a tree that means the fold of its own comparisons |
| Payloads.GetKey | csm/common/payload.py:212-222 | reading by components is reading along the split key |
| Payloads.SetKey | csm/common/payload.py:224-231 | writing by components is writing along the split key |
| Payloads.GetAfterSet | csm/common/payload.py:212-236 | at and below a written path one reads what was written |
| Payloads.SetLeavesOthersIff | csm/common/payload.py:212-236 | writing changes an incomparable path iff it replaces a value that is no dictionary on the common way, and then that path could not be read |
| Payloads.SetLeavesReadable | csm/common/payload.py:212-236 | every readable incomparable path stays as it is |
| Payloads.ConvertReaches | csm/common/payload.py:251-264 | with incomparable targets every target ends up with its source's value |
| Payloads.ConvertLeavesOthers | csm/common/payload.py:251-264 | what is incomparable to all targets and readable is unchanged |
| Payloads.Payload.Load | csm/common/payload.py:201-205 | fails iff there are unsaved changes, which stay; otherwise takes the document |
| Payloads.Payload.Put | csm/common/payload.py:233-236 | writes along the key and marks the payload as changed |
| Payloads.Payload.Convert | csm/common/payload.py:251-264 | writes all entries, or those before the first whose source cannot be read |
| Upgrade.PreviousKeyIs | csm/conf/upgrade.py:113-122 | the slot of a leaf's previous default is the leaf with "pre_" before it, under the same parent |
| Upgrade.PreviousKeyInjective | csm/conf/upgrade.py:113-122 | no two keys share the slot of their previous default, and no key is its own |
| Upgrade.ConfStore.Update | csm/conf/upgrade.py:69-92 | the result is the merge whatever the order of the default keys |
| Upgrade.ConfStore.UpdateCurrentConfig | csm/conf/upgrade.py:94-111 | the default is taken iff the current value is the superseded default |
| Upgrade.MergeIdempotent | csm/conf/upgrade.py:69-111 | merging the same defaults again changes nothing |
| Upgrade.DefaultTakenIff | csm/conf/upgrade.py:69-111 | where a default is given, the key holds it after a merge iff nothing was given, the same was given, or the superseded default was; otherwise it keeps its value |
| Upgrade.MergeKeepsKeys | csm/conf/upgrade.py:69-92 | no key is removed and every default that is not empty gets a value |
| Upgrade.FollowsIff | csm/conf/upgrade.py:69-111 | an untouched key holds the default of the version reached after each of any number of linked upgrades iff no default on the way is empty |
| Upgrade.UntouchedEndsNewest | csm/conf/upgrade.py:94-111 | so with given defaults it ends at the newest one |
| Upgrade.SurvivesIff | csm/conf/upgrade.py:69-111 | a given value survives all upgrades iff no version supersedes it by another |
| Upgrade.CustomValueSurvives | csm/conf/upgrade.py:94-111 | a custom value that equals no superseded default survives any number of upgrades |
| Upgrade.EmptyDefaultStrands | csm/conf/upgrade.py:79-81 | a chain at which following fails: with an empty default in the middle the key keeps the first one |
| JsonKeys.RemovedIsGone | csm/common/utility.py:30-47 | no object at any depth has the key afterwards |
| JsonKeys.UnchangedIff | csm/common/utility.py:30-47 | removal changes a document iff the key occurs in it |
| JsonKeys.RemoveIdempotent | csm/common/utility.py:30-47 | a second removal changes nothing |
| JsonKeys.RemoveCommutes | csm/common/utility.py:30-47 | the order of two removals does not matter |
| JsonKeys.RemoveAlongPath | csm/common/utility.py:30-47 | along a path that does not name the key one finds the removal of what was there |
| JsonKeys.RemovedPathIsEmpty | csm/common/utility.py:30-47 | along a path that names the key one finds nothing |
| Retention.FilterOutOldIndexes | archive/conf/csm_cleanup.py:45-55 | columns found in the listing itself; the names of the statistics rows dated at or before the cutoff; fails iff such a row shows no date |
| Retention.ListingReads | archive/conf/csm_cleanup.py:47-50 | a listing reads as its header's columns and its rows |
| Retention.HeaderIsNotOld | archive/conf/csm_cleanup.py:49-55 | the header line adds nothing to the outdated names |
| Retention.NameIsShown | archive/conf/csm_cleanup.py:51 | the name of a row is what stands between the two columns, without the blanks after it |
| Retention.OldNamesAre | archive/conf/csm_cleanup.py:49-54 | a name is listed iff some row shows it, mentions statsd, and dates it at or before the cutoff |
| Retention.DailyOutdatedIff | archive/conf/csm_cleanup.py:49-65 | a daily index is outdated iff its day is at most today minus the retention |
| Calendar.DayTextOrder | archive/conf/csm_cleanup.py:53-65 | string order on zero-padded dates is the order of the days |
| Calendar.DateHasNumber | csm/common/timeseries.py:195-196 | days are counted without gaps: the closed form of the Gregorian day number undoes the step-by-step calendar |
| Calendar.YearStart | csm/common/timeseries.py:195-196 | the calendar that days are counted in puts every 1 January where the rule of leap years does |
| Calendar.EpochIs1970 | csm/common/timeseries.py:195-196 | the day that seconds are counted from is, by the same rule, 1 January 1970 |
| Retention.Cluster.RemoveOldIndexes | archive/conf/csm_cleanup.py:59-89 | one pass deletes exactly the outdated indexes, and none when emulating |
| Retention.Cluster.ProcessCleanup | archive/conf/csm_cleanup.py:120-139 | there is another pass iff the volume is above its limit, the database above its share of the volume, and more than five days are kept; at most max(1, initial - 4) passes; what is deleted in all is what the final retention outdates |
| Retention.Cluster.CleanupKeepsRecent | archive/conf/csm_cleanup.py:120-139 | with an initial retention of five days or more, an index dated after today minus five is never deleted |
| Periodic.Scheduler.Handle | csm/common/periodic.py:42-66 | run times as the schedule says, and the next slot is the first one plus one period per turn that was not cancelled, failed runs included; a cancellation in the sleep begins no run |
| Periodic.Scheduler.StartExact | csm/common/periodic.py:74-83 | sets the first slot unless it runs already |
| Periodic.Scheduler.Start | csm/common/periodic.py:85-94 | the first slot is now or one period later |
| Periodic.Scheduler.Stop | csm/common/periodic.py:96-106 | a running scheduler becomes idle, an idle one stays as it is |
| Periodic.StartsExactly | csm/common/periodic.py:46-66 | while no turn is cancelled, run k begins at the later of its slot and the end of the run before, plus its own lateness, whether earlier runs completed or failed |
| Periodic.CancelledIsLast | csm/common/periodic.py:46-66 | after a cancelled turn no run begins, nor in it when the cancellation came in the sleep |
| Periodic.NeverEarly | csm/common/periodic.py:46-66 | run k never begins before the first slot plus k periods |
| Periodic.LatenessDoesNotAddUp | csm/common/periodic.py:46-66 | when earlier turns end by their next slots, run k begins exactly as late as its own sleep |
| Periodic.AtMostOneRunPerPeriod | csm/common/periodic.py:46-66 | by any time at most one run more than whole periods have passed has begun |
| Paging.AlertPage | archive/core/services/alerts.py:455-478 | the page asked for and the total of the same filter; fails iff a later page is asked for without a page size |
| Paging.AuditPage | archive/core/services/audit_log.py:182-196 | the page and the total, both capped by the result window |
| Paging.Answer | archive/core/services/alerts.py:147-154 | the records from the offset on, as many as the limit allows; no limit when it is zero |
| Paging.PagesTile | archive/core/services/audit_log.py:73-93 | the first k pages are the first min(k times size, n) records, none skipped or repeated |

## Left out

- Two user requests that interleave on one alert: the services read and write without a lock; here each user request is one step.
- Failures of the alert store other than in the lookup, and the notifications, e-mail and web-socket listeners around the monitor; the support text of high-risk node alerts is a constant.
- Null values in alert messages: optional message fields are empty texts, which is what the clean-up of update parameters turns them into.
- The texts of comment ids: they are numbers here and their decimal texts in the store.
- AlertQueries.RetrieveByRange: does not model sorting; records come in a given order, and a limit of zero is no limit.
- Throughput scaling and rounding of statistics values, and the metric and unit lists of a statistics request.
- TimelionRequest.TimelionProvider.AggregateMetric: models the query text of the request body; the time fields, the database call and the reading of its answer are not modelled.
- TimelionSent.SentQueryReads: is about fields, labels and a processing function that do not look like the start of a fragment or hold what the edits look for; a field that does is not told apart from a fragment by reading the text.
- TimelionReader.CompiledReadsBack: is about fields in which the text that follows them does not begin; the text of all other rules is stated by CompiledIs.
- TimelionWindow.ParseInterval: divides exactly, while the code divides in floating point before it drops the fraction; the two agree for windows below two to the power of 53 seconds.
- Bytes that are not text in the key store: contents are texts here, and reading a file that does not decode fails in the code.
- Operations on key material that fail halfway, and the native certificate manager, which has no secure storage and only reads.
- FilterQuery.RoundTrip: is about distinct keys; what becomes of equal ones is stated by DictIs.
- FilterQuery.PrepareFilters: takes the query after percent-decoding; blanks outside ASCII are not stripped.
- Payloads.Payload.Convert: converts into another payload; values are copied, so that sharing of nested dictionaries between payloads is not modelled. INI documents and `pop` are not modelled.
- Conf values that are lists or dictionaries, and writes of a parent key over its children in the configuration store.
- Retention.Cluster.RemoveOldIndexes: the header of the listing is the same in every pass, mentions both columns and no statistics.
- Retention.Cluster.ProcessCleanup: the date does not change during the clean-up and every listing is answered; data inside the alert and audit indexes is removed by code that is not part of this model.
- Set-up phases, command line, controllers, schemas and error classes: plumbing with facts about single branches.
