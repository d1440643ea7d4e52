# A verified model of ks-gen

ks-gen turns a `host.yaml` into a kickstart file and an XCCDF 1.2 tailoring,
builds an installer ISO around them, and later reconciles a scan of the
installed host against the same `host.yaml`. This project models the parts of
it that carry algorithms and state, and proves what they promise.

`dafny verify dfyconfig.toml` checks everything. One module per file:

- `TopoSort`, `RunOrder`: the three-state depth-first sort of the rules, and
  the run order of the whole catalogue.
- `OvalWalk`, `OvalMarkers`: the walk over possibly cyclic OVAL definitions, and
  the marker search that finds FIPS candidates in their text.
- `Escapes`, `TailoringXml`, `TailoringRoundTrip`, `QuotedIds`, `TailoringDrift`:
  escaping, the tailoring printer and parser, their round trip, what a double
  quote in an id does to it, the keyed diff.
- `Rules`, `BuiltInNames`, `Render`, `Deployed`: the rule catalogue of the three
  distros, what it emits, and the agreement between what a tailoring deselects
  and what verify expects to fail; `RenderedValues`, `Catalogue`: the values, ids,
  blocks and packages that a host.yaml comes to.
- `Reconcile`, `Yaml`, `InPlace`, `ApplyExceptions`, `ApplyOutcome`, `ApplyCrash`,
  `VerifyLoop`: scan, report, suggest, apply (a file-system protocol whose every step may fail,
  with the edits that validating leaves in the mapping), verify again.
- `Libraries`: a YAML module, a JSON module and conversions that do what is
  assumed of Python's.
- `Fleet`: the worker pool as a transition system.
- `Relabel`, `Regex`, `Patterns`, `Bootloader`: boot-config relabelling, and entry
  insertion by regular expressions; `BootTokens`, `BootAgree`, `BootRewrite`: the same on
  tokens, and the agreement; `Rebuild`, `RebuildLaw`, `RebuildIff`,
  `KeywordKept`, `KeywordLost`: what a rebuild gives, and when the keyword
  survives the edits; `BootEntry`, `BootOutput`: what the inserted entry says, and
  what a rewritten config holds.
- `SshKeys`, `ApplySet`, `History`, `HistoryFile`, `Disk`, `IsoSource`: the
  authorized_keys tokenizer, `--set` updates, run history and its file, disk
  validators, two ISO loops.

Python's Unicode classes (`\w`, `\s`, `\d`, `str.isspace`, case folding) are
parameters, and the theorems hold for all of them under the few facts stated
in `Sensible` (`AsciiIsSensible` shows them for the ASCII classes). Calls into
libraries (YAML, JSON, pydantic, the file system) are parameters or a class whose
methods may fail; the theorems assume of them only what `YamlLoads`,
`WrittenReadsBack`, `JsonReadsBack`, `CoercesBack` and `ReadsDigits` state, and
`Libraries` shows that all of it can be met (`SomeYaml`, `SomeJson`,
`SomeConversions`).

Some promises turned out not to hold as they stand. The code is modelled as it
is, with a concrete failing input and the exact condition:

- A rebuilt boot config equals a direct build only when both labels or neither
  are numbers, and not when only the new label completes a cut-off marker
  (`NumbersTellApart`, `MarkersTellApart`, exactly when: `RebuildIff`): a timeout
  line reads a label such as `50` as its number.
- The assertion in `rewrite_isolinux`, commented as verified above, can fail: a
  `label` line whose only name was a `menu default` line loses it
  (`LabelLostText`). It fails exactly when nothing but such lines follows the
  first label (`KeywordLostTextIff`). For grub it never fails.
- A carriage return in a set-value comes back as a line feed
  (`CarriageReturnIsLost`, exactly when: `RoundTripIff`); XML 1.0, section 2.11,
  normalises line ends.
- An exception id goes into the tailoring unescaped, and the schema takes any
  text: `a&b` makes the file unreadable (`AmpersandIsNotRead`), `&#65;` comes back
  as `A` (`ReferenceIsReplaced`) and `a" x="y` as `a` (`QuotedIdIsCut`), and the
  file reads back exactly when each id is plain (`DeployedFileDeselectsExpected`).
- An empty drift report can hide a different effective tailoring
  (`OrderIsNoDrift`), exactly when the deployed file both selects and disables
  some id (`EmptyReportMeansSameEffect`); not between two rendered files
  (`RenderedNoDriftSameEffect`).
- `_fstab_spec` reaches its assertion for a preserved disk whose `wipe` was a
  value coerced to false (`CoercedWipeHasNoSpec`, exactly when: `FstabSpecIff`);
  the default partition is filled in only for a real `False`.
- Accepting a suggestion ends in an uncaught error for a host.yaml whose disk
  block names neither preset nor layout (`BareDiskCrashes`): validating stores an
  enumeration member in the mapping, which `yaml.safe_dump` cannot represent. So
  do a number of more than 4300 digits, which hexadecimal notation gets past the
  parser (`LongNumberCrashes`), an `exceptions` that is a number or a date
  (`NumberCrashes`, `FloatCrashes`, `DateCrashes`), an entry whose id is a list
  (`ListIdCrashes`), a scalar such as `2024-13-45` on which the parser raises an
  error that is not its own (`ImpossibleDateCrashes`), and a file that is not
  UTF-8. In the model there is no other case (`CrashIff`), and host.yaml is unchanged
  in all of them (`Apply`).
- Reading a history ends in an uncaught error for an infinite count in a summary
  (`InfiniteCountRaises`, exactly when: `RecordRaisesIff`).
- A recorded run is lost in the last line of a history file whose line end is
  missing (`OpenLineSwallows`, exactly when: `AppendIff`).
- A size of more than 4300 digits passes the schema and then raises
  (`LongSizeRaises`, exactly when: `SizedIff`).

## Model

| member | source | states |
|---|---|---|
| TopoSort.Sorter.Visit | src/ks_gen/topo.py:21-33 | one step of the walk keeps the invariant (the `in` rules are the current path, the order lists each done rule once, dependencies first), returns only with the rule done, and an error is a real cycle or a real unknown dependency |
| TopoSort.Sorter.VisitAll | src/ks_gen/topo.py:35-37 | visiting every rule either orders them all, dependencies first, which shows the graph acyclic and closed, or gives a real error; rules already in order stay in order |
| TopoSort.TopoSort | src/ks_gen/topo.py:16-37 | terminates on every rule list; sorts exactly when every dependency is known and the graph has no cycle; the result is a permutation with each dependency before its dependents; `CycleError` names a rule on a cycle, `KeyError` an unknown dependency; input already in such an order comes back unchanged |
| TopoSort.DependenciesFirstIsAcyclic | src/ks_gen/topo.py:16-37 | an order with every dependency first exists only for an acyclic graph without unknown dependencies: why an error can never be avoided by another order |
| TopoSort.SortTwice | src/ks_gen/topo.py:16-37 | with distinct ids, sorting the sorted list again returns it unchanged |
| OvalWalk.Walker.DefinitionText | scripts/audit_story/extract_ssg_rule_ids.py:159-196 | the `extend_definition` walk ends on any definition graph, cyclic or not; it adds exactly the definitions it lists to `seen`, each reachable and finished, and collects their own text and nothing else |
| OvalWalk.OvalCheckParts | scripts/audit_story/extract_ssg_rule_ids.py:199-211 | the collected parts are the own text of exactly the definitions reachable from the check refs, each definition once |
| OvalWalk.OwnTextIff | scripts/audit_story/extract_ssg_rule_ids.py:149-196 | what a definition says, by its parts: a text is among them exactly when, for some criterion, it is that criterion's comment, its known test's comment, the object that a reference of the test names (the state when there is no such object, and the state reference when the object reference is empty), or a known variable named in that item |
| OvalMarkers.OccursInJoin | scripts/audit_story/extract_ssg_rule_ids.py:199-211 | a marker without the joining space occurs in the joined text exactly when it occurs in one part |
| OvalMarkers.FindAllIff | scripts/audit_story/extract_ssg_rule_ids.py:222-245 | the scan for non-overlapping matches finds something exactly when some marker occurs somewhere |
| OvalMarkers.JoinedSearch | scripts/audit_story/extract_ssg_rule_ids.py:222-245 | the joined check text holds a marker exactly when the own text of some reachable definition holds one |
| OvalMarkers.JoinedHits | scripts/audit_story/extract_ssg_rule_ids.py:199-211 | the non-overlapping scan of the joined text finds exactly the markers that scanning the own text of each reachable definition alone finds |
| OvalMarkers.PartsSaid | scripts/audit_story/extract_ssg_rule_ids.py:199-211 | the collected parts are exactly the texts that definitions reachable from the refs named `oval:` say |
| OvalMarkers.HitsAreMatches | scripts/audit_story/extract_ssg_rule_ids.py:239-240 | each text the scan finds stands at a place where a marker matches it |
| OvalMarkers.MatchesAreHit | scripts/audit_story/extract_ssg_rule_ids.py:239-240 | and a marker that matches anywhere is found, or overlaps one that is |
| OvalMarkers.ExtractFipsCandidates | scripts/audit_story/extract_ssg_rule_ids.py:222-245 | a rule is a candidate exactly when it is selected and some criterion, test, object, state or variable that a reachable definition says, or its shell fix, holds a marker; its entry is the `check:` and then the `fix:` markers found there, each group in code-point order and each named once, of the last rule with its id that touches FIPS |
| Escapes.XmlEscapeIsMap | src/ks_gen/tailoring.py:57-58 | the chain of replacements equals one pass that maps each character |
| Escapes.PassphraseIsMap | src/ks_gen/disk_luks.py:27-34 | the same for the kickstart passphrase, with its quotes |
| Escapes.BannerIsMap | src/ks_gen/rules/alma9/banner_text.py:35-41 | the same for the banner, after its trailing newlines are stripped |
| Escapes.PassphraseReadsBack | src/ks_gen/disk_luks.py:27-34 | reading the quoted passphrase, whatever follows it, gives the passphrase back |
| Escapes.BannerReadsBack | src/ks_gen/rules/alma9/banner_text.py:35-41 | the escaped banner is one line and reads back as the stripped banner |
| TailoringXml.BuildTailoringXml | src/ks_gen/tailoring.py:39-54 | the printed file is the specification text, line by line for each op |
| TailoringXml.OpTagSays | src/ks_gen/tailoring.py:39-54 | the line of each op, spelled out: its tag, its id, its selection or its escaped value |
| TailoringXml.FileSays | src/ks_gen/tailoring.py:25-54 | the printed file, spelled out from its declaration to its last tag, each op on a line of its own |
| TailoringXml.ParseTailoringXml | src/ks_gen/verify/tailoring_drift.py:61-114 | the parser returns what the specification parser reads, including both errors |
| TailoringXml.ReadProfile | src/ks_gen/verify/tailoring_drift.py:96-114 | the loop over the profile's children reads one op for each `select` and `set-value`, in order |
| TailoringXml.ReadOpSays | src/ks_gen/verify/tailoring_drift.py:96-112 | a child reads as an op exactly when it names an id and is a selection of true or false, in any case of letters, or a set value; all others are dropped |
| TailoringRoundTrip.EscapedTextOf | src/ks_gen/tailoring.py:57-58 | an escaped value reads back exactly when all its characters are legal XML; line ends are normalised on the way |
| TailoringRoundTrip.AttrReadFixed | src/ks_gen/tailoring.py:43-48 | an id is printed unescaped; short of a double quote it reads back unchanged exactly when it holds no markup and no white space or control character but the space |
| QuotedIds.IdsShrink | src/ks_gen/tailoring.py:39-54 | for every list of ops, the ids read back from the printed file are together no longer than those printed, and shorter as soon as one id holds a double quote |
| QuotedIds.ParseOfBuild | src/ks_gen/verify/tailoring_drift.py:61-114 | parsing a printed file, for every list of ops: without a double quote in an id it gives the profile and the ops as delivered, or fails exactly when some id is no attribute value or some value holds a character XML does not allow; with one it fails or gives other ops, whose ids are together shorter |
| QuotedIds.RoundTripIff | src/ks_gen/tailoring.py:39-54 | for every list of ops, print then parse returns the same profile and the same ops in the same order exactly when every op is faithful: a non-empty id free of markup, double quotes and control characters, select and disable without a value, set-value with one that is legal XML and holds no carriage return |
| QuotedIds.QuoteCutsId | src/ks_gen/tailoring.py:43-48 | an id that closes its attribute with a double quote and goes on as another attribute, under a name XML allows there, comes back cut at the quote, in a file that reads without error |
| QuotedIds.QuotedIdIsCut | src/ks_gen/tailoring.py:43-48 | the id `a" x="y` comes back as `a` |
| TailoringRoundTrip.CarriageReturnIsLost | src/ks_gen/tailoring.py:57-58 | a concrete set-value whose carriage return comes back as a line feed |
| TailoringRoundTrip.ReferenceIsReplaced | src/ks_gen/tailoring.py:43-48 | an op whose id is `&#65;` is printed as it is and comes back as one for `A` |
| TailoringRoundTrip.AmpersandIsNotRead | src/ks_gen/tailoring.py:43-48 | an op whose id is `a&b` is printed as it is and makes the file unreadable |
| TailoringDrift.ExpectedSide | src/ks_gen/verify/tailoring_drift.py:136-149 | the loop over the expected ops collects the ops missing from the deployed map and the values that differ |
| TailoringDrift.CompareTailorings | src/ks_gen/verify/tailoring_drift.py:117-165 | the method computes the keyed diff, sorted |
| TailoringDrift.CompareIsDiff | src/ks_gen/verify/tailoring_drift.py:117-165 | added, removed and changed are exactly the differences of the two keyed maps, the last op of a key counting; each list is sorted by rule id and names no key twice |
| TailoringDrift.PatchGivesExpected | src/ks_gen/verify/tailoring_drift.py:117-165 | patching the deployed map with the report gives the expected map |
| TailoringDrift.NoDriftIff | src/ks_gen/verify/tailoring_drift.py:168-171 | no drift is reported exactly when both maps and both profile ids agree |
| TailoringDrift.EmptyReportMeansSameEffect | src/ks_gen/verify/tailoring_drift.py:168-171 | for a deployed tailoring, an empty report against any expected one means the same effective tailoring exactly when no id carries both select and disable |
| TailoringDrift.OrderIsNoDrift | src/ks_gen/verify/tailoring_drift.py:168-171 | a file that selects an id and then disables it shows no drift against the reverse order, though one scans the rule and the other does not |
| Prelude.StrLeIff | src/ks_gen/verify/tailoring_drift.py:151-165 | the order of every sorted list: one text comes before another exactly when it is a prefix of it or has the smaller character where they first differ |
| Render.RenderedNoDriftSameEffect | src/ks_gen/verify/tailoring_drift.py:168-171 | between two tailorings that were both rendered, for any two configurations, an empty report means the same effective tailoring, mixed ids included |
| Rules.RuleContract | src/ks_gen/writer.py:75-80 | for every rule and configuration, the ids the rule disables are exactly those of its exception entry, and only usbguard selects any |
| Rules.UsbguardAlone | src/ks_gen/rules/alma9/usbguard.py:30-52 | no other rule's exception entry names a usbguard id |
| Rules.CryptoContract | src/ks_gen/rules/alma9/crypto_policy.py:139-169 | the crypto rule disables exactly the ids of its exception entry, whatever value it sets |
| Rules.FaillockContract | src/ks_gen/rules/alma9/faillock_safety.py:33-75 | the faillock rule, with its conditional ops, disables exactly the ids of its exception entry |
| RunOrder.Ordered | src/ks_gen/writer.py:87-98 | the catalogue sorts without error, for every distro, into an order of all rules with dependencies first |
| Render.ExceptionTailoringOps | src/ks_gen/writer.py:17-33 | the nested loops with a shared `seen` set disable each declared id once, in first-occurrence order |
| Render.RenderOps | src/ks_gen/writer.py:67-84 | the rendered ops are the rules' ops in run order, then the operator's exceptions |
| Render.ExpectedFailureRuleIds | src/ks_gen/exceptions_report.py:10-34 | the set loops compute exactly the declared ids of applying rules and of exceptions |
| Render.ExpectedIsAnyOrder | src/ks_gen/exceptions_report.py:10-34 | the expected failures do not depend on the run order |
| Render.DeselectedAreExpected | src/ks_gen/writer.py:67-84 | for every distro and configuration, the ids whose last select or disable in the rendered tailoring is disable are exactly the expected failures; exceptions win over a rule's own select |
| Render.ManagedRuleIds | src/ks_gen/exceptions_report.py:37-60 | the `setdefault` loops give each id to the first rule, in run order, that enforces it |
| Render.ManagedIff | src/ks_gen/exceptions_report.py:37-60 | an id is managed exactly when some applying rule enforces it and it is no expected failure; its owner is the first such rule |
| Render.BuildBundle | src/ks_gen/writer.py:87-119 | the bundle's post blocks, tailoring and packages are those of the run order |
| Render.PackagesOnce | src/ks_gen/writer.py:99-103 | the packages added by rules are each named once and none is already required |
| Render.PostMembers | src/ks_gen/writer.py:87-98 | a rule has a post block exactly when it applies and emits one |
| Render.PostKeepsOrder | src/ks_gen/writer.py:87-98 | the post blocks keep the run order |
| Render.DependenciesPostFirst | src/ks_gen/writer.py:87-98 | a kept dependency's post block precedes its dependent's |
| Render.AdminBeforeSshd | src/ks_gen/lint.py:33-40 | the admin-user block always precedes the sshd block, as lint demands |
| RenderedValues.FaillockValues | src/ks_gen/rules/alma9/faillock_safety.py:33-41 | in the rendered tailoring, for every run order and configuration, the last value of the unlock time and of the deny count reads as the number chosen exactly when faillock is on, and is absent when it is off |
| RenderedValues.DecimalReads | src/ks_gen/rules/alma9/faillock_safety.py:36-37 | a number written as decimal text reads back as that number |
| RenderedValues.CryptoValue | src/ks_gen/rules/alma9/crypto_policy.py:139-156 | the last value of the crypto policy variable: none for STIG, DEFAULT for Modern and FUTURE for Future |
| RenderedValues.AuditdValues | src/ks_gen/rules/alma9/auditd_actions.py:97-104 | each auditd variable has the chosen action as its value exactly when the distro governs its setting and the check takes the action, and no value otherwise |
| Catalogue.DeselectedExactly | src/ks_gen/writer.py:67-84 | the ids a rendered tailoring deselects, listed rule by rule with the condition on the host.yaml for each |
| Catalogue.SelectedExactly | src/ks_gen/rules/alma9/usbguard.py:30-52 | the ids it selects: those of usbguard, when it is on and no exception names them |
| Catalogue.ManagedExactly | src/ks_gen/exceptions_report.py:37-60 | the ids that verify calls managed, rule by rule with their condition |
| Catalogue.PostExactly | src/ks_gen/writer.py:88-98 | the rules that write a %post block, with their condition |
| Catalogue.OrderIs | src/ks_gen/rules/_meta/ssh_config_apply.py:15 | which rules run before which, in every run order: home directories before users and containers; users, the open port and the crypto policy before sshd |
| Catalogue.PackagesExactly | src/ks_gen/writer.py:94-103 | the packages a configuration adds, with the rule's condition for each |
| Deployed.EmittedFaithful | src/ks_gen/tailoring.py:39-54 | every op that any rule emits survives the printed file |
| Deployed.DeployedFileDeselectsExpected | src/ks_gen/tailoring.py:39-54 | end to end, for every configuration: the tailoring file parses back to the rendered ops exactly when every exception id is non-empty and free of markup, double quotes and control characters, and then deselects exactly the expected failures |
| Reconcile.BuildReport | src/ks_gen/verify/reconcile.py:77-111 | one row for each scanned rule, sorted by id, with the category `categorize` gives |
| Reconcile.RowsAreKeys | src/ks_gen/verify/reconcile.py:77-111 | the rows are exactly the scanned rules, in code-point order |
| Reconcile.CategoriesIff | src/ks_gen/verify/reconcile.py:19-34 | clean, incomplete and expected by the current result and the expected set alone, whatever the baseline; a failing row is a regression exactly when its rule passed at install, and else a new failure |
| Reconcile.WithoutBaseline | src/ks_gen/verify/reconcile.py:77-111 | taking the baseline away turns exactly the regressions into new failures and changes no other category |
| Reconcile.CleanIff | src/ks_gen/verify/reconcile.py:58-60 | a report is clean exactly when each scanned rule passes now, was not done, or is expected to fail |
| Reconcile.BuildSuggestions | src/ks_gen/verify/suggest.py:53-75 | one suggestion for each failing rule that is not managed |
| Reconcile.SuggestionSays | src/ks_gen/verify/suggest.py:39-75 | a suggestion waives exactly the failing rule and keeps its category; its id is the rule's behind `auto-new_fail-` or `auto-regression-` |
| Reconcile.RegressionSuggested | src/ks_gen/verify/suggest.py:39-75 | the reason suggested for a rule that passed at install and fails now, text for text |
| Reconcile.NewFailureSuggested | src/ks_gen/verify/suggest.py:39-75 | the reason suggested for a rule not scanned at install that fails now, text for text |
| Reconcile.ResultReads | src/ks_gen/verify/arf.py:10-20 | a scan result is named as the scan names it: its name reads back as it, and is of the nine the vocabulary has |
| Reconcile.SuggestedOrWithheld | src/ks_gen/verify/suggest.py:78-85 | each failing rule is either suggested or withheld, never both, and none is lost |
| Reconcile.ReconcileAgain | src/ks_gen/verify/reconcile.py:19-34 | growing the expected set moves exactly the failing rows it names to expected_fail and changes no other category |
| VerifyLoop.ExpectedGrows | src/ks_gen/rules/alma9/time_servers.py:134-162 | with new exceptions the expected failures are the old ones plus exactly the new ids, although one rule's entry depends on the exceptions |
| VerifyLoop.ManagedAfter | src/ks_gen/exceptions_report.py:37-60 | the managed ids lose exactly the new exceptions |
| VerifyLoop.VerifyAgain | src/ks_gen/verify/suggest.py:53-75 | verifying again after accepting suggestions moves exactly their rows to expected_fail and suggests exactly the rest |
| VerifyLoop.NothingLeftToSuggest | src/ks_gen/verify/suggest.py:53-75 | accepting everything leaves nothing to suggest |
| VerifyLoop.WrittenConfig | src/ks_gen/verify/suggest.py:165-195 | the written host.yaml reads back as the old exceptions followed by the new ones |
| ApplyExceptions.FilterRegressions | src/ks_gen/verify/suggest.py:143-150 | without the flag it keeps exactly the suggestions that are no regression, in their order and as often as they occur, and names the ids of all others; with it, all |
| ApplyExceptions.ConsideredIff | src/ks_gen/verify/suggest.py:143-150 | a suggestion is kept exactly when it was given and regressions are allowed or it is none |
| ApplyExceptions.FilterExisting | src/ks_gen/verify/suggest.py:172-179 | it keeps exactly the suggestions whose id is not there yet, in order, and names the ids of all others |
| ApplyExceptions.MakePlan | src/ks_gen/verify/suggest.py:152-195 | parsing, the mapping check and the append candidate, with every error: the parser's own, its errors of another kind, exceptions that cannot be walked, ids that cannot be hashed |
| InPlace.EditedPlainIff | src/ks_gen/config.py:270-290 | a mapping that validating left its defaults in can be written down as YAML exactly when it could be before and its disk block, if it has one, names a preset or a layout |
| InPlace.EditedSays | src/ks_gen/config.py:977-1014 | what validating leaves in the mapping: the stig_server preset in a bare disk block, and for alma8 the content file of an absent `meta` |
| InPlace.DefaultIsStored | src/ks_gen/config.py:314-331 | in a data disk it stores the partition that the disk is given by default, and nothing else |
| InPlace.EditedKeeps | src/ks_gen/config.py:977-1040 | validating changes no top-level key of the mapping it is handed but `disk` and, for alma8, an absent `meta` |
| ApplyExceptions.WriteAtomically | src/ks_gen/verify/suggest.py:214-229 | write beside, replace, clean up, with each fault mapped to its error: host.yaml is at every moment the old or the complete new content, and no temporary file remains |
| ApplyExceptions.Commit | src/ks_gen/verify/suggest.py:206-229 | back up, then write: which fault gives which error, success exactly without one, host.yaml old or complete at every moment, and what is left in the backup and the temporary file |
| ApplyExceptions.Apply | src/ks_gen/verify/suggest.py:124-237 | the outcome for every input and every fault, a file that is not UTF-8 and a parser error of any kind included; whichever step fails host.yaml is unchanged; on success it holds exactly the dumped candidate and the backup the original; no other file changes; when every suggestion is a gated regression nothing is added and nothing written |
| ApplyExceptions.ExceptionsGrow | src/ks_gen/verify/suggest.py:166-195 | after success the exceptions are the old ones as a prefix followed by the added ones |
| ApplyExceptions.RestKept | src/ks_gen/verify/suggest.py:193-229 | the rest of the written host.yaml reads as before, key by key, the disk block included, but for a `meta` and for data disks that validating filled in |
| ApplyExceptions.SecondPlanIsEmpty | src/ks_gen/verify/suggest.py:166-195 | planning the same suggestions on the written file finds nothing to add |
| ApplyExceptions.ApplyTwice | src/ks_gen/verify/suggest.py:124-237 | a second identical apply adds nothing and writes nothing, not even in between |
| ApplyOutcome.PlanIs | src/ks_gen/verify/suggest.py:143-179 | which suggestions go into the candidate, in order: those no gate holds back and whose id is not there; the others are named as there already or gated, and none is lost |
| ApplyOutcome.AppliedNames | src/ks_gen/verify/suggest.py:143-237 | the ids that a successful call reports as added, as there already and as held back |
| ApplyOutcome.StepsFail | src/ks_gen/verify/suggest.py:152-229 | which of its own errors a call ends in: the first step that cannot be done, in the order parse, mapping, validate, back up, write |
| ApplyOutcome.PlanItems | src/ks_gen/verify/suggest.py:161-170 | the exceptions a call starts from: the list under the key, none when it is absent or null |
| ApplyCrash.CrashIff | src/ks_gen/verify/suggest.py:157-229 | once host.yaml is decoded, an apply ends in an exception other than its own exactly when the parser raises one, or the parsed mapping's exceptions cannot be walked or an id in them cannot be hashed, or something new is accepted and backed up while the disk block names neither preset nor layout or some number has more digits than `str` writes |
| ApplyCrash.AppliesIff | src/ks_gen/verify/suggest.py:124-237 | with no fault, an apply succeeds exactly when nothing is new, or the schema accepts the candidate, the disk block, if there is one, names a preset or a layout, and no number is too long to write |
| ApplyCrash.BareDiskCrashes | src/ks_gen/config.py:270-290 | a host.yaml with `disk: {target: sda}`, one suggestion and no fault: the dump raises |
| ApplyCrash.NamedPresetApplies | src/ks_gen/config.py:270-290 | naming the default preset makes the same call succeed |
| ApplyCrash.NumberCrashes | src/ks_gen/verify/suggest.py:165-169 | `exceptions: 5` ends in an exception other than the apply's own |
| ApplyCrash.FloatCrashes | src/ks_gen/verify/suggest.py:165-169 | so does `exceptions: 1.5` |
| ApplyCrash.DateCrashes | src/ks_gen/verify/suggest.py:165-169 | so does `exceptions: 2024-01-01` |
| ApplyCrash.ListIdCrashes | src/ks_gen/verify/suggest.py:165-169 | so does an entry whose id is a list |
| ApplyCrash.ImpossibleDateCrashes | src/ks_gen/verify/suggest.py:157-160 | so does `x: 2024-13-45`, on which the parser raises an error that is not its own |
| ApplyCrash.LongNumberCrashes | src/ks_gen/verify/suggest.py:217-229 | so does a number of 4301 decimal digits, read from hexadecimal notation and accepted, when the candidate is dumped |
| ApplyCrash.ShortIff | src/ks_gen/verify/suggest.py:217-229 | the numbers that `str` writes are, of either sign, exactly those of 4300 decimal digits at most |
| Fleet.StepKeepsInv | src/ks_gen/verify/fleet.py:147-182 | each pool step keeps the invariant on queued, running and finished hosts |
| Fleet.ReachableInv | src/ks_gen/verify/fleet.py:147-182 | the invariant holds after every schedule |
| Fleet.HostsArePartitioned | src/ks_gen/verify/fleet.py:147-182 | in every reachable state each submitted host is exactly one of queued, running and finished, at most max(1, jobs) run, and another can start exactly when one is queued and fewer run |
| Fleet.SchedulesEnd | src/ks_gen/verify/fleet.py:147-182 | every schedule has at most three steps a host, can go on until it has exactly that many, and is complete then |
| Fleet.EveryRunReportsTheSame | src/ks_gen/verify/fleet.py:147-182 | every complete schedule gives the same outcomes in input order: what each host's verification returned, and for one that raised, its error alone |
| Fleet.AggregateIsWorst | src/ks_gen/verify/fleet.py:61-70 | the aggregate exit code is that of the worst status |
| Fleet.ExitCodeIff | src/ks_gen/verify/fleet.py:43-70 | the exit code is OK exactly when every host was verified, clean and without drift; failures come before errors, and errors before drift, each exactly under its condition |
| Fleet.AggregateIgnoresOrder | src/ks_gen/verify/fleet.py:61-70 | it does not depend on the order of the outcomes |
| Fleet.StatusCounts | src/ks_gen/verify/fleet.py:72-76 | the counts name every status, count each host once and sum to the number of hosts |
| Relabel.RetargetIsRelabel | src/ks_gen/iso/builder.py:222-228 | the guarded substitution equals mapping vendor to volid over the maximal runs of label characters and leaving all else alone |
| Relabel.RetargetTokens | src/ks_gen/iso/builder.py:222-228 | the runs of the result are the relabelled runs of the text |
| Relabel.NoVendorLeft | src/ks_gen/iso/builder.py:222-228 | no whole vendor label is left, and relabelling again changes nothing |
| Relabel.RetargetComposesIff | src/ks_gen/iso/builder.py:222-228 | relabelling twice in a row is relabelling once exactly when the middle label was not already there |
| Relabel.RetargetUndoneIff | src/ks_gen/iso/builder.py:222-228 | the reverse call undoes a relabelling exactly when the new label was not already there |
| Relabel.TokensDetok | src/ks_gen/iso/builder.py:222-228 | splitting into runs and joining them again are inverse, on texts and on lists of maximal runs |
| BootAgree.MatchAgrees | src/ks_gen/iso/bootloader.py:30-92 | each regular expression, with greedy repetitions that give back as Python's `re` does, matches a text exactly when the token matcher accepts its tokens, up to the same place |
| Regex.MatchIff | src/ks_gen/iso/bootloader.py:30-92 | backtracking finds a match exactly when there is one |
| Regex.MatchIsGreedy | src/ks_gen/iso/bootloader.py:30-92 | a repetition takes as many characters as leave the rest of the pattern a match |
| Patterns.LabelSays | src/ks_gen/iso/bootloader.py:30 | the isolinux keyword: `label`, white space, and one character that is none |
| Patterns.MenuEntrySays | src/ks_gen/iso/bootloader.py:69 | the grub keyword: `menuentry` and one white space |
| Patterns.MenuDefaultSays | src/ks_gen/iso/bootloader.py:33 | the pattern of a default line: the two words behind blanks and tabs, white space between and behind them up to a line end |
| Patterns.TimeoutSays | src/ks_gen/iso/bootloader.py:37 | the isolinux timeout: the word, white space, digits, and white space up to a line end |
| Patterns.SetTimeoutSays | src/ks_gen/iso/bootloader.py:73 | the grub timeout likewise |
| Patterns.SetDefaultSays | src/ks_gen/iso/bootloader.py:83 | the grub default: the two words and an equals sign, whatever follows |
| Patterns.FindIff | src/ks_gen/iso/bootloader.py:46 | the search gives the first line start at which the pattern matches |
| BootRewrite.FindAgrees | src/ks_gen/iso/bootloader.py:30-47 | the search finds the first matching line start of a text at the same place in its tokens |
| BootRewrite.SetAgrees | src/ks_gen/iso/bootloader.py:36-45 | substituting one line of a text, or putting it first, is the same edit of its tokens |
| BootRewrite.RemoveAgrees | src/ks_gen/iso/bootloader.py:33-34 | removing every `menu default` line from a text is removing them from its tokens |
| BootRewrite.RewriteAgrees | src/ks_gen/iso/bootloader.py:24-101 | rewriting a text is rewriting its tokens, with the same errors |
| BootRewrite.MarkerText | src/ks_gen/iso/_menu.py:3 | the marker, kept as tokens, is the source's text |
| BootEntry.IsolinuxEntry | src/ks_gen/iso/_menu.py:5-16 | the inserted isolinux entry, character for character |
| BootEntry.GrubEntry | src/ks_gen/iso/_menu.py:18-36 | the inserted grub entry, character for character, for both loaders |
| BootEntry.RepoIff | src/ks_gen/iso/bootloader.py:18-21 | for every label the entry names ` inst.repo=hd:LABEL=` and that label exactly when the install is not a network install |
| BootEntry.LoaderIff | src/ks_gen/iso/bootloader.py:95-100 | it loads with `linuxefi` and `initrdefi` exactly for EFI grub |
| BootEntry.KickstartNamed | src/ks_gen/iso/_menu.py:5-32 | it always names ` inst.ks=hd:LABEL=`, the label and `:/ks.cfg` |
| BootOutput.EditedHolds | src/ks_gen/iso/bootloader.py:33-90 | after the edits the isolinux text holds the line `timeout 50`, the grub text `set timeout=5` and `set default="0"`, whatever was there |
| BootOutput.EntryInserted | src/ks_gen/iso/bootloader.py:46-50 | the output is the edited text with the entry in front of its first keyword line |
| BootOutput.RewrittenBoots | src/ks_gen/iso/bootloader.py:24-101 | so a rewritten config names the kickstart on the disc, for an install from disc the repository, and for EFI grub the EFI loaders |
| Rebuild.SameMatch | src/ks_gen/iso/bootloader.py:24-101 | no pattern of the two rewriters can tell two plain labels apart when both or neither are numbers |
| Rebuild.RewriteCommutes | src/ks_gen/iso/bootloader.py:24-101 | rewriting a boot config commutes with relabelling it, errors included |
| Rebuild.FillRelabels | src/ks_gen/iso/_menu.py:5-36 | the entry for one label, relabelled, is the entry for the other |
| RebuildLaw.BuildOutput | src/ks_gen/iso/bootloader.py:24-101 | a rewritten config holds the idempotency marker |
| RebuildLaw.BuildAgain | src/ks_gen/iso/builder.py:231-255 | building the output again for the same label changes nothing |
| RebuildLaw.NoNewMarker | src/ks_gen/iso/builder.py:222-228 | relabelling makes no marker appear unless the new label completes a cut-off one |
| RebuildLaw.RebuildIsBuild | src/ks_gen/iso/builder.py:231-255 | building for one label and rebuilding the output for another is building directly for the other, for both rewriters, with the same errors |
| RebuildIff.RebuildIff | src/ks_gen/iso/builder.py:231-255 | that law holds for all texts exactly when both labels or neither are numbers and the second does not start with "edit" unless the first does |
| RebuildIff.NumbersTellApart | src/ks_gen/iso/bootloader.py:36-45 | a config with a timeout line on which the law fails for a number and a word |
| RebuildIff.MarkersTellApart | src/ks_gen/iso/bootloader.py:27-28 | a config with a cut-off marker on which the law fails when only the second label completes it |
| KeywordKept.GrubRewriteKeepsKeyword | src/ks_gen/iso/bootloader.py:69-93 | for grub the assertion after the edits never fails, whatever the text |
| KeywordLost.RemovedToSpace | src/ks_gen/iso/bootloader.py:33-34 | removing the `menu default` lines leaves white space only exactly of texts that are such lines and white space |
| KeywordLost.LabelGoneIff | src/ks_gen/iso/bootloader.py:30-48 | the first label is not found again after the removal exactly when white space only is left behind it |
| KeywordLost.KeywordLostTextIff | src/ks_gen/iso/bootloader.py:24-48 | for isolinux it fails exactly on the unmarked texts whose first label has nothing behind it but white space and `menu default` pairs, each `menu` first on its line after blanks and tabs, each `default` the last word on its line |
| KeywordKept.NamedLabelKeepsKeyword | src/ks_gen/iso/bootloader.py:30-48 | for isolinux it never fails when some label has its name on its own line |
| KeywordKept.LabelLostText | src/ks_gen/iso/bootloader.py:30-48 | the two-line config, a bare `label` and then `menu default`, on which it does fail |
| SshKeys.Tokens | src/ks_gen/ssh_key_types.py:43-74 | the character loop with its two flags equals marking the quoted positions and splitting at the unquoted white space |
| SshKeys.ModeIff | src/ks_gen/ssh_key_types.py:54-72 | which positions are quoted: the line up to there is bare text and whole quoted values, in which a backslash takes the next character along, and then one open value |
| SshKeys.NothingLost | src/ks_gen/ssh_key_types.py:43-74 | the tokens are non-empty and joined they are the line minus its unquoted white space |
| SshKeys.TokenIff | src/ks_gen/ssh_key_types.py:43-74 | a text is a token exactly when it is a maximal stretch between separators |
| SshKeys.SplitAt | src/ks_gen/ssh_key_types.py:43-74 | a separator splits a line into two that are read on their own; so an options prefix is skipped and a comment cannot win |
| SshKeys.ReadKeyType | src/ks_gen/ssh_key_types.py:77-87 | the loop returns the first known token |
| SshKeys.KeyTypeIff | src/ks_gen/ssh_key_types.py:77-87 | the key type is exactly the known stretch with no known one before it, and none of its positions lies in a quoted value |
| SshKeys.UnclosedQuoteNamesNothing | src/ks_gen/ssh_key_types.py:51-53 | after a quote that never closes no later text changes the key type |
| SshKeys.UsableIff | src/ks_gen/ssh_key_types.py:90-92 | a key list is usable exactly when the first known stretch outside quotes of some line is a FIPS algorithm |
| ApplySet.Descend | src/ks_gen/loader.py:60-64 | one cursor step opens the next dict, making it if absent, and changes nothing else that is seen |
| ApplySet.ApplySet | src/ks_gen/loader.py:53-65 | in place on a tree of dicts, one expression makes its path read the value, its prefixes mappings, its extensions absent, and every other path as before; the two usage errors change nothing |
| ApplySet.ParseErrors | src/ks_gen/loader.py:54-59 | the two usage errors: no equals sign, and nothing but dots in front of the first |
| ApplySet.SegmentsAre | src/ks_gen/loader.py:54-59 | the path has no empty key and no dot in a key, and drops nothing else of the text that names it |
| ApplySet.ApplySets | src/ks_gen/loader.py:114-115 | the fold over all expressions succeeds exactly when each parses, and composes their effects |
| ApplySet.LastTouchDecides | src/ks_gen/loader.py:114-115 | what is seen at a path is decided by the last expression that writes at, above or below it; if none does it reads as before |
| ApplySet.LastTouchIsLast | src/ks_gen/loader.py:114-115 | the expression so named does touch the path and no later one does |
| ApplySet.IncomparableCommute | src/ks_gen/loader.py:53-65 | two expressions on incomparable paths may trade places anywhere in the list |
| ApplySet.LastWriteWins | src/ks_gen/loader.py:53-65 | a second write to the same path replaces the first |
| ApplySet.PathNamed | src/ks_gen/loader.py:54-59 | `a.b.c=raw` names the path a, b, c whatever raw holds |
| History.CountStreak | src/ks_gen/verify/history.py:213-219 | the inner walk counts the most recent records in a row that fail the rule |
| History.StreakIsLongest | src/ks_gen/verify/history.py:199-203 | that count is the longest run of most-recent records that all fail it |
| History.Streaks | src/ks_gen/verify/history.py:199-222 | one streak for each rule failing in the latest record, longest first and then by id, in whatever order the set is walked |
| History.StreakSays | src/ks_gen/verify/history.py:199-222 | each streak is of a rule failing now, with the category it fails with; its most recent records of that number fail it and the one before, if any, does not |
| History.StreaksAreUnique | src/ks_gen/verify/history.py:221-222 | the result does not depend on the order of the walk |
| History.DeltaAccounts | src/ks_gen/verify/history.py:225-237 | latest failures equal previous failures minus recovered plus added, and the delta names the time of the previous run |
| History.AddedIsStreakOne | src/ks_gen/verify/history.py:225-237 | with two or more runs, added names exactly the rules whose streak is 1; with fewer it is empty |
| History.DeltaIsSorted | src/ks_gen/verify/history.py:235-237 | both lists are in code-point order, and each row is a rule failing in one run and not in the other |
| History.RecordKeepsVerdict | src/ks_gen/verify/history.py:63-78 | a record keeps the report's failing rules and verdict, and drops exactly the clean rows, which the summary still counts |
| History.RecordSays | src/ks_gen/verify/history.py:63-78 | a record holds the host, user, time and drift, the number of rows of each category, and the rows that are not clean, in order |
| History.RecordReadsBack | src/ks_gen/verify/history.py:86-120 | a record written as JSON data reads back the same |
| History.RecordFields | src/ks_gen/verify/history.py:86-95 | each field that is written is found under its own key |
| History.RecordReadIff | src/ks_gen/verify/history.py:98-120 | a parsed mapping reads as a record exactly when all seven keys are there, the rows can be walked and each has two items, and the summary is a mapping to numbers; and as which record |
| History.ReadHostHistory | src/ks_gen/verify/history.py:158-167 | the records are those of all non-blank lines, sorted by time; an error names the first bad line, and is one that the source does not catch exactly when the JSON parser or a count of that line raises it |
| History.RecordRaisesIff | src/ks_gen/verify/history.py:98-120 | a record raises an error the source does not catch exactly when its rows can be read and some count of its summary overflows `int` with none before it refused |
| History.InfiniteCountRaises | src/ks_gen/verify/history.py:106-107 | a summary count that is infinite, which JSON as Python reads it allows, raises such an error |
| History.HistoryOrder | src/ks_gen/verify/history.py:166-167 | the history is a time-sorted permutation in which runs of one timestamp keep the file's order |
| History.HistoryReadsBack | src/ks_gen/verify/history.py:123-167 | runs appended in time order are read back exactly |
| HistoryFile.ReadFile | src/ks_gen/verify/history.py:147-167 | reading a history file: an error for one that cannot be read, another for one that is not UTF-8, else one that names the first bad line and what is wrong with it, or the time-sorted records of all its non-blank lines |
| HistoryFile.AppendIff | src/ks_gen/verify/history.py:135-144 | a recorded run becomes one more line of the file, the others unchanged, exactly when the file was empty or ended with a line end |
| HistoryFile.OpenLineSwallows | src/ks_gen/verify/history.py:135-144 | a file of one run whose line end is missing still has one line after the next run is recorded |
| HistoryFile.FileReadsBack | src/ks_gen/verify/history.py:123-167 | a file made by appending runs in time order reads back as exactly those runs |
| Disk.ValidateLayout | src/ks_gen/config.py:134-188 | accepts exactly the layouts with all required mounts, one swap volume, distinct names and mounts, and a size for each volume; each error is a real fault of the layout, and the first in the order of the checks |
| Disk.SizedIff | src/ks_gen/disk_layout.py:6-26 | for a volume with accepted fields, `effective_size_mb` is defined exactly when the layout's size check passes and the size has no more than the 4300 digits that `int` reads |
| Disk.SizeIs | src/ks_gen/disk_layout.py:6-26 | the megabytes of a size text: its number times 1 for M, 1024 for G and 1048576 for T |
| Disk.DefaultSizes | src/ks_gen/disk_layout.py:18-26 | the megabytes of each mount that gives no size |
| Disk.AcceptedHasSize | src/ks_gen/disk_layout.py:6-26 | on a volume of an accepted layout it fails exactly for such a number |
| Disk.LongSizeRaises | src/ks_gen/disk_layout.py:6-26 | a volume of 4301 digits that the schema and the layout check accept, on which it raises |
| Disk.FstabSpecIff | src/ks_gen/rules/alma9/data_disks_preserve.py:13-22 | an accepted preserved disk reaches the assertion exactly when `wipe` was given as a value coerced to false, such as 0 or "no", with no identifier; a real boolean never does |
| Disk.CoercedWipeHasNoSpec | src/ks_gen/rules/alma9/data_disks_preserve.py:13-22 | the disk sdb on /data with `wipe: 0` and no identifier is accepted and then reaches the assertion |
| Disk.PartitionSpecIsStable | src/ks_gen/config.py:350-360 | a partition number is at least 1, only on a preserved disk, and only on a persistent device name |
| Disk.MadeIff | src/ks_gen/config.py:302-360 | a data disk is accepted exactly when its texts match and it is wiped without an identifier, or preserved with at most one, a partition number at least 1 and on a persistent name; and what partition it then has |
| Disk.FstabSpecIs | src/ks_gen/rules/alma9/data_disks_preserve.py:13-22 | a preserved disk is named by its device and partition number, by `UUID=` or by `LABEL=`, whichever identifier it has |
| Disk.ValidateDataDisks | src/ks_gen/config.py:1061-1104 | accepts exactly the data-disk lists with distinct targets apart from the system target and distinct mounts outside the reserved set; each error names a real collision, and the first in the order of the checks |
| Disk.DataDisksAreApart | src/ks_gen/config.py:1071-1104 | a host is accepted exactly when it has no data disk, or a preset that takes them and none of them shares a device or mount point with the system, a volume, of a custom layout or of the stig_server preset, the container volume or another data disk |
| Disk.NormalizeLeanTwice | src/ks_gen/config.py:601-651 | normalising the lean preset twice is normalising once; the stored fields then equal the effective ones, and name the packages asked for and the five extra ones |
| IsoSource.KickstartIsNetwork | src/ks_gen/iso/builder.py:157-177 | true exactly when a `url` command stands outside every section |
| IsoSource.CopyBlocks | src/ks_gen/iso/builder.py:321-331 | the copied file is the source's blocks from first to last inclusive, however the reads are cut; it fails exactly when the source ends early or the interval is the wrong way round |

## Left out

- TailoringXml.ParseTailoringXml: reads elements, attributes, character data, character references and the five predefined entities; comments, CDATA and processing instructions are not read, since the printer writes none and an id brings none in unless it holds a double quote; which characters may begin a name, and whether a prefix is declared, is not checked.
- ApplyExceptions.Apply: assumes that removing a file succeeds; whether the schema accepts a candidate is a parameter. Of a host.yaml these are not modelled: mapping keys that are no text, the tuples of `!!omap` and `!!pairs`, a YAML anchor that makes a mapping shared, and nesting or size that exhausts the stack or memory.
- ApplyExceptions.WrittenReadsBack: that the text an apply writes reads back as the mapping it was written from is assumed of that one text; it leaves out a mapping holding a set whose members come back in another order.
- InPlace.Edited: what validating leaves in a mapping that it accepts; that of a refused one is never written.
- OvalMarkers.ExtractFipsCandidates: the building of the index from XML is not modelled.
- ApplySet.ApplySet: `_parse_scalar` is a parameter, and key order is not part of what is seen; a document in which YAML anchors make one dict reachable twice is excluded.
- HistoryFile.ReadFile: the JSON parser and Python's conversions are parameters; the error cases of appending to a file are not modelled.
- Disk.ValidateDataDisks: the regular expressions of targets and mounts, and `int` of a digit string, are parameters; the LUKS and container validators are left out.
- Regex.Match: only the constructs these patterns use (single-character classes with greedy repetition, line ends); `_rewrite_cfg` reading and writing the file is not modelled.
- Rules: reasons, summaries and shell bodies are not modelled, only whether a rule applies, its tailoring, its exception entry, its packages, its dependencies and whether it has a post block.
- SSH, sudo, oscap and local transports, ARF collection, xorriso and mtools calls and ISO authoring: foreign tools.
- The CLI, the wizard and the HTML, text and JSON renderers: user interface.
- Jinja templates and shell text.
- Module discovery, timestamps, package data and the SSG id lists themselves: given inputs.
- Login-path validators, network-source validators, baselines and version checks: they would add only easy members.
