# Sentinel, modelled and proved in Dafny

Sentinel is a Kubernetes security console: a Go server and a TypeScript front end
around Cilium and Tetragon. This project models the parts of it that hold real
algorithms and proves what they promise. `dafny verify dfyconfig.toml` checks all of it.

- **Network policies** (`CnpForm`, `CnpPrinter`, `CnpParser`, `CnpRoundTrip`, `CnpMeaning`,
  `CnpEditor`, `CnpCluster`, `CnpAttribution`). A form is printed as a Cilium policy document,
  a hidden DNS rider added for domain rules; a reader reopens only what the form would print
  again; and the server reads the same documents back for its list and to attribute denials.
  Form and document both have a meaning, which pods they govern and what they do to traffic,
  and printing preserves it.
  Documents are trees (`Json`), not text.
- **Tracing policies** (`TracingPolicy`, `PolicyBuilder`, `PolicyReader`, `ModeSwitch`,
  `ModeStore`, `PolicyDocument`). A form is compiled to a Tetragon policy, stored as a
  document, read back, and switched between monitoring and protecting. Policies have a
  meaning: which kernel events they trigger on, in which pods.
- **Event stores** (`AdmissionStore`, `SecurityStore`, `FlushProtocol`). Dedup windows,
  sorted insertion, expiry and caps, and the generation-checked flush goroutines as a state
  machine over all interleavings.
- **Alerting** (`AlertCooldown`, `Delivery`). Cooldowns with rollback and purge as a state
  machine over two dispatching goroutines, and the paced, retrying sender.
- **Topology** (`TopologyBuffer`, `Topology`). A lazily evicted buffer of flows, folded
  into a graph with one verdict per pair.
- **Istio hosts** (`IstioReach`). What a Gateway and a VirtualService expose together.

Loops and classes of the source are methods and classes here, each proved equal to a
specification function; the properties are lemmas about those functions over all inputs
or all runs, stated on the fields of the inputs and outputs, with the constants written out,
so that they say what the functions mean. Instants are whole nanoseconds that callers pass in; calls into the cluster
are parameters that may fail. `Text`, `Sequences`, `Clock`, `Wrappers` and `Json` hold what
the models share.

Where the code does not do what its comments or design say, the model follows the code
and the exact condition is proved:

- A namespaced policy whose subject names a namespace is printed but does not reopen
  (`CnpRoundTrip.Reopens`).
- Two out-of-order sightings can leave rows of one fingerprint within the dedup window
  (`SecurityStore.OutOfOrderCollides`, `SecurityStore.IngestedSeparatedExactly`).
- An older snapshot can be renamed into place for good when its write lands last
  (`FlushProtocol.OldSnapshotCanWin`, `FlushProtocol.QuiescentFileExactly`).
- Alerts are a cooldown apart from decision to decision; the instants of queueing can be
  closer, exactly when the earlier alert was queued later than it was decided
  (`AlertCooldown.TooSoonExactly`); the least gap is exact too (`AlertCooldown.LeastGapExactly`).
- A Retry-After of more seconds than fit in 64 bits is read as no header, where a comment
  says an over-cap value ends the retries (`Delivery.RetryAfterTooLong`, `Delivery.RetryAfterSecondsExactly`).
- An empty VirtualService host met by an unrestricted Gateway host is lost
  (`IstioReach.ReachIsIntersectionExactly`).
- A blacklist rule with several paths reopens as several rules, so the rebuilt policy is
  equivalent but not identical (`PolicyReader.RoundTrip`).

## Model

| member | source | states |
|---|---|---|
| CnpRoundTrip.Reopens | web/src/utils/cnpForm.ts:527-600 | for every valid form, and whatever order each label map of the document is listed in at its place, equal maps at different places included, reading the printed document gives the form's normal form, or nothing exactly for a namespaced policy whose subject names a namespace |
| CnpRoundTrip.NormalSame | web/src/utils/cnpForm.ts:463-506 | the normal form is valid, prints the same document, and normalising it again, under the same or another order of rows, gives what normalising the form under that order gives |
| CnpRoundTrip.OpenedIsNormal | web/src/utils/cnpForm.ts:584-600 | whatever document is opened, in whatever order each of its label maps is listed, the resulting form is valid, prints exactly the document's spec, and is its own normal form but for blanks around name and namespace |
| CnpRoundTrip.OpensExactly | web/src/utils/cnpForm.ts:527-600 | a document is opened exactly when some form would be saved as it: the builder annotation reads as true, there are no specs and no metadata labels, kind, name and namespace are the form's, and the spec is the one it prints |
| CnpRoundTrip.RiderOnceAndLast | web/src/utils/cnpForm.ts:251-271 | every document that opens carries the DNS rider once and last in egress if some rule there is a domain rule, and nowhere otherwise |
| CnpRoundTrip.RuleIsNoRider | web/src/utils/cnpForm.ts:608-613 | no rule of a valid form prints as the rider, so folding the rider away on reading loses no rule |
| CnpRoundTrip.RuleReopens | web/src/utils/cnpForm.ts:603-657 | a printed rule of any peer kind parses back to its normal form, ports and HTTP entries included |
| CnpRoundTrip.SectionReopens | web/src/utils/cnpForm.ts:556-571 | each direction reads back with its mode and rules, each rule's labels listed in their own order, and an empty one as the empty section |
| CnpRoundTrip.NormalRuleSame | web/src/utils/cnpForm.ts:427-457 | normalising a valid rule keeps it valid, keeps the tree it prints, and is idempotent, also when the second pass lists rows in another order |
| CnpRoundTrip.OrdersExist | web/src/utils/cnpForm.ts:195-203 | for every place of a document there is an order to list label maps in, as the round trip supposes |
| CnpMeaning.DocumentMeansForm | web/src/utils/cnpForm.ts:16-78 | the printed document, read field by field, decides every traffic as the form says, in each direction separately: under a blacklist exactly the named traffic is blocked, under a whitelist exactly the named traffic passes |
| CnpMeaning.PolicyMeansForm | web/src/utils/cnpForm.ts:463-506 | for every pod of the cluster and all its traffic, the whole document, kind, namespace and selector included, does what the form says |
| CnpMeaning.RuleMeans | web/src/utils/cnpForm.ts:427-457 | a printed rule matches exactly the traffic the form's rule names, in either direction, with ports and HTTP entries as alternatives; a typed address means that address alone, a typed network the addresses that share its leading bits |
| CnpMeaning.RiderMeans | web/src/utils/cnpForm.ts:251-271 | the rider lets DNS queries through to the cluster's DNS and nothing else |
| CnpForm.PairsBack | web/src/utils/cnpForm.ts:183-203 | listing a label map as rows and reading the rows gives the map, the namespace alias included |
| CnpForm.LiftAndBack | web/src/utils/cnpForm.ts:166-181 | lifting the namespace label into its own field and putting it back gives the same selector |
| CnpForm.LabelsPrintable | web/src/utils/cnpForm.ts:183-192 | every label a form prints has a trimmed, non-empty key and value, never an alias as key |
| CnpForm.NormalCidr | web/src/utils/cnpForm.ts:245-249 | the network an address or CIDR is printed as is valid, and normal already |
| CnpForm.NormalizedExactly | web/src/utils/cnpForm.ts:245-249 | a typed network is only trimmed; a bare address becomes its own text with the full width of its kind as prefix, 32 for a dotted one and 128 otherwise |
| CnpForm.V4Exactly | web/src/utils/cnpForm.ts:221-230 | the IPv4 addresses accepted are four numbers up to 255 without leading zeros, dots between them |
| CnpForm.V4CidrExactly | web/src/utils/cnpForm.ts:221-230 | the IPv4 blocks accepted are such an address, alone or with a prefix up to 32 |
| CnpForm.V6Exactly | web/src/utils/cnpForm.ts:232-243 | the IPv6 addresses accepted are hexadecimal digits and colons, with a colon, no five digits on end, and one meeting of colons at most |
| CnpForm.DnsNameExactly | web/src/utils/cnpForm.ts:218-218 | names are lower-case letters, digits and dashes, no dash at either end |
| CnpForm.FqdnExactly | web/src/utils/cnpForm.ts:220-220 | domains are letters, digits, underscores, wildcards, dashes and dots, not starting with a dash or dot |
| CnpForm.PortExactly | web/src/utils/cnpForm.ts:369-378 | ports are the numbers from 1 to 65535, leading zeros allowed |
| CnpForm.KnownExactly | web/src/utils/cnpForm.ts:38-42 | the entities and protocols accepted are those of Cilium |
| CnpForm.MatchLabelsExactly | web/src/utils/cnpForm.ts:183-192 | a label is printed exactly when some row says it, with the value of the last row that does |
| CnpForm.SelectorLabelsExactly | web/src/utils/cnpForm.ts:166-181 | a chosen namespace wins over the rows, and changes no other label |
| CnpForm.PairsShown | web/src/utils/cnpForm.ts:195-203 | the namespace label is listed by its short name, other labels by their own |
| CnpForm.NoColonInV4 | web/src/utils/cnpForm.ts:223-241 | an address cannot pass both address grammars through a colon |
| CnpEditor.MatchLabelsOf | web/src/utils/cnpForm.ts:183-192 | the loop over the rows computes the label map |
| CnpEditor.RuleComplaints | web/src/utils/cnpForm.ts:329-406 | a rule is valid exactly when none of the complaints about it applies |
| CnpEditor.SectionErrors | web/src/utils/cnpForm.ts:329-406 | exactly the complaints that apply to the rules of a direction are listed |
| CnpEditor.Validate | web/src/utils/cnpForm.ts:292-326 | exactly the complaints that apply are listed, and none exactly when the form is valid |
| CnpEditor.PrintForm | web/src/utils/cnpForm.ts:463-506 | filling in the spec section by section gives the specified document, or nothing for an invalid form |
| CnpPrinter.DocHeader | web/src/utils/cnpForm.ts:463-506 | a document has apiVersion cilium.io/v2, the kind of the form's scope, metadata and spec, and nothing else |
| CnpPrinter.MetadataFields | web/src/utils/cnpForm.ts:463-506 | the metadata hold the trimmed name, the namespace of a namespaced policy, and the builder annotation |
| CnpEditor.ReadRules | web/src/utils/cnpForm.ts:603-657 | the loop over a section's rules refuses the section at the first rule it cannot show, and skips the rider |
| CnpEditor.ReadForm | web/src/utils/cnpForm.ts:527-600 | reading, with the regeneration comparison, computes the specified result |
| CnpCluster.RowAgrees | internal/k8s/cnp.go:191-256 | for a generated policy the list row counts exactly the form's rules plus the rider, reports Layer 7 exactly when the form has HTTP entries or domain rules, and default-deny in each direction for exactly the whitelists with rules |
| CnpCluster.ToRecord | internal/k8s/cnp.go:191-247 | the loops over specs and rules add up counts and flags over all specs, enableDefaultDeny overriding |
| CnpCluster.CollectSpecsExactly | internal/k8s/cnp.go:284-297 | the specs of a policy are its spec and the elements of its specs, as often as they are there and as far as they are objects |
| CnpCluster.RulesPresent | internal/k8s/cnp.go:300-321 | the nested search finds Layer 7 rules exactly when some toPorts entry has them |
| CnpCluster.DeniesExactly | internal/k8s/cnp.go:229-242 | the default-deny switch the form writes makes each direction deny by default exactly when it is a whitelist with rules |
| CnpAttribution.AttributedExactly | internal/k8s/policy_attribution.go:140-270 | among generated policies of both kinds together, namespaced and cluster-wide, a denial is attributed to exactly the names whose form governs the pod and has rules in the direction |
| CnpAttribution.AttributedNames | internal/k8s/policy_attribution.go:236-277 | the names returned for generated policies of both kinds are exactly those of the forms that explain the denial, and none for an unknown pod |
| CnpAttribution.BlamedExactly | internal/k8s/policy_attribution.go:140-231 | among any documents, hand-written ones included, a denial is attributed to exactly the names of those with a spec that has rules in the direction and selects the pod, labels with or without the k8s: prefix, match expressions never |
| CnpAttribution.Attribute | internal/k8s/policy_attribution.go:140-270 | collecting both lists and searching them gives the distinct names of exactly the responsible policies |
| CnpAttribution.CandidateGoverns | internal/k8s/policy_attribution.go:206-231 | the selector matches exactly the pods that carry every subject label, the k8s: prefix stripped, in the policy's and the subject's namespace |
| CnpAttribution.FormCandidate | internal/k8s/policy_attribution.go:140-173 | a generated policy is collected as one candidate with the form's name, namespace, labels and directions |
| CnpAttribution.MatchesPod | internal/k8s/policy_attribution.go:206-231 | the loop over the labels decides the subset match |
| CnpAttribution.Collect | internal/k8s/policy_attribution.go:140-173 | every spec of every policy becomes a candidate of its own |
| CnpAttribution.AttributePolicyDenial | internal/k8s/policy_attribution.go:236-277 | the names returned are distinct and exactly those of policies that govern a known pod in the direction |
| PolicyBuilder.BuildMeansForm | internal/policy/builder.go:10-181 | pod by pod and event by event, a built policy triggers exactly when the form says so: the pods of its namespace, or of all without one, that carry its labels; binaries, paths, permissions and exceptions, in both modes |
| PolicyBuilder.BuiltHeader | internal/policy/builder.go:11-28 | a built policy is of the namespaced kind exactly when the form names a namespace, and has its name, namespace and labels |
| PolicyBuilder.BuiltActs | internal/policy/builder.go:60-181 | at most one probe per call, none empty, and every selector takes exactly the action asked for |
| PolicyBuilder.BuildFailsExactly | internal/policy/builder.go:47-205 | a form fails with exactly the error of the first check it violates, and builds exactly when it violates none |
| PolicyBuilder.SetFileModeExactly | web/src/components/PolicyForm/PolicyForm.tsx:106-125 | switching to a whitelist leaves one rule of all paths and exceptions with the first specific permission, switching to a blacklist one rule for every path |
| PolicyBuilder.ExclusionPermission | internal/policy/builder.go:117-133 | a whitelist takes the first specific permission of its rules |
| PolicyBuilder.SetWhitelistKeepsPolicy | web/src/components/PolicyForm/PolicyForm.tsx:106-125 | normalising the rules to a whitelist before building gives the identical policy, or both fail |
| PolicyBuilder.SetBlacklistKeepsTriggers | web/src/components/PolicyForm/PolicyForm.tsx:106-125 | normalising the rules to a blacklist before building keeps what the policy triggers on in every pod, and both fail together |
| PolicyBuilder.CleanPaths | internal/policy/builder.go:82-95 | returns the trimmed entries that are not blank, or nothing when one is relative |
| Text.TrimExactly | internal/policy/builder.go:82-95 | trimming cuts white space off both ends, and all of it |
| Text.SpaceExactly | internal/policy/builder.go:82-95 | which characters are white space to Go and to JavaScript |
| PolicyBuilder.Whitelist | internal/policy/builder.go:108-148 | the loop over whitelist rules merges them into one selector, with the source's errors |
| PolicyBuilder.Blacklist | internal/policy/builder.go:149-172 | the loop over blacklist rules gives one selector per rule with a path |
| PolicyBuilder.BuildPolicy | internal/policy/builder.go:10-207 | Build as a whole, with every error in the source's order |
| PolicyReader.BuiltReopens | web/src/utils/yamlToForm.ts:54-213 | every policy built from a named form reopens, also with the `return: false` the cluster adds |
| PolicyReader.RoundTrip | web/src/utils/yamlToForm.ts:34-213 | the reopened form builds again into a policy that triggers on the same events in the same pods, identical exactly when the file mode is whitelist or no blacklist rule has two paths |
| PolicyReader.ReadPolicy | web/src/utils/yamlToForm.ts:54-213 | the loops over kprobes and selectors refuse at the first that the form cannot show |
| PolicyReader.OpensExactly | web/src/utils/yamlToForm.ts:17-213 | a document is opened exactly when it is named, every kprobe is of a known call, bare, fits the form selector by selector and names something, and programs and files are each listed in one mode; Postfix makes a blacklist and NotPostfix a whitelist |
| PolicyDocument.UnshownRefused | web/src/utils/yamlToForm.ts:17-52 | a kprobe with an option, or a selector with a matcher the form does not know, keeps the document from being opened |
| PolicyReader.ProcessReads | web/src/utils/yamlToForm.ts:95-145 | an execve selector adds a rule for each value of its argument, or of its binaries without one, put under the root if need be |
| PolicyDocument.StoredReads | internal/policy/types.go:37-89 | the tree a policy is stored as, read as the form reads it, is the document of that policy |
| PolicyDocument.SwitchedReopens | internal/k8s/store.go:882-922 | switching the mode of a stored policy changes nothing the form shows when it is opened |
| PolicyDocument.ProbeStored | internal/policy/types.go:58-68 | a stored probe tells its call, whether it is a system call, and its arguments |
| ModeSwitch.SwitchedActions | internal/k8s/store.go:888-922 | the actions of a rewritten object are the old ones, each Post and Sigkill rewritten |
| ModeSwitch.SwitchedShape | internal/k8s/store.go:882-922 | node for node, a rewrite changes the names of Post and Sigkill actions in the four probe sections and nothing else in the object |
| ModeSwitch.SwitchThenDetect | internal/k8s/store.go:1021-1063 | after a switch the detected mode is the one asked for, or Monitoring when there was nothing to switch |
| ModeSwitch.DetectedExactly | internal/k8s/store.go:1021-1063 | the mode shown is Monitoring exactly when no action under kprobes, tracepoints, uprobes or lsmhooks is Sigkill, and otherwise Protect or Mixed as none or some is Post |
| ModeSwitch.LastSwitchWins | internal/k8s/store.go:888-922 | rewriting is idempotent, and a later switch leaves nothing of an earlier one |
| ModeStore.RewriteActions | internal/k8s/store.go:888-922 | the nested loops return the rewritten object and the number of Post and Sigkill actions |
| ModeStore.Detect | internal/k8s/store.go:1021-1063 | counting the actions decides Monitoring, Protect or Mixed |
| ModeStore.UntouchedIsSwitched | internal/k8s/store.go:875-877 | leaving an object without such actions alone is the same as rewriting it |
| ModeStore.SwitchIsRebuild | internal/policy/builder.go:63-71 | rewriting a stored policy is building it anew with the other action, in both directions |
| ModeStore.RedoBuilt | internal/policy/builder.go:139-181 | the action given to the builder decides nothing but the actions, and no error |
| ModeStore.PolicyStore.SetPolicyAction | internal/k8s/store.go:866-880 | one policy is switched, or left as it was when the read or a needed write fails |
| ModeStore.PolicyStore.SetMode | internal/k8s/store.go:826-843 | policies are switched in listing order up to the first that cannot be reached, and the cached mode changes exactly when all were; then every listed policy agrees with it or has no such action |
| ModeStore.SwitchedAgree | internal/k8s/store.go:823-843 | after switching a list of policies to any mode, each of them reports that mode or has no such action |
| AdmissionStore.EveryRunKeepsInv | internal/admission/store.go:311-418 | in every run from empty: readable times, newest first, distinct ids, all remembered, no more rows than the cap |
| AdmissionStore.AddedExactly | internal/admission/store.go:365-418 | an event with a new id is counted by the first row that agrees in six fields and is less than thirty seconds away, its count up by one and its time the event's; if there is none it opens a row, and of the rows in time the newest are kept, ids forgotten exactly with their rows; an event with a known id changes nothing |
| AdmissionStore.ObservedExactly | internal/admission/store.go:311-363 | the same for the watcher's path, with the row a Warning makes |
| AdmissionStore.ReconfiguredKeepsNewest | internal/admission/store.go:110-116 | a new retention keeps the newest of the rows it allows, and forgets exactly the ids of the others |
| AdmissionStore.InsertedExactly | internal/admission/store.go:181-198 | a row goes behind exactly the newer ones at the head of the list, and an unreadable one in front |
| AdmissionStore.SortedRunsSorted | internal/admission/store.go:159-179 | readable rows come out of the sort newest first |
| AdmissionStore.SortedRunsPermutes | internal/admission/store.go:159-179 | the sort loses no row and invents none |
| AdmissionStore.SortedRunsStable | internal/admission/store.go:159-179 | rows of one time keep their order in the sort |
| AdmissionStore.UnreadableRowsStay | internal/admission/store.go:159-179 | a row without a readable time keeps its position in the sort |
| AdmissionStore.SortEventsDesc | internal/admission/store.go:159-179 | the insertion sort, in place on an array |
| AdmissionStore.ReloadRestores | internal/admission/store.go:125-157 | a restart from the file a store wrote gives back its unexpired rows in order, and the invariant |
| AdmissionStore.FileRowsExactly | internal/admission/store.go:125-157 | of a file the first row of each id is read, those readably expired apart |
| AdmissionStore.Store.Load | internal/admission/store.go:125-157 | reading the file computes the specified state |
| AdmissionStore.Store.InsertSorted | internal/admission/store.go:181-198 | the search and insertion compute the specified position |
| AdmissionStore.Store.ApplyRetentionLocked | internal/admission/store.go:400-418 | expiry and cap drop rows and ids as specified |
| AdmissionStore.Store.Add | internal/admission/store.go:365-397 | the new state and what is broadcast |
| AdmissionStore.Store.AddFromK8sEvent | internal/admission/store.go:311-363 | the new state and what is broadcast, for the watcher's path |
| AdmissionStore.Store.SetRetention | internal/admission/store.go:110-116 | the new configuration is applied to the rows at once |
| SecurityStore.EveryOrderedRunSeparated | internal/security/store.go:246-346 | in every run whose events come in order, no two rows of one fingerprint are within 30 seconds |
| SecurityStore.IngestedSeparatedExactly | internal/security/store.go:263-295 | one call keeps such rows apart exactly when the event is near no second row after the one it folds into |
| SecurityStore.AddedExactly | internal/security/store.go:246-346 | what any event does, on its fields: an event that is none of the store's changes nothing; one that agrees with a row in nine fields and the client up to its port, within thirty seconds, is counted by the first such row; any other opens a row, critical exactly for kill and deny, and of each severity the first rows in time are kept |
| SecurityStore.OutOfOrderCollides | internal/security/store.go:263-295 | a concrete out-of-order sighting that brings two rows within the window |
| SecurityStore.EveryRunWithinCaps | internal/security/store.go:143-150 | both caps hold in every reachable state, whatever the times |
| SecurityStore.CappedPerSeverity | internal/security/store.go:190-203 | each severity keeps the first rows of its own subsequence; one never evicts the other |
| SecurityStore.FirstSightingExactly | internal/security/store.go:320-346 | first-sighting subscribers are told exactly when the event opened a row that is in the store afterwards |
| SecurityStore.IngestedConserves | internal/security/store.go:246-346 | stored counts plus the counts of evicted rows go up by exactly one per accepted event |
| SecurityStore.RepeatKeepsIdentities | internal/security/store.go:264-295 | a repeat changes no row's id, fingerprint or severity |
| SecurityStore.NewEventKeepsIdentities | internal/security/store.go:297-338 | the rows after a new event together with the evicted ones are exactly the rows before and the new row, as multisets of rows and of identities |
| SecurityStore.CollapseExactly | internal/security/store.go:53-62 | two addresses collapse to one exactly when equal or equal up to ports that are ephemeral or already collapsed |
| SecurityStore.CollapseMeans | internal/security/store.go:53-62 | two addresses collapse to one exactly when equal or different only in ports from 32768 up, or the marker |
| SecurityStore.FingerprintExactly | internal/security/store.go:75-93 | on bar-free fields a stored row and an event share a fingerprint exactly when their collapsed fields agree |
| SecurityStore.Store.CapBySeverity | internal/security/store.go:190-203 | the loop over the slots computes the specified cap |
| SecurityStore.Store.SetRetention | internal/security/store.go:143-150 | the caps are applied to the stored rows at once |
| SecurityStore.LoadedExactly | internal/security/store.go:159-180 | of a file the rows not older than the retention are read, the first of each severity up to its cap |
| SecurityStore.Store.Add | internal/security/store.go:246-346 | the new state and what either feed is told |
| FlushProtocol.RenamesIncrease | internal/security/store.go:205-243 | in every interleaving, failures included, the generations that rename strictly increase |
| FlushProtocol.AlwaysProgress | internal/admission/store.go:202-235 | the newest generation always passes the stale check, and some goroutine can move until all are done |
| FlushProtocol.NewestRenames | internal/security/store.go:205-243 | without I/O failure, once all goroutines are done the newest generation has renamed, and last |
| FlushProtocol.QuiescentFileExactly | internal/security/store.go:205-243 | without I/O failure the file holds the newest snapshot at rest exactly when no other write landed between the newest one's write and rename |
| FlushProtocol.OrderedWritesKeepNewest | internal/security/store.go:205-243 | if writes land in generation order the file ends with the newest snapshot |
| FlushProtocol.OldSnapshotCanWin | internal/security/store.go:205-243 | a two-writer run that ends with the older snapshot in the file |
| AlertCooldown.QueuedAlertsSpaced | internal/alert/dispatcher.go:359-391 | in every interleaving two queued alerts of one rule and identity were decided at least the cooldown apart |
| AlertCooldown.HeldBackExactly | internal/alert/store.go:170-184 | an alert is held back exactly when one of its rule and identity was queued less than a cooldown ago; rollback and purge change no answer |
| AlertCooldown.RefusedLeavesNoCooldown | internal/alert/dispatcher.go:457-493 | right after a rollback the same alert is let through at any time, every other cooldown has its old instant, and all queued alerts of the key were out of their cooldown already when the refused one was decided |
| AlertCooldown.SettledCooldownsAreQueued | internal/alert/dispatcher.go:457-493 | in every interleaving, when no alert is between decision and queueing, each cooldown on record is that of a queued alert, from its decision |
| AlertCooldown.QueuedApart | internal/alert/dispatcher.go:466-493 | two queued alerts of one key are queued at least the cooldown apart, less the time the earlier took from decision to queue |
| AlertCooldown.LeastGapExactly | internal/alert/dispatcher.go:466-493 | from any reachable state, after an alert is queued its key is queued again no sooner than the rest of the cooldown counted from the decision (or at once if that is over), and some legal continuation does it exactly then |
| AlertCooldown.TooSoonExactly | internal/alert/dispatcher.go:466-493 | from any reachable state, some continuation queues the key again within its cooldown if and only if there is a cooldown and queueing came later than the decision |
| AlertCooldown.QueuedCloser | internal/alert/dispatcher.go:466-493 | an instance: a run in which two alerts are queued closer than their cooldown |
| AlertCooldown.CooldownKeyInjective | internal/alert/store.go:168-172 | on bar-free parts the rendered cooldown key identifies rule and identity |
| AlertCooldown.QueuedIsSteps | internal/alert/dispatcher.go:466-493 | a dispatch turn that queues is the decision and queueing steps of the state machine |
| AlertCooldown.UnqueuedIsSteps | internal/alert/dispatcher.go:466-493 | a turn that does not queue holds back, or is refused and rolled back |
| AlertCooldown.Dispatcher.Dispatch | internal/alert/dispatcher.go:466-493 | the loop over the rules updates cooldowns and queue as specified |
| AlertCooldown.DispatchedExactly | internal/alert/dispatcher.go:466-493 | dispatching queues, in order and up to 256, the alerts of exactly the rules that ask for the occurrence and have not alerted about its identity for a cooldown, and sets or drops their cooldowns and no other |
| AlertCooldown.PurgedExactly | internal/alert/dispatcher.go:184-200 | a cooldown is kept exactly while some rule's cooldown, or none, plus a minute has not passed |
| AlertCooldown.Dispatcher.PurgeCooldowns | internal/alert/dispatcher.go:184-200 | exactly the cooldowns older than the longest rule's plus a minute are dropped |
| Delivery.DeliveryBounded | internal/alert/dispatcher.go:238-285 | at most four POSTs and ninety seconds of retry waits; a POST is repeated exactly after a 429 or 5xx to one of the first three that asks for thirty seconds at most, after the time asked for or as many seconds as there were POSTs; anything else ends the delivery |
| Delivery.SameDestinationSpaced | internal/alert/dispatcher.go:238-285 | the next delivery to a destination posts at least the send interval after the last uncancelled one ended |
| Delivery.BookedExactly | internal/alert/dispatcher.go:238-285 | a destination is booked until a second after the last delivery to it that ran its course, and only by such |
| Delivery.RetryAfterSecondsExactly | internal/alert/dispatcher.go:301-320 | Retry-After seconds (section 10.2.3 of RFC 9110) up to thirty are read as they are, more as over the cap, without overflow |
| Delivery.RetryAfterTooLong | internal/alert/dispatcher.go:301-320 | more seconds than fit in 64 bits are read as no header |
| Delivery.RetryAfterDateExactly | internal/alert/dispatcher.go:301-320 | any other header means the time left until the date it is, if that is to come |
| Text.ParseInt64Exactly | internal/alert/dispatcher.go:305-313 | a number is digits with a sign or without, of a value that fits 64 bits |
| Delivery.Sender.Post | internal/alert/dispatcher.go:242-284 | the retry loop computes the specified log of POSTs and waits |
| Delivery.Sender.Deliver | internal/alert/dispatcher.go:238-285 | pacing, posting and booking the next turn |
| TopologyBuffer.ListedExactly | internal/k8s/store.go:264-376 | at any time the keys listed are those whose last flow was accepted in the window and not pruned since, whenever eviction ran |
| TopologyBuffer.StoredIsFold | internal/k8s/store.go:271-312 | each stored entry is the fold of its key's flows since its last removal |
| TopologyBuffer.FoldMeaning | internal/k8s/store.go:271-312 | the fold counts its flows, has the last one's ends, port, protocol, verdict and time, and of policy, direction and request details the last given |
| TopologyBuffer.SameKeySameVerdict | internal/k8s/store.go:264-269 | the verdict is part of the key |
| TopologyBuffer.SameKeyExactly | internal/k8s/store.go:246-269 | on names without separators, flows share an entry exactly when both ends, the port and the verdict agree, ephemeral ports counting as one |
| TopologyBuffer.LeftOutExactly | internal/k8s/store.go:217-245 | a flow changes nothing exactly when it is neither allowed nor dropped, a reply, an ICMP error or lacks an end |
| TopologyBuffer.FlowSeenExactly | internal/k8s/store.go:313-313 | whether a flow was ever accepted is remembered |
| TopologyBuffer.AcceptedStays | internal/k8s/store.go:217-323 | an accepted flow that nothing removed is still accounted for |
| TopologyBuffer.LatestHits | internal/k8s/store.go:217-323 | what the history reports as latest is an accepted flow of the key |
| TopologyBuffer.Buffer.UpdateCiliumTopo | internal/k8s/store.go:217-323 | merging one flow, with the cleanup every 2000 updates |
| TopologyBuffer.Buffer.PruneCiliumTopo | internal/k8s/store.go:329-338 | exactly the given keys go |
| TopologyBuffer.Buffer.PruneBlockedFor | internal/k8s/store.go:348-361 | exactly the pod's dropped entries go |
| TopologyBuffer.Buffer.ListCiliumTopoEntries | internal/k8s/store.go:365-376 | exactly the recent entries are listed, each once |
| TopologyBuffer.Buffer.HasCiliumTopoData | internal/k8s/store.go:379-389 | true exactly when an entry is recent |
| Topology.AggregatedExactly | internal/handler/topology.go:258-334 | an edge exists exactly when an entry feeds it, and its counts, ports, probe flag and time are the sums, disjunction and maximum over those entries |
| Topology.AggregatedAnyOrder | internal/handler/topology.go:258-334 | the aggregation is the same for every order of the entries |
| Topology.ShowBlockedExactly | internal/handler/topology.go:382-388 | a pair shows blocked exactly when a drop was seen that is under two minutes old or not overtaken by an allowed flow |
| Topology.OneEdgePerPair | internal/handler/topology.go:345-409 | every pair with a placed entry is drawn by exactly one edge, of the verdict that stands |
| Topology.ResolvedExactly | internal/handler/topology.go:204-256 | each class of end has its node and every other end none: named pod, link-local, world, node, pod by address, other |
| Topology.EveryEdgeDrawn | internal/handler/topology.go:254-409 | on the entries' own fields: an edge runs from the node of an entry's source to that of its destination, for every entry that names no lost pod and is not between two nodes, and is blocked exactly when a denial stands |
| Topology.EdgeTells | internal/handler/topology.go:290-334 | an edge tells the flows of the entries that join its ends with its verdict, in all and per port, their latest time, and whether one is a health probe |
| Topology.NodesAreEndpoints | internal/handler/topology.go:262-409 | the nodes returned are exactly the endpoints of the drawn edges |
| Topology.RecentDropIsDrawn | internal/handler/topology.go:258-409 | over any run, a drop under two minutes old that was not removed is drawn blocked, from the node of its source to that of its destination |
| Topology.PruningStaleKeepsGraph | internal/handler/topology.go:258-265 | pruning entries of deleted pods changes no drawing |
| Topology.BufferPortsNormal | internal/handler/topology.go:78-84 | the port names the buffer stores are normal for the handler |
| Topology.CollectPairs | internal/handler/topology.go:345-362 | the loop over the edges collects both times of every pair |
| Topology.Gather | internal/handler/topology.go:258-334 | the loop over the entries computes nodes, edges and stale keys |
| Topology.Draw | internal/handler/topology.go:380-409 | exactly the edges whose verdict shows are kept |
| Topology.BuildCiliumTopology | internal/handler/topology.go:146-409 | nodes, edges and keys to prune are what the entries' fields and the cluster's lookups say they are |
| IstioReach.NarrowIsIntersection | internal/k8s/exposure.go:627-655 | narrowing two hosts stands for exactly the hosts both stand for |
| IstioReach.NarrowEmptyExactly | internal/k8s/exposure.go:627-655 | nothing is reported exactly when the two languages are disjoint, or an empty VirtualService host meets no restriction |
| IstioReach.ReachIsIntersection | internal/k8s/exposure.go:561-608 | per port, what is reported for a known Gateway is the intersection of the hosts its servers accept, whatever namespace they are qualified with, and those the VirtualService routes; no hosts stand for all |
| IstioReach.ReachIsIntersectionExactly | internal/k8s/exposure.go:561-608 | with empty hosts allowed, the exact condition for that |
| IstioReach.UnknownGatewayReach | internal/k8s/exposure.go:561-608 | for an unknown Gateway the VirtualService's hosts are reported alone |
| IstioReach.EntryIdInjective | internal/k8s/exposure.go:561-608 | the ids under which entries are remembered tell entries apart |
| IstioReach.UnqualifiedExactly | internal/k8s/exposure.go:627-631 | of a qualified host what follows the first slash counts |
| IstioReach.GatewayKeyExactly | internal/k8s/exposure.go:609-620 | "ns/name", a bare name and name.ns.svc and so on name the Gateway of that namespace, or of the VirtualService's |
| IstioReach.DetailExactly | internal/k8s/exposure.go:591-597 | servers are told apart by port and protocol, letter case aside, and one without a port says nothing |
| IstioReach.UpperExactly | internal/k8s/exposure.go:591-597 | protocols are written in capitals |
| IstioReach.IstioReach | internal/k8s/exposure.go:561-608 | the nested loops report exactly the reachable entries, each once |

## Left out

- CnpParser.TryParse: a value of the wrong type at which the source would throw counts as
  not opened; an HTTP method that is not a string, which the source would reopen and print
  again, counts as not opened too.
- YAML text: anchors and shared nodes, dates, number formats, line widths and quoting. A
  document is a tree of maps, lists and scalars, and two dumps with sorted keys are equal
  when the trees are.
- Error and complaint texts of the forms: complaints are values that name the rule, row and reason.
- CnpEditor.PrintForm: the loop over the two directions is written as two calls.
- CnpAttribution.AttributePolicyDenial: the names are not sorted and joined into one text,
  and a pod is a namespace and a name instead of the two joined by a slash.
- CnpMeaning.DocEffect: the reading of a policy that the form's comments give, over the fields
  the form prints; not Cilium's own evaluation, other policies, or other document fields.
- CnpCluster.ToRecord: name, creator, creation time, raw YAML and the rendered selector of the row.
- PolicyReader.ReadPolicy: the document is taken as parsed, as far as the reader looks at it; what
  a document the builder did not make means, and what saving it from the form would lose, is not
  compared.
- PolicyDocument.DocFrom: values that are neither texts nor whole numbers read as empty.
- TracingPolicy.TriggersIn: the meaning the builder's comments give to operators, kinds and
  selectors, not Tetragon's own code.
- ModeStore.RewriteActions: the tree is rebuilt instead of edited through nested references.
- ModeStore.PolicyStore.SetMode: nothing else changes the cluster during the pass.
- AdmissionStore.Store: parsing of the webhook's and the watcher's messages, subscribers and
  the writing of the file.
- SecurityStore.Store: a row's id is the tuple it is rendered from.
- SecurityStore.AddedExactly: on fields without a bar, the separator of fingerprints; with bars two
  different events can share one.
- TopologyBuffer.SameKeyExactly: likewise on names without the separators of keys.
- FlushProtocol.QuiescentFileExactly: a write of the temporary file is one step, and does not tear.
- AlertCooldown.Dispatcher.Dispatch: the texts of alerts, and how an occurrence is read off an event.
- AlertCooldown.QueuedAlertsSpaced: the set of rules does not change during a run, and
  durations do not overflow.
- Delivery.DeliveryBounded: the HTTP client, and the formatting of payloads.
- TopologyBuffer.Buffer: counters are unbounded where the source wraps.
- Topology.BuildCiliumTopology: the final sorting by id, addresses and exposures of nodes,
  quarantine flags, destination addresses, policies named on edges and Layer 7 details, whose
  values depend on map order or on the cluster; entries' ids hold no bar.
- Topology.AggregatedExactly: ports are a map; the order of ports with equal counts is not modelled.
- IstioReach.IstioReach: names and protocols hold no bar, the separator of remembered ids; letters
  outside ASCII keep their case.
- Goroutine scheduling inside the stores, apart from the flush and the dispatchers: each
  method runs under its lock.
- HTTP handlers, login, audit log, templates, lookup caches, rsyslog, the exposure listing
  of Services, Ingress and other gateways, and the React pages.
