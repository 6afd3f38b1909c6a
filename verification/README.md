# Verified models of the proxy's stateful core

The proxy keeps six pieces of state or transformation whose correctness cannot be seen from one function body.
Each is modelled here in Dafny with the branches, edge cases and constants of the Go code. Code that updates state in
place is a class or a method over fields, arrays and maps; each method is proved against a specification function or
relation, and the promises are proved about that specification. Walks over Go maps are arbitrary choices, so a result
holds for every iteration order; times are parameters that do not run backwards.

| component | files |
|---|---|
| model registry | `RegistryModel` (state and meaning), `RegistrySteps`, `RegistrySettle` (what one registration does), `RegistryListing` (listings, expiry, counts), `Registry` (the class), `RegistryTheorems` |
| YAML merge | `YamlMerge` (the merge on trees), `YamlCoverage`, `YamlPreservation`, `YamlRemerge`, `YamlAnchored`, `YamlReorder`, `YamlLikeness` (its theorems), `YamlReading`, `YamlReadback` (what a program reads from the trees), `YamlNode`, `YamlMatching`, `YamlHeap` (the merge in place on nodes) |
| usage statistics | `UsageKeys`, `UsageLog`, `UsageImport`, `UsageRoundTrip` (theorems about a log of records), `UsageStatistics` (the class) |
| `FixJSON` | `FixJson` (the loop and its transducer), `FixJsonReading` (what it writes, told by a reader of its own) |
| thinking validation | `Thinking`, `ThinkingResults` (its errors and the result of each request) |
| signature cache | `SignatureCache` |
| catalog refresh | `ModelUpdater` |
| shared | `Sums`, `Strings`, `Sorting` |

**Model registry.** A model's `Count`, its provider counts and its metadata are kept incrementally by five passes over
multiset differences. The ground truth is which client lists which model and which provider a client has; `Consistent`
says that every counter is the corresponding sum over these tables, that a model is registered exactly when some client
lists it, and that the metadata per provider has the same keys as the provider counts. `Registered` and `Unregistered`
relate the state before and after; each admits one outcome, and reconciling is shown to leave what unregistering and
registering afresh leaves. The class invariant also says that every cached listing that is still alive is the listing
one would build at that time.

**YAML merge.** `YamlMerge.MergeNode` is the merge as a function on trees. `YamlHeap` does it in place: nodes of a
destination that forms a finite tree, a source that shares no node with it, sequences rebuilt around the nodes they take
over. The methods are proved to leave a finite tree that stands for exactly the functional result, made of destination
nodes and fresh ones only, with the source untouched.

`YamlReading.Load` reads a tree as the program does and knows nothing of what the merge leaves out: scalars by tag as
flags, whole numbers and texts, lists element by element, mappings field by field. A field that is absent or null reads
as the zero of its type, or as the default the loader has for its path, or, where absence is a state of its own
(pointers and map entries, an arbitrary predicate on paths), as unset. What the merge leaves out is then compared with
what its absence says.

**Usage statistics.** Seven redundant aggregates are folds over one log of records (`Reflects`). Conservation, the
meaning of the dedup key, idempotence and order independence of imports and the export/import round trip are statements
about that log; the class keeps `Reflects` through every call.

**FixJSON.** The loop with its flags, escape table and lookahead is refined to a four-mode transducer without lookahead.
"Preserves meaning" compares tokens of input and output, and the strings they decode to under section 7 of RFC 8259.
A second reader, which knows nothing of the transducer, splits a text into tokens and a string into characters and
escapes; the output is the text of the input's tokens, each single-quoted one rewritten item by item.

**Thinking validation, signature cache, catalog refresh.** Validation is a method that rewrites its copy of the
configuration field by field, proved equal to a composition of three steps. The cache is compared run against run, with
and without purges, and each answer is told from the history of calls alone. The refresh keeps a listener's view in step
with the catalog for every provider that is not waiting.

## What the code does not do

These are proved of the code as it is, each with an input that shows it and the exact condition.

- `GetFirstAvailableModel("gemini")` finds no model whatever is registered: a listing in that format carries no `id`. While the clock stands still the search fails exactly for that format or when no model has a positive count (`Registry.ModelRegistry.GetFirstAvailableModel`, `RegistryListing.GeminiFindsNothing`).
- The count of a model deducts a client twice that is suspended and over its quota at once, which is how the proxy marks a client that ran out of quota: where each client lists the model once, the count is that of the serving clients exactly when none is marked twice, or none serves (`RegistryListing.CountMeans`, `RegistryListing.DoubleMarkHidesClient`). A listing has no such gap (`RegistryListing.ShownIffOffered`).
- A level can result that the model does not support, exactly by the `medium` fallback for a model with levels alone (`Thinking.LevelSupported`, `Thinking.MediumUnsupported`); a budget can leave the range, exactly by a raw -1 (`Thinking.BudgetInRange`, `Thinking.MinusOneOutOfRange`).
- Validation is not idempotent on exactly four families of inputs (`Thinking.ValidateIdempotent`; one input of each: `Thinking.MediumChanges`, `Thinking.EmptyMiddleChanges`, `Thinking.ClampedToZeroChanges`, `Thinking.CapitalAutoChanges`).
- A merged YAML tree covers its source exactly when no element of a sequence that takes over an original has a blank key over a value that is not a known default (`YamlCoverage.MergeNodeCoversIff`, `YamlPreservation.BlankKeyIsLost`).
- What is read of a merged YAML tree is what is read of its source exactly when nothing is left out that says more than its absence (`YamlReadback.MergeReadsIff`). Left out are new keys whose leaves are all zeros or defaults, and blank keys of list elements; that loses a list of zeros, a `false` where absence is not `false`, the number 0 over the default 10, and a default under the dotted spelling of its path (`YamlReadback.ScalarLostIff`; inputs: `YamlReadback.ZeroFilesAreLost`, `YamlReadback.FalseFlagIsLost`, `YamlReadback.ZeroListIsLost`).
- Merging a source a second time changes nothing exactly when the merged tree is `Stable`: in every list each element is the copy that would be made again, or takes its own place, has no blank key and is stable itself, or another element that takes its place comes out as it is (`YamlRemerge.MergeTwiceIff`; the last does occur, `YamlReorder.DisplacedIsStable`). Sources whose lists hold scalars, or mappings that name themselves, are always so (`YamlAnchored.MergeTwice`); an element whose identity the first merge changes has its keys reordered by the second (`YamlReorder.SecondMergeReorders`).
- Among records that a store can hold, a dedup key tells names and time exactly when no border between names can move: no bar in source or auth, none in the API name but at its beginning, none in the model name but at its end (`UsageKeys.KeyTellsNames`, `UsageKeys.NamesCanCollide`); equal keys always mean equal outcome and tokens.
- The tokens of the APIs add up to the global tokens exactly when no imported record has a negative total; otherwise they fall short by what was forgiven (`UsageLog.TokensConserved`, `UsageLog.NegativeTotalIsForgiven`).

## Model

| member | source | states |
|---|---|---|
| Registry.ModelRegistry.RegisterClient | internal/registry/model_registry.go:235-448 | a step of a run, on each of its three paths: the client tables are set, every counter again equals its sum over them, metadata is the newest for the submitted models and inherited elsewhere, the client's marks are cleared exactly on the models it listed or lists; an empty list unregisters; the cache is emptied |
| Registry.ModelRegistry.ReconcileModels | internal/registry/model_registry.go:299-437 | every model is exchanged as the two multiplicities and the two providers require, whatever the order of the passes' walks |
| Registry.ModelRegistry.DetachOverlap | internal/registry/model_registry.go:318-345 | the provider change takes the overlap off the old provider, per model, in any order |
| Registry.ModelRegistry.RemoveGone | internal/registry/model_registry.go:347-353 | models no longer listed lose all their bindings |
| Registry.ModelRegistry.RemoveOverage | internal/registry/model_registry.go:355-364 | models listed less often lose the difference |
| Registry.ModelRegistry.AddMissing | internal/registry/model_registry.go:366-377 | models listed more often gain the difference |
| Registry.ModelRegistry.RefreshAll | internal/registry/model_registry.go:379-421 | kept models take the new metadata, count for the new provider and lose the client's marks |
| Registry.ModelRegistry.AddModelRegistration | internal/registry/model_registry.go:450-489 | one binding more: count, provider count and metadata; a blank identifier changes nothing |
| Registry.ModelRegistry.RemoveModelRegistration | internal/registry/model_registry.go:491-524 | one binding less; the last one removes the model, the last of a provider its count and metadata |
| Registry.ModelRegistry.UnregisterClient | internal/registry/model_registry.go:575-637 | the client is gone from all tables, counters again equal their sums, all else is inherited |
| Registry.ModelRegistry.SetModelQuotaExceeded | internal/registry/model_registry.go:643-654 | the mark is set on a registered model and the cache emptied; otherwise nothing changes |
| Registry.ModelRegistry.ClearModelQuotaExceeded | internal/registry/model_registry.go:660-670 | the client's mark is removed from a registered model and the cache emptied; otherwise nothing changes |
| Registry.ModelRegistry.SuspendClientModel | internal/registry/model_registry.go:677-703 | a first suspension is recorded with its reason and empties the cache; a repeated one changes nothing |
| Registry.ModelRegistry.ResumeClientModel | internal/registry/model_registry.go:709-728 | the suspension is removed and the cache emptied, if there was one |
| Registry.ModelRegistry.GetAvailableModels | internal/registry/model_registry.go:761-787 | cached or not, the answer names, at the time of the call, exactly the models that no client is suspended on but for quota, whatever their quota marks, or whose bindings outnumber those clients and the running quota marks; each once, in descending order of identifier |
| Registry.ModelRegistry.BuildAvailableModels | internal/registry/model_registry.go:789-846 | the same of the listing computed afresh, and as expiry the earliest pending recovery |
| Registry.ModelRegistry.GetModelCount | internal/registry/model_registry.go:1017-1042 | the clients left after expired-quota and suspension deductions, never below zero |
| Registry.ModelRegistry.GetModelProviders | internal/registry/model_registry.go:1050-1099 | the providers with a positive count, each once: more clients first, among equals the smaller name |
| Registry.ModelRegistry.CleanupExpiredQuotas | internal/registry/model_registry.go:1264-1283 | removes exactly the marks whose window is over and changes no later count and no later set of listed models |
| Registry.ModelRegistry.GetFirstAvailableModel | internal/registry/model_registry.go:1295-1324 | with a clock read again for every count: fails only when no model had a positive count at the time of the listing, or for gemini; else finds a model with a positive count when counted, and with dated models none usable at the listing is newer; while the clock stands still it fails exactly when no model has a positive count, or for gemini |
| RegistrySteps.ReconcileExchanges | internal/registry/model_registry.go:318-421 | the five passes on one model together trade the old bindings for the new ones |
| RegistrySettle.ReconcileSettles | internal/registry/model_registry.go:299-448 | once every model is exchanged and the client tables are set, the state is the registered one |
| RegistrySettle.FreshSettles | internal/registry/model_registry.go:274-297 | once every entry of a client not seen before is added and the tables are set, the state is the registered one |
| RegistrySettle.UnregisterSettles | internal/registry/model_registry.go:583-637 | once a leaving client's bindings are given up and its tables removed, the state is the unregistered one |
| RegistryModel.TotalsAfterSet | internal/registry/model_registry.go:235-448 | setting one client's list changes the sum of each model, and of each model and provider, by the difference of multiplicities |
| RegistryModel.FirstEntryWins | internal/registry/model_registry.go:245-256 | the metadata under an identifier is that of the first entry that carries it |
| RegistryModel.RawIdsPick | internal/registry/model_registry.go:245-251 | the counted identifiers are those of the entries that have one, each entry once, in the order given |
| RegistryTheorems.RegisteredIffListed | internal/registry/model_registry.go:235-524 | a model is registered exactly when some client lists it |
| RegistryTheorems.SameTablesSameCounters | internal/registry/model_registry.go:235-524 | the client tables determine the registered models and all their counters |
| RegistryTheorems.RegisterDeterministic | internal/registry/model_registry.go:235-448 | a registration has one outcome, whatever order maps are walked in |
| RegistryTheorems.UnregisterDeterministic | internal/registry/model_registry.go:575-637 | an unregistration has one outcome, whatever the order of its walk |
| RegistryTheorems.ReconcileRefinesRebuild | internal/registry/model_registry.go:299-437 | reconciling leaves what unregistering and registering afresh leaves, transient marks aside |
| RegistryTheorems.ReconcileIsRebuild | internal/registry/model_registry.go:299-437 | where every marked client lists the model, the two states are equal, marks included |
| RegistryTheorems.ReregisterClears | internal/registry/model_registry.go:347-422 | re-registering clears the client's marks on its old and new models |
| RegistryTheorems.UnregisterClears | internal/registry/model_registry.go:583-637 | unregistering clears the client's marks on its models |
| RegistryTheorems.RegisterKeepsMarksBound | internal/registry/model_registry.go:347-422 | if every marked client lists the model before a registration, every marked client does after it |
| RegistryTheorems.NextKeeps | internal/registry/model_registry.go:235-728 | a call, given by what it does to the client tables and to each model, keeps every counter equal to its sum and every mark on a client that lists the model |
| RegistryTheorems.EveryReachableState | internal/registry/model_registry.go:235-728 | in every state of every run of such calls in which marks are set only on clients that list the model, counters are accurate and every marked client lists the model |
| RegistryListing.ShownUntilExpiry | internal/registry/model_registry.go:789-833 | which models are listed does not change before the computed expiry |
| RegistryListing.ListingUntilExpiry | internal/registry/model_registry.go:761-846 | a listing built now is right at every time at which its cache entry is still used |
| RegistryListing.ListingUnique | internal/registry/model_registry.go:789-846 | but for the gemini format there is one listing of a state at a time |
| RegistryListing.CountedIsShown | internal/registry/model_registry.go:789-833 | a model with a positive count is listed |
| RegistryListing.ShownIffOffered | internal/registry/model_registry.go:793-833 | a registered model is shown whatever its quota marks when no client is suspended on it but for quota, and otherwise exactly when its bindings outnumber the running quota marks and those clients |
| RegistryListing.ListingMeans | internal/registry/model_registry.go:789-846 | a listing names exactly those models, each once, and no identifier before a greater one |
| RegistryListing.CountMeans | internal/registry/model_registry.go:1017-1042 | with each client listing the model once and marks on such clients only, the count is the number of clients that serve it less the number marked twice, and right exactly when one of the two is nothing |
| RegistryListing.DoubleMarkHidesClient | internal/registry/model_registry.go:1017-1042 | two clients, one suspended and over its quota: the other serves the model and the count is 0 |
| RegistryListing.DatedIff | internal/registry/model_registry.go:1129-1260 | the formats that pass a creation time on, and which; all but one pass on the identifier |
| RegistryListing.CleanupInert | internal/registry/model_registry.go:1264-1283 | removing expired marks is invisible to counts and listings from then on |
| RegistryListing.FirstFound | internal/registry/model_registry.go:1295-1324 | the first usable entry of the dated order is a newest usable model |
| YamlMerge.MatchElement | internal/config/config.go:1612-1653 | the chosen original is free and matches by identity, text or shape |
| YamlMerge.FindKey | internal/config/config.go:1410-1420 | the first key with that text, or -1 exactly when there is none |
| YamlCoverage.MergeNodeCoversIff | internal/config/config.go:1343-1406 | for every source with unique keys and every destination, the merged tree covers the source exactly when no element that takes over an original has a blank key over a value that is no known default |
| YamlCoverage.MergeNodeCovers | internal/config/config.go:1343-1406 | a source without blank keys in its sequence elements is covered: equal scalars, sequences of equal length covered element by element or a kept null, keys covered or absent only as known defaults |
| YamlCoverage.MergeMappingCovers | internal/config/config.go:1304-1338 | the merge at the root covers a source mapping exactly when the destination is no mapping and is replaced, or nothing is lost |
| YamlCoverage.MergeElementCovers | internal/config/config.go:1375-1385 | an element that was taken over covers its source element after foreign keys are pruned exactly when the blank keys of that element stand over known defaults |
| YamlCoverage.PruneCovers | internal/config/config.go:1474-1508 | a copy without its defaults covers what it was copied from |
| YamlCoverage.DefaultPruned | internal/config/config.go:1436-1553 | a known default remains one when pruned, so it is dropped before or after |
| YamlCoverage.LookupPruned | internal/config/config.go:1474-1508 | pruning, key by key: a value goes when it is a default or prunes to an empty collection, else it is pruned |
| YamlCoverage.PruneMissingIs | internal/config/config.go:1792-1821 | a pair survives exactly when its key is not blank and the source has the same key, both trimmed |
| YamlCoverage.MergedLookup | internal/config/config.go:1304-1338 | the merged mapping as a map: common keys merged, old keys kept, new keys added pruned unless default |
| YamlReading.SilentReads | internal/config/config.go:661-721 | when a value reads the same if its key is not there at all |
| YamlReading.ZeroIsVacant | internal/config/config.go:1513-1553 | a tree is zero exactly when each of its leaves is spelled as the zero of its tag |
| YamlReading.NamedIsOwn | internal/config/config.go:1442-1469 | the comparison of dotted paths names four defaults, three of them in the two spellings a dot allows |
| YamlReading.DroppedIff | internal/config/config.go:1474-1508 | the pairs a pruned mapping goes without: own defaults, lists and scalars of zeros, mappings of nothing else |
| YamlReading.NotAddedIff | internal/config/config.go:1326-1334 | a new key is not added exactly when each leaf under it is a spelled zero or, under keys, the default at its own path |
| YamlReading.PruneReads | internal/config/config.go:1474-1508 | a pruned tree reads as the original exactly when no pair it goes without says more than its absence |
| YamlReadback.MergeReadsIff | internal/config/config.go:1343-1406 | for every source with unique keys, every destination and every choice of optional fields, the merged tree reads as the source exactly when nothing is left out that says more than its absence |
| YamlReadback.MergeMappingReads | internal/config/config.go:1304-1338 | the same at the root, where a destination that is no mapping is replaced |
| YamlReadback.MergeElementReads | internal/config/config.go:1375-1385 | the same for an element that takes over an original and loses foreign and blank keys |
| YamlReadback.ScalarLostIff | internal/config/config.go:1326-1334 | the three ways a scalar under a new key is lost |
| YamlReadback.ZeroFilesAreLost | internal/config/config.go:1326-1334 | error-logs-max-files: 0 is not written, and then reads 10 |
| YamlReadback.FalseFlagIsLost | internal/config/config.go:1326-1334 | antigravity-signature-cache-enabled: false is not written, and then reads as not set |
| YamlReadback.ZeroListIsLost | internal/config/config.go:1326-1334 | a list of a zero is not written, and then reads as no list |
| YamlPreservation.KeysKeepOrder | internal/config/config.go:1304-1338 | the old keys stay in front, in order, and no key comes twice |
| YamlPreservation.MergeNodePreserves | internal/config/config.go:1301-1406 | the notes, which hold comments and style, of the node and of everything in it that survives: key nodes of mappings stay in place, untouched values stay whole, merged values keep theirs, and so do the elements of sequences in their new places |
| YamlPreservation.MergeElementPreserves | internal/config/config.go:1375-1385 | the pairs of an element that survive pruning stand in front, in order, with their notes |
| YamlPreservation.PlanInjective | internal/config/config.go:1590-1610 | no original node is used twice |
| YamlPreservation.PlanPlaces | internal/config/config.go:1590-1653 | each target takes the first free original matching by identity or text, else the first free one of its shape, else none |
| YamlLikeness.AlikeIsSameShape | internal/config/config.go:1697-1735 | elements match by shape exactly when they are equal once tags and notes are gone and scalars are trimmed |
| YamlLikeness.IdentityByKey | internal/config/config.go:1655-1668 | the text under the most preferred identity key that has one names an element |
| YamlLikeness.IdentityByScalar | internal/config/config.go:1669-1677 | an element without such a key is named by its first scalar that is not blank, or by nothing |
| YamlLikeness.ScalarUnderIs | internal/config/config.go:1679-1695 | the text under a key is that of the first scalar whose key equals it, trimmed and without regard to case |
| YamlPreservation.SequenceMerged | internal/config/config.go:1358-1402 | the merged sequence has the source's length; each place holds the merge into its own original, note kept, or a copy |
| YamlPreservation.ElementMerged | internal/config/config.go:1375-1385 | a merged mapping element has no key outside its source element |
| YamlPreservation.PruneMissingOnly | internal/config/config.go:1792-1821 | only keys of the source remain, compared trimmed |
| YamlRemerge.MergeTwiceIff | internal/config/config.go:1304-1406 | for every source with unique keys and every destination, a second merge changes nothing exactly when the merged tree is stable, which only the places and elements of its lists decide |
| YamlRemerge.FixedIff | internal/config/config.go:1343-1406 | merging a source into any tree that fits it, merged before or not, changes nothing exactly when the tree is stable |
| YamlRemerge.ElementPairsFixed | internal/config/config.go:1375-1385 | an element comes out of merge and pruning as it was exactly when all its keys are the source's and no pair changes |
| YamlAnchored.MergeTwice | internal/config/config.go:1358-1402 | a second merge changes nothing when every list element of the source is a scalar or, with tidy keys on both sides, a mapping with a name under an identity key that is no default |
| YamlAnchored.NamedRecognised | internal/config/config.go:1612-1677 | a named element is recognised by its identity in whatever tidy tree fits it |
| YamlReorder.SecondMergeReorders | internal/config/config.go:1612-1677 | a list of scalars under keys: the first merge fills in a text that changes the element's identity, the second puts its keys in another order |
| YamlNode.DeepCopyNode | internal/config/config.go:1556-1568 | a fresh tree of equal value that shares no node |
| YamlNode.CopyNodeShallow | internal/config/config.go:1572-1588 | kind, tag, value and content copied onto the same node, the note kept, the new content fresh |
| YamlNode.IsZeroValueNode | internal/config/config.go:1513-1553 | the search over the node's content decides whether every leaf of its tree is spelled as the zero of its tag |
| YamlNode.PruneKnownDefaultsInNewNode | internal/config/config.go:1474-1508 | in place, the node comes to stand for the pruned tree, with no node from outside |
| YamlMatching.NodesStructurallyEqual | internal/config/config.go:1697-1735 | equality of shape and trimmed text of two nodes |
| YamlMatching.SequenceElementIdentity | internal/config/config.go:1655-1677 | the identity of an element, from the preferred keys or the first non-blank scalar |
| YamlMatching.ReorderSequenceForMerge | internal/config/config.go:1590-1610 | each slot holds the very node that the plan gives to its target, or nothing |
| YamlHeap.PruneMissingMapKeys | internal/config/config.go:1792-1821 | pairs are cut out of the content in place until only the source's keys are left; other kinds stay |
| YamlHeap.MergeMappingPreserve | internal/config/config.go:1304-1338 | in place, the destination comes to stand for the merged mapping; it owns only its own nodes and fresh ones, none of the source, and keeps its key and value nodes in front |
| YamlHeap.MergeNodePreserve | internal/config/config.go:1343-1406 | in place, a node of any kind comes to stand for the merged tree, owning only its own nodes and fresh ones, with the source untouched |
| YamlHeap.MergeSequence | internal/config/config.go:1358-1402 | in place, the sequence comes to stand for the merged one, and each original that is taken over is itself the node in its new place |
| UsageStatistics.RequestStatistics.Record | internal/usage/logger_plugin.go:155-226 | one normalised record is appended and every aggregate still reflects the log; nothing happens when disabled |
| UsageStatistics.StoredMeans | internal/usage/logger_plugin.go:155-183 | a record is stored as failed exactly when it was reported so or answered with a status from 400 on; with its time, whole milliseconds, key and model |
| UsageStatistics.ApiNameMeans | internal/usage/logger_plugin.go:402-424 | without a key a record stands under verb and path of its request as far as known, else under its provider |
| UsageKeys.NormalTotal | internal/usage/logger_plugin.go:444-470 | a reported total stays; a missing one is input, output and reasoning, or what was cached where that is nothing |
| UsageStatistics.RequestStatistics.Snapshot | internal/usage/logger_plugin.go:229-285 | the snapshot shows every aggregate, hours written with two digits and none merged |
| UsageStatistics.RequestStatistics.MergeSnapshot | internal/usage/logger_plugin.go:294-356 | the log is the import of the snapshot in some visiting order; added and skipped count every offered record; blank names are left out |
| UsageStatistics.RequestStatistics.RecordImported | internal/usage/logger_plugin.go:358-381 | an imported record is appended and every aggregate still reflects the log, negative totals clamped where the code clamps them |
| UsageStatistics.RequestStatistics.UpdateAPIStats | internal/usage/logger_plugin.go:215-226 | the detail goes to the end of its model's list, other models stay, and sums that added up over models and details still do |
| UsageLog.AddedAddsUp | internal/usage/logger_plugin.go:215-226 | one more detail keeps an API's requests and tokens the sums over its models, and each model's the sums over its details |
| UsageStatistics.FormatHourInjective | internal/usage/logger_plugin.go:478-484 | different hours are written differently |
| UsageStatistics.FormatHourDigits | internal/usage/logger_plugin.go:478-484 | an hour is written with its two decimal digits |
| UsageKeys.KeyTells | internal/usage/logger_plugin.go:383-400 | equal keys mean equal outcome and equal normalised tokens, whatever the names contain |
| UsageKeys.KeyTellsNames | internal/usage/logger_plugin.go:383-400 | among records with an API name, a model name and a time, a key tells names and time exactly when no border between names can move over a bar without leaving a name empty |
| UsageKeys.PlainNamesTell | internal/usage/logger_plugin.go:383-400 | without bars in a record's names another record has its key exactly when names, time, outcome and normalised tokens are equal |
| UsageKeys.BarCollides | internal/usage/logger_plugin.go:383-400 | where a border can move, another record that a store can hold has other names, the same time and the same key |
| UsageKeys.DecimalInjective | internal/usage/logger_plugin.go:383-400 | different numbers are written differently |
| UsageLog.RecordReflects | internal/usage/logger_plugin.go:155-226 | one record keeps every aggregate the fold of the log |
| UsageLog.ReflectsUnique | internal/usage/logger_plugin.go:155-226 | the log leaves no choice for the aggregates |
| UsageLog.RequestsConserved | internal/usage/logger_plugin.go:155-226 | requests are successes plus failures, and the sums over APIs, models, stored details, days and hours |
| UsageLog.TokensConserved | internal/usage/logger_plugin.go:358-381 | tokens are the sums over days and hours; an API's are the sum over its models, a model's the sum over its details; the APIs' are the global tokens exactly when no imported total is negative |
| UsageImport.ImportAdds | internal/usage/logger_plugin.go:294-356 | what is added has no repeated key and exactly the offered keys that were not there |
| UsageImport.ImportIdempotent | internal/usage/logger_plugin.go:294-356 | a second import of a stamped snapshot adds nothing, in any two orders |
| UsageImport.EveryRecordOffered | internal/usage/logger_plugin.go:294-356 | every record under a named API is offered once |
| UsageImport.CandidateMeans | internal/usage/logger_plugin.go:314-345 | what is imported is the offered record with trimmed names, its time, latency and total made good |
| UsageImport.TotalsDependOnKeys | internal/usage/logger_plugin.go:294-400 | totals after an import depend only on the keys it brings |
| UsageImport.SnapshotTotalsDependOnKeys | internal/usage/logger_plugin.go:294-400 | requests, successes, failures and tokens after merging several snapshots depend only on the union of the keys they offer |
| UsageImport.SnapshotsInAnyOrder | internal/usage/logger_plugin.go:294-400 | the same stamped snapshots, merged in any order and any number of times, with maps walked in any order, leave the same totals |
| UsageRoundTrip.ExportImportRoundTrip | internal/usage/logger_plugin.go:229-381 | an export imported into an empty store reproduces every aggregate and list |
| UsageRoundTrip.SecondMergeChangesNothing | internal/usage/logger_plugin.go:294-381 | a second merge leaves every field as it was |
| UsageRoundTrip.ExportSameDetails | internal/usage/logger_plugin.go:229-356 | the export offers, under each name, exactly the stored details |
| FixJson.FixJSON | internal/util/translator.go:109-223 | the loop writes what the transducer writes |
| FixJson.CopyHex | internal/util/translator.go:165-179 | the lookahead copies up to four hexadecimal digits, as many as there are |
| FixJson.OutputClean | internal/util/translator.go:109-223 | the output never has a single quote outside a double-quoted string |
| FixJson.FixIdentity | internal/util/translator.go:109-223 | identity on exactly the inputs without a single quote outside a double-quoted string |
| FixJson.FixIdempotent | internal/util/translator.go:109-223 | a second pass changes nothing |
| FixJson.FixKeepsTokens | internal/util/translator.go:116-213 | token for token: text and double-quoted strings are kept, each single-quoted string is converted on its own |
| FixJson.ConvertKeepsMeaning | internal/util/translator.go:143-205 | a converted body decodes to the same code units, or neither decodes |
| FixJson.FixPreservesMeaning | internal/util/translator.go:116-213 | for every input, tokens correspond one to one, all but single-quoted strings are unchanged, and a terminated single-quoted string becomes one double-quoted token that decodes to the same code units |
| FixJsonReading.LexReads | internal/util/translator.go:116-213 | the tokens of the transducer are those of a reader that looks for closing quotes by itself |
| FixJsonReading.FixWrites | internal/util/translator.go:109-223 | the output is the text of the input's tokens, each single-quoted string rewritten item by item |
| FixJsonReading.FixRewrites | internal/util/translator.go:143-205 | in a single-quoted token, ended or not, decodable or not: an escaped quote stands by itself, a double quote is escaped, a dangling backslash goes, and every other character and escape stays |
| FixJsonReading.FixLeaves | internal/util/translator.go:109-223 | the identity on exactly the texts without a single-quoted string |
| Thinking.ValidateConfig | internal/thinking/validate.go:38-165 | the rewriting of the local copy computes the specified steps, errors included |
| Thinking.ClampLevel | internal/thinking/validate.go:218-259 | the loop finds what a search outwards from the level finds |
| Thinking.ClampedIsNearest | internal/thinking/validate.go:218-259 | a clamped level is the nearest offered standard level, ties going lower, and is supported |
| Thinking.NearestUnique | internal/thinking/validate.go:218-259 | a level has at most one nearest offered level |
| Thinking.IsLevelSupported | internal/thinking/validate.go:312-319 | whether some entry equals the level, trimmed and without regard to case |
| Thinking.ConvertAutoToMidRange | internal/thinking/validate.go:177-211 | for levels alone medium; for a stated range a budget within it whose distances to both ends differ by at most one, or disabled with 0 exactly when the ends add up to less than 2 and zero is allowed |
| Thinking.BudgetInRange | internal/thinking/validate.go:262-310 | a resulting budget lies in the model's range exactly when no raw -1 was passed through |
| Thinking.AutoOnlyIfDynamic | internal/thinking/validate.go:38-165 | auto results only where the model allows it |
| Thinking.NoneCarriesZeroOrMin | internal/thinking/validate.go:38-165 | a disabled result carries 0, or the least budget of a model that cannot be disabled |
| Thinking.LevelSupported | internal/thinking/validate.go:38-165 | a resulting level is supported but for the medium fallback |
| Thinking.ValidateIdempotent | internal/thinking/validate.go:38-211 | a result validates to itself exactly outside the four unstable families |
| Thinking.LevelRoundTrip | internal/thinking/convert.go:42-97 | level to budget and back is the identity but for the top level |
| ThinkingResults.EveryRequest | internal/thinking/validate.go:38-165 | every request that does not fail asks for a budget, a level, nothing or the model's own choice |
| ThinkingResults.ErrorsExactly | internal/thinking/validate.go:49-146 | which requests fail, and with which of the four errors |
| ThinkingResults.BudgetResult | internal/thinking/validate.go:262-310 | a budget that is asked for, as a number or a level, results in the nearest point of the model's range, in itself without a range; a raw -1 is passed through |
| ThinkingResults.LevelResult | internal/thinking/validate.go:218-259 | a level that is asked for, by name or by a budget, results in itself where supported, else in the nearest supported one, the lower of two |
| ThinkingResults.NoneResult | internal/thinking/validate.go:38-165 | what is disabled stays disabled, with which budget and level |
| ThinkingResults.AutoResult | internal/thinking/validate.go:148-211 | the model's own choice where it can, else the middle of its range, medium for levels alone, or disabled where the middle is nothing |
| ThinkingResults.LevelBudgetIs | internal/thinking/convert.go:42-45 | which levels name a budget, and which one |
| ThinkingResults.BudgetLevelIs | internal/thinking/convert.go:77-97 | a positive budget is named by the least level whose budget covers it, up to xhigh |
| ThinkingResults.RulesMean | internal/thinking/validate.go:60-76 | levels are clamped between families of formats, budgets judged strictly within one unless they come from a suffix or an unknown format |
| SignatureCache.Cache.CacheSignature | internal/cache/signature_cache.go:101-119 | a signature long enough for a text that is not empty is stored with the time, and nothing else changes |
| SignatureCache.Cache.GetCachedSignature | internal/cache/signature_cache.go:123-169 | a live entry is answered and refreshed, an expired one removed |
| SignatureCache.Cache.ClearSignatureCache | internal/cache/signature_cache.go:172-182 | one group or, without a name, everything is forgotten |
| SignatureCache.Cache.PurgeExpiredCaches | internal/cache/signature_cache.go:78-97 | an entry stays, unchanged, exactly when it is no older than TTL, and no group is left empty |
| SignatureCache.PurgingUnobservable | internal/cache/signature_cache.go:78-198 | from states no caller can tell apart, a run and the run without its purges give the same answers |
| SignatureCache.PurgesCanBeRemoved | internal/cache/signature_cache.go:78-198 | from an empty cache, removing all purges from a run changes no answer |
| SignatureCache.AnswersAreValid | internal/cache/signature_cache.go:101-187 | every answer that is not empty is a valid signature for the model asked about |
| SignatureCache.ReadsKeepAlive | internal/cache/signature_cache.go:123-169 | read often enough, a signature never expires |
| SignatureCache.AnswerFromHistory | internal/cache/signature_cache.go:101-182 | after any history a read answers the signature last kept for its group and hash, if nothing has cleared it since and no gap between its uses exceeds TTL, and in every other case that there is none |
| SignatureCache.ValidIffReadBack | internal/cache/signature_cache.go:101-187 | a signature is valid for a model exactly when, cached for it, it can be read back |
| SignatureCache.GroupMeans | internal/cache/signature_cache.go:189-198 | names that contain a family's name share its group, the first of the three deciding; grouping twice is grouping once |
| ModelUpdater.DetectChangedProviders | internal/registry/model_updater.go:195-248 | exactly the providers whose sections differ, each once |
| ModelUpdater.PairsCoverSections | internal/registry/model_updater.go:195-232 | the comparisons of a provider find a change exactly when one of its sections differs |
| ModelUpdater.ChangedIffJsonDiffers | internal/registry/model_updater.go:235-248 | a section counts as changed exactly when the JSON texts of its elements differ |
| ModelUpdater.SectionsBelong | internal/registry/model_updater.go:206-218 | every section of the catalog is compared under its own provider, the codex tiers under one |
| ModelUpdater.MergeProviderNames | internal/registry/model_updater.go:266-295 | the union of the names in normal form, each once, blank ones dropped; without incoming names the list is kept |
| ModelUpdater.Updater.SetModelRefreshCallback | internal/registry/model_updater.go:52-65 | a callback that is set is told at once of exactly the providers that wait; nothing waits while one is set |
| ModelUpdater.Updater.NotifyModelRefresh | internal/registry/model_updater.go:250-264 | exactly the changed providers are delivered to a listener, or else join those that wait, and no provider falls out of step |
| ModelUpdater.Updater.TryRefreshModels | internal/registry/model_updater.go:115-139 | a fetched catalog replaces the old one, exactly the providers whose sections differ are delivered or join those that wait, and every provider that is not waiting is still in step |
| ModelUpdater.RefreshKeepsSync | internal/registry/model_updater.go:115-139 | re-reading only the changed providers is enough |

## Left out

- Numbers are unbounded; 64-bit overflow of counters, token sums and durations is not modelled.
- Letters are lower-cased in ASCII only.
- GetFirstAvailableModel: the listing and the counts read one state of the registry, though the clock moves between them; changes made by other callers in between are not modelled.
- Each locked method is one atomic step; interleavings inside a method and the lock itself are not modelled.
- Times are integers passed in; a zero timestamp of an imported record is replaced through a clock function that may answer differently each time.
- Registrations are values in a map field; the original holds records that no other structure shares.
- Registry hooks, `LastUpdated`, cloning of metadata and listings, and the fields that `convertModelToMap` writes: a listed entry is the pair of format and metadata.
- `unregisterClientInternal` writes the removal of one binding out in its loop; the model calls `RemoveModelRegistration` there, which does the same on a registered model.
- `GetAvailableModelsByProvider`, `GetModelInfo`, `GetModelsForClient` and `ClientSupportsModel` of the registry are not modelled.
- YAML alias nodes, anchors that are referred to, and null children: nodes form a finite tree, as a parsed file without aliases does.
- A sequence under reordering: the vacant slots are a local list of nodes or nothing; the original stores that list in the destination before it fills the slots.
- Of loading a configuration only decoding is modelled, with the defaults set before it and put in place of blank texts after it; the loader's other clean-ups are not, and numbers that are not whole are compared as spelled. The default of `routing.strategy` is the one its users take a blank text for.
- `pruneMappingToGeneratedKeys` for the two OAuth sections, and reading, encoding and writing the file, are not modelled.
- Coverage is stated for a source whose mappings have no key twice, as an encoder writes them.
- `MergeSnapshot` returns the visiting order as a ghost value; nothing in the original corresponds to it.
- SHA-256 of a text is an arbitrary function; the pseudo-random and time-formatting parts of a record are fields.
- The request context of a usage record is reduced to the method, path and status that the code reads.
- `FixJSON` reads code points; what Go makes of invalid UTF-8 is not modelled.
- Thinking configurations start as values: suffix parsing, body extraction and the provider appliers are left out, and so is logging.
- The JSON text of a catalog section is modelled as the sequence of its elements' texts, and a failure to encode one is left out.
- Fetching and validating a catalog: a fetch gives a catalog or nothing, and neither catalog is missing when changes are detected.
- One listener reads the catalog inside the callback; callbacks that run concurrently are not modelled.
