# Verified model of beckn-onix

Beckn-ONIX is a Beckn protocol adapter: it signs and checks messages between network participants, translates payloads
between schema versions, routes them, stores them for later callbacks, and writes masked audit records. This Dafny project
models the parts of it whose correctness spans several functions or whole runs, and proves what those parts promise.
`dafny verify dfyconfig.toml` checks everything.

Code that computes values is modelled by functions, code that updates state by classes and methods proved against those
functions, and what runs concurrently by state machines whose every interleaving is covered.

| files | what they model |
|---|---|
| `Text`, `UrlText`, `Utf8`, `Json` | the Go string, number, URL and JSON operations the rest relies on, written out |
| `JsonHeap` | decoded JSON as mutable maps and arrays in the heap, beside the values they stand for |
| `Paths`, `PathsInPlace`, `PayloadWalk` | the walk over a payload, the paths it prints, and reading and writing by parsed paths |
| `Versions`, `Mediation`, `Mediator` | version comparison, compatibility, and the whole-message translation |
| `MediationSafety`, `MediationOutside`, `MediationContent`, `MediationSettles`, `MediationOutcome`, `MediationExample` | what a mediation guarantees of the resulting body, when one is enough, whose manifest decides it, and inputs |
| `ArtifactCache` | the first-in first-out cache of translation artifacts, with concurrent readers |
| `SigningString`, `AuthHeader`, `CallbackSigning` | what is signed, the headers, and the two sides of a callback |
| `PayloadStore` | stored messages and the per-transaction index over an expiring cache |
| `Scheduler`, `SchedulerAccepts`, `SchedulerDrain` | Start, Stop and RunOnce of the crawl scheduler, interleaved; which calls run, and when a Stop hangs |
| `AuditWalk`, `AuditInPlace` | selection and masking of audited payloads |
| `DediLookup` | key lookup in the DeDi registry, with and without its cache |
| `Router`, `RouterAnswers` | the routing index and its answers, in the words of the rules |
| `SchemaCache` | the schema cache with least-recently-used eviction |
| `ActionIndex`, `ActionIndexLosses` | the merged index of actions, what a reload loses and which collisions it reports |

## What the proofs found

Where a promise of the code's comments is not met on all inputs, the code is modelled as it is and the exact condition is
proved.

- A Start that is between releasing its lock and launching its loops when a Stop comes launches them after that Stop has
  returned (`Scheduler.StoppedIffNoStartPending`, `Scheduler.StartOutlivesStop`). Waiting itself is safe in every
  interleaving.
- A second Start takes the place of the first, whose context no Stop cancels any more. A Stop then waits for ever, holding the
  lock, unless the parent context is cancelled; it can come back exactly when every Start that counted a loop is cancelled
  (`SchedulerDrain.DrainableIff`, `SchedulerDrain.StopHangs`).
- The signer binds the stored request into a callback at every protocol version, the checking side looks for it from version
  2 on only: a callback below version 2 is refused while the signer's copy lives (`CallbackSigning.CallbackAcceptedIff`,
  `CallbackSigning.RefusedBelowV2`). A callback stored under its own action hides the request it answers
  (`CallbackSigning.StoredCallbackHidesRequest`).
- Storing a listed message again does not refresh the transaction index, so the entry can outlive its listing: it is returned
  throughout its TTL exactly when its ID was not in the live index, or the index outlives it
  (`PayloadStore.StoredIsListedIff`, `PayloadStore.RestoredIsLost`).
- A message that moves to another transaction stays with the first. A transaction's entries remain its own exactly when the
  moved message is not in its live index (`PayloadStore.EntriesStayOwnIff`, `PayloadStore.MovedStaysListed`).
- An expired artifact leaves its slot in the insertion list, and once stored again it can be evicted by that old slot, before
  older entries. Eviction is first in, first out exactly when the first current slot carries the key of the front slot
  (`ArtifactCache.EvictsOldestIff`), which holds in every run that drops no expired entry
  (`ArtifactCache.FifoWhileNothingDropped`, `ArtifactCache.StaleSlotEvictsNewest`).
- A schema that replaces itself in a full cache evicts another one (`SchemaCache.SizeAfterStore`).
- A reload is said to keep the previous index rather than drop actions. A file of a directory that no longer loads is skipped
  and its actions drop out; the exact condition is `ActionIndexLosses.ReloadKeepsIndexIff`, an input is
  `ActionIndex.ReloadDropsUnreadableFile`.
- A collision is said to be a hard error always. A directory whose files collide counts as a failed load, so at startup an
  auxiliary one is skipped; the exact condition is `ActionIndexLosses.CollidingLoadFailsIff`, an input is
  `ActionIndexLosses.StartupSkipsCollision`.
- Bodyless routing takes the first version in map order; the answer is settled exactly when all versions agree
  (`Router.OrderIrrelevantIff`), and valid rules need not (`Router.VersionsDisagree`).
- References outside the message take the whole-message branch of the mediator, which does not reach them
  (`MediationSafety.AllReachTargetIff`). It merges the translated original over the message, which can put objects that were
  already translated back to their old version, and stamps the message with the other object's target, while the verdict is
  still acceptance; which objects keep their target is `MediationOutside.ReachesTargetIff`, an input is
  `MediationExample.OutsideSendsBack`.
- A translator that answers null for the whole message makes the mediator write into a nil map and panic, which it does in
  no other case (`Mediation.PanicsIff`, `Mediator.Mediate`, `MediationExample.NullPanics`).
- A manifest version that is not shaped like a version, or a negative version component, defeats the comparison
  (`Versions.TranslatedIsCompatibleIff`, `MediationExample.NeverCompatible`, `Versions.CompareAgreesIff`,
  `Versions.CompareOverflows`).
- A creation time within 62 135 596 800 seconds of the largest 64-bit number overflows in conversion and passes the
  not-yet-valid check (`SigningString.WindowIff`, `SigningString.FarFutureAccepted`).

## Assumptions

- Digests, signatures, base64 and translators are ideal functions; a signature fits one text of its key
  (`CallbackSigning.Ideal`, shown to exist). Compression and JSON text are exact: a stored value reads back as it was.
- Clocks are parameters; every operation reads the clock once unless its contract shows two readings.
- `url.Parse`, `path.Join`, host checks, case folding, `%v` rendering and UTF-8 encoding are parameters; the last is injective
  and leaves ASCII alone (`DediLookup.EncodingExists`).
- The cache behind the payload store and the registry client is a map with expiry; an operation on it succeeds unless a
  parameter says it fails.

## Model

| member | source | states |
|---|---|---|
| Paths.GetAtPath | pkg/plugin/implementation/schemaversionmediator/schemaversionmediator.go:888-914 | the cursor loop gives what reading the parsed segments one after the other gives, with the same error at the same segment |
| Paths.ReadableIsWritable | pkg/plugin/implementation/schemaversionmediator/schemaversionmediator.go:888-960 | a path that can be read can be written |
| Paths.SetThenGet | pkg/plugin/implementation/schemaversionmediator/schemaversionmediator.go:888-960 | every path that can be written, an absent last field included, then reads back as the written value |
| Paths.GetThenSet | pkg/plugin/implementation/schemaversionmediator/schemaversionmediator.go:888-960 | writing back the value just read changes nothing |
| Paths.SetThenSet | pkg/plugin/implementation/schemaversionmediator/schemaversionmediator.go:918-960 | of two writes to one path the second wins |
| Paths.SetSucceedsIff | pkg/plugin/implementation/schemaversionmediator/schemaversionmediator.go:918-960 | a write succeeds exactly when the parent reads as an object and the last segment is a field without index, or an index within an existing array |
| Paths.SetElsewhere | pkg/plugin/implementation/schemaversionmediator/schemaversionmediator.go:888-960 | every write that succeeds, one that creates a field included, leaves the outcome, errors included, of reading every path that neither extends it nor is extended by it; key and index steps alike |
| Paths.SetKeepsAddress | pkg/plugin/implementation/schemaversionmediator/schemaversionmediator.go:918-960 | the same for every node of the tree, whether or not any path text names it |
| Paths.SetBelow | pkg/plugin/implementation/schemaversionmediator/schemaversionmediator.go:888-960 | reads below the written place see the written value |
| Paths.SetAbove | pkg/plugin/implementation/schemaversionmediator/schemaversionmediator.go:888-960 | reads above the written place see the old value with the rest of the path written into it |
| Paths.SegmentsOfText | pkg/plugin/implementation/schemaversionmediator/schemaversionmediator.go:180-209 | parsing the printed path of an address gives the segments of that address, for addresses that start with a field, whose keys are safe and that index no array element directly |
| Paths.RelTextInjective | pkg/plugin/implementation/schemaversionmediator/schemaversionmediator.go:180-209 | different such addresses print as different paths |
| Paths.GetFollowsAddress | pkg/plugin/implementation/schemaversionmediator/schemaversionmediator.go:888-914 | reading along the segments of an address succeeds exactly when the node exists, and gives that node |
| Paths.KeyReadsBackIff | pkg/plugin/implementation/schemaversionmediator/schemaversionmediator.go:875-914 | a field can be read back under its own name exactly when the name holds no dot and is not itself of the form name[n]; the exact condition on keys |
| Paths.KeysWithoutBracketsAreSafe | pkg/plugin/implementation/schemaversionmediator/schemaversionmediator.go:875-883 | keys free of dots and opening brackets meet that condition |
| PathsInPlace.SetAtPath | pkg/plugin/implementation/schemaversionmediator/schemaversionmediator.go:918-960 | in place on maps and arrays in the heap: the same error as the value-level write and nothing assigned, or afterwards the heap holds exactly the tree of the value-level write |
| PathsInPlace.PlacedIsSet | pkg/plugin/implementation/schemaversionmediator/schemaversionmediator.go:918-960 | replacing one place in the tree of heap nodes is, for the JSON it stands for, the write at the path, and no node comes to occur twice |
| PathsInPlace.AssignedIsPlaced | pkg/plugin/implementation/schemaversionmediator/schemaversionmediator.go:944-958 | one assignment to the one target object, everything else untouched, leaves the whole tree as placed |
| PathsInPlace.FindParent | pkg/plugin/implementation/schemaversionmediator/schemaversionmediator.go:918-943 | the downward loop fails with the write's own error or stops at the node the last segment applies to; an absent field reads as nil on the way |
| PayloadWalk.Results.WalkNode | pkg/plugin/implementation/schemaversionmediator/schemaversionmediator.go:180-209 | appends, for one subtree, every versioned node exactly once with its path, and every node with @context but no @type to the skipped list; keys @context and @type are not entered |
| PayloadWalk.WalkPayload | pkg/plugin/implementation/schemaversionmediator/schemaversionmediator.go:165-172 | on a whole payload the two lists are exactly the reported and the skipped nodes, each once, whatever the order in which map keys come |
| PayloadWalk.FoundIff | pkg/plugin/implementation/schemaversionmediator/schemaversionmediator.go:165-220 | what is reported is the nodes with a non-empty text under both @context and @type, with those texts, outside the values of those two keys, and what is skipped those with one under @context alone |
| PayloadWalk.PathsDistinct | pkg/plugin/implementation/schemaversionmediator/schemaversionmediator.go:165-209 | on a payload with printable keys and no array directly inside an array all reported paths are pairwise distinct |
| PayloadWalk.SamePathSameAddress | pkg/plugin/implementation/schemaversionmediator/schemaversionmediator.go:180-209 | a reported path belongs to one node only |
| PayloadWalk.StrippedPathReadsNode | pkg/plugin/implementation/schemaversionmediator/schemaversionmediator.go:494-508 | the path stripped of its message prefix, read in the message, gives exactly the reported node |
| PayloadWalk.AddressesPrintable | pkg/plugin/implementation/schemaversionmediator/schemaversionmediator.go:180-209 | on such a payload every reported node has an address that survives printing and parsing |
| Versions.CompareAgreesIff | pkg/model/manifest.go:274-293 | comparing agrees with the order of the numbers exactly when the first difference fits 64 bits |
| Versions.CompareTotalPreorder | pkg/model/manifest.go:274-293 | on versions with non-negative components comparing is a total preorder |
| Versions.CompareOverflows | pkg/model/manifest.go:284-292 | with a negative component the subtraction can overflow: the later version then compares as the earlier one |
| Versions.ParsePrinted | pkg/model/manifest.go:274-283 | a printed version parses back to its numbers |
| Versions.ParseForms | pkg/model/manifest.go:274-286 | so does every other form: without the v, with a capital one, and without a minor part, which is then zero |
| Versions.LatestVersion | pkg/model/manifest.go:258-269 | the loop computes the latest version; an empty list has none |
| Versions.LatestIsListed | pkg/model/manifest.go:258-269 | the latest version is one of the list |
| Versions.LatestIsMaximal | pkg/model/manifest.go:258-269 | nothing in a list of non-negative versions is newer than its latest |
| Versions.FirstLatestIff | pkg/model/manifest.go:258-271 | the latest version is the first listed of those that none is newer than |
| Versions.ValidateSchema | pkg/model/manifest.go:354-390 | the found-flag loops accept exactly the manifests whose schema objects are all valid |
| Versions.CanonicalIsSupported | pkg/model/manifest.go:233-255 | in a manifest that validates, the canonical version of every object is one of its supported versions |
| Versions.ContextVersion | pkg/plugin/implementation/schemaversionmediator/schemaversionmediator.go:145-150 | the version read back from the context URL built for a canonical version is that version, when it has the shape of one, and none otherwise; base URL absolute, plain and without a version of its own |
| Versions.CheckCompatibility | pkg/plugin/implementation/schemaversionmediator/schemaversionmediator.go:1089-1123 | no manifest is an error; exactly those references are reported whose type, without its prefix, the manifest lists and whose version the last entry listed for it does not support, with the version that entry asks for: its pin under the policy pinned, and under latest the first supported version that none is newer than; the policy is its own, else the default one, else latest |
| Versions.NeedsIff | pkg/plugin/implementation/schemaversionmediator/schemaversionmediator.go:1089-1123 | the same of the specification the mediation results are stated over |
| Versions.CanonicalIff | pkg/model/manifest.go:230-255 | an entry asks for its pin, or for the first of its latest versions; where it asks for nothing, there is no canonical version |
| Versions.VersionSegment | pkg/plugin/implementation/schemaversionmediator/schemaversionmediator.go:814-839 | the scan accepts exactly the segments of digits with a dot inside, after an optional v or V |
| Versions.ExtractVersionSegment | pkg/plugin/implementation/schemaversionmediator/schemaversionmediator.go:797-808 | the loop finds the first version-shaped segment of the path |
| Versions.FirstVersionIff | pkg/plugin/implementation/schemaversionmediator/schemaversionmediator.go:797-808 | that is the segment before which there is no other |
| Versions.PrintedSegments | pkg/plugin/implementation/schemaversionmediator/schemaversionmediator.go:810-839 | two numbers around a dot are a version segment, one number is not, nor is one with a dot at an end |
| Versions.ArtifactBesideTarget | pkg/plugin/implementation/schemaversionmediator/schemaversionmediator.go:778-793 | the artifact is looked for beside the target @context, named for the type as written and for the old version |
| Versions.NeedsOfRefs | pkg/plugin/implementation/schemaversionmediator/schemaversionmediator.go:1089-1123 | a need is reported exactly when its ref is among the refs and needs it |
| Versions.TranslatedIsCompatibleIff | pkg/plugin/implementation/schemaversionmediator/schemaversionmediator.go:1089-1123 | after translation a ref is never reported again exactly when the canonical version has the shape of a version |
| MediationExample.NeverCompatible | pkg/plugin/implementation/schemaversionmediator/schemaversionmediator.go:1089-1123 | it happens: the only supported version of a valid manifest does not look like one, and a translated object is reported again |
| Mediation.SortedKeys | pkg/plugin/implementation/schemaversionmediator/schemaversionmediator.go:485-489 | sorts the paths of the fetched artifacts; same set of paths, in increasing order, each once |
| Mediation.FetchAllArtifacts | pkg/plugin/implementation/schemaversionmediator/schemaversionmediator.go:1040-1069 | tries every need; there are failures exactly when some need has no artifact, and otherwise the map pairs each path with the artifact and need for it |
| Mediation.FetchedBelong | pkg/plugin/implementation/schemaversionmediator/schemaversionmediator.go:1040-1069 | every fetched artifact belongs to a need of its path, and every need's path is there |
| Mediation.ExtensionNotLess | pkg/plugin/implementation/schemaversionmediator/schemaversionmediator.go:485-489 | a string is never ordered after one it begins; so an ancestor's path never sorts after its descendants' |
| Mediation.WriteSpares | pkg/plugin/implementation/schemaversionmediator/schemaversionmediator.go:491-538 | a write below an already translated object, other than to its @context, or beside it keeps its @context; where the translator returned no object, what it returned |
| Mediation.AllOpsShow | pkg/plugin/implementation/schemaversionmediator/schemaversionmediator.go:491-538 | after all operations every object translated still has its target @context, and what was returned in place of an object is still there, provided no later operation writes at or above its place |
| Mediation.OpsElsewhere | pkg/plugin/implementation/schemaversionmediator/schemaversionmediator.go:491-538 | nodes beside all translated places are unchanged by the whole run |
| MediationSafety.SortedIsParentsFirst | pkg/plugin/implementation/schemaversionmediator/schemaversionmediator.go:485-489 | in path order a nested object comes after the one around it |
| MediationSafety.NeedsReachTarget | pkg/plugin/implementation/schemaversionmediator/schemaversionmediator.go:485-549 | when every object to translate is inside the message and the translator returns objects, each ends with its target @context, nested ones included |
| MediationContent.ContentReachesBody | pkg/plugin/implementation/schemaversionmediator/schemaversionmediator.go:491-549 | every object translated inside the message ends, at each address below it that no later translation reaches, as the translator returned it with its target; and what the translator was given is the original object where no earlier translation reaches it |
| MediationContent.TranslatedInPlace | pkg/plugin/implementation/schemaversionmediator/schemaversionmediator.go:491-549 | an object that reaches no other and is reached by none ends as exactly the translation of itself, with its target @context |
| MediationContent.WholeContentReachesBody | pkg/plugin/implementation/schemaversionmediator/schemaversionmediator.go:497-538 | a field of the message that a whole-message translation mentions ends as returned, wherever no later translation reaches |
| MediationContent.WrittenStays | pkg/plugin/implementation/schemaversionmediator/schemaversionmediator.go:491-538 | the same for any run of steps |
| MediationSettles.NothingNeededAfter | pkg/plugin/implementation/schemaversionmediator/schemaversionmediator.go:402-555 | one mediation is enough: with everything to translate inside the message, version-shaped targets and a translator that returns objects, keeps every @type and brings in nothing outdated, no object of the resulting body needs translation |
| MediationSettles.SecondMediationAccepts | pkg/plugin/implementation/schemaversionmediator/schemaversionmediator.go:444-450 | a mediation of a body that needs no translation, such as a second one then is, accepts it and rewrites nothing, whatever its configuration |
| MediationSettles.ShapedTargetsSettle | pkg/plugin/implementation/schemaversionmediator/schemaversionmediator.go:1089-1123 | under a valid manifest with plain base URLs and version-shaped canonical versions an object that carries its target is not reported |
| MediationSafety.AllReachTargetIff | pkg/plugin/implementation/schemaversionmediator/schemaversionmediator.go:491-521 | when no object has its target @context to begin with, all objects to translate end with it exactly when all of them are inside the message; a reference outside it takes the whole-message branch |
| MediationSafety.OutsideMessageUntouched | pkg/plugin/implementation/schemaversionmediator/schemaversionmediator.go:608-615 | an object outside the message keeps its @context, whatever the mediation made of the message |
| MediationOutside.ReachesTargetIff | pkg/plugin/implementation/schemaversionmediator/schemaversionmediator.go:485-549 | with objects outside the message among those to translate: an object inside it ends with its target exactly when the last of the later whole-message translations that mention its field, if any, shows the target there |
| MediationOutside.MessageCarries | pkg/plugin/implementation/schemaversionmediator/schemaversionmediator.go:497-538 | the message itself ends with the target of that object, among those translated through the whole message, whose path sorts last, wherever that object is |
| MediationOutside.RestUntouched | pkg/plugin/implementation/schemaversionmediator/schemaversionmediator.go:485-549 | in every mediation: all of the envelope is what it was, and so is every node of the message that no translated subtree is above or below and no whole-message translation mentions |
| MediationOutside.ContextSentBack | pkg/plugin/implementation/schemaversionmediator/schemaversionmediator.go:497-538 | what such a translation of the original leaves at an object translated before |
| MediationOutside.OpsLeave | pkg/plugin/implementation/schemaversionmediator/schemaversionmediator.go:491-538 | what a run of steps, on parts and on the whole message, leaves alone |
| MediationOutside.OpOnWhole | pkg/plugin/implementation/schemaversionmediator/schemaversionmediator.go:491-500 | every object outside the message, and the message object, goes through the whole-message branch |
| Mediation.PanicsIff | pkg/plugin/implementation/schemaversionmediator/schemaversionmediator.go:491-538 | the run of steps panics exactly when the first step that does not go through is a whole-message step whose translation is null; any other such step is an error |
| Mediation.MessageDecodes | pkg/plugin/implementation/schemaversionmediator/schemaversionmediator.go:476-479 | an object is decoded as itself, null as the empty object, so that a whole-message translation stands alone, and nothing else is decoded |
| Mediator.Mediate | pkg/plugin/implementation/schemaversionmediator/schemaversionmediator.go:402-555 | a caller is answered against the manifest of its counterparty and a receiver against its own, each case spelled out with its verdict, a panic told apart from an error; the body passed on is the original, or the original with the message replaced by a complete mediation |
| MediationOutcome.OneManifestDecides | pkg/plugin/implementation/schemaversionmediator/schemaversionmediator.go:427-442 | for a caller, verdict and body passed on are the same whatever its own manifest is, and for a receiver whatever the counterparty's is, in whatever order the walk reports the objects |
| MediationOutcome.OneAnswer | pkg/plugin/implementation/schemaversionmediator/schemaversionmediator.go:419-555 | against one manifest every two runs on a printable payload, however the walk orders what it reports, give one verdict and one body |
| MediationOutcome.ManifestsDiffer | pkg/plugin/implementation/schemaversionmediator/schemaversionmediator.go:427-442 | an input where it matters: a node that supports 1.0 and a counterparty that supports 2.0 only; however the run goes, what the node sends arrives as 2.0, and what it receives stays as it is |
| MediationOutcome.SortedUnique | pkg/plugin/implementation/schemaversionmediator/schemaversionmediator.go:485-489 | the sorted order of the paths is determined by the artifacts |
| Mediator.Adapt | pkg/plugin/implementation/schemaversionmediator/schemaversionmediator.go:444-549 | once the needs are known: accepted as it is, rejected, failed by policy, a complete mediation of the body, a panic exactly when the first step that fails is a whole-message step answered with null, or an error |
| MediationExample.OutsideSendsBack | pkg/plugin/implementation/schemaversionmediator/schemaversionmediator.go:402-555 | a mediation that goes through with an object outside the message: the one inside is back at its old @context, and the message, which had none, carries the target of the other |
| MediationExample.NullPanics | pkg/plugin/implementation/schemaversionmediator/schemaversionmediator.go:497-538 | a translator that answers null for the whole message makes the mediation panic |
| MediationExample.MediationHappens | pkg/plugin/implementation/schemaversionmediator/schemaversionmediator.go:402-555 | a mediation with everything these results require does take place: one object of version 1.0, a manifest that supports 2.0 |
| MediationExample.OneMediationSettles | pkg/plugin/implementation/schemaversionmediator/schemaversionmediator.go:402-555 | and so does one with everything that one mediation being enough requires |
| Mediator.TranslateMessage | pkg/plugin/implementation/schemaversionmediator/schemaversionmediator.go:491-538 | the loop over sorted paths is the fold of the single translation steps, stopping at the first that fails |
| Mediator.TranslateSubtree | pkg/plugin/implementation/schemaversionmediator/schemaversionmediator.go:491-538 | one step: the whole message merges the translated keys into the object there was, a subtree is read, translated, given its target @context and written back |
| Mediator.NoNeedsNothingNeeded | pkg/plugin/implementation/schemaversionmediator/schemaversionmediator.go:444-450 | nothing is reported exactly when no node of the payload needs translation |
| ArtifactCache.CacheIsSound | pkg/plugin/implementation/schemaversionmediator/schemaversionmediator.go:289-326 | over every interleaving of readers, writers and expiries: entries and slots stay bounded, and every hit is the value last stored for its key when it was looked up, within its positive or negative time to live |
| ArtifactCache.StoredIsHitIff | pkg/plugin/implementation/schemaversionmediator/schemaversionmediator.go:289-310 | whatever was there before, a reader that looks after a store gets what was stored exactly while its age is within the positive or, for a remembered absence, the negative time to live |
| ArtifactCache.StepKeepsInv | pkg/plugin/implementation/schemaversionmediator/schemaversionmediator.go:289-326 | each atomic step keeps: every entry is listed, the list is bounded, every entry is the last one stored |
| ArtifactCache.SlotOrderIsArrival | pkg/plugin/implementation/schemaversionmediator/schemaversionmediator.go:289-326 | over every interleaving: the order of the current slots, the last slot of each entry, is the order in which the entries came in |
| ArtifactCache.EvictsOldestIff | pkg/plugin/implementation/schemaversionmediator/schemaversionmediator.go:314-326 | over every interleaving: storing a new key in a full cache removes the entry that came in first exactly when the first current slot carries the key of the front slot; otherwise it removes the later one that key names, or none when that is gone |
| ArtifactCache.SomeEntryCameInFirst | pkg/plugin/implementation/schemaversionmediator/schemaversionmediator.go:314-326 | whenever the cache holds anything, the entry of the first current slot is the one that came in first |
| ArtifactCache.FifoWhileNothingDropped | pkg/plugin/implementation/schemaversionmediator/schemaversionmediator.go:314-326 | in every run that removes no expired entry, storing a new key in a full cache removes exactly the entry that came in first |
| ArtifactCache.PutKeepsQueue | pkg/plugin/implementation/schemaversionmediator/schemaversionmediator.go:314-326 | while the slots are exactly the entries, each once, a store keeps it so, and takes out the entry of the front slot exactly when the key is new and the cache full, every other entry staying as it was |
| ArtifactCache.DropLeavesSlot | pkg/plugin/implementation/schemaversionmediator/schemaversionmediator.go:299-307 | only removing an expired entry ends that: its slot stays behind |
| ArtifactCache.StaleSlotEvictsNewest | pkg/plugin/implementation/schemaversionmediator/schemaversionmediator.go:314-326 | with three slots, a key that expired and was stored again is evicted, as the newest entry, before an older one |
| ArtifactCache.Cache.Get | pkg/plugin/implementation/schemaversionmediator/schemaversionmediator.go:289-310 | a hit is the unexpired last stored value; a miss removes an expired entry and changes nothing else |
| ArtifactCache.Cache.Set | pkg/plugin/implementation/schemaversionmediator/schemaversionmediator.go:314-326 | the new contents are those of the specification, and keep the invariant |
| SigningString.BothSidesAgree | pkg/plugin/implementation/signer/signer.go:30-42 | signer and validator build the same three-line or four-line string from the same inputs |
| SigningString.StringDetermines | pkg/plugin/implementation/signvalidator/signvalidator.go:256-273 | the signed string determines digest, both timestamps and the request signature; a three-line string never equals a four-line one |
| SigningString.SignedLines | pkg/plugin/implementation/signer/signer.go:30-42 | the signed text line by line, in the words of the format |
| SigningString.WindowIff | pkg/plugin/implementation/signvalidator/signvalidator.go:230-253 | accepted exactly when created is no later than now plus tolerance, to the nanosecond, and whole-second now is no later than expires; except that a creation time whose conversion overflows 64 bits counts as long past |
| SigningString.FarFutureAccepted | pkg/plugin/implementation/signvalidator/signvalidator.go:230-253 | it happens: a signature created at the largest 64-bit time is inside the window at time zero |
| AuthHeader.RequestHeaderRoundTrip | core/module/handler/step.go:127-139 | the three parsers recover from a printed request header its key IDs, algorithm, times and signature, and it declares a request signature exactly when one was bound in |
| AuthHeader.HeaderText | core/module/handler/step.go:127-139 | the printed header, attribute by attribute, in the words of the format |
| AuthHeader.NothingToFind | core/module/handler/step.go:298-353 | a header without a keyId, a headers or a signature attribute has no key, declares no request signature, and carries the empty signature |
| AuthHeader.ResponseHeaderRoundTrip | core/module/handler/responsestep.go:296-301 | the same for a response header, which always declares one |
| AuthHeader.ParseAuthHeaderLoop | pkg/plugin/implementation/signvalidator/signvalidator.go:111-153 | the loop that fills the attribute map gives the parsed header of the specification, or an error on the same inputs |
| AuthHeader.FillAttributes | pkg/plugin/implementation/signvalidator/signvalidator.go:114-124 | over the comma-separated parts, a later attribute of a name replaces an earlier one |
| AuthHeader.AttributeValue | core/module/handler/step.go:302-314 | the text after a marker up to the next quote is the value of the first attribute whose printed name ends in the marker |
| AuthHeader.AttributesHold | pkg/plugin/implementation/signvalidator/signvalidator.go:114-124 | the attribute map holds, under each name, the value printed last under that name |
| AuthHeader.KeyIdRoundTrip | core/module/handler/step.go:325-353 | a keyId of two clean IDs and the algorithm comes apart into exactly those, trimmed |
| PayloadStore.KeysDiffer | pkg/plugin/implementation/payloadstore/payloadstore.go:112-118 | keys of different messages, different transactions, and of a message and a transaction never coincide |
| PayloadStore.MessageSlot | pkg/plugin/implementation/payloadstore/payloadstore.go:276-304 | after any run a message's slot holds what its last store recorded, for the entry TTL |
| PayloadStore.ByMessageIsLastStore | pkg/plugin/implementation/payloadstore/payloadstore.go:362-376 | a message is found by ID exactly while its last store is within the TTL and the action asked for matches or is empty |
| PayloadStore.ReturnedWasKept | pkg/plugin/implementation/payloadstore/payloadstore.go:276-304 | what a lookup by message returns is the message last stored under that ID, with the body the policy keeps, cut at the size limit, the header if headers are kept, the time it was stored and the time one TTL later, which has not come |
| PayloadStore.ListedWereKept | pkg/plugin/implementation/payloadstore/payloadstore.go:276-359 | after any run at all, so is everything a lookup by transaction returns, of some store |
| PayloadStore.TransactionAgreesWithLog | pkg/plugin/implementation/payloadstore/payloadstore.go:335-359 | after every run with distinct message IDs, at any later time, a transaction's entries are exactly those stored under it within the last TTL, in store order, without duplicates; messages without a transaction are not indexed |
| PayloadStore.IndexAfterRun | pkg/plugin/implementation/payloadstore/payloadstore.go:306-332 | the index slot lists a final part of the transaction's stores, every earlier one having outlived its TTL when the last came |
| PayloadStore.AppendExtends | pkg/plugin/implementation/payloadstore/payloadstore.go:306-332 | appending goes on with a live list and starts anew with an expired one, with a fresh index TTL either way |
| PayloadStore.StoredIsListedIff | pkg/plugin/implementation/payloadstore/payloadstore.go:306-332 | from any cache at all: a stored entry is returned with its transaction throughout its TTL exactly when its ID was not in the live index yet, or that index outlives the entry; a repeated ID does not refresh the index |
| PayloadStore.RestoredIsLost | pkg/plugin/implementation/payloadstore/payloadstore.go:306-332 | it happens: a message stored again within its TTL is found by its ID but no longer with its transaction once the first index has expired |
| PayloadStore.EntriesStayOwnIff | pkg/plugin/implementation/payloadstore/payloadstore.go:306-332 | from a cache whose live entries under a transaction are all its own: they still are, throughout the TTL of a message stored under another transaction, exactly when that message's ID is not in the first one's live index |
| PayloadStore.MovedStaysListed | pkg/plugin/implementation/payloadstore/payloadstore.go:306-332 | a message stored again under another transaction is still returned with the first, as the entry of the second |
| PayloadStore.Store.Put | pkg/plugin/implementation/payloadstore/payloadstore.go:243-267 | a message with an ID adds one store to the run, one without adds nothing |
| PayloadStore.Store.Persist | pkg/plugin/implementation/payloadstore/payloadstore.go:276-304 | applies the body, signature and size policies, stamps both times and updates entry and index as specified |
| PayloadStore.Store.AppendToIndex | pkg/plugin/implementation/payloadstore/payloadstore.go:306-332 | scans the listed IDs and appends only a new one |
| PayloadStore.Store.GetByTransactionID | pkg/plugin/implementation/payloadstore/payloadstore.go:335-359 | the loop returns the live entries in index order, which are those of the log |
| PayloadStore.Store.GetByMessageID | pkg/plugin/implementation/payloadstore/payloadstore.go:362-376 | returns the entry of the last store in the log, under the condition of ByMessageIsLastStore |
| CallbackSigning.ChecksAsSigned | core/module/handler/step.go:259-284 | under ideal signatures, inside the window, a signature made for one body digest and request signature checks against exactly those |
| CallbackSigning.SignerReadsLog | core/module/handler/step.go:103-121 | the signer binds in exactly the header its log says is live for the request, and only to a callback |
| CallbackSigning.VerifierReadsLog | core/module/handler/step.go:236-253 | the checking side expects a given request signature exactly when the header declares one, it speaks version 2 and its log says that one is live |
| CallbackSigning.CallbackAcceptedIff | core/module/handler/step.go:46-284 | over any two runs of stores: an unmodified call inside its window is accepted exactly when the signer had no live header, or the checking side, at version 2, holds the same live header; in particular a callback below version 2 whose signer holds a live header is refused, as is the action on_ itself |
| CallbackSigning.AtLeastV2Iff | pkg/model/model.go:115-130 | for every 64-bit number and whatever follows a dot after it, the version counts as at least 2 exactly when the number is |
| CallbackSigning.NoNumberIsNoV2 | pkg/model/model.go:115-130 | an empty version, and one that does not start with a number, does not |
| CallbackSigning.AcceptedAtV2 | core/module/handler/step.go:46-284 | it happens: the same callback is accepted at version 2.0.0 |
| CallbackSigning.RefusedBelowV2 | core/module/handler/step.go:46-284 | it happens: a callback to a request both sides hold, signed and checked at once at version 1.1.0, is refused |
| CallbackSigning.AnyHeaderAcceptedIff | core/module/handler/step.go:259-284 | a header made by anyone that carries a signature of a digest, two times and a request signature is accepted exactly when it is presentable, prints those times, and the body and the expected request signature are those; its other attributes are not signed and change nothing |
| CallbackSigning.SentCarries | core/module/handler/step.go:64-139 | the header a known signer sends is such a header |
| CallbackSigning.SignatureFitsOne | core/module/handler/step.go:259-284 | whatever two headers carry one signature of one key, if both are accepted the times, the body digest and the expected request signature are the same |
| CallbackSigning.CallbackAcceptedWhileBothHold | core/module/handler/step.go:64-284 | with one request stored on both sides, its callback is accepted exactly when the signer's copy had expired on signing or the checking side's copy is still live |
| CallbackSigning.StoredCallbackHidesRequest | pkg/plugin/implementation/payloadstore/payloadstore.go:362-376 | storing the callback under its own action hides the header of the request it answers |
| CallbackSigning.ResponseBoundToRequest | core/module/handler/responsestep.go:211-223 | a signed response verifies against exactly the request it was made for: same response digest, and a request of the same digest, times and bound signature |
| CallbackSigning.IdealExists | pkg/plugin/implementation/signer/signer.go:45-58 | the ideal signature scheme assumed above exists |
| Scheduler.EveryRunKeepsInv | pkg/plugin/implementation/catalogcrawler/scheduler.go:93-166 | every interleaving keeps: the mutex is exclusive, the wait group counts exactly the launched or about to be launched and unfinished goroutines, each goroutine belongs to a call that counted it, and a waiting Stop has cancelled the current context |
| Scheduler.CountKept | pkg/plugin/implementation/catalogcrawler/scheduler.go:116-166 | each step changes the wait group by what it changes the set of unfinished goroutines |
| Scheduler.StopReturnsDrained | pkg/plugin/implementation/catalogcrawler/scheduler.go:116-123 | in any run at all, when a Stop's wait returns every RunOnce that was accepted has its function finished, none is between counting and launching, and every completed Start has had its context cancelled |
| SchedulerAccepts.DecidedByWhatItSaw | pkg/plugin/implementation/catalogcrawler/scheduler.go:134-147 | in any run: a call that is let in or turned away looked at the context once, and was turned away exactly when no context was set or the last one set was cancelled at that moment |
| SchedulerAccepts.NoneRefused | pkg/plugin/implementation/catalogcrawler/scheduler.go:93-147 | once a Start has come back, and while nothing is cancelled, no call that begins then is ever refused, whatever else is called |
| SchedulerAccepts.CancellingCloses | pkg/plugin/implementation/catalogcrawler/scheduler.go:116-147 | after a Stop has cancelled, or the parent of the current context has been, there is no live context for a call to see |
| SchedulerAccepts.EveryCallCanRun | pkg/plugin/implementation/catalogcrawler/scheduler.go:134-147 | while the context is live and no Stop is in its critical section, every call that has begun and is not turned away can go on to be accepted with its function running, whoever holds the lock |
| SchedulerAccepts.NewCallIsRun | pkg/plugin/implementation/catalogcrawler/scheduler.go:134-147 | with the lock free and the context live, a call that begins can be accepted at once |
| SchedulerAccepts.FunctionRuns | pkg/plugin/implementation/catalogcrawler/scheduler.go:93-147 | it happens: a run from the initial state in which a function runs |
| SchedulerAccepts.StartLaunchesThree | pkg/plugin/implementation/catalogcrawler/scheduler.go:93-113 | a Start that has come back has launched three loops, no more and no fewer |
| SchedulerAccepts.LoopRunsAgain | pkg/plugin/implementation/catalogcrawler/scheduler.go:150-166 | a loop whose function has returned can run it again, and can leave exactly when its context is cancelled |
| Scheduler.StoppedIffNoStartPending | pkg/plugin/implementation/catalogcrawler/scheduler.go:93-147 | after that Stop nothing runs and no RunOnce is accepted, whatever is called but Start, exactly when no Start was still under way; a Start racing the Stop launches its loops afterwards |
| Scheduler.QuietStays | pkg/plugin/implementation/catalogcrawler/scheduler.go:116-147 | once quiet, every run without a new Start stays quiet |
| Scheduler.PendingStartLaunches | pkg/plugin/implementation/catalogcrawler/scheduler.go:93-102 | a Start still under way can go on after the Stop and run a function: the run that shows it |
| Scheduler.StartOutlivesStop | pkg/plugin/implementation/catalogcrawler/scheduler.go:93-123 | it happens: a Start that has released its lock, a Stop that finds nothing to wait for, and loops after it |
| SchedulerDrain.DrainableIff | pkg/plugin/implementation/catalogcrawler/scheduler.go:93-123 | a Stop that waits can come back, short of a parent context being cancelled, exactly when every Start that has counted a loop is cancelled |
| SchedulerDrain.StrandedNeverDrains | pkg/plugin/implementation/catalogcrawler/scheduler.go:93-123 | once a later Start has taken the place of one that counted a loop and was not cancelled, no Stop returns from its wait in any run in which that one's parent context lives |
| SchedulerDrain.StopHangs | pkg/plugin/implementation/catalogcrawler/scheduler.go:93-123 | it happens: after two Starts a Stop waits and cannot come back |
| Scheduler.WaitOnlyShrinks | pkg/plugin/implementation/catalogcrawler/scheduler.go:105-123 | while a Stop waits and no Start is under way the wait group never grows |
| AuditWalk.MaskIdempotent | pkg/telemetry/pii_mask.go:16-45 | masking a masked value changes nothing |
| AuditWalk.WalkIsExpected | pkg/telemetry/audit_fields.go:299-344 | at every address the walked tree holds what a declarative reading of the path says: dropped, masked, or kept, independently of any order |
| AuditWalk.MaskedAtEveryDepth | pkg/telemetry/audit_fields.go:303-307 | a surviving field with a mask key for its name is masked, at any depth, inside any arrays; what a mask leaves to be read is WalkShowsNoMore |
| AuditWalk.WalkShowsNoMore | pkg/telemetry/pii_mask.go:20-46 | at every address the walk leaves: under a last4 pattern, by name or by path, a text of the old length with all but its last four characters starred, all of them if there are no more than four; under any other pattern its mask text, or [MASKED] if that is empty; a field without a pattern keeps its scalar |
| AuditWalk.RecordedIff | pkg/telemetry/audit_fields.go:250-280 | a record holds an address exactly when the payload does, nothing above it is masked or left out of the selection for the stated action, or else the default one, and it is itself masked or selected |
| AuditWalk.RecordShowsNoMore | pkg/telemetry/pii_mask.go:20-46 | what WalkShowsNoMore says, of a whole record |
| AuditWalk.SurvivorsAreSelected | pkg/telemetry/audit_fields.go:309-321 | under a selection every other surviving field is in the keep set or masked by its path |
| AuditWalk.FullModeKeepsAll | pkg/telemetry/audit_fields.go:246-267 | without a selection exactly the insides of masked values are lost |
| AuditWalk.WalkIdempotent | pkg/telemetry/audit_fields.go:299-344 | walking the result again with the same keep set changes nothing |
| AuditWalk.KeepSet | pkg/telemetry/audit_fields.go:226-236 | the keep set is exactly the listed paths and all their dot-ancestors |
| AuditWalk.BuildKeepSet | pkg/telemetry/audit_fields.go:226-236 | the nested loops over fields and joined parts build exactly that set |
| AuditWalk.JoinedPartsAreAncestors | pkg/telemetry/audit_fields.go:230-233 | the first parts of a path joined again stand before one of its dots |
| AuditWalk.AncestorsAreJoinedParts | pkg/telemetry/audit_fields.go:230-233 | whatever stands before a dot is such a join |
| AuditWalk.ListedFieldSurvives | pkg/telemetry/audit_fields.go:299-331 | a listed field that is present, with nothing masked above it, survives: masked if a mask applies, else as the walk leaves it, which for a scalar is unchanged |
| AuditWalk.ProcessTwice | pkg/telemetry/audit_fields.go:246-281 | processing twice is processing once, provided the action that chose the selection is itself selected and unmasked |
| AuditInPlace.WalkKey | pkg/telemetry/audit_fields.go:300-329 | one key in place: masked, deleted or walked below, all other keys as they were |
| AuditInPlace.WalkMap | pkg/telemetry/audit_fields.go:299-331 | in place, visiting the keys in any order, the heap ends holding the walked tree |
| AuditInPlace.WalkSlice | pkg/telemetry/audit_fields.go:335-344 | the same for the elements of an array, which is not itself assigned to |
| AuditInPlace.WalkedModel | pkg/telemetry/audit_fields.go:299-344 | the tree left in the heap stands for the walked JSON value |
| AuditInPlace.ProcessAuditPayload | pkg/telemetry/audit_fields.go:246-281 | decoding, walking in place and encoding gives the processed payload, which at every address shows no more than the masks let through, their text, last four characters or [MASKED]; a body that is no object is left as it is |
| AuditInPlace.ActionOf | pkg/telemetry/audit_fields.go:285-292 | reads the trimmed action off the decoded tree, empty on any type mismatch |
| JsonHeap.Decode | pkg/telemetry/audit_fields.go:256-260 | unmarshalling builds a tree of new objects, none occurring twice, that stands for the body |
| JsonHeap.Read | pkg/telemetry/audit_fields.go:272-280 | marshalling reads back the JSON value the tree stands for |
| DediLookup.CacheKeyInjective | pkg/plugin/implementation/dediregistry/dediregistry.go:497-499 | no two subscriber and key pairs share a cache key, whatever characters the IDs hold |
| DediLookup.EscapePath | pkg/plugin/implementation/dediregistry/dediregistry.go:144-150 | escaping segment by segment keeps the segmentation and escapes each segment |
| DediLookup.ValidPath | pkg/plugin/implementation/dediregistry/dediregistry.go:133-140 | true exactly when every segment between slashes is valid |
| DediLookup.EscapedDotSegments | pkg/plugin/implementation/dediregistry/dediregistry.go:124-150 | an escaped segment is empty or a dot segment only if the segment itself was, so a valid path never normalises to another one |
| DediLookup.EscapedPathDetermines | pkg/plugin/implementation/dediregistry/dediregistry.go:144-150 | different IDs have different escaped paths |
| DediLookup.EncodingExists | pkg/plugin/implementation/dediregistry/dediregistry.go:144-150 | the byte encoding assumed exists: UTF-8, section 3 of RFC 3629, is injective and leaves ASCII alone |
| DediLookup.ContainsAny | pkg/plugin/implementation/dediregistry/dediregistry.go:809-826 | true exactly when the two lists share a non-empty entry |
| DediLookup.ValidateMemberships | pkg/plugin/implementation/dediregistry/dediregistry.go:831-866 | the two checks in order give the specified verdict, with the exemption of network-agnostic subscribers |
| DediLookup.GivesKeysIff | pkg/plugin/implementation/dediregistry/dediregistry.go:539-622 | keys are given exactly when both IDs are usable, the registry has a record of the subscriber with a signing key, and its networks are in order for the request; they are those of the record |
| DediLookup.FirstObjectionIsStated | pkg/plugin/implementation/dediregistry/dediregistry.go:539-622 | a rejection states an objection that there is, and of several the first in the order of the checks |
| DediLookup.SegmentIsUsableIff | pkg/plugin/implementation/dediregistry/dediregistry.go:128-130 | an ID is usable exactly when it is not all white space and no dot segment |
| DediLookup.HitIsUncached | pkg/plugin/implementation/dediregistry/dediregistry.go:511-558 | a cache hit gives the keys and the verdict, for this request's own network, that the lookup without a cache would |
| DediLookup.CachedAgreesWithUncached | pkg/plugin/implementation/dediregistry/dediregistry.go:539-621 | from an empty cache, in any interleaving of stores, losses and garbled slots, every hit is the uncached answer of a registry with fixed answers |
| DediLookup.StoredAnswersNext | pkg/plugin/implementation/dediregistry/dediregistry.go:511-622 | hits there are: a stored lookup answers the next one for the same keys, whatever network that is for, as the registry would have |
| DediLookup.DeDiRegistryClient.Lookup | pkg/plugin/implementation/dediregistry/dediregistry.go:539-621 | the whole lookup, hit or miss, with or without a cache, returns the uncached outcome and keeps the cache sound |
| UrlText.UnescapeEscape | pkg/plugin/implementation/dediregistry/dediregistry.go:497-499 | percent-encoding, section 2.1 of RFC 3986, is undone by decoding |
| UrlText.PathEscapeInjective | pkg/plugin/implementation/dediregistry/dediregistry.go:497-499 | and so no two strings are encoded alike |
| Router.Router.ValidateRules | pkg/plugin/implementation/router/router.go:166-203 | accepts exactly the lists whose every rule is valid |
| RouterAnswers.RuleIsValidIff | pkg/plugin/implementation/router/router.go:166-203 | a rule is valid exactly when it has a version, a domain unless that version starts with 2., one of the six targets, and the URL or publisher that its target needs |
| Router.Router.BuildRoute | pkg/plugin/implementation/router/router.go:113-145 | a new route per endpoint, with the target's path joined unless excluded |
| Router.Router.LoadRules | pkg/plugin/implementation/router/router.go:79-163 | succeeds exactly when every rule is valid and no version 2 endpoint is listed twice, whatever the domains; the nested maps then agree with the list of rules |
| Router.Router.AddEndpoint | pkg/plugin/implementation/router/router.go:111-158 | files one endpoint and refuses a version 2 endpoint that is already there; every other entry keeps agreeing |
| Router.FiledAgrees | pkg/plugin/implementation/router/router.go:111-158 | filing a route keeps the index in agreement with the last listing for every domain, version and endpoint |
| Router.V2ListingIsUnique | pkg/plugin/implementation/router/router.go:149-154 | under version 2 the last listing is the only one, whatever the order of rules |
| Router.Router.RouteBody | pkg/plugin/implementation/router/router.go:222-297 | answers as the last rule listing the endpoint says, and modifies no stored route, URL or rule |
| RouterAnswers.RequestGoesByItsRule | pkg/plugin/implementation/router/router.go:222-297 | of valid rules a request goes by the last that answers for its version, endpoint and, below version 2, its domain: to the URL of the rule, to its publisher, or to the URI the request names for the receiver or the sender under one of three keys, else the configured one; nowhere if no rule answers |
| RouterAnswers.BodylessGoesByItsRule | pkg/plugin/implementation/router/router.go:312-338 | a version 2 rule answers a bodyless request with its URL or publisher, and not for a participant |
| RouterAnswers.LastOfRules | pkg/plugin/implementation/router/router.go:79-163 | the last listing of an endpoint is that of the last rule that answers for it |
| Router.Router.HandleProtocolMapping | pkg/plugin/implementation/router/router.go:356-380 | the request's URI if there is one, else the configured URL, with the query forwarded on a copy |
| Router.Router.RouteBodyless | pkg/plugin/implementation/router/router.go:312-338 | answers from the first version, in the map's order, that lists the endpoint, and modifies nothing |
| Router.FirstListed | pkg/plugin/implementation/router/router.go:318-337 | every order gives the answer of some version that lists the endpoint, and none only when none does |
| Router.OrderIrrelevantIff | pkg/plugin/implementation/router/router.go:318-337 | the bodyless answer is independent of the map's order exactly when all versions that list the endpoint answer alike |
| Router.VersionsDisagree | pkg/plugin/implementation/router/router.go:312-338 | it happens: two valid rules, loaded together, that list one endpoint under two version 2 numbers with different URLs |
| SchemaCache.CacheIsSound | pkg/plugin/implementation/schemav2validator/extended_schema.go:250-313 | over every sequence of operations the size stays within the maximum, or one if that is less, and a hit is the schema last stored for its key, unexpired |
| SchemaCache.StoredIsServedIff | pkg/plugin/implementation/schemav2validator/extended_schema.go:250-292 | into whatever cache it is put, a schema is served exactly until its time to live is over |
| SchemaCache.EvictedIsLeastRecentlyUsed | pkg/plugin/implementation/schemav2validator/extended_schema.go:271-283 | what is evicted was used last no later than all the rest, and at least the maximum size minus one others have been used since or at the same time |
| SchemaCache.SizeAfterStore | pkg/plugin/implementation/schemav2validator/extended_schema.go:267-292 | the exact size after a store; replacing an entry of a full cache evicts one all the same |
| SchemaCache.StepKeepsInv | pkg/plugin/implementation/schemav2validator/extended_schema.go:250-313 | each operation keeps bounds, contents and access times in agreement with the log |
| SchemaCache.Cache.Lookup | pkg/plugin/implementation/schemav2validator/extended_schema.go:250-264 | returns an unexpired schema and updates its access time and count, else changes nothing |
| SchemaCache.Cache.Oldest | pkg/plugin/implementation/schemav2validator/extended_schema.go:272-279 | the scan in any order finds an entry with minimal access time |
| SchemaCache.Cache.Store | pkg/plugin/implementation/schemav2validator/extended_schema.go:267-292 | evicts at most one least recently used entry and stores the new one |
| SchemaCache.Cache.CleanupExpired | pkg/plugin/implementation/schemav2validator/extended_schema.go:295-313 | removes exactly the expired entries and returns how many |
| ActionIndex.UnionIff | pkg/plugin/implementation/schemav2validator/schemav2validator.go:241-310 | without collisions the merged index gives an action exactly the schema of the one spec that defines it |
| ActionIndex.OneMoreSpec | pkg/plugin/implementation/schemav2validator/schemav2validator.go:275-292 | one more spec is free of collisions exactly when it is disjoint from the merged index |
| ActionIndex.OrderIrrelevant | pkg/plugin/implementation/schemav2validator/schemav2validator.go:241-310 | the order of the specs matters neither to whether they collide nor to what they merge to |
| ActionIndex.FileOrderIrrelevant | pkg/plugin/implementation/schemav2validator/schemav2validator.go:423-470 | nor does the order of a directory's files |
| ActionIndex.AuxiliaryOrderIrrelevant | pkg/plugin/implementation/schemav2validator/schemav2validator.go:264-310 | nor that of the auxiliary specs, for the outcome of a whole load |
| ActionIndex.VisibleIsOneLoad | pkg/plugin/implementation/schemav2validator/schemav2validator.go:298-302 | after every run of loads and reloads both visible maps come from the one last successful load |
| ActionIndex.ReloadDropsUnreadableFile | pkg/plugin/implementation/schemav2validator/schemav2validator.go:442-447 | a file of a directory that stops loading does not fail a reload: its actions drop out of the index |
| ActionIndexLosses.DirectoryKeepsIff | pkg/plugin/implementation/schemav2validator/schemav2validator.go:423-470 | a directory some of whose files no longer load gives the same actions exactly when every spec file with an action in it still loads |
| ActionIndexLosses.ReloadKeepsIndexIff | pkg/plugin/implementation/schemav2validator/schemav2validator.go:511-517 | for a primary source and any auxiliaries that lose files or fail: after a successful load a reload keeps the visible index exactly when some source no longer loads, nothing at all is left, or every spec file with an action still loads |
| ActionIndexLosses.CollidingLoadFailsIff | pkg/plugin/implementation/schemav2validator/schemav2validator.go:241-310 | collisions counted over all files of all sources: a colliding load fails exactly when it is a reload, the primary source does not load, two sources that load collide, or nothing that loads has an action |
| ActionIndexLosses.StartupSkipsCollision | pkg/plugin/implementation/schemav2validator/schemav2validator.go:264-274 | a document and an auxiliary directory of two files that define the same action: startup succeeds on the document alone, a reload fails |
| ActionIndex.Merge | pkg/plugin/implementation/schemav2validator/schemav2validator.go:275-292 | adds both maps action by action; fails exactly on a collision in either |
| ActionIndex.LoadSpecFromDir | pkg/plugin/implementation/schemav2validator/schemav2validator.go:423-470 | the union of the spec files that load, or an error exactly when two of them collide |
| ActionIndex.SpecFileIff | pkg/plugin/implementation/schemav2validator/schemav2validator.go:435-443 | a spec file is an entry, no directory, whose name ends in .yaml, .yml or .json |
| ActionIndex.MergeAll | pkg/plugin/implementation/schemav2validator/schemav2validator.go:241-292 | primary, then auxiliaries: fails exactly when one that has to load does not, or two collide |
| ActionIndex.Validator.LoadAllSpecs | pkg/plugin/implementation/schemav2validator/schemav2validator.go:241-310 | commits both maps of a successful load together; a failed load leaves both exactly as they were |
| ActionIndex.Validator.ReloadAllSpecs | pkg/plugin/implementation/schemav2validator/schemav2validator.go:511-517 | a failed reload, auxiliary failures included, keeps the previous index |
| ActionIndex.Validator.SchemaOf | pkg/plugin/implementation/schemav2validator/schemav2validator.go:168-182 | an action with a body is looked up in the visible index |
| ActionIndex.Validator.SupportsBodyless | pkg/plugin/implementation/schemav2validator/schemav2validator.go:134-158 | and one without a body in its set |

## Left out

- Paths.Set: the value-level write beside `PathsInPlace.SetAtPath`; the mediator is proved over values, so its sharing of decoded subtrees between steps is not modelled.
- PayloadWalk.WalkPayload: the order of map keys is arbitrary but fixed by the choice made; skipped nodes are pairs of path and context instead of their printed text.
- Mediator.Mediate: error texts, logging and the fetching of manifests and artifacts over HTTP are results passed in; number precision lost in re-encoding JSON is not modelled.
- UrlText.UrlPath: user information and host syntax are one parameter, `acceptsHost`.
- CallbackSigning.Accepts: the gateway header that is checked first when present is not modelled; it takes the three-line path without an identity check.
- CallbackSigning.Ideal: cryptographic strength is assumed, not proved.
- PayloadStore.Store: concurrent writers to one transaction's index, which the code documents as racing, and failing cache operations while storing are not modelled.
- Scheduler.Do: ticker timing is not modelled, a sleeping loop may tick at any moment; what the ticks do, `syncTick` included, belongs to a library that is not part of this model. Termination of the functions passed in is not claimed, and a function that itself calls RunOnce while a Stop waits is outside the run rules.
- AuditWalk.Process: loading and compiling the YAML configuration; a body that does not parse is emitted as it is.
- DediLookup.Uncached: HTTP, response parsing and the other registry calls are one answer per subscriber and key; the registry's answers do not change during a run.
- Router.Router: reading the YAML file; error texts.
- SchemaCache.Cache: the preloaded raw schemas and the loading chain around the cache.
- ActionIndex.Validator: OpenAPI parsing, schema validation and the refresh timer.
- Redis, RabbitMQ, Vault, OPA, JSON Schema, JSONata and OpenTelemetry are engines outside this model.
- Step ordering in the handler, plugin loading, metrics and command entry points would only add single-branch members.
