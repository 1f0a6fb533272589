# A Dafny model of the UniFi provider's configuration and generated code

The provider (an Upjet provider for UniFi controllers) has three places where a small amount of code has to get a
lot right. This project models them and proves what they are for.

**1. The write-only description rewriter** (`config/write_only.go`). While ranging over a map of schemas, in
whatever order the map yields, it overwrites the description of every write-only attribute `x_wo` and version
counter `x_wo_version`, and drops from the description of `x` the sentences that advise to use `x_wo`. One visit may
write two entries, and in a chain `x`, `x_wo`, `x_wo_wo` an entry is overwritten by one visit and filtered by
another. The main theorem is that every visiting order at every depth ends in the one tree a pointwise
specification describes, also where a nested resource hangs off several attributes and is rewritten several times.

| file | content |
|---|---|
| `GoStrings.dfy` | the functions of package `strings` that are used, as defined by what they find |
| `Sentences.dfy` | `withoutSentencesNaming`: a loop proved against a sentence-by-sentence definition |
| `Naming.dfy`, `English.dfy` | the name tests and the generated texts |
| `Levels.dfy` | schema trees as values: one visit, any schedule of visits, the specification, confluence |
| `Descriptions.dfy` | the rules of `Naming` and `Sentences` put into `Levels`, and the resulting guarantees |
| `WriteOnly.dfy` | the rewriter on a heap of schema objects, visiting in an arbitrary order |
| `Sharing.dfy` | what happens to a level in which two names lead to one schema object |

**2. Reference resolution** (`zz_generated.resolvers.go` of device and firewall). A long list of statements, some in
loops over port overrides and some behind nil guards, each of which asks a resolver and stores its answer, until one
fails.

| file | content |
|---|---|
| `Slots.dfy` | resolution as a machine over named slots: exact prefixes, order, repeated attempts |
| `References.dfy`, `RepeatedResolution.dfy` | one slot, the resolver as a parameter, and convergence |
| `Snapshots.dfy` | an example resolver, which reads from a snapshot of the API server, and attempts made while objects appear |
| `DeviceValues.dfy`, `DeviceResolution.dfy`, `DeviceProgress.dfy` | the slots of a Device in code order, the guarantees, and what each statement does |
| `PolicyResolution.dfy`, `PolicySnapshots.dfy` | the same for the nil-guarded blocks of a firewall Policy |
| `SlotMemory.dfy`, `Policies.dfy`, `Devices.dfy` | the objects that are resolved in place |

**3. Deep copies** (`zz_generated.deepcopy.go` of device). Every function begins with `*out = *in`, which shares
everything, and then replaces one pointer after another.

| file | content |
|---|---|
| `Memory.dfy`, `DeviceMemory.dfy` | pointers, slices and structures, their values and the multiset of their targets |
| `DeepCopy.dfy`, `Devices.dfy` | the copies; no two pointer slots of a copy lead to the same object and all of them are new |

`ExternalNames.dfy` models the list of manually configured resources (`config/external_name.go`): filled in map order,
and matched as patterns that are anchored at the end only.

`Wrappers.dfy` holds `Option` and `Result`.

Convergence of repeated attempts is proved for any resolvers that, on the slots of the object at hand, fail or give the
answer of the single successful call. `Snapshots.dfy` follows it with resolvers that read from snapshots of the API
server and never change an answer. There it can fail: a slot drifts if an early snapshot fills it otherwise than the
last one. When objects are only added, that happens to selectors alone, and both to single slots (the first match is
another one) and to lists (the matches are others). `Snapshots.DeviceConvergesAsObjectsAppear` gives the exact
condition for any number of attempts, and `SlotDrifts` and `ListDrifts` give devices that end differently.

Two documented intentions are met only on a condition, which the model states exactly. The advice to use a
write-only attribute is removed unless that attribute's name contains a full stop followed by a space
(`Sentences.FilteredStillNames`, `Descriptions.AdviceRemoved`); Terraform attribute names never do. The pattern list
is commented as matching exact names, but also accepts names that end in a configured one
(`ExternalNames.AcceptedNames`).

## Model

| member | source | states |
|---|---|---|
| GoStrings.CutSuffix | config/write_only.go:73 | a suffix is cut off exactly if the string is some rest followed by it, and then that rest is the result |
| GoStrings.Before | config/write_only.go:143 | the part before the first separator; absent exactly if there is no separator |
| GoStrings.SplitAfterIsSplit | config/write_only.go:138 | the pieces join to the original, every piece but the last ends with the only separator in it, and the last has none |
| GoStrings.SplitAfterUnique | config/write_only.go:138 | no other list of pieces does that |
| GoStrings.TrimSpaceContains | config/write_only.go:144-147 | trimming neither adds nor removes an occurrence of a text that begins and ends with something other than space |
| GoStrings.SpacesAre | config/write_only.go:144-147 | which characters are white space |
| Sentences.WithoutSentencesNaming | config/write_only.go:132-148 | the loop computes the filter: a description that does not name the attribute stays, any other becomes its surviving sentences without the white space around them; the result names the attribute only if the name hides a sentence stop; otherwise a description that named it gets strictly shorter |
| Sentences.FilteredTrims | config/write_only.go:133-147 | the filter keeps one stretch of the surviving text, drops white space only, and leaves none at the ends |
| Sentences.SentencesStay | config/write_only.go:137-147 | every sentence that does not name the attribute is still in the result, trimmed, and in its order |
| Sentences.Example | config/write_only.go:132-148 | one description with a sentence that stays and one that is cut at its dash |
| Sentences.JoinedKept | config/write_only.go:138-147 | splitting, selecting and joining pieces equals going through the text sentence by sentence |
| Sentences.SentenceVerdict | config/write_only.go:139-145 | a sentence anywhere in a description, the last one included, is kept verbatim, reduced to its clean clause before the first em dash, or dropped, and what surrounds it is treated as if it were not there |
| Sentences.SentencesIndependent | config/write_only.go:139-145 | what is kept on one side of a sentence stop does not depend on the other side |
| Sentences.NoStraddle | config/write_only.go:146-147 | no occurrence of a backticked name is created or lost across the join of two sentences |
| Sentences.SurvivorsClean | config/write_only.go:138-147 | for a name without a sentence stop nothing that is kept names it |
| Sentences.FilteredStillNames | config/write_only.go:132-148 | the advice is still there if and only if it was there and the name contains a sentence stop |
| Sentences.StopInNameEscapes | config/write_only.go:132-148 | a description and a name with a sentence stop for which the advice stays |
| Sentences.EarlyReturnAgrees | config/write_only.go:134-136 | the early return gives what the loop would have kept, untrimmed |
| Sentences.FilteredShrinks | config/write_only.go:133-147 | the result is never longer, and strictly shorter if a name without a sentence stop was there |
| Sentences.FilteredIdempotent | config/write_only.go:132-148 | filtering twice by a name is filtering once |
| Naming.WriteOnlyBaseIff | config/write_only.go:72-81 | a name is write-only for a base exactly if it is the base with `_wo` and the base is a non-empty sibling |
| Naming.WriteOnlyVersionBaseIff | config/write_only.go:86-98 | a name is a version counter for a base exactly if it is the base with `_wo_version` and both base and `_wo` form are siblings |
| Naming.ClassesDisjoint | config/write_only.go:57-63 | no name is both |
| Naming.BasesInjective | config/write_only.go:61-66 | a base is filtered by at most one sibling |
| Naming.ApiFieldName | config/write_only.go:103-109 | the API field is the camel-cased name, changed exactly if the attribute is sensitive, and then by the secret suffix; it has no underscore, and no backtick unless the name has one |
| Naming.TextNamesNoLonger | config/write_only.go:111-126 | a text made of three phrases around two backticked names does not name any write-only attribute longer than the first |
| Naming.TextNamesExactly | config/write_only.go:111-126 | a text made of three phrases around two backticked names names these two, the phrase between them, and nothing else |
| Naming.WriteOnlyTextStable | config/write_only.go:65-66 | the text of a write-only attribute is not changed by the filter of its own write-only form |
| Naming.VersionTextStable | config/write_only.go:58 | nor is the text of a version counter |
| Naming.WriteOnlyStretches | config/write_only.go:111-117 | split at its backticks, the text of a write-only attribute is its opening, the base, its note, the API field and its closing |
| Naming.VersionStretches | config/write_only.go:122-126 | split at its backticks, the text of a version counter is its opening, the write-only form, its note, the API field and its closing |
| English.AdviceRemovedInEnglish | config/write_only.go:111-126 | with the provider's own wording, no attribute at any depth of the final tree advises to use its write-only form |
| Levels.VisitStep | config/write_only.go:53-67 | a visit of an unvisited attribute, in any state reached by visiting others, leads to the state that the set of visited names determines, whichever came first |
| Levels.AnyOrder | config/write_only.go:52-68 | every complete schedule, with its own order for every map at every depth, ends in the specified tree |
| Levels.OrderIrrelevant | config/write_only.go:52-68 | any two schedules end in the same tree |
| Levels.Idempotent | config/write_only.go:52-68 | the specified tree is its own specification |
| Levels.RewrittenAtDepth | config/write_only.go:54-56 | a level at the end of a path through nested resources is rewritten exactly as if it were the root, and no path appears or goes away |
| Levels.RunIs | config/write_only.go:53-56 | a run is one visit after the other, each after the run of its nested resource |
| Levels.SomeScheduleComplete | config/write_only.go:53 | every tree has a complete schedule |
| Descriptions.ClassifyWriteOnly | config/write_only.go:57-64 | which names take the write-only branch; the lookup of their base always hits |
| Descriptions.OwnTextStable | config/write_only.go:65-66 | overwriting and filtering the same entry commute |
| Descriptions.RulesSound | config/write_only.go:57-66 | the name tests, texts and filter have what confluence needs, for any attribute names |
| Descriptions.DescribeWriteOnlyConfluent | config/write_only.go:52-68 | every visiting order at every depth ends in the same tree, the specified one |
| Descriptions.FinalDescription | config/write_only.go:52-68 | every attribute at any depth ends with the version text, else the write-only text, else its original text filtered by `<name>_wo` if that sibling exists, else its original text; names and `Sensitive` stay |
| Descriptions.CounterSays | config/write_only.go:57-60 | a name that is a base with `_wo_version`, where base and `_wo` form are siblings, ends with the version text for that form and the field of the base, at any depth |
| Descriptions.WriteOnlySays | config/write_only.go:61-65 | a name that is a base with `_wo`, where the base is a sibling, ends with the write-only text for the base and its field, at any depth |
| Descriptions.BaseSays | config/write_only.go:66 | any other name with a `_wo` sibling keeps all its sentences that do not name the sibling, in order, and its whole description if none does, at any depth |
| Descriptions.OthersStay | config/write_only.go:61-64 | any other description stays, at any depth |
| Descriptions.SchemaElementsUntouched | config/write_only.go:54 | what hangs off an attribute other than through a nested resource stays as it was |
| Descriptions.AdviceRemoved | config/write_only.go:65-66 | at any depth of the final tree a base names its write-only form if and only if it has no generated text of its own, named it before, and the form's name contains a sentence stop |
| Descriptions.AdviceEscapes | config/write_only.go:65-66 | a level with a write-only name that contains a sentence stop, whose base keeps the advice |
| Descriptions.GeneratedTextNames | config/write_only.go:111-126 | at any depth of the final tree, the text of a write-only attribute names exactly its base and the API field, that of a version counter exactly the write-only form and the API field |
| Descriptions.SecondRunChangesNothing | config/write_only.go:52-68 | a second run, in any order, changes nothing |
| WriteOnly.Describe | config/write_only.go:58 | an assignment through the map entry changes that entry's description and no other text of any level |
| WriteOnly.DescribeAttribute | config/write_only.go:57-66 | the assignments of the loop body perform one visit on their level and touch no other |
| WriteOnly.FilterBase | config/write_only.go:66 | the description of the base becomes its filtered description and no other text changes |
| WriteOnly.VisitAttribute | config/write_only.go:54-66 | one iteration: levels below are rewritten or were before, this one is a visit further, and levels above stay |
| WriteOnly.DescribeWriteOnly | config/write_only.go:52-68 | the recursion terminates and, whichever unvisited key the map yields, leaves this level and all that nested resources lead to rewritten, once, however often they are visited; only descriptions are written |
| WriteOnly.TreeRewritten | config/write_only.go:52-56 | levels rewritten each on its own, shared or not, unfold to the rewritten tree |
| WriteOnly.SharedNested | config/write_only.go:54-56 | one nested resource may hang off two attributes |
| WriteOnly.WriteOnlyDescriptions | config/write_only.go:44-50 | the tree below the resource, unfolded, ends as specified, and what hangs off Schema-typed elements stays; without a Terraform schema nothing is written |
| WriteOnly.LevelShows | config/write_only.go:53-66 | the tree of a level shows the description, the flag and the `Elem` of every schema object |
| Sharing.VisitUnshared | config/write_only.go:57-66 | on a level without nested resources, assigning through schema objects that no two names share is the visit of the confluence theorem |
| Sharing.RunUnshared | config/write_only.go:52-68 | on such a level every order of a run ends as specified |
| Sharing.LastVisitWins | config/write_only.go:65 | on a level without nested resources, whose names may share objects, a run leaves the text of the last visited name in its object if the object of its base is another one |
| Sharing.OrderMatters | config/write_only.go:52-68 | a level of four names, two of them with one object, that two orders of a whole run leave different |
| Slots.ResolveConcat | apis/cluster/device/v1alpha1/zz_generated.resolvers.go:70-333 | running two lists of slots one after the other is running their concatenation: the second starts only if the first succeeds |
| Slots.ResolveExact | apis/cluster/device/v1alpha1/zz_generated.resolvers.go:70-333 | the run stops at the first slot that cannot be resolved from its original contents; all before it are answered from their original contents, it and all later ones are untouched |
| Slots.OrderFree | apis/cluster/device/v1alpha1/zz_generated.resolvers.go:70-333 | two orders of the same slots succeed together and then agree |
| Slots.Converges | apis/cluster/device/v1alpha1/zz_generated.resolvers.go:70-333 | after any attempts that on each slot, original or answered, fail or give the answer of a single successful run, one success leaves what that run leaves |
| Slots.RetrySucceeds | apis/cluster/device/v1alpha1/zz_generated.resolvers.go:70-333 | after such attempts, a resolver that also answers its own answers does succeed |
| Slots.ConvergesExactly | apis/cluster/device/v1alpha1/zz_generated.resolvers.go:70-333 | with resolvers that never change an answer, a resolver that answers every slot succeeds after any attempts, and leaves the state of its single run if and only if each slot was first reached by an attempt with the same answer, or by none |
| References.SlotStandsBy | apis/cluster/device/v1alpha1/zz_generated.resolvers.go:70-85 | standing by an answer to the request of a slot is standing by what is stored in it: the stored answer builds the settled request |
| References.OneResolved | apis/cluster/device/v1alpha1/zz_generated.resolvers.go:70-85 | a single request asks for the current id, empty if nil, with the reference, selector and namespace of the slot; an answer leaves the id nil exactly if it is empty and keeps the selector; an error is passed on |
| References.ManyResolved | apis/cluster/device/v1alpha1/zz_generated.resolvers.go:88-103 | the same element by element for a list, which an answer never leaves nil |
| References.PtrValuesRoundTrip | apis/cluster/device/v1alpha1/zz_generated.resolvers.go:89-103 | a list of ids stored and read back for the next request is the same list |
| RepeatedResolution.ReferencesConverge | apis/cluster/device/v1alpha1/zz_generated.resolvers.go:63-334 | convergence for any resource, if the resolvers stand by the answers for its own slots |
| DeviceValues.CodeOrderVisits | apis/cluster/device/v1alpha1/zz_generated.resolvers.go:70-331 | the statements and loops visit every slot of a device exactly once |
| DeviceValues.CodeOrderIs | apis/cluster/device/v1alpha1/zz_generated.resolvers.go:70-331 | the order, field by field: for each half the management network and six loops |
| DeviceValues.SlotsAre | apis/cluster/device/v1alpha1/zz_generated.resolvers.go:70-331 | which field of a device each slot is |
| DeviceValues.PortMajorVisits | apis/cluster/device/v1alpha1/zz_generated.resolvers.go:87-200 | so does one loop per half that handles six fields of each port |
| DeviceValues.PortMajorIs | apis/cluster/device/v1alpha1/zz_generated.resolvers.go:87-200 | the order of the single loop: six fields of a port before the next port |
| DeviceValues.WithSlotIs | apis/cluster/device/v1alpha1/zz_generated.resolvers.go:102-103 | writing a slot changes that slot and no other, and nothing else of the device |
| DeviceValues.DeviceDetermined | apis/cluster/device/v1alpha1/zz_generated.resolvers.go:63-334 | the slots and the rest make up the whole device |
| DeviceResolution.ExactPrefix | apis/cluster/device/v1alpha1/zz_generated.resolvers.go:70-333 | on failure exactly the slots before the failing one in code order hold the answers to their original contents, the error is that of the failing slot and labelled with its half and field; on success every slot is answered; port profiles are asked for as such and all else as networks |
| DeviceResolution.LabelsTell | apis/cluster/device/v1alpha1/zz_generated.resolvers.go:82-326 | two slots have one label if and only if they agree in all but the index |
| DeviceResolution.TargetIs | apis/cluster/device/v1alpha1/zz_generated.resolvers.go:70-331 | what each slot refers to and how its errors are labelled |
| DeviceResolution.ForProviderFirst | apis/cluster/device/v1alpha1/zz_generated.resolvers.go:201-333 | if `ForProvider` fails, no slot of `InitProvider` is touched |
| DeviceResolution.LoopsFuse | apis/cluster/device/v1alpha1/zz_generated.resolvers.go:87-200 | six loops, one per field, succeed exactly if one loop over all six fields does, with the same final state |
| DeviceResolution.DeviceConverges | apis/cluster/device/v1alpha1/zz_generated.resolvers.go:63-334 | after any number of attempts failing anywhere, one success leaves the device of a single successful call on the original; the resolvers need to agree on this device's slots only |
| Snapshots.SnapshotStandsBy | apis/cluster/device/v1alpha1/zz_generated.resolvers.go:70-104 | a snapshot stands by the answer of another for a slot if and only if the slot is not empty with different things to fill it in the two |
| Snapshots.GrowthDrifts | apis/cluster/device/v1alpha1/zz_generated.resolvers.go:70-104 | when objects are only added, wherever listings put them, that concerns exactly the empty slots with a selector that matched something before and whose first match, or matches for a list, are others now |
| Snapshots.DeviceConvergesAsObjectsAppear | apis/cluster/device/v1alpha1/zz_generated.resolvers.go:63-334 | after attempts against any earlier snapshots the later call succeeds, and ends as if it had been the only one if and only if no slot drifts after the attempt that first came to it |
| Snapshots.OneEarlyAttempt | apis/cluster/device/v1alpha1/zz_generated.resolvers.go:63-334 | one early attempt leaves no trace if and only if before every slot that drifts there is one that the early snapshot cannot answer |
| Snapshots.NothingExists | apis/cluster/device/v1alpha1/zz_generated.resolvers.go:63-334 | while nothing exists a call fails if and only if some slot is pending |
| Snapshots.NilStaysNil | apis/cluster/device/v1alpha1/zz_generated.resolvers.go:84 | a nil id that nothing asks to fill stays nil |
| Snapshots.NetworkAppears | apis/cluster/device/v1alpha1/zz_generated.resolvers.go:70-85 | a device and two different snapshots, the first call failing for want of a network, with the same end as one call |
| Snapshots.SlotDrifts | apis/cluster/device/v1alpha1/zz_generated.resolvers.go:70-85 | a device with a selector for a single slot on which two calls succeed and yet end otherwise than the later alone |
| Snapshots.ListDrifts | apis/cluster/device/v1alpha1/zz_generated.resolvers.go:87-104 | the same for a list of a port override |
| DeviceProgress.PortStep | apis/cluster/device/v1alpha1/zz_generated.resolvers.go:87-104 | one loop iteration advances the run by one slot or ends it |
| SlotMemory.ResolveSingle | apis/cluster/device/v1alpha1/zz_generated.resolvers.go:70-85 | a request from the pointers of a slot, and the answer stored in them |
| SlotMemory.ResolveMulti | apis/cluster/device/v1alpha1/zz_generated.resolvers.go:88-103 | the same for a list of ids |
| Devices.Device.ResolvePhase | apis/cluster/device/v1alpha1/zz_generated.resolvers.go:87-104 | one loop, in place: from any reached state to the state after its phase, or to the specified stop |
| Devices.Device.ResolveHalf | apis/cluster/device/v1alpha1/zz_generated.resolvers.go:70-200 | one half: a single slot and six loops |
| Devices.Device.ResolveReferences | apis/cluster/device/v1alpha1/zz_generated.resolvers.go:63-334 | the device in place ends with the slots the specified run prescribes and with its error, labelled with half and field of the failing slot; all else, including nil and length of slices, stays |
| Devices.Device.Reconcile | apis/cluster/device/v1alpha1/zz_generated.resolvers.go:63-334 | repeated calls on one device are the attempts of the convergence theorem |
| PolicyResolution.PolicyExact | apis/cluster/firewall/v1alpha1/zz_generated.resolvers.go:18-331 | a call answers the slots of present blocks before the failing one, or all of them, from their original contents, and leaves the others; networks are asked for as networks, zones as zones and the other two as groups |
| PolicyResolution.StatementsAre | apis/cluster/firewall/v1alpha1/zz_generated.resolvers.go:25-329 | the sixteen statements in their order |
| PolicyResolution.SlotsAre | apis/cluster/firewall/v1alpha1/zz_generated.resolvers.go:25-329 | which field of a policy each slot is |
| PolicySnapshots.ZoneFound | apis/cluster/firewall/v1alpha1/zz_generated.resolvers.go:82-100 | a policy whose zone exists gets its id |
| PolicySnapshots.NoZoneFound | apis/cluster/firewall/v1alpha1/zz_generated.resolvers.go:82-100 | a group or network of the same name does not do |
| PolicyResolution.StatementStep | apis/cluster/firewall/v1alpha1/zz_generated.resolvers.go:25-43 | a statement behind a nil guard does nothing; another advances the run by its slot or ends the call |
| PolicyResolution.PolicyDetermined | apis/cluster/firewall/v1alpha1/zz_generated.resolvers.go:18-331 | the slots and the rest make up the whole policy |
| PolicyResolution.PolicyConverges | apis/cluster/firewall/v1alpha1/zz_generated.resolvers.go:18-331 | convergence for policies, if the resolvers stand by the answers for the slots of this policy |
| Policies.Endpoint.Resolve | apis/cluster/firewall/v1alpha1/zz_generated.resolvers.go:26-42 | one field of a block, in place; an error changes nothing |
| Policies.Policy.ResolveReferences | apis/cluster/firewall/v1alpha1/zz_generated.resolvers.go:18-331 | the policy in place ends with the slots and the error the specified run prescribes; nil blocks stay nil, the rest stays |
| Policies.Policy.Reconcile | apis/cluster/firewall/v1alpha1/zz_generated.resolvers.go:18-331 | repeated calls on one policy are the attempts of the convergence theorem |
| Policies.Policy.Converge | apis/cluster/firewall/v1alpha1/zz_generated.resolvers.go:18-331 | after any attempts and a final success, a policy equals, in every field, what another of the same value becomes in one successful call |
| Memory.CopyCell | apis/cluster/device/v1alpha1/zz_generated.deepcopy.go:546-550 | a nil pointer stays nil, another leads to a new cell with the same value |
| Memory.CopyList | apis/cluster/device/v1alpha1/zz_generated.deepcopy.go:1518-1528 | nil, empty and nil elements are kept apart; array and cells are new and shared by no two slots, even if the source shares them |
| Memory.ListsTell | apis/cluster/device/v1alpha1/zz_generated.deepcopy.go:1518-1528 | two lists have equal values exactly if both are nil, or they have one length, nil elements in the same places and equal targets elsewhere |
| Memory.UnsharedList | apis/cluster/device/v1alpha1/zz_generated.deepcopy.go:1518-1528 | in an unshared list every pointer is counted and no two are the same |
| DeepCopy.CopyPort | apis/cluster/device/v1alpha1/zz_generated.deepcopy.go:2122-2445 | a port override of equal value whose pointers are all new and unshared |
| DeviceMemory.PortsTell | apis/cluster/device/v1alpha1/zz_generated.deepcopy.go:2122-2445 | two port overrides have equal values exactly if they are alike in every field, pointer by pointer |
| DeviceMemory.PortIs | apis/cluster/device/v1alpha1/zz_generated.deepcopy.go:2122-2445 | every field is seen in the value under its own name, and every pointer among the targets |
| DeviceMemory.PortsApart | apis/cluster/device/v1alpha1/zz_generated.deepcopy.go:1070-1258 | in an unshared structure no two port overrides lead to the same object |
| DeepCopy.CopyPorts | apis/cluster/device/v1alpha1/zz_generated.deepcopy.go:1070-1258 | the same for a slice of any length |
| DeepCopy.CopyConfigNetwork | apis/cluster/device/v1alpha1/zz_generated.deepcopy.go:544-587 | nil stays nil; another struct is new, and each of its pointers is nil where the source has nil and leads to a new, equal target elsewhere |
| DeviceMemory.ConfigsTell | apis/cluster/device/v1alpha1/zz_generated.deepcopy.go:544-587 | two structs have equal values exactly if their pointers are nil in the same places and lead to equal targets elsewhere |
| DeepCopy.CopyParameters | apis/cluster/device/v1alpha1/zz_generated.deepcopy.go:1070-1258 | the same for one half of a device |
| DeviceMemory.ParametersTell | apis/cluster/device/v1alpha1/zz_generated.deepcopy.go:1070-1258 | two halves have equal values exactly if they are alike, pointer by pointer |
| Devices.Device.DeepCopyInto | apis/cluster/device/v1alpha1/zz_generated.deepcopy.go:599-605 | the target takes the value of the device, also if it is the device; every object it leads to is new and reached through one pointer |
| Devices.Device.DeepCopy | apis/cluster/device/v1alpha1/zz_generated.deepcopy.go:608-615 | nil for nil; otherwise a new, alias-free device with the namespace of the source and two halves that are alike, pointer by pointer, with nothing that existed before changed |
| Devices.Device.ResolveCopy | apis/cluster/device/v1alpha1/zz_generated.deepcopy.go:608-615 | resolving a copy changes nothing that existed before |
| Devices.Device.ResolveBoth | apis/cluster/device/v1alpha1/zz_generated.deepcopy.go:608-615 | the resolved copy equals the resolved original, error and all |
| Devices.Device.Converge | apis/cluster/device/v1alpha1/zz_generated.resolvers.go:63-334 | after any attempts and a final success, a device equals, in every field, what a copy made before them becomes in one successful call |
| ExternalNames.ExternalNameConfigured | config/external_name.go:62-71 | whatever order the map yields, the slice holds the pattern of every configured name once and nothing else |
| ExternalNames.ListOfSet | config/external_name.go:63-69 | such a list has as many entries as names and no duplicates |
| ExternalNames.EachOnce | config/external_name.go:63-69 | every name with `$` is in the list, nothing else is, and nothing twice |
| ExternalNames.AnchoredMatches | config/external_name.go:66-67 | a name followed by `$` matches exactly the subjects that end with the name |
| ExternalNames.AcceptedNames | config/external_name.go:62-71 | the list accepts a name if and only if it is configured or, from a later `unifi_` in it on, is a configured one |
| ExternalNames.ExactOnPrefixed | config/external_name.go:62-71 | a name with `unifi_` only at its beginning is accepted if and only if it is configured |
| ExternalNames.NotExact | config/external_name.go:66 | a name that is not configured and yet accepted |

## Left out

Rewriter:

- WriteOnly.DescribeWriteOnly: requires that nothing is cyclic and that a schema object is found under one name in one level, or below Schema-typed elements only; the levels may be shared. `Sharing.OrderMatters` shows that with one object under two names the order can decide. The provider parses its schemas from `config/schema.json` (`config/provider.go:27`). A nested resource is a value that holds its attribute map, because only the map is read.
- Naming.ApiFieldName: upjet's camel casing is a parameter whose results hold no underscore, and no backtick that is not in the name.
- Texts: the theorems hold for any fixed phrases without backtick and underscore, of which the one between the two names has a space; `English.dfy` supplies the provider's, whose wording is not compared with anything else.
- GoStrings: strings are sequences of code points; invalid UTF-8 and Unicode normalisation are not modelled.
- What upjet makes of the descriptions afterwards, including its own sentence filter.

References:

- The library resolver, with its policies and its API reads, is a function of the request for one state of the API server. `FromPtrValue`, `ToPtrValue` and their list forms follow their library's documentation.
- Edits of the object by others between attempts.
- Snapshots: the example resolver has no resolve policies, and an object without an id yet is one that does not exist yet.
- The fields `X`, `XRef` and `XSelector` are one slot with three pointers. A reference or selector is a plain value, so the pointers inside a `Reference` do not appear.
- `Client`, `Rule`, `Zone` and the resources of other groups and of the namespaced scope resolve fixed lists of slots without loops or guards: the theorems of `Slots.dfy` with shorter orders.

Copies:

- Memory.CopyList: cells and lists of pointers or plain values are filled when they are allocated and never written through afterwards, as in the modelled code once a copy is complete; the copy is built as a sequence and not by assigning the elements of an allocated array. Devices, policy blocks and slices of port overrides are written in place.
- DeepCopy.CopyPort: one field stands for each shape (pointer to a scalar, `[]*float64`, `[]*string`, `[]Reference`, pointer to a struct); the other fields repeat them. The two halves of a device have different Go types with the same fields; here they have one type, and `Devices.Device.Valid` states that they do not share a slice of port overrides.
- TypeMeta, ObjectMeta (of which the namespace is kept), Status and the common resource spec.
- Copies of other kinds, of observations and of lists: the same shapes.

Elsewhere:

- Regular expressions other than a literal name with `$` at the end, and what upjet does with the list.
- `GetMergedParameters`, `LateInitialize` and the JSON conversions: thin wrappers of libraries.
- The client set-up in `internal/clients`, controllers, scheme registration and `cmd`: wiring and I/O.
- The constant tables of `config`: finite data.
