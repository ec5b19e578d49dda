# plasmactl-chassis, modelled in Dafny

plasmactl-chassis manages the *chassis* of a platform. The chassis is a tree of dotted paths such as `platform.foundation.cluster.control`, kept in `chassis.yaml`. Nodes are allocated to chassis paths through their node files. Components are attached to chassis paths through the `hosts` of the plays in the layer playbooks.

This project models the core of the plugin and proves what each piece promises. The pieces are:

- **ChassisDoc** (`chassis_doc.dfy`). The map-shaped chassis document of `internal/chassis`.
  - `Platform` maps a layer to a list of entries. An entry is a bare string marker, or a group mapping names to nested lists or to other values.
  - The `Chassis` class keeps `Platform` as a field. `Add` and `Remove` update it in place.
  - `Flatten` returns the sorted dotted paths. `addToSections` and `removeFromSections` do the tree surgery.
  - `sectionsToTree` and `NodesForSection` are modelled here too.
  - The paths of a document are a multiset, because Go map iteration order is unspecified. Flatten is the one sorted sequence of that multiset.
- **ChassisTree** (`chassis_tree.dfy`). The order-preserving chassis of `pkg/chassis`.
  - A YAML node tree flattened in document order.
  - The path algebra on top of it: `Parent`, `Ancestors`, `IsDescendantOf`, `Children`, `ChildrenMap`, `Root`, `Exists` and `FlattenWithPrefix`.
- **YamlTree** (`yaml_tree.dfy`). The parsed YAML node: document, sequence, mapping (as key/value pairs), scalar, or another kind.
- **Attachments** (`attachments.dfy`). How a rename of a chassis path reaches the files that refer to it.
  - `updateHostsInNode` rewrites the `hosts` of plays. `updateChassisInNode` rewrites the `chassis` lists of node files.
  - A reference is rewritten when it is the old path or lies below it. It then lies at the same place below the new path.
  - Each walk reports whether anything matched. A file is written back and reported only then.
  - The matching loop of `LoadAttachments` decides which roles of which plays are components attached to a path.
- **RemoveAction** (`remove_action.dfy`). The `chassis:remove` command.
  - The chassis document must load, and the path must exist.
  - Blocking nodes and attached components are collected.
  - A dry run only reports them. Otherwise a node blocks first, then a component blocks; only with neither is the path removed and the document saved.
- **QueryAction** (`query_action.dfy`). The `chassis:query` command.
  - A hostname first, then component attachments under the chassis root.
  - The answer is deduplicated and sorted.
- **PathTrie** (`path_trie.dfy`). `splitPath` and `buildTree`, which are the same in `actions/list/list.go` and `action/list.go`, and the child sort of `printTreeNode`.
- **ListActions** (`list_actions.dfy`). The two `chassis:list` commands.
- **Strs** (`strs.dfy`). Go's `strings.Split`/`Join`/`HasPrefix` on dotted paths, byte-wise string order and `sort.Strings`, filters, and the prefix filter and linear search shared by both chassis packages.

## How the source is modelled

**Mutable state and in-place sorting.**
- The `Chassis` of `internal/chassis` and the `Remove` command are classes whose methods modify their fields.
- `sort.Strings` and `sort.Slice` are an in-place insertion sort on an `array`.

**The YAML rewrite and the display trie work on values.**
- The rewrite returns the rewritten tree together with the "updated" flag.
- `buildTree` keeps the pointer `current` as an address: the child indices from the root.
- The methods are proved equal to recursive specification functions (`Rewrite`, `Insert`), and the promised properties are proved about those.

**Removing a path under a layer whose name has a dot.** `Remove` reads the layer as the second dot-separated segment of the path, but a layer name may itself contain a dot. Take a layer `a.b` holding `c`: the path `platform.a.b.c` exists, yet `Remove` looks in the missing layer `a`. It then writes an empty layer `a` back and fails. `RemoveEffectSpec` states this case as the code behaves.

**Where query reads an attachment's path.** `actions/query/query.go:60` reads `a.Section`, but the attachment type of `internal/chassis/attachment.go` calls that field `Chassis`. The model reads the attachment's `chassis`.

## Model

| member | source | states |
|---|---|---|
| ChassisDoc.Chassis.Flatten | internal/chassis/chassis.go:53-60 | the result is sorted ascending and holds exactly the document's paths, counted with repetition |
| ChassisDoc.Flattened | internal/chassis/chassis.go:53-60 | the specification of Flatten: sorted, with the multiset of all layer paths |
| ChassisDoc.FlattenLayers | internal/chassis/chassis.go:55-57 | taking the layers in any order collects every path of the document |
| ChassisDoc.FlattenSections | internal/chassis/chassis.go:144-164 | the prefix, then one path per bare string and per group member, recursing only into members whose value is a list |
| ChassisDoc.FlattenItem | internal/chassis/chassis.go:149-161 | a bare string gives `prefix.s`; a group gives its members' paths; any other entry gives nothing |
| ChassisDoc.FlattenMembers | internal/chassis/chassis.go:153-160 | taking a group's members in any order gives the same paths |
| ChassisDoc.SectionPathsUnder | internal/chassis/chassis.go:144-164 | every flattened path of a layer lies at or under the layer's prefix |
| ChassisDoc.Chassis.FlattenWithPrefix | internal/chassis/chassis.go:63-76 | "" gives all of Flatten; otherwise exactly the sorted paths equal to the prefix or below it, in Flatten's order |
| ChassisDoc.Chassis.Exists | internal/chassis/chassis.go:79-86 | true exactly when the section is one of the document's paths |
| ChassisDoc.Chassis.Add | internal/chassis/chassis.go:90-109 | fewer than three segments or no leading "platform" gives InvalidFormat; a present path gives AlreadyExists; both leave Platform unchanged; otherwise the layer is rewritten by addToSections, the path is then present and no path is lost |
| ChassisDoc.AddToSections | internal/chassis/chassis.go:167-210 | the result is Added: the first matching item is reused, and a bare string for an intermediate segment becomes a group at the same index |
| ChassisDoc.Added | internal/chassis/chassis.go:167-210 | at most one existing item is rewritten, in place and into a group, and only a bare string equal to the first segment or a group with the same member names is rewritten; otherwise the list is unchanged or one item is appended; no existing item moves |
| ChassisDoc.Slot | internal/chassis/chassis.go:187-203 | the first index holding a group with a list under the name, or the bare name; none before it qualifies |
| ChassisDoc.AddedContains | internal/chassis/chassis.go:167-210 | after addToSections the added path is among the flattened paths |
| ChassisDoc.AddedKeeps | internal/chassis/chassis.go:167-210 | every path present before addToSections is still present, as often |
| ChassisDoc.AddedToPlatform | internal/chassis/chassis.go:100-107 | on the whole document the new path appears and no path is lost |
| ChassisDoc.SectionOfParts | internal/chassis/chassis.go:91-101 | a path accepted by Add is "platform", its layer and the remaining segments joined again |
| ChassisDoc.Chassis.Remove | internal/chassis/chassis.go:112-132 | a malformed or absent path is rejected with the document kept; otherwise the layer is written back with the removal's outcome, and on success every path lost is at or under the target, the target loses one occurrence, and no path is gained |
| ChassisDoc.RemoveEffectSpec | internal/chassis/chassis.go:112-132 | on success nothing is gained and every lost path is at or under the target, which is lost; a failure keeps the document, except when the layer segment is not a layer, where an empty layer is written back |
| ChassisDoc.RemovedFromPlatform | internal/chassis/chassis.go:122-129 | the same facts for one layer's removal written back into the document |
| ChassisDoc.LayerCreated | internal/chassis/chassis.go:126 | writing back an empty list for a missing layer adds only `platform.<layer>` |
| ChassisDoc.RemoveFromSections | internal/chassis/chassis.go:213-250 | the result and flag are Removed's |
| ChassisDoc.Removed | internal/chassis/chassis.go:213-250 | nothing removed means the list is unchanged; otherwise, at the first applicable item, a bare string or an emptied group is spliced out with the rest in order, or a group is rewritten in place, keeping a non-empty set of keys |
| ChassisDoc.RemoveSlot | internal/chassis/chassis.go:221-247 | the first item where a string match, a key deletion or a deeper removal applies; none before it does |
| ChassisDoc.RemovedPaths | internal/chassis/chassis.go:213-250 | removal only removes; on success the target loses an occurrence; every lost path is at or under the target |
| ChassisDoc.RemovedDrop | internal/chassis/chassis.go:221-244 | the dropped paths are exactly a multiset `d` at or under the target, empty when nothing was removed |
| ChassisDoc.DropKey | internal/chassis/chassis.go:229-236 | deleting the last segment's key drops that member's paths, the target among them, whether the item stays or is spliced out |
| ChassisDoc.DropDeeper | internal/chassis/chassis.go:238-243 | a deeper removal that succeeded keeps the key with its shortened list and drops only what the nested call dropped |
| ChassisDoc.SectionsToTree | internal/chassis/chassis.go:253-274 | the result is TreeOf: nothing for an empty list, otherwise a map from every name the items define |
| ChassisDoc.ChildrenOfSpec | internal/chassis/chassis.go:258-273 | the tree's children are exactly the names some item defines, each holding what its last defining item gives it |
| ChassisDoc.AddItem | internal/chassis/chassis.go:259-271 | one item's names are assigned into the map, overwriting earlier ones |
| ChassisDoc.MemberTree | internal/chassis/chassis.go:265-269 | a member with a list gets that list's tree; any other member gets nil |
| ChassisDoc.NodesForSection | internal/chassis/chassis.go:346-357 | the result is NodesWith: each node at most once, in order |
| ChassisDoc.NodesWithSpec | internal/chassis/chassis.go:346-357 | a node is listed exactly when it is allocated the section, and the list is a subsequence of the nodes |
| ChassisTree.Flatten | pkg/chassis/chassis.go:47-82 | the result is DocPaths: in document order, each root key, then `root.layer` per layer, then that layer's sequence |
| ChassisTree.DocPathsStart | pkg/chassis/chassis.go:48-62 | no document, an empty one or a non-mapping root gives nothing; otherwise the first path is the first root key |
| ChassisTree.RootPathsFirst | pkg/chassis/chassis.go:59-66 | the root loop emits something exactly when there is a root key, starting with the first key's text |
| ChassisTree.FlattenSequence | pkg/chassis/chassis.go:85-106 | scalars give `prefix.value`, mapping keys give `prefix.key` in order, and only sequence-valued keys are recursed into |
| ChassisTree.FlattenMapping | pkg/chassis/chassis.go:93-101 | one mapping's keys in order, each followed by its sequence's paths |
| ChassisTree.SeqPathsUnder | pkg/chassis/chassis.go:85-106 | every path flattenSequence emits lies below its prefix |
| ChassisTree.KeyPathsUnder | pkg/chassis/chassis.go:93-101 | every path a mapping item emits lies below the prefix |
| ChassisTree.LastDot | pkg/chassis/chassis.go:193 | -1 exactly for a dot-free path; otherwise the index of a dot with no dot after it |
| ChassisTree.Parent | pkg/chassis/chassis.go:192-198 | "" for a dot-free path; otherwise the path is the result, a dot and a dot-free last segment |
| ChassisTree.DescendantIrreflexive | pkg/chassis/chassis.go:201-203 | no path is a descendant of itself |
| ChassisTree.DescendantTransitive | pkg/chassis/chassis.go:201-203 | a descendant of a descendant is a descendant |
| ChassisTree.DescendantOfParent | pkg/chassis/chassis.go:192-203 | anything a path lies below is its parent or lies above its parent |
| ChassisTree.Ancestors | pkg/chassis/chassis.go:162-176 | the loop terminates with AncestorChain: the parent, its parent, and so on until Parent gives "" |
| ChassisTree.AncestorsSpec | pkg/chassis/chassis.go:162-176 | the ancestors are exactly the non-empty paths the path lies below |
| ChassisTree.AncestorsNearestFirst | pkg/chassis/chassis.go:159-176 | each ancestor lies below every later one |
| ChassisTree.AncestorsCount | pkg/chassis/chassis.go:162-176 | one ancestor per dot, except that a leading dot ends the chain |
| ChassisTree.LeadingDotAncestors | pkg/chassis/chassis.go:162-176 | ".a" has one dot but no ancestor |
| ChassisTree.AncestorsMap | pkg/chassis/chassis.go:179-187 | keys are exactly the flattened paths, each mapped to its ancestors |
| ChassisTree.Exists | pkg/chassis/chassis.go:109-116 | true exactly when the path is flattened |
| ChassisTree.Root | pkg/chassis/chassis.go:119-125 | the first root key, or "" when nothing is flattened |
| ChassisTree.Children | pkg/chassis/chassis.go:128-143 | exactly the flattened paths `p.x` with a dot-free `x`, in Flatten order |
| ChassisTree.ChildIffParent | pkg/chassis/chassis.go:128-143 | a path is a direct child of `p` exactly when it has a dot and its Parent is `p` |
| ChassisTree.ChildrenMap | pkg/chassis/chassis.go:146-157 | the result is ChildrenMapOf the flattened paths |
| ChassisTree.ChildrenMapSpec | pkg/chassis/chassis.go:146-157 | a key is present exactly for a non-empty parent with some child, holding all its children in Flatten order |
| ChassisTree.ChildrenMapKeys | pkg/chassis/chassis.go:146-157 | the keys are exactly the non-empty parents of flattened paths |
| ChassisTree.ChildrenMapIsChildren | pkg/chassis/chassis.go:128-157 | for a non-empty path, ChildrenMap's entry and Children agree |
| ChassisTree.FlattenWithPrefix | pkg/chassis/chassis.go:206-219 | "" gives all paths; otherwise exactly the paths equal to the prefix or below it, in Flatten order |
| YamlTree.Interleave | pkg/chassis/chassis.go:59-61 | a mapping's content interleaves keys at even and values at odd indices |
| Attachments.RebaseSpec | internal/chassis/attachment.go:159-167 | a reference equal to the old path or below it becomes the same place under the new path; any other is kept |
| Attachments.RebaseSibling | internal/chassis/attachment.go:164 | a reference that only shares the old path as text ("a.bc" against "a.b") is kept |
| Attachments.RebaseRoundTrip | internal/chassis/attachment.go:159-167 | renaming a matched reference back restores it |
| Attachments.UpdateHostsInNode | internal/chassis/attachment.go:138-177 | the tree comes back rewritten by the hosts walk, and the flag is true exactly when some visited hosts value matched |
| Attachments.UpdateHostsItems | internal/chassis/attachment.go:142-153 | every child of a document or sequence is rewritten, and the flag reports a match in any of them |
| Attachments.UpdateHostsPairs | internal/chassis/attachment.go:154-173 | every pair of a mapping is rewritten, and the flag reports a match in any of them |
| Attachments.UpdateHostsPair | internal/chassis/attachment.go:159-172 | a scalar hosts value is rebased; any other value is walked |
| Attachments.UpdateChassisInNode | internal/chassis/attachment.go:238-275 | the same for the chassis walk, which descends into documents and mappings but not sequences |
| Attachments.UpdateChassisItems | internal/chassis/attachment.go:242-247 | every child of a document is rewritten, and the flag reports a match in any of them |
| Attachments.UpdateChassisPairs | internal/chassis/attachment.go:248-271 | every pair of a mapping is rewritten, and the flag reports a match in any of them |
| Attachments.UpdateChassisPair | internal/chassis/attachment.go:253-270 | a sequence under "chassis" has its scalar items rebased; any other value is walked |
| Attachments.UpdateChassisList | internal/chassis/attachment.go:255-265 | scalar items are rebased, other items kept, and the flag reports a matching scalar |
| Attachments.Rewrite | internal/chassis/attachment.go:138-177 | a rewritten node keeps its kind |
| Attachments.RewritePair | internal/chassis/attachment.go:154-173 | a rewritten pair keeps its key and its value's kind |
| Attachments.TouchesSpec | internal/chassis/attachment.go:138-177 | the reported flag means some visited reference is at or under the old path |
| Attachments.RefsRewrite | internal/chassis/attachment.go:138-177 | the rewritten tree has the same references in the same order, each passed through the rewrite |
| Attachments.RefsRebased | internal/chassis/attachment.go:159-167 | each reference is rebased or kept, at its own position |
| Attachments.SkeletonKept | internal/chassis/attachment.go:154-173 | the rename changes only the visited references: keys, kinds and the number and order of children are kept |
| Attachments.UnmatchedUnchanged | internal/chassis/attachment.go:138-177 | a tree with no matching reference comes back unchanged |
| Attachments.MatchedChanged | internal/chassis/attachment.go:138-177 | a tree with a matching reference changes under a different new path |
| Attachments.RewriteCompose | internal/chassis/attachment.go:138-177 | two rewrites in a row are one rewrite with the functions composed |
| Attachments.RewriteId | internal/chassis/attachment.go:138-177 | rewriting with the identity changes nothing |
| Attachments.RewriteAgree | internal/chassis/attachment.go:138-177 | only the visited references matter to a rewrite |
| Attachments.RenameRoundTrip | internal/chassis/attachment.go:138-177 | renaming back restores every file in which no reference already lay under the new path without lying under the old one |
| Attachments.WrittenSpec | internal/chassis/attachment.go:121-131 | a file is written and reported exactly when its walk matched and its write did not fail, and it is written as its rewrite |
| Attachments.UpdateAttachments | internal/chassis/attachment.go:104-134 | the playbooks written, in order, are Written under the hosts walk, and the reported paths are theirs |
| Attachments.UpdateAllocations | internal/chassis/attachment.go:192-234 | the node files written, in order, are Written under the chassis walk, and the reported paths are theirs |
| Attachments.LoadAttachments | internal/chassis/attachment.go:52-76 | the attachments collected are AttachmentsOf: playbook by playbook, play by play, role by role |
| Attachments.MatchPlaybook | internal/chassis/attachment.go:52-76 | one playbook's plays give PlayAttachments |
| Attachments.MatchRoles | internal/chassis/attachment.go:55-74 | one matching play's roles give RoleAttachments |
| Attachments.AttachmentsSpec | internal/chassis/attachment.go:52-76 | an attachment is collected exactly when some play's hosts are the path or lie below it, and one of its roles has a name: the string itself, or a string under "role" |
| Attachments.PlayAttachmentsSpec | internal/chassis/attachment.go:52-54 | the same, for one playbook's plays |
| Attachments.RoleAttachmentsSpec | internal/chassis/attachment.go:55-74 | the same, for one matching play's roles; roles with no name are skipped |
| RemoveAction.CollectAllocatedNodes | actions/remove/remove.go:54-65 | the result is AllocatedNodes: the node loop stops at a node's first matching path |
| RemoveAction.AllocatedNodesSpec | actions/remove/remove.go:54-65 | a name is listed exactly when a node of that name has a path at or under the target, and each node is listed at most once |
| RemoveAction.CollectComponents | actions/remove/remove.go:73-76 | one component per attachment, in order |
| RemoveAction.Components | actions/remove/remove.go:73-76 | the i-th component is the i-th attachment's |
| RemoveAction.RemoveCommand.Execute | actions/remove/remove.go:38-135 | a chassis document that cannot be loaded fails first, with nothing recorded; an absent path fails next; a dry run records both blocker lists and changes nothing; blocking nodes, then attached components, fail without change; otherwise the path is removed, then a failing save is an error and success records only the path; the document changes only in that last case |
| QueryAction.CollectNodeSections | actions/query/query.go:29-35 | the paths of every node with the hostname, node by node |
| QueryAction.NodeSectionsSpec | actions/query/query.go:29-35 | a path is found exactly when a node with the hostname has it |
| QueryAction.FirstSegment | actions/query/query.go:48-55 | the root is a dot-free leading part of the path, ending at its first dot or at its end |
| QueryAction.RootOf | actions/query/query.go:49-55 | the character loop yields FirstSegment |
| QueryAction.CollectMatches | actions/query/query.go:57-62 | the paths of the attachments of the component, in order |
| QueryAction.MatchesSpec | actions/query/query.go:57-62 | a path is found exactly when an attachment of the component is at it |
| QueryAction.SearchAttachments | actions/query/query.go:45-63 | nothing for an empty chassis; otherwise the component's attachments under the root of the first flattened path |
| QueryAction.FoundSpec | actions/query/query.go:21-64 | node paths when some node has the hostname with paths; otherwise the attachments under the root, or a load failure without a document |
| QueryAction.FoundAttachments | actions/query/query.go:38-64 | with no node paths, the found paths are the component's attachments under the chassis root |
| QueryAction.Dedupe | actions/query/query.go:72-79 | the seen-set loop yields Dedup |
| QueryAction.DedupSpec | actions/query/query.go:72-79 | the same elements, each once, and a repeat-free input unchanged |
| QueryAction.Report | actions/query/query.go:71-84 | the printed lines are strictly ascending, with exactly the found paths |
| Strs.StrictlySortedUnique | actions/query/query.go:71-84 | two strictly ascending sequences with the same elements are equal, so the printed answer is determined |
| QueryAction.Execute | actions/query/query.go:20-87 | a load failure in the fallback is an error; no match is the warning with no error; otherwise the lines are strictly ascending with exactly the found paths |
| PathTrie.SplitPath | actions/list/list.go:87-104 | the character loop yields Segments: the dot-separated parts with the empty ones dropped |
| PathTrie.SegmentsSpec | actions/list/list.go:87-104 | no segment is empty or holds a dot, and the segments are exactly the non-empty parts of the split |
| PathTrie.SegmentsJoin | actions/list/list.go:87-104 | for a path with no empty part, joining its segments with "." gives it back |
| PathTrie.FindChild | actions/list/list.go:69-75 | the first child with the name, or the child count when none has it |
| PathTrie.ChildIndex | actions/list/list.go:69-75 | the search loop yields FindChild |
| PathTrie.InsertPath | actions/list/list.go:65-81 | the walk down from the root with the `current` pointer yields Insert |
| PathTrie.BuildTree | actions/list/list.go:61-85 | the result is TreeOf the paths: each inserted in turn into a root with the empty name |
| PathTrie.InsertChain | actions/list/list.go:65-81 | after inserting, the segments are a chain of child names from the root |
| PathTrie.InsertKeepsChain | actions/list/list.go:65-81 | inserting keeps every chain that was there |
| PathTrie.InsertOnlyChain | actions/list/list.go:65-81 | every chain after inserting was there before or is a leading part of the inserted segments |
| PathTrie.InsertExtends | actions/list/list.go:76-80 | new children are appended at the end and existing children keep their places, at every level |
| PathTrie.InsertUnique | actions/list/list.go:67-80 | inserting keeps sibling names distinct |
| PathTrie.InsertPresent | actions/list/list.go:67-80 | inserting a path already present leaves the tree as it was |
| PathTrie.TreeChains | actions/list/list.go:61-85 | every input path's segments are a chain from the root |
| PathTrie.TreeOnlyChains | actions/list/list.go:61-85 | every chain is a leading part of some input path's segments |
| PathTrie.TreeUnique | actions/list/list.go:61-85 | sibling names are distinct at every level |
| PathTrie.TreeRepeat | actions/list/list.go:61-85 | listing a path a second time changes nothing |
| PathTrie.SortChildren | action/list.go:109-112 | one node's children, sorted ascending by name, as a permutation of the old children |
| PathTrie.SortTree | action/list.go:104-132 | children are ascending by name at every level, the tree has exactly the chains it had, and sibling names that were distinct stay distinct |
| PathTrie.ChainsDetermine | action/list.go:104-132 | two tries with the same name and the same chains, both ascending by name and free of repeated sibling names at every level, are equal: the sorted tree is fixed by its paths |
| ListActions.SelectedSpec | actions/list/list.go:26-30 | the selection is sorted, holds exactly the paths at or under the section, and is empty exactly when there is none |
| ListActions.TreeListingSpec | actions/list/list.go:47-85 | a listed tree shows every selected path as a chain, and no chain that is not a leading part of one |
| ListActions.ListExecute | actions/list/list.go:20-39 | a load failure is an error; an empty selection is the warning; otherwise the flat listing is the selection and the tree is buildTree's |
| ListActions.SortedListExecute | action/list.go:21-40 | the same, with the tree's children ascending by name at every level, no repeated sibling names, and its chains those of buildTree's tree |
| ListActions.SortedTreeDetermined | action/list.go:21-40 | any two trees meeting SortedListExecute's tree clause for the same selection are equal, so the sorted listing is determined |
| Strs.Split | internal/chassis/chassis.go:91 | strings.Split on "." gives at least one part |
| Strs.SplitDotFree | internal/chassis/chassis.go:91 | no part of a split holds a dot |
| Strs.JoinSplit | internal/chassis/chassis.go:91-101 | joining the parts of a split with "." gives the string back |
| Strs.SplitJoin | internal/chassis/chassis.go:91-101 | splitting a join of dot-free parts gives the parts back |
| Strs.SortStrings | internal/chassis/chassis.go:58 | sort.Strings leaves the slice ascending and a permutation of what it was |
| Strs.SortBy | action/list.go:110-112 | sort.Slice by a string key leaves the array ascending by key and a permutation of what it was |
| Strs.SortedCopy | internal/chassis/chassis.go:58 | a sorted permutation of the input |
| Strs.SortedUnique | internal/chassis/chassis.go:58 | two sorted sequences with the same multiset are equal, so the sort has one outcome |
| Strs.BelowTrans | internal/chassis/chassis.go:58 | Go's byte-wise string order is transitive |
| Strs.BelowAntisym | internal/chassis/chassis.go:58 | strings in both orders are equal |
| Strs.BelowTotal | internal/chassis/chassis.go:58 | any two strings are ordered |
| Strs.FilterByPrefix | internal/chassis/chassis.go:63-76 | "" keeps everything; otherwise the result is PrefixFilter |
| Strs.PrefixFilterSpec | internal/chassis/chassis.go:69-75 | exactly the paths equal to the prefix or below it, as a subsequence, sorted when the input is |
| Strs.Contains | internal/chassis/chassis.go:79-86 | true exactly when the element occurs |
| Strs.FilterSpec | pkg/chassis/chassis.go:128-143 | a filter keeps exactly the elements that pass, as a subsequence |

## Left out

- File and YAML I/O is not modelled. This covers `Load`, `Save`, `LoadNodes`, `loadNodesFromPlatform` and `LoadNodesByPlatform`, the directory scans of `LoadAttachments`, `UpdateAttachments` and `UpdateAllocations`, and marshalling by yaml.v3. Parsed documents are inputs and rewritten documents are outputs.
- Read and parse failures that skip a file make that file absent from the input. A failing marshal or write in `UpdateAttachments`/`UpdateAllocations` is modelled as the set `failed` of paths.
- A load failure of the node registry or the attachments in `chassis:remove` and `chassis:query` is treated as no facts, as the source does after logging it. The model takes the inputs as already loaded, and logging is left out.
- A failing `Save` in `chassis:remove` is the parameter `saveFails`.
- The external node package (`node.LoadByPlatform`, `Allocations`, `DisplayName`) is not part of this model. Each node is given with its display name and the paths allocated to it.
- Go map iteration order is left unspecified. The layers, a group's members and a platform's nodes are visited in one fixed order, a sequence or a choice.
  - Flatten sorts, so its result does not depend on that order.
  - RemoveAction.CollectAllocatedNodes lists blocking nodes in the order they are given, whereas the source's order of platforms is arbitrary.
- Terminal output is not modelled: printing, colouring, the dry-run messages, and the tree drawing of `printNode`, `printNodeWithIndent` and `printTreeNode` apart from its sort. A listing or query outcome is the value that would be printed.
- `GetTree` only calls sectionsToTree per layer. It is not modelled as a member of its own.
- `HasAttachments` only tests `LoadAttachments` for emptiness. It is not modelled as a member of its own.
- The second `LoadAttachments` in internal/chassis/chassis.go (lines 395 onward) is not modelled. The one in internal/chassis/attachment.go is.
- plugin.go and the add, show and rename commands are not part of this model. Add is `Chassis.Add`. Rename's document-level `Rename` is defined in no file of the repository. The rename propagation that is visible is the attachment rewrite.
- Go's distinction between a nil and an empty slice is not modelled: both are the empty sequence.
- `remove.go` reads allocations with `c.Chassis`, which the `Chassis` type shown does not have. Allocations are an input instead.
- Updating YAML nodes in place through pointers is modelled on values. The rewrite returns a new tree, and the display trie is a value with an address for `current`. Pointer aliasing is therefore not captured.
- Strings are sequences of characters. Go works on bytes and runes, and the model does not distinguish them, since the paths are compared and split only at ".".
