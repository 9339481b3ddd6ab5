# summarize.js trace analysis, modelled in Dafny

This project models the trace-analysis core of `summarize.js`, a script that reads a Broccoli
build trace (`broccoli-viz.0.json`) and summarizes where build time was spent. A trace is a
flat list of nodes. Each node has a numeric `_id`, a label `id` (a `name` and a `broccoliNode`
flag that marks a plugin), a map of statistics such as `time.self` in nanoseconds, and a list
of child ids.

The model covers:

- **`toTree`** (`trace.dfy`, module `Trace`). This is imperative code over a `Node` class.
  - The first pass creates one `Node` per entry. It stores each node in the dictionary under its
    `_id`, where a later duplicate overwrites an earlier one. The first node created becomes the root.
  - The second pass walks the dictionary keys in ascending order, as `Object.keys` orders
    integer keys. It overwrites each node's `children` field, replacing the child ids with the
    child objects.
  - An unknown child id throws. Here the throw is an `Err` carrying the id.
- **`preOrderIterator` and `findDescendant`** (`traversal.dfy`, module `Traversal`).
  - A resolved tree is never changed again, so traversals run over `Tree`, the immutable value
    a resolved `Node` denotes (`Denotes`).
  - The generator becomes the finite sequence it yields.
  - `until` is tested on the immediate children only: the recursive call at
    `summarize.js:54` passes no `until`.
- **`sumBy`, `filterBy`, `groupBy`** (`sequences.dfy`, module `Sequences`). They are generic
  sequence combinators, with `sumBy` and `groupBy` as loops.
- **`sumStat`, `allPlugins`, `summarizePlugin`, the step count, and the totals `printBuildSummary`
  prints** (`summary.dfy`, module `Summary`). All times stay integer nanoseconds.

`wrappers.dfy` holds the `Option` and `Result` datatypes.

Three behaviours of the code that the model keeps as written:

- `until` drops a child together with its whole subtree (`summarize.js:50-52`), and it is
  tested on the immediate children only: `Traversal.ForestUntil`, `Traversal.UntilOnlyImmediate`.
- An empty node list returns `null`: `Trace.ToTree` returns `Ok(null)`.
- No parent back-references are set, and the model has none.

## Model

| member | source | states |
|---|---|---|
| Trace.Node.constructor | summarize.js:39-44 | a new node holds the given `_id`, label and stats, with its child ids as `children` |
| Trace.LastPos | summarize.js:18-24 | every entry's id is a key of the dictionary, and each key names an entry carrying it |
| Trace.LastPosIsLast | summarize.js:19 | the dictionary holds the last entry with an id: no later entry carries that id |
| Trace.StoredStep | summarize.js:19 | storing one more node extends the dictionary by that node under its id |
| Trace.StoredIsLast | summarize.js:18-24 | after the first pass, each key holds the object made from the last entry with that id |
| Trace.IndexNodes | summarize.js:15-24 | one fresh, distinct object per entry; the dictionary holds the object of the last entry per id; the root is the first entry's object, or null when there are none |
| Trace.ResolveMeaning | summarize.js:28-33 | resolving succeeds iff every child id is in the dictionary, and then yields the dictionary's nodes in child-id order; otherwise it fails with the first missing id |
| Trace.AscendingKeys | summarize.js:26 | `Object.keys` of integer keys: every key exactly once, in ascending order |
| Trace.LinkNode | summarize.js:28-33 | a node's ids become its child nodes when all resolve; a throw leaves them unchanged |
| Trace.LinkInOrder | summarize.js:26-34 | visiting the keys in order, it throws at the first node with an unresolved id, and every earlier node resolved; with no throw every visited node holds its resolved children |
| Trace.LinkChildren | summarize.js:26-34 | the second pass throws iff some node lists an unknown id, and then it throws that node's first missing id for the least such key; otherwise every node's children are the dictionary's nodes in child-id order |
| Trace.SecondPass | summarize.js:26-34 | same outcome as above, and an object displaced from the dictionary by a duplicate id keeps its ids |
| Trace.ToTree | summarize.js:14-37 | returns the first entry's object as root (null for no entries) whatever follows; fails iff a dictionary node lists an unknown id, naming the first such id of the least such key; on success every dictionary node's children are dictionary nodes in child-id order |
| Trace.Owner | summarize.js:16 | each node of the dictionary maps back to its key |
| Trace.DictChildren | summarize.js:19 | after the first pass, each dictionary node lists the child ids of its entry |
| Trace.DictInjective | summarize.js:19 | after the first pass, distinct ids hold distinct objects |
| Trace.DisplacedNotOwned | summarize.js:19 | an object overwritten in the dictionary by a duplicate id is no longer in it |
| Traversal.DenotesUnique | summarize.js:39-44 | a resolved object denotes at most one tree value |
| Traversal.TreeOf | summarize.js:26-34 | the tree a trace describes below an id carries that id and one subtree per listed child id |
| Traversal.ResolvedIsClosed | summarize.js:28-33 | when every node's child ids resolve, every listed child id is a key of the dictionary |
| Traversal.ResolvedDenotes | summarize.js:14-37 | after a successful `toTree` over a trace whose child links form no cycle, every dictionary object denotes the tree its entry describes |
| Traversal.RootDenotes | summarize.js:14-37 | in the same case the returned root denotes the first entry's tree, unless a later entry with the same id displaced it |
| Traversal.PreOrderLength | summarize.js:46-58 | the unrestricted traversal has one element per node of the subtree |
| Traversal.ForestLength | summarize.js:49-57 | the traversal of a list of children has one element per node below them |
| Traversal.ForestUntil | summarize.js:49-55 | with `until`, the children it holds of are dropped, subtree and all; the others are traversed in full, in order |
| Traversal.RestrictedIsSubseq | summarize.js:46-58 | the restricted traversal starts with the node itself and is a subsequence of the unrestricted one |
| Traversal.ForestSubseq | summarize.js:49-57 | over a list of children, the restricted traversal is a subsequence of the full one |
| Traversal.UntilNoneSkipped | summarize.js:50 | when `until` holds of no immediate child, the traversal is the unrestricted one |
| Traversal.ForestNoneSkipped | summarize.js:50 | the same over a list of children |
| Traversal.ForestKeeps | summarize.js:49-57 | a child that is not skipped contributes every node of its subtree |
| Traversal.UntilOnlyImmediate | summarize.js:54 | a grandchild below a kept child is visited even when `until` holds of it |
| Traversal.FindDescendant | summarize.js:60-66 | returns the first node in pre-order whose label matches, the start node itself if it matches; none iff no node matches |
| Sequences.SumBy | summarize.js:68-74 | the running total is the sum of `fn` over the sequence |
| Sequences.SumAppend | summarize.js:68-74 | the sum distributes over concatenation |
| Sequences.SumOfOnes | summarize.js:146 | summing the constant 1 counts the elements |
| Sequences.SumSubseq | summarize.js:68-74 | with non-negative terms, a subsequence sums to at most the whole |
| Sequences.Filter | summarize.js:76-80 | the result is no longer than the input; it holds only elements of the input that pass, and every passing element |
| Sequences.FilterMembership | summarize.js:76-80 | an element is yielded iff it occurs in the input and passes |
| Sequences.FilterExt | summarize.js:76-80 | filters that agree on every element yield the same sequence |
| Sequences.FilterAppend | summarize.js:76-80 | filtering distributes over concatenation |
| Sequences.FilterFilter | summarize.js:108 | filtering twice is filtering by the conjunction |
| Sequences.FilterIsSubseq | summarize.js:76-80 | the result keeps input order: it is a subsequence of the input |
| Sequences.KeysOf | summarize.js:82-90 | the keys are exactly the key values of the input elements |
| Sequences.Group | summarize.js:82-90 | a group holds only input elements under its key, and all of them |
| Sequences.GroupIsFilter | summarize.js:82-90 | a group is the input filtered by a test for its key |
| Sequences.GroupSnoc | summarize.js:86-87 | one more element extends only the group of its own key |
| Sequences.GroupPush | summarize.js:85-87 | one push turns the groups of a prefix into the groups of the prefix one longer |
| Sequences.GroupOfKey | summarize.js:86 | every created group is non-empty and keeps input order |
| Sequences.GroupBy | summarize.js:82-90 | keys are exactly the input's key values; each element is in the group of its own key and no other; groups are non-empty and keep input order |
| Summary.SumStat | summarize.js:92-101 | the sum of each node's stat, a missing or falsy value counting 0 |
| Summary.FalsyCountsZero | summarize.js:96-100 | nodes whose stat is missing or falsy contribute nothing to the sum |
| Summary.SumStatNonNegative | summarize.js:92-101 | with no negative stat values the sum is not negative |
| Summary.AllPlugins | summarize.js:107-109 | every plugin node's name is a key and every key names a plugin node; a node is in a group iff it is a plugin with that name; each group is the input filtered in order |
| Summary.SummarizePlugin | summarize.js:123-129 | self time sums `time.self` over the traversal that skips plugin children, and total time over the whole subtree; total time is self time plus the total time of the immediate plugin children; with non-negative times self time is at most total time; with no immediate plugin child the two are equal |
| Summary.SelfAtMostTotal | summarize.js:126-127 | with non-negative times, self time is at most total time |
| Summary.SelfEqualsTotal | summarize.js:126-127 | with no immediate plugin child, self time equals total time |
| Summary.ForestSplit | summarize.js:49-55 | over children, the full traversal's sum is the restricted one's plus the full sums of the skipped children |
| Summary.TotalIsSelfPlusPluginChildren | summarize.js:126-127 | total time is self time plus the total time of the immediate children that are plugins |
| Summary.Steps | summarize.js:146 | the step count is the number of nodes in the tree, the length of its traversal |
| Summary.SummarizeBuild | summarize.js:135-156 | the total time sums `time.self` over every node and equals the root summary's total time; cache hit `N/A%`, reason `initial`, one step per node; with non-negative times the root's self time is at most the total time |

## Left out

- `loadTree` (`summarize.js:7-11`): file reading and `JSON.parse`. The model starts from the parsed node list.
- `formatNs` (`summarize.js:131-133`): floating-point division and `toFixed`. Times stay integer nanoseconds.
- The `console.log` of `printBuildSummary`, its JSON pretty-printing, and its empty `pluginsByName` object. Also the load-and-print at `summarize.js:158-159`. `Summary.SummarizeBuild` returns the printed values instead.
- `summarizeGroups` and `summarizePlugins` (`summarize.js:111-121`): `summarizePlugins` is an empty stub returning `undefined`, so there is no behaviour to state. `summarizeGroups` is never called. The commented-out line 149 names `summarizeGroup`, which is not defined.
- lib/summarize-build-info/index.js is not part of this model. It is a build hook that writes a file and logs.
- `_.get(node, 'stats.' + stat)` is a lookup of the dotted path as one key in a flat map from path to integer.
- Summary.FalsyCountsZero: only 0 is falsy, because stat values are integers. `NaN`, `""`, `false` and `null` values are not modelled.
- Trace.ToTree: ids are natural numbers. String ids, and integers of 2^32 - 1 or more, are not modelled. `Object.keys` orders those by insertion rather than numerically.
- Trace.ToTree: the error is the unresolved id, not the `Error('uwot ' + id)` object. What the dictionary's objects hold after a throw is not stated, because `toTree` exits and nothing can reach them.
- Traversal.Denotes: the link from a successful `toTree` to a `Tree` value is proved only for traces whose child links form no cycle (`Traversal.Ranked`). On a trace with a cycle, each nested generator runs inside its parent's `next()` call, so the JavaScript traversal recurses until the call stack overflows (`RangeError`). No `Tree` value represents such a trace. Traversals are stated for tree values.
- Traversal.FindDescendant: the generator's laziness is not modelled. The loop runs over the whole traversal sequence and returns at the first match, which gives the same result.
- Sequences.GroupBy: keys are compared as values of the key type. JavaScript's `groups[key]` turns every key into a property-name string, so `1` and `"1"` share a group, and any two objects share `"[object Object]"`. The two agree when keys are strings, as they are for the only caller, `allPlugins`, which groups by `node.id.name`.
- Summary.SummarizeBuild: takes a resolved tree. Two inputs make `printBuildSummary` throw a `TypeError` instead, and this is not modelled. An empty trace gives a `null` root, which fails at `summarize.js:136`. A root displaced by a later entry with the same `_id` keeps its child ids, so if it has children, traversing it fails at `summarize.js:54`, or at line 50 under `until`.
