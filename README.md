# ID3 decision-tree learner, modelled in Dafny

This project models the core of a small Python ID3 learner. `tree.py` grows an unbounded tree, and `limiting_depth.py` is the same learner with an optional depth limit. The model covers:

- how a table of string cells is read: the name maps and the column projection;
- how rows are counted and grouped by one attribute's value;
- how the split attribute is chosen by information gain;
- how the tree is grown, how it classifies an example, and how it prints as `IF … THEN …` rules.

Modules:

- `Wrappers` (`wrappers.dfy`): `Option` and `Result`. The `Result` failures are Python's `KeyError` and the `ValueError` of `max()` on an empty dict.
- `Table` (`table.dfy`): the helpers at `tree.py` lines 36-140, on rows of type `seq<string>`. Python's insertion-ordered dicts become an `OrderedMap` (a key sequence plus a map), so "the first key" and "the first key with the largest count" mean what they mean in Python.
- `Projection` (`projection.dfy`): `project_columns`. This is where the source edits shared row lists in place, so each row is a `RowBuf` object whose `cells` field the methods update.
- `Trees` (`trees.dfy`): the tree as a datatype (a leaf with a label, or a split with an attribute, a score and a child per value), its root-to-leaf paths, and both versions of `get_label`.
- `Rules` (`rules.dfy`): `pretty_print_tree`, the same in both files. The rule set is produced rather than printed.
- `Induction` (`induction.dfy`): `id3` and `avg_entropy_w_partitions` of `tree.py`. The methods mirror the source's loops and are proved equal to a ghost specification function `Build`. The main lemmas are about `Build`:
  - every leaf label occurs in the data;
  - no path tests an attribute twice;
  - a consistent training set is memorised, given universes that hold every training value (the corrected universes always do; those built as written do when no cell equals a column name).
- `Depth` (`depth.dfy`): `id3` of `limiting_depth.py`.
  - With no depth, or a negative one, the result is exactly `tree.py`'s tree, with its splits scored by gain instead of entropy.
  - With a depth `d >= 0`, the tree is that tree with branches cut off, so it never contradicts it, and it has at most `d + 1` splits on any path.

Both learners take the entropy function as a parameter (`Learner.entropy`). The gain of an attribute is that entropy minus the weighted average of its partitions' entropies, computed as in the source.

At depth 0 the code (`limiting_depth.py:201-211`) returns the split as soon as the child loop reaches the first value some row holds, keeping the majority leaves already made for the values visited before it. Which values those are depends on the set's iteration order, so `Depth.DepthTree` allows every iteration order and requires at depth 0 only that the children be majority leaves for values no row holds.

## Model

| member | source | states |
|---|---|---|
| Table.GetHeaderNameToIdxMaps | tree.py:36-42 | `idx_to_name` names every column position by its header; `name_to_idx` holds exactly the header names, each mapped to its last position, because a later duplicate overwrites; with distinct headers it inverts the header list |
| Table.GetClassLabels | tree.py:83-93 | a KeyError of the target when it is not a column, otherwise the label counts of the target column (`Tally`) |
| Table.Tally | tree.py:86-92 | the label counts list exactly the labels they map, and list none exactly when there are no rows |
| Table.TallyKeys | tree.py:83-93 | the labels counted are exactly the values of the column |
| Table.TallyWellOrdered | tree.py:87-92 | the insertion order lists every counted label exactly once |
| Table.TallyCounts | tree.py:87-92 | each label's count is the number of rows holding it |
| Table.TallyTotal | tree.py:83-93 | the counts add up to the number of rows |
| Table.PartitionData | tree.py:104-117 | a KeyError of the attribute when it is not a column, otherwise the rows grouped by their value in that column (`Group`) |
| Table.MatchingMembers | tree.py:108-116 | the rows a group collects are exactly the input rows holding its value |
| Table.Group | tree.py:104-117 | the groups are listed in the first-occurrence order of their values, with the same keys as the label counts of that column |
| Table.GroupMatching | tree.py:108-116 | the group of `v` is the input's rows holding `v`, in their original order |
| Table.PartitionSound | tree.py:104-117 | every group is non-empty and holds exactly the input rows with the group's value |
| Table.PartitionSizes | tree.py:104-117 | each group's size is the count of its value, and the sizes add up to the number of rows |
| Table.GroupedRow | tree.py:108-116 | every row lands in the group of its own value |
| Table.FirstMaxIndex | tree.py:138-140 | `max(d, key=d.get)` picks the first key with the largest count: its count is at least every count and greater than the count of every key before it |
| Table.MostCommonLabel | tree.py:138-140 | fails (ValueError) exactly on an empty dict; otherwise returns a counted label whose count is at least every other |
| Table.GetUniqValues | tree.py:66-80 | the value universe exactly as the code builds it (`UniqValuesAsWritten`) |
| Table.UniqValuesAsWrittenMembers | tree.py:66-80 | every column name has an entry, and that entry holds exactly the values seen in its columns that are not themselves column names |
| Table.UniqValuesQuirk | tree.py:78 | on a two-column table whose first column holds the other column's name, the universe as written misses that value while the corrected one has it |
| Table.UniqValues | tree.py:66-72 | the corrected universe (every value seen in the column) has an entry for exactly the column names |
| Table.UniqValuesAsWrittenAgrees | tree.py:74-79 | on a table where no cell equals a column name, the universe as written is the corrected universe |
| Table.UniqValuesComplete | tree.py:74-79 | in the corrected universe, every value seen in a column is in the entry of that column's name |
| Table.AddRowValues | tree.py:75-79 | one row's pass adds each cell that is not a column name to the entry of the cell's column name |
| Table.UniqValuesSnoc | tree.py:74-79 | the universe of one more row is the previous universe with that row's cells added |
| Projection.ProjectedIndices | tree.py:51 | succeeds exactly when every requested name is a column, giving their positions in request order; otherwise a KeyError of the first missing name |
| Projection.Kept | tree.py:49-52 | the positions a projection keeps: exactly those below the width that are not removed, in increasing order |
| Projection.WithoutIsKept | tree.py:54-57 | deleting the removed positions leaves exactly the cells at the kept positions, in order |
| Projection.WithoutDelete | tree.py:54-57 | deleting in descending order is sound: deleting position `d` after every removed position above it gives the same result as deleting them all at once |
| Projection.DeleteColumn | tree.py:56-57 | every row object loses exactly its cell at the position and nothing else |
| Projection.DeleteColumns | tree.py:54-57 | the header copy and every row object end up with exactly the removed positions deleted |
| Projection.ProjectColumns | tree.py:45-63 | on a KeyError no row is changed; otherwise the header, and every input row object (shared with the caller), lose the unrequested positions, the same row objects come back, and the name maps are rebuilt for the new header |
| Projection.ProjectionKeepsRequested | tree.py:45-63 | a successful projection keeps exactly the columns with a requested name that are that name's last column, in header order, whatever the request's order |
| Trees.GetLabel | tree.py:200-204 | a leaf answers its label; a split looks up the example's value of its attribute and then that value's child; the only failures are KeyErrors, of the missing attribute or of the value without a child |
| Trees.GetLabelOrNone | limiting_depth.py:223-230 | the same walk with every failed lookup answered by `None`: it answers a label exactly when `tree.py`'s `get_label` does not raise |
| Trees.GetLabelOrNoneCatches | limiting_depth.py:223-230 | the `get_label` that catches exceptions answers `None` exactly where `tree.py`'s `get_label` raises, and otherwise gives the same label |
| Trees.PredictionFollowsPath | tree.py:200-204 | `get_label` answers `l` exactly when some root-to-leaf path whose tests the example passes ends in `l` |
| Trees.GetLabelFails | tree.py:200-204 | `get_label` raises (a missing attribute, or a value without a child) exactly when the example passes the tests of no root-to-leaf path |
| Trees.PathsRespect | tree.py:180-181 | in a tree whose splits draw distinct attributes, at most `n` per path, every path has at most `n` tests, each on a distinct attribute |
| Trees.PrunedPredicts | limiting_depth.py:223-230 | where a tree with branches cut off answers, the full tree gives the same answer |
| Rules.Traverse | tree.py:217-230 | `traverse` hands back the stack it was given and adds to the rule set exactly the rules of the paths below the node, prefixed by the stack |
| Rules.EmittedFromRoot | tree.py:213-231 | from an empty stack the rules emitted are the rule texts of the paths |
| Rules.PrettyPrintTree | tree.py:213-232 | the printed rule set is exactly one rule text per root-to-leaf path; the same holds for the copy at limiting_depth.py:240-259 |
| Rules.EmittedLeaf | tree.py:218-221 | a leaf adds the single rule `stack + " THEN " + label` |
| Rules.RuleShapes | tree.py:218-229 | a leaf root gives the one rule ` THEN label`; a split without children gives no rule; every rule of a split starts with `IF attribute EQUALS ` |
| Induction.AvgEntropyWPartitions | tree.py:120-135 | the partitions of the splitting attribute, and the sum over them, in their order, of size/n times their entropy |
| Induction.AddGroupEntropy | tree.py:128-133 | one pass of the loop adds the next partition's weighted entropy |
| Induction.Gains | tree.py:163-165 | one gain per remaining attribute |
| Induction.BestIndex | tree.py:166-169 | the strict `>` update keeps the first attribute with maximal gain: its gain is at least every gain and greater than every gain before it |
| Induction.ChooseIsBest | tree.py:163-169 | the chosen attribute has the maximal gain among the remaining ones, and is the first that has it |
| Induction.ChooseSplit | tree.py:156-169 | the gain loop ends with the best attribute, its gain and its partitions |
| Induction.Remove | tree.py:180-181 | discarding the split attribute keeps exactly the other attributes, and shortens the list when it was there |
| Induction.GrowChild | tree.py:185-190 | one value's child: the majority leaf when no row has the value (a ValueError on no rows), otherwise the tree of the value's partition over the other attributes |
| Induction.GrowChildren | tree.py:183-190 | the child loop builds one child per value of the chosen attribute's universe, whatever the set's order; on no rows it fails unless the universe is empty |
| Induction.Id3 | tree.py:143-192 | `id3` returns exactly `Induce`: `Build` on non-empty rows, and on no rows the ValueError of `most_common_label` unless nothing consults it |
| Induction.ChildrenOnKeys | tree.py:185-190 | a split has a child for exactly the values of the universe |
| Induction.ChildPresent | tree.py:189-190 | a value some row holds gets the tree of its non-empty partition, with the split attribute removed |
| Induction.BuildPure | tree.py:148-150 | rows with a single label give a leaf with that label, and every row carries it |
| Induction.BuildExhausted | tree.py:152-154 | with no attributes left, the leaf's label is a counted label whose count is at least every other |
| Induction.BuildSplitShape | tree.py:159-190 | otherwise the tree splits on a first attribute of maximal gain, has a child for each value of its universe, and gives the values no row holds the majority leaf |
| Induction.ExampleOf | tree.py:295-318 | the example for a row maps each column name to the row's cell in that column |
| Induction.PartFits | tree.py:180-190 | a partition is non-empty, holds input rows with the partition's value, and meets `id3`'s requirements for the remaining attributes |
| Induction.PartConsistent | tree.py:185-190 | a partition of consistent, covered rows is again consistent and covered for the remaining attributes |
| Induction.PartCovered | tree.py:185-190 | a partition of covered rows is covered for the remaining attributes |
| Induction.SingleLabel | tree.py:148-154 | consistent rows with no attributes left carry a single label, so the pure-leaf test fires |
| Induction.FollowBranch | tree.py:200-204 | a training row takes the branch of its own value and lands in that value's partition |
| Induction.Memorize | tree.py:143-192 | on training rows that are consistent (rows that agree on every remaining attribute share a label) and covered by the universes, `get_label` answers every training example with its own row's label |
| Induction.LabelInData | tree.py:83-93 | every counted label is the label of some row |
| Induction.LabelFromPart | tree.py:104-117 | a label of some row in a partition is a label of some row of the input |
| Induction.LeavesFromData | tree.py:143-192 | every leaf label of the tree is the label of some training row |
| Induction.LeavesFromChild | tree.py:185-190 | the same for every child of a split, stand-in majority leaves included |
| Induction.BuildRespects | tree.py:180-181 | along every path, the split attributes are distinct and drawn from the remaining attributes, at most as many as there are |
| Induction.CoverColumn | tree.py:66-80 | every column name has an entry in the corrected universe, holding the value of every row in that name's column |
| Induction.UniversesCover | tree.py:241-248 | universes built the corrected way from the training rows cover those rows, as `Memorize` needs |
| Depth.GrowPartition | limiting_depth.py:205-211 | the child for a value some row holds, above depth 0, is grown with no depth or with depth - 1 |
| Depth.GrowDepthChild | limiting_depth.py:201-211 | one pass of the child loop that does not stop: a majority leaf for a value no row holds, otherwise a child as `DepthChild` allows; a ValueError on no rows |
| Depth.GrowDepthChildren | limiting_depth.py:199-213 | the child loop yields children `DepthChildren` allows: above depth 0 one per universe value; at depth 0 only majority leaves for values no row holds, and all of them when no value is held |
| Depth.Id3Depth | limiting_depth.py:156-213 | on non-empty rows the result is a tree `DepthTree` allows; on no rows it is what `Induction.Id3` gives with gain scores: the ValueError of `most_common_label`, or a childless split when the chosen attribute's universe is empty |
| Depth.DepthStops | limiting_depth.py:161-167 | pure rows and rows with no attributes left give `tree.py`'s leaf, whatever the depth |
| Depth.DepthUnboundedIsBuild | limiting_depth.py:206-207 | with no depth, or a negative one, the possible trees are exactly one: `tree.py`'s tree with its splits scored by gain instead of entropy |
| Depth.DepthChildUnbounded | limiting_depth.py:201-211 | the same for the child of one value |
| Depth.DepthBound | limiting_depth.py:208-211 | with a depth `d >= 0`, no path passes more than `d + 1` splits |
| Depth.DepthChildBound | limiting_depth.py:210-211 | below a depth `d > 0`, a child passes at most `d` splits |
| Depth.DepthPrunes | limiting_depth.py:201-211 | the depth-limited tree is `tree.py`'s tree scored by gain, with branches cut off: the same split attributes and gains, and some of the children |
| Depth.DepthChildPrunes | limiting_depth.py:202-211 | the same for the child of one value |
| Induction.UniversesCoverAsWritten | tree.py:241-248 | the universes `main` builds with `get_uniq_values` as written cover the training rows whenever no cell equals a column name, so `Memorize` applies to them |
| Induction.KeyIrrelevant | tree.py:175-177 | the score a split records takes no part in prediction: `tree.py`'s entropy-scored tree and the gain-scored tree answer every example alike |
| Induction.ChildIrrelevant | tree.py:185-190 | the same for the child of one value |
| Depth.DepthAnswersAgree | limiting_depth.py:223-230 | where the depth-limited tree answers, `tree.py`'s tree (scored by entropy) gives the same label |
| Depth.DepthZeroMissesTraining | limiting_depth.py:208-209 | a split reached at depth 0 answers `None` for every one of its own training rows |
| Depth.BuildLimited | limiting_depth.py:201-211 | the corrected depth-limited `id3`: a node reached at depth 0 becomes a majority leaf, and otherwise it builds like `limiting_depth.py`; a tree that is a single leaf carries a label of the rows, and a split tests a remaining attribute with one child per value of its universe |
| Depth.LimitedBound | limiting_depth.py:208-211 | with the intended limit, a depth `d >= 0` bounds the splits on every path by `d` |
| Depth.LimitedChildBound | limiting_depth.py:210-211 | the same bound, one lower, for each child |
| Depth.LimitedAnswersTraining | limiting_depth.py:201-213 | with the intended limit and covering universes, every training row gets an answer |
| Depth.LimitedChildAnswers | limiting_depth.py:201-211 | a training row's child under the intended limit gets an answer |

## Left out

- `entropy` (`tree.py:96-101`): floating point and `math.log`. It is a parameter of the learner. Weighted sums are exact `real` arithmetic, so rounding is not modelled.
- File and terminal I/O are not modelled, because they are input reading and output printing:
  - `load_csv_to_header_data`, `load_config` and the configuration file;
  - `main` and the top-level script, including the `pandas` error-rate loops and `cross_validation_accuracy` (`tree.py:235-390`, `limiting_depth.py:262-360`);
  - the printing in `pretty_print_tree`.
- Both `get_depth` functions: they only print or report a depth of an already built tree. `Trees.DecisionsAtMost` states the depth bounds instead.
- The `max_info_gain is None` branch (`tree.py:171-173`, `limiting_depth.py:184-186`): it is dead, because the gain loop runs at least once when attributes remain.
- The helpers at `limiting_depth.py:49-153` are line-for-line copies of `tree.py`'s. They are modelled once, as are the two identical `pretty_print_tree` functions.
- Iteration order of Python sets:
  - `remaining_atts` is a list in a fixed order, and the first best attribute in that order is chosen;
  - the value universes are iterated in no particular order (`:|`). The result is proved independent of that order for `tree.py`'s `id3` (`Induction.Id3`) and for the depth-limited `id3` with no depth or a negative one (`Depth.DepthUnboundedIsBuild`). With a depth `d >= 0`, every branch that reaches depth 0 has order-dependent children, so `Depth.DepthTree` admits several trees.
- Induction.Id3: requires `Fits`, so the KeyErrors `id3` would raise when the target or an attribute is not a column, or has no universe, are not modelled. `main` establishes those facts.
- Depth.Id3Depth: the same `Fits` requirement as `Induction.Id3`.
- Table.GetClassLabels: requires every row to have the target's cell. The IndexError of `r[col_idx]` on a shorter row (`tree.py:88`) is not modelled, because the model takes all rows as wide as the header.
- Table.PartitionData: requires every row to have the attribute's cell. The IndexError of `row[partition_att_idx]` on a shorter row (`tree.py:109`) is not modelled, for the same reason.
- Table.GetUniqValues: requires every row to have a cell for every column. The IndexError of `data_row[idx]` on a shorter row (`tree.py:77`) is not modelled, for the same reason.
- Induction.Id3: `Fits` also requires every row to have every named column (`Wide`), so the IndexErrors of `get_class_labels` and `partition_data` on short rows are not modelled.
- Depth.Id3Depth: the same `Wide` requirement as `Induction.Id3`.
- Projection.ProjectColumns: requires every row to be a distinct object. The aliasing when one list object appears twice in `rows` is not modelled.
- Projection.ProjectColumns: requires every row to be at least as wide as the header. The IndexError on a short row is not modelled.
- Depth.Id3Depth: a negative depth counts down forever without reaching 0. The model proves it behaves like no depth (`Depth.DepthUnboundedIsBuild`, under `Depth.Unbounded`).
- `node` dictionaries: they become the `Trees.Node` datatype. `get_label` on a malformed dict (neither `label` nor `attribute`) is not modelled.

## Findings

| source | as written | input that shows it | evidently intended | confidence | as-written member | corrected member |
|---|---|---|---|---|---|---|
| tree.py:78 | `if val not in val_map.keys()` tests the cell against the column names, so a cell equal to a column name is never added to any universe | columns `a`, `label` with rows `["label","x"]` and `["b","y"]`: the universe of `a` is `{"b"}`, not `{"label","b"}` | add every cell to its column's universe (`Table.UniqValuesComplete`); a row holding such a value then reaches no child in `get_label` | high, not executed | Table.UniqValuesQuirk | Table.UniqValues |
| limiting_depth.py:208-209 | `elif depth == 0: return node` returns the split under construction as soon as a value with rows is met, so the node has no child for any training row | any rows that still split when depth reaches 0: `get_label` answers `None` on every training row that reaches that node (`Depth.DepthZeroMissesTraining`) | a node reached at depth 0 becomes a majority leaf, so every training row gets an answer (`Depth.LimitedAnswersTraining`) and a depth `d` bounds each path by `d` splits (`Depth.LimitedBound`) | medium, not executed | Depth.DepthZeroMissesTraining | Depth.BuildLimited |
