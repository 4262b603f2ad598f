/** `id3` of tree.py (lines 143-192) with `avg_entropy_w_partitions`
    (lines 120-135): the unbounded ID3 learner. */
module Induction {
  import opened Wrappers
  import opened Table
  import opened Trees

  /** What `id3` works with besides the rows: the column of each attribute,
      the value universe of each attribute (from `get_uniq_values`), the
      target attribute, and `entropy(n, labels)`, whose floating-point
      computation with `math.log` is taken as given. */
  datatype Learner = Learner(
    nameToIdx: map<string, nat>,
    uniqs: map<string, set<string>>,
    target: string,
    entropy: (nat, OrderedMap<nat>) -> real)

  /** Which score a split records: the entropy (tree.py) or the gain
      (limiting_depth.py). */
  datatype ScoreKey = EntropyKey | GainKey

  /** Every row has a cell for every named column. */
  ghost predicate Wide(rows: seq<Row>, nameToIdx: map<string, nat>)
  {
    forall a | a in nameToIdx :: HasColumn(rows, nameToIdx[a])
  }

  lemma WideHasColumn(rows: seq<Row>, nameToIdx: map<string, nat>, a: string)
    requires Wide(rows, nameToIdx) && a in nameToIdx
    ensures HasColumn(rows, nameToIdx[a])
  {
  }

  /** The lookups `id3` makes cannot fail: the target and every remaining
      attribute are columns, every remaining attribute has a universe, and
      the rows have all the columns. */
  ghost predicate Fits(L: Learner, rows: seq<Row>, remaining: seq<string>)
  {
    && L.target in L.nameToIdx
    && (forall a | a in remaining :: a in L.nameToIdx && a in L.uniqs)
    && Wide(rows, L.nameToIdx)
  }

  /** `get_class_labels(data, target_attribute)`. */
  function Labels(L: Learner, rows: seq<Row>): OrderedMap<nat>
    requires L.target in L.nameToIdx && Wide(rows, L.nameToIdx)
  {
    WideHasColumn(rows, L.nameToIdx, L.target);
    Tally(rows, L.nameToIdx[L.target])
  }

  /** `partition_data(data, a)`. */
  function Partitions(L: Learner, rows: seq<Row>, a: string): OrderedMap<seq<Row>>
    requires a in L.nameToIdx && Wide(rows, L.nameToIdx)
  {
    WideHasColumn(rows, L.nameToIdx, a);
    Group(rows, L.nameToIdx[a])
  }

  /** A partition is a non-empty selection of the rows, all with its value. */
  lemma PartitionsWide(L: Learner, rows: seq<Row>, a: string, v: string)
    requires a in L.nameToIdx && Wide(rows, L.nameToIdx) && v in Partitions(L, rows, a).at
    ensures Partitions(L, rows, a).at[v] != []
    ensures forall x | x in Partitions(L, rows, a).at[v] :: x in rows && x[L.nameToIdx[a]] == v
    ensures Wide(Partitions(L, rows, a).at[v], L.nameToIdx)
  {
    WideHasColumn(rows, L.nameToIdx, a);
    PartitionSound(rows, L.nameToIdx[a], v);
    WideSub(rows, Partitions(L, rows, a).at[v], L.nameToIdx);
  }

  /** Rows taken from a table with all the columns have them too. */
  lemma WideSub(rows: seq<Row>, sub: seq<Row>, nameToIdx: map<string, nat>)
    requires Wide(rows, nameToIdx) && forall x | x in sub :: x in rows
    ensures Wide(sub, nameToIdx)
  {
    forall b | b in nameToIdx ensures HasColumn(sub, nameToIdx[b]) {
      SubHasColumn(rows, sub, nameToIdx[b]);
    }
  }

  lemma PartitionsListed(L: Learner, rows: seq<Row>, a: string)
    requires a in L.nameToIdx && Wide(rows, L.nameToIdx)
    ensures forall k | k in Partitions(L, rows, a).keys :: k in Partitions(L, rows, a).at
    ensures forall k | k in Partitions(L, rows, a).keys :: Wide(Partitions(L, rows, a).at[k], L.nameToIdx)
    ensures Partitions(L, rows, a).keys != [] ==> rows != []
  {
    WideHasColumn(rows, L.nameToIdx, a);
    forall k | k in Partitions(L, rows, a).keys
      ensures k in Partitions(L, rows, a).at && Wide(Partitions(L, rows, a).at[k], L.nameToIdx)
    {
      PartitionsWide(L, rows, a, k);
    }
  }

  /** `partition_n / n * partition_entropy`: a group's share of the
      average entropy. */
  function Weighted(size: nat, n: nat, e: real): real
    requires n > 0
  {
    (size as real / n as real) * e
  }

  /** The loop of `avg_entropy_w_partitions` over the groups listed in
      `keys`: each adds its share of the rows times its entropy. */
  function WeightedEntropy(L: Learner, g: OrderedMap<seq<Row>>, keys: seq<string>, n: nat): real
    requires L.target in L.nameToIdx
    requires forall k | k in keys :: k in g.at && Wide(g.at[k], L.nameToIdx)
    requires keys != [] ==> n > 0
  {
    if keys == [] then 0.0
    else
      var part := g.at[keys[|keys| - 1]];
      WeightedEntropy(L, g, keys[..|keys| - 1], n) + Weighted(|part|, n, L.entropy(|part|, Labels(L, part)))
  }

  /** One more group listed: its weighted entropy is added. */
  lemma WeightedEntropySnoc(L: Learner, g: OrderedMap<seq<Row>>, keys: seq<string>, k: nat, n: nat)
    requires L.target in L.nameToIdx && k < |keys| && n > 0
    requires forall k | k in keys :: k in g.at && Wide(g.at[k], L.nameToIdx)
    ensures Wide(g.at[keys[k]], L.nameToIdx)
    ensures WeightedEntropy(L, g, keys[..k + 1], n)
         == WeightedEntropy(L, g, keys[..k], n)
          + Weighted(|g.at[keys[k]]|, n, L.entropy(|g.at[keys[k]]|, Labels(L, g.at[keys[k]])))
  {
    assert keys[..k + 1][..k] == keys[..k];
  }

  /** The average entropy after splitting on `a`. */
  function AvgEntropy(L: Learner, rows: seq<Row>, a: string): real
    requires L.target in L.nameToIdx && a in L.nameToIdx && Wide(rows, L.nameToIdx)
  {
    PartitionsListed(L, rows, a);
    var g := Partitions(L, rows, a);
    WeightedEntropy(L, g, g.keys, |rows|)
  }

  /** `info_gain = ent - avg_ent`. */
  function Gain(L: Learner, rows: seq<Row>, a: string): real
    requires L.target in L.nameToIdx && a in L.nameToIdx && Wide(rows, L.nameToIdx)
  {
    L.entropy(|rows|, Labels(L, rows)) - AvgEntropy(L, rows, a)
  }

  /** The gain of each attribute, in iteration order. */
  function Gains(L: Learner, rows: seq<Row>, atts: seq<string>): (g: seq<real>)
    requires L.target in L.nameToIdx && Wide(rows, L.nameToIdx)
    requires forall a | a in atts :: a in L.nameToIdx
    ensures |g| == |atts|
  {
    seq(|atts|, i requires 0 <= i < |atts| => Gain(L, rows, atts[i]))
  }

  /** The running maximum of the gain loop: the first position whose value
      beats every earlier one strictly and is beaten by none. */
  function BestIndex(g: seq<real>): (i: nat)
    requires g != []
    ensures i < |g|
    ensures forall j | 0 <= j < |g| :: g[j] <= g[i]
    ensures forall j | 0 <= j < i :: g[j] < g[i]
  {
    if |g| == 1 then 0
    else
      var i := BestIndex(g[..|g| - 1]);
      if g[|g| - 1] > g[i] then |g| - 1 else i
  }

  lemma BestIndexSnoc(g: seq<real>, k: nat)
    requires 0 < k < |g|
    ensures BestIndex(g[..k + 1]) == if g[k] > g[BestIndex(g[..k])] then k else BestIndex(g[..k])
  {
    assert g[..k + 1][..k] == g[..k];
  }

  /** `set(remaining_atts)` with `discard(att)`: the attributes other than
      `x`, in their order. */
  function Remove(s: seq<string>, x: string): (r: seq<string>)
    ensures forall y :: y in r <==> y in s && y != x
    ensures x in s ==> |r| < |s|
    ensures |r| <= |s|
  {
    if s == [] then []
    else Remove(s[..|s| - 1], x) + (if s[|s| - 1] == x then [] else [s[|s| - 1]])
  }

  lemma ElementsRemove(s: seq<string>, x: string)
    ensures Elements(Remove(s, x)) == Elements(s) - {x}
  {
  }

  /** The split `id3` picks: the position and name of the chosen attribute,
      and its gain. */
  datatype Choice = Choice(index: nat, att: string, gain: real)

  function Choose(L: Learner, rows: seq<Row>, remaining: seq<string>): (c: Choice)
    requires Fits(L, rows, remaining) && remaining != []
    ensures c.index < |remaining| && c.att == remaining[c.index]
  {
    var gains := Gains(L, rows, remaining);
    var b := BestIndex(gains);
    Choice(b, remaining[b], gains[b])
  }

  /** The chosen attribute has the greatest gain, and every attribute
      iterated before it has a strictly smaller one. */
  lemma ChooseIsBest(L: Learner, rows: seq<Row>, remaining: seq<string>)
    requires Fits(L, rows, remaining) && remaining != []
    ensures Choose(L, rows, remaining).gain == Gain(L, rows, Choose(L, rows, remaining).att)
    ensures forall j | 0 <= j < |remaining| :: Gain(L, rows, remaining[j]) <= Choose(L, rows, remaining).gain
    ensures forall j | 0 <= j < Choose(L, rows, remaining).index :: Gain(L, rows, remaining[j]) < Choose(L, rows, remaining).gain
  {
    var gains := Gains(L, rows, remaining);
    var b := BestIndex(gains);
    assert Choose(L, rows, remaining).index == b;
    forall j | 0 <= j < |remaining| ensures gains[j] == Gain(L, rows, remaining[j]) {
    }
  }

  /** `most_common_label(labels)` of non-empty rows. */
  function Majority(L: Learner, rows: seq<Row>): string
    requires L.target in L.nameToIdx && Wide(rows, L.nameToIdx) && rows != []
  {
    MostCommonLabel(Labels(L, rows)).value
  }

  function ScoreOf(key: ScoreKey, ent: real, gain: real): Score
  {
    if key == EntropyKey then Entropy(ent) else InfoGain(gain)
  }

  /** The tree `id3` builds from non-empty rows. A single label makes a
      leaf; so does running out of attributes, with the majority label.
      Otherwise the best attribute splits, with one child per value of its
      universe. */
  ghost function Build(L: Learner, rows: seq<Row>, remaining: seq<string>, key: ScoreKey): Node
    requires Fits(L, rows, remaining) && rows != []
    decreases |remaining|, 3
  {
    var labels := Labels(L, rows);
    if |labels.keys| == 1 then Leaf(labels.keys[0])
    else if remaining == [] then Leaf(Majority(L, rows))
    else
      var c := Choose(L, rows, remaining);
      Decision(c.att, ScoreOf(key, L.entropy(|rows|, labels), c.gain), Children(L, rows, remaining, key))
  }

  /** Some member of a non-empty set; which one does not matter. */
  ghost function Pick(s: set<string>): (v: string)
    requires s != {}
    ensures v in s
  {
    var v :| v in s; v
  }

  /** The children of a split for the values in `vals`. */
  ghost function ChildrenOn(L: Learner, rows: seq<Row>, remaining: seq<string>, key: ScoreKey, vals: set<string>): map<string, Node>
    requires Fits(L, rows, remaining) && rows != [] && remaining != []
    decreases |remaining|, 1, vals
  {
    if vals == {} then map[]
    else
      var v := Pick(vals);
      ChildrenOn(L, rows, remaining, key, vals - {v})[v := Child(L, rows, remaining, key, v)]
  }

  /** The children of a split: one per value of the chosen attribute's universe. */
  ghost function Children(L: Learner, rows: seq<Row>, remaining: seq<string>, key: ScoreKey): map<string, Node>
    requires Fits(L, rows, remaining) && rows != [] && remaining != []
    decreases |remaining|, 2
  {
    ChildrenOn(L, rows, remaining, key, L.uniqs[Choose(L, rows, remaining).att])
  }

  lemma {:induction false} ChildrenOnKeys(L: Learner, rows: seq<Row>, remaining: seq<string>, key: ScoreKey, vals: set<string>)
    requires Fits(L, rows, remaining) && rows != [] && remaining != []
    ensures ChildrenOn(L, rows, remaining, key, vals).Keys == vals
    decreases vals
  {
    if vals != {} {
      ChildrenOnKeys(L, rows, remaining, key, vals - {Pick(vals)});
    }
  }

  lemma {:induction false} ChildrenOnValues(L: Learner, rows: seq<Row>, remaining: seq<string>, key: ScoreKey, vals: set<string>, v: string)
    requires Fits(L, rows, remaining) && rows != [] && remaining != [] && v in vals
    ensures v in ChildrenOn(L, rows, remaining, key, vals)
    ensures ChildrenOn(L, rows, remaining, key, vals)[v] == Child(L, rows, remaining, key, v)
    decreases vals
  {
    if v != Pick(vals) {
      ChildrenOnValues(L, rows, remaining, key, vals - {Pick(vals)}, v);
    }
  }

  /** The child for value `v` of the split on the chosen attribute: the tree
      of `v`'s partition over the other attributes, or, when no row has `v`,
      a leaf with the parent's majority label. */
  ghost function Child(L: Learner, rows: seq<Row>, remaining: seq<string>, key: ScoreKey, v: string): Node
    requires Fits(L, rows, remaining) && rows != [] && remaining != []
    decreases |remaining|, 0
  {
    var a := Choose(L, rows, remaining).att;
    var parts := Partitions(L, rows, a);
    if v in parts.at then
      PartitionsWide(L, rows, a, v);
      Build(L, parts.at[v], Remove(remaining, a), key)
    else Leaf(Majority(L, rows))
  }

  /** `id3` on any rows. With no rows there is no label: `most_common_label`
      raises when it is consulted, and it is not consulted only when the
      chosen attribute's universe is empty. */
  ghost function Induce(L: Learner, rows: seq<Row>, remaining: seq<string>, key: ScoreKey): Result<Node>
    requires Fits(L, rows, remaining)
  {
    if rows != [] then Ok(Build(L, rows, remaining, key))
    else if remaining == [] then Err(EmptyMax)
    else
      var c := Choose(L, rows, remaining);
      if L.uniqs[c.att] == {} then Ok(Decision(c.att, ScoreOf(key, L.entropy(0, Labels(L, rows)), c.gain), map[]))
      else Err(EmptyMax)
  }

  /** How `Build` splits, unfolded once. */
  lemma BuildSplits(L: Learner, rows: seq<Row>, remaining: seq<string>, key: ScoreKey)
    requires Fits(L, rows, remaining) && rows != [] && remaining != [] && |Labels(L, rows).keys| != 1
    ensures Build(L, rows, remaining, key)
         == Decision(Choose(L, rows, remaining).att,
                     ScoreOf(key, L.entropy(|rows|, Labels(L, rows)), Choose(L, rows, remaining).gain),
                     Children(L, rows, remaining, key))
  {
  }

  /** `avg_entropy_w_partitions(data, splitting_att, target_attribute)`. */
  method AvgEntropyWPartitions(L: Learner, rows: seq<Row>, att: string) returns (avg: real, parts: OrderedMap<seq<Row>>)
    requires L.target in L.nameToIdx && att in L.nameToIdx && Wide(rows, L.nameToIdx)
    ensures parts == Partitions(L, rows, att)
    ensures avg == AvgEntropy(L, rows, att)
  {
    WideHasColumn(rows, L.nameToIdx, att);
    var r := PartitionData(rows, L.nameToIdx, att);
    parts := r.value;
    PartitionsListed(L, rows, att);
    avg := 0.0;
    for k := 0 to |parts.keys|
      invariant avg == WeightedEntropy(L, parts, parts.keys[..k], |rows|)
    {
      avg := AddGroupEntropy(L, parts, k, |rows|, avg);
    }
    assert parts.keys[..|parts.keys|] == parts.keys;
  }

  /** One pass of the loop of `avg_entropy_w_partitions`: add the weighted
      entropy of the `k`-th group. */
  method AddGroupEntropy(L: Learner, parts: OrderedMap<seq<Row>>, k: nat, n: nat, avg: real) returns (sum: real)
    requires L.target in L.nameToIdx && k < |parts.keys| && n > 0
    requires forall k | k in parts.keys :: k in parts.at && Wide(parts.at[k], L.nameToIdx)
    requires avg == WeightedEntropy(L, parts, parts.keys[..k], n)
    ensures sum == WeightedEntropy(L, parts, parts.keys[..k + 1], n)
  {
    var partitioned := parts.at[parts.keys[k]];
    WeightedEntropySnoc(L, parts, parts.keys, k, n);
    WideHasColumn(partitioned, L.nameToIdx, L.target);
    var partitionLabels := GetClassLabels(partitioned, L.nameToIdx, L.target);
    var partitionEntropy := L.entropy(|partitioned|, partitionLabels.value);
    sum := avg + Weighted(|partitioned|, n, partitionEntropy);
  }

  /** The gain loop of `id3`: keep the first attribute whose gain is
      strictly greater than every gain before it. */
  method ChooseSplit(L: Learner, rows: seq<Row>, remaining: seq<string>, labels: OrderedMap<nat>, ent: real)
    returns (maxGain: real, maxAtt: string, maxParts: OrderedMap<seq<Row>>)
    requires Fits(L, rows, remaining) && remaining != []
    requires labels == Labels(L, rows) && ent == L.entropy(|rows|, labels)
    ensures maxGain == Choose(L, rows, remaining).gain
    ensures maxAtt == Choose(L, rows, remaining).att
    ensures maxParts == Partitions(L, rows, maxAtt)
  {
    ghost var gains := Gains(L, rows, remaining);
    ghost var best: nat := 0;
    var gainSoFar: Option<real> := None;
    maxAtt, maxParts := "", OrderedMap([], map[]);
    for k := 0 to |remaining|
      invariant gainSoFar.None? <==> k == 0
      invariant k > 0 ==> && best == BestIndex(gains[..k])
                          && gainSoFar == Some(gains[best])
                          && maxAtt == remaining[best]
                          && maxParts == Partitions(L, rows, maxAtt)
    {
      var avg, parts := AvgEntropyWPartitions(L, rows, remaining[k]);
      var infoGain := ent - avg;
      assert infoGain == gains[k];
      if k > 0 {
        BestIndexSnoc(gains, k);
      }
      if gainSoFar.None? || infoGain > gainSoFar.value {
        gainSoFar := Some(infoGain);
        maxAtt := remaining[k];
        maxParts := parts;
        best := k;
      }
    }
    assert gains[..|remaining|] == gains;
    maxGain := gainSoFar.value;
  }

  /** One pass of the child loop of `id3`, for the value `v`: a majority
      leaf when no row has `v` (where `most_common_label` raises if there
      are no rows at all), else the tree of `v`'s partition. */
  method GrowChild(L: Learner, rows: seq<Row>, remaining: seq<string>, key: ScoreKey, labels: OrderedMap<nat>,
                   a: string, parts: OrderedMap<seq<Row>>, v: string)
    returns (r: Result<Node>)
    requires Fits(L, rows, remaining) && remaining != [] && labels == Labels(L, rows)
    requires a == Choose(L, rows, remaining).att && parts == Partitions(L, rows, a)
    ensures r == if rows == [] then Err(EmptyMax) else Ok(Child(L, rows, remaining, key, v))
    decreases |remaining|, 0
  {
    if v !in parts.at {
      var m := MostCommonLabel(labels);
      if m.None? {
        return Err(EmptyMax);
      }
      return Ok(Leaf(m.value));
    }
    PartitionsWide(L, rows, a, v);
    r := Id3(L, parts.at[v], Remove(remaining, a), key);
  }

  /** The child for a value of the chosen attribute's universe, as the
      children of the split hold it. */
  method GrowChildOf(L: Learner, rows: seq<Row>, remaining: seq<string>, key: ScoreKey, labels: OrderedMap<nat>,
                     a: string, parts: OrderedMap<seq<Row>>, v: string)
    returns (r: Result<Node>)
    requires Fits(L, rows, remaining) && remaining != [] && labels == Labels(L, rows)
    requires a == Choose(L, rows, remaining).att && parts == Partitions(L, rows, a)
    requires v in L.uniqs[a]
    ensures rows == [] ==> r == Err(EmptyMax)
    ensures rows != [] ==> v in Children(L, rows, remaining, key) && r == Ok(Children(L, rows, remaining, key)[v])
    decreases |remaining|, 1
  {
    r := GrowChild(L, rows, remaining, key, labels, a, parts, v);
    if rows != [] {
      ChildrenOnValues(L, rows, remaining, key, L.uniqs[a], v);
    }
  }

  /** The child loop of `id3`: one child per value of the chosen attribute's
      universe, visited in no particular order. */
  method GrowChildren(L: Learner, rows: seq<Row>, remaining: seq<string>, key: ScoreKey, labels: OrderedMap<nat>,
                      a: string, parts: OrderedMap<seq<Row>>)
    returns (r: Result<map<string, Node>>)
    requires Fits(L, rows, remaining) && remaining != [] && labels == Labels(L, rows)
    requires a == Choose(L, rows, remaining).att && parts == Partitions(L, rows, a)
    ensures rows != [] ==> r == Ok(Children(L, rows, remaining, key))
    ensures rows == [] ==> r == if L.uniqs[a] == {} then Ok(map[]) else Err(EmptyMax)
    decreases |remaining|, 2
  {
    var universe := L.uniqs[a];
    ghost var want: map<string, Node> := map[];
    if rows != [] {
      want := Children(L, rows, remaining, key);
      ChildrenOnKeys(L, rows, remaining, key, universe);
    }
    var nodes: map<string, Node> := map[];
    var todo := universe;
    while todo != {}
      invariant todo <= universe
      invariant forall v :: v in nodes <==> v in universe && v !in todo
      invariant forall v | v in nodes :: v in want && nodes[v] == want[v]
      decreases todo
    {
      var v :| v in todo;
      var child := GrowChildOf(L, rows, remaining, key, labels, a, parts, v);
      if child.Err? {
        return Err(child.error);
      }
      nodes := nodes[v := child.value];
      todo := todo - {v};
    }
    if rows != [] {
      MapsAgree(nodes, want);
    }
    return Ok(nodes);
  }

  /** `id3(data, uniqs, remaining_atts, target_attribute)`. */
  method Id3(L: Learner, rows: seq<Row>, remaining: seq<string>, key: ScoreKey) returns (r: Result<Node>)
    requires Fits(L, rows, remaining)
    ensures r == Induce(L, rows, remaining, key)
    decreases |remaining|, 3
  {
    WideHasColumn(rows, L.nameToIdx, L.target);
    var labelsOr := GetClassLabels(rows, L.nameToIdx, L.target);
    var labels := labelsOr.value;
    assert labels == Labels(L, rows);
    if |labels.keys| == 1 {
      return Ok(Leaf(labels.keys[0]));
    }
    if |remaining| == 0 {
      var m := MostCommonLabel(labels);
      if m.None? {
        return Err(EmptyMax);
      }
      return Ok(Leaf(m.value));
    }
    var n := |rows|;
    var ent := L.entropy(n, labels);
    var maxGain, maxAtt, maxParts := ChooseSplit(L, rows, remaining, labels, ent);
    var score := if key == EntropyKey then Entropy(ent) else InfoGain(maxGain);
    var nodes := GrowChildren(L, rows, remaining, key, labels, maxAtt, maxParts);
    if nodes.Err? {
      return Err(nodes.error);
    }
    if rows != [] {
      BuildSplits(L, rows, remaining, key);
    }
    return Ok(Decision(maxAtt, score, nodes.value));
  }

  // Properties of the learned tree

  /** The target label of a row. */
  function LabelOf(L: Learner, r: Row): string
    requires L.target in L.nameToIdx && L.nameToIdx[L.target] < |r|
  {
    r[L.nameToIdx[L.target]]
  }

  /** A single label: every row holds it, and the tree is a leaf with it. */
  lemma BuildPure(L: Learner, rows: seq<Row>, remaining: seq<string>, key: ScoreKey)
    requires Fits(L, rows, remaining) && rows != [] && |Labels(L, rows).keys| == 1
    ensures Build(L, rows, remaining, key) == Leaf(Labels(L, rows).keys[0])
    ensures forall r | r in rows :: LabelOf(L, r) == Labels(L, rows).keys[0]
  {
    var col := L.nameToIdx[L.target];
    WideHasColumn(rows, L.nameToIdx, L.target);
    TallyKeys(rows, col);
    var labels := Labels(L, rows);
    forall r | r in rows ensures LabelOf(L, r) == labels.keys[0] {
      assert r[col] in ColumnValues(rows, col);
      assert r[col] in labels.keys;
    }
  }

  /** Out of attributes with several labels: the tree is a leaf whose label
      is counted at least as often as any other. */
  lemma BuildExhausted(L: Learner, rows: seq<Row>, key: ScoreKey)
    requires Fits(L, rows, []) && rows != [] && |Labels(L, rows).keys| != 1
    ensures Build(L, rows, [], key).Leaf?
    ensures Build(L, rows, [], key).classLabel in Labels(L, rows).at
    ensures forall k | k in Labels(L, rows).at :: Labels(L, rows).at[k] <= Labels(L, rows).at[Build(L, rows, [], key).classLabel]
  {
  }

  /** How a split looks: the chosen attribute has the greatest gain and comes
      first among those with it, there is one child per value of its
      universe, and a value no row holds gets the majority label. */
  lemma BuildSplitShape(L: Learner, rows: seq<Row>, remaining: seq<string>, key: ScoreKey)
    requires Fits(L, rows, remaining) && rows != [] && remaining != [] && |Labels(L, rows).keys| != 1
    ensures var t := Build(L, rows, remaining, key);
      && t.Decision?
      && t.attribute == remaining[Choose(L, rows, remaining).index]
      && (forall j | 0 <= j < |remaining| :: Gain(L, rows, remaining[j]) <= Gain(L, rows, t.attribute))
      && (forall j | 0 <= j < Choose(L, rows, remaining).index :: Gain(L, rows, remaining[j]) < Gain(L, rows, t.attribute))
      && t.children.Keys == L.uniqs[t.attribute]
      && (forall v | v in t.children :: t.children[v] == Child(L, rows, remaining, key, v))
      && (forall v | v in t.children && v !in Partitions(L, rows, t.attribute).at :: t.children[v] == Leaf(Majority(L, rows)))
  {
    BuildSplits(L, rows, remaining, key);
    ChooseIsBest(L, rows, remaining);
    var a := Choose(L, rows, remaining).att;
    ChildrenOnKeys(L, rows, remaining, key, L.uniqs[a]);
    forall v | v in L.uniqs[a] ensures Children(L, rows, remaining, key)[v] == Child(L, rows, remaining, key, v) {
      ChildrenOnValues(L, rows, remaining, key, L.uniqs[a], v);
    }
  }

  /** The example `get_label` is asked about for a row: its value under
      every column name. */
  function ExampleOf(L: Learner, r: Row): (ex: Example)
    requires forall a | a in L.nameToIdx :: L.nameToIdx[a] < |r|
    ensures forall a | a in L.nameToIdx :: a in ex && ex[a] == r[L.nameToIdx[a]]
  {
    map a | a in L.nameToIdx :: r[L.nameToIdx[a]]
  }

  /** Rows that agree on every attribute in `atts` have the same label. */
  ghost predicate Consistent(L: Learner, rows: seq<Row>, atts: seq<string>)
    requires Fits(L, rows, atts)
  {
    forall i, j | 0 <= i < |rows| && 0 <= j < |rows| && Agree(L, rows[i], rows[j], atts) :: LabelOf(L, rows[i]) == LabelOf(L, rows[j])
  }

  /** Two rows hold the same value for every attribute in `atts`. */
  ghost predicate Agree(L: Learner, r1: Row, r2: Row, atts: seq<string>)
  {
    forall a | a in atts && a in L.nameToIdx && L.nameToIdx[a] < |r1| && L.nameToIdx[a] < |r2| :: r1[L.nameToIdx[a]] == r2[L.nameToIdx[a]]
  }

  /** Every value the rows hold for an attribute is in its universe. */
  ghost predicate Covered(L: Learner, rows: seq<Row>, atts: seq<string>)
    requires Fits(L, rows, atts)
  {
    forall i, a | 0 <= i < |rows| && a in atts :: rows[i][L.nameToIdx[a]] in L.uniqs[a]
  }

  /** The rows of a partition, over the other attributes, still fit. */
  lemma PartFits(L: Learner, rows: seq<Row>, remaining: seq<string>, a: string, v: string)
    requires Fits(L, rows, remaining) && a in remaining && v in Partitions(L, rows, a).at
    ensures Partitions(L, rows, a).at[v] != []
    ensures Fits(L, Partitions(L, rows, a).at[v], Remove(remaining, a))
    ensures forall x | x in Partitions(L, rows, a).at[v] :: x in rows && x[L.nameToIdx[a]] == v
  {
    PartitionsWide(L, rows, a, v);
  }

  /** With universes that cover the rows and labels that the remaining
      attributes determine, the tree classifies every row of its training
      data by that row's own label. */
  lemma {:induction false} Memorize(L: Learner, rows: seq<Row>, remaining: seq<string>, key: ScoreKey, i: nat)
    requires Fits(L, rows, remaining) && i < |rows|
    requires Consistent(L, rows, remaining) && Covered(L, rows, remaining)
    ensures GetLabel(Build(L, rows, remaining, key), ExampleOf(L, rows[i])) == Ok(LabelOf(L, rows[i]))
    decreases |remaining|
  {
    var r := rows[i];
    var labels := Labels(L, rows);
    if |labels.keys| == 1 {
      BuildPure(L, rows, remaining, key);
    } else if remaining == [] {
      SingleLabel(L, rows, i);
    } else {
      var a := Choose(L, rows, remaining).att;
      var v := r[L.nameToIdx[a]];
      FollowBranch(L, rows, remaining, key, i);
      var part := Partitions(L, rows, a).at[v];
      var k :| 0 <= k < |part| && part[k] == r;
      PartConsistent(L, rows, remaining, a, v);
      Memorize(L, part, Remove(remaining, a), key, k);
    }
  }

  /** A row of the training data goes down the branch of its own value,
      which is the tree of that value's partition. */
  lemma FollowBranch(L: Learner, rows: seq<Row>, remaining: seq<string>, key: ScoreKey, i: nat)
    requires Fits(L, rows, remaining) && remaining != [] && i < |rows| && |Labels(L, rows).keys| != 1
    requires Covered(L, rows, remaining)
    ensures var a := Choose(L, rows, remaining).att;
            var v := rows[i][L.nameToIdx[a]];
            && v in Partitions(L, rows, a).at
            && rows[i] in Partitions(L, rows, a).at[v]
            && Fits(L, Partitions(L, rows, a).at[v], Remove(remaining, a))
            && GetLabel(Build(L, rows, remaining, key), ExampleOf(L, rows[i]))
               == GetLabel(Build(L, Partitions(L, rows, a).at[v], Remove(remaining, a), key), ExampleOf(L, rows[i]))
  {
    var a := Choose(L, rows, remaining).att;
    var v := rows[i][L.nameToIdx[a]];
    BuildSplitShape(L, rows, remaining, key);
    WideHasColumn(rows, L.nameToIdx, a);
    GroupedRow(rows, L.nameToIdx[a], rows[i]);
    PartFits(L, rows, remaining, a, v);
    ChildPresent(L, rows, remaining, key, v);
  }

  /** The child for a value some row holds is the tree of its partition. */
  lemma ChildPresent(L: Learner, rows: seq<Row>, remaining: seq<string>, key: ScoreKey, v: string)
    requires Fits(L, rows, remaining) && rows != [] && remaining != []
    requires v in Partitions(L, rows, Choose(L, rows, remaining).att).at
    ensures var a := Choose(L, rows, remaining).att;
            && Partitions(L, rows, a).at[v] != []
            && Fits(L, Partitions(L, rows, a).at[v], Remove(remaining, a))
            && Child(L, rows, remaining, key, v) == Build(L, Partitions(L, rows, a).at[v], Remove(remaining, a), key)
  {
    PartFits(L, rows, remaining, Choose(L, rows, remaining).att, v);
  }

  /** With no attributes left, consistent rows all carry one label, so the
      tally has a single key. */
  lemma SingleLabel(L: Learner, rows: seq<Row>, i: nat)
    requires Fits(L, rows, []) && i < |rows| && Consistent(L, rows, [])
    ensures |Labels(L, rows).keys| == 1
  {
    var col := L.nameToIdx[L.target];
    WideHasColumn(rows, L.nameToIdx, L.target);
    TallyKeys(rows, col);
    TallyWellOrdered(rows, col);
    var labels := Labels(L, rows);
    var x := rows[i][col];
    forall k | k in labels.keys ensures k == x {
      assert k in ColumnValues(rows, col);
      var j :| 0 <= j < |rows| && rows[j][col] == k;
      assert Agree(L, rows[j], rows[i], []);
    }
    assert x in ColumnValues(rows, col);
    assert Elements(labels.keys) == {x};
    DistinctCard(labels.keys);
  }

  /** A partition inherits consistency and coverage for the other attributes. */
  lemma PartConsistent(L: Learner, rows: seq<Row>, remaining: seq<string>, a: string, v: string)
    requires Fits(L, rows, remaining) && a in remaining && v in Partitions(L, rows, a).at
    requires Consistent(L, rows, remaining) && Covered(L, rows, remaining)
    ensures Fits(L, Partitions(L, rows, a).at[v], Remove(remaining, a))
    ensures Consistent(L, Partitions(L, rows, a).at[v], Remove(remaining, a))
    ensures Covered(L, Partitions(L, rows, a).at[v], Remove(remaining, a))
  {
    PartFits(L, rows, remaining, a, v);
    var part := Partitions(L, rows, a).at[v];
    var rest := Remove(remaining, a);
    forall p, q | 0 <= p < |part| && 0 <= q < |part| && Agree(L, part[p], part[q], rest)
      ensures LabelOf(L, part[p]) == LabelOf(L, part[q])
    {
      assert part[p] in part && part[q] in part;
      var i :| 0 <= i < |rows| && rows[i] == part[p];
      var j :| 0 <= j < |rows| && rows[j] == part[q];
      assert Agree(L, rows[i], rows[j], remaining);
    }
    PartCovered(L, rows, remaining, a, v);
  }

  /** A partition inherits coverage for the other attributes. */
  lemma PartCovered(L: Learner, rows: seq<Row>, remaining: seq<string>, a: string, v: string)
    requires Fits(L, rows, remaining) && a in remaining && v in Partitions(L, rows, a).at
    requires Covered(L, rows, remaining)
    ensures Fits(L, Partitions(L, rows, a).at[v], Remove(remaining, a))
    ensures Covered(L, Partitions(L, rows, a).at[v], Remove(remaining, a))
  {
    PartFits(L, rows, remaining, a, v);
    var part := Partitions(L, rows, a).at[v];
    var rest := Remove(remaining, a);
    forall p, b | 0 <= p < |part| && b in rest ensures part[p][L.nameToIdx[b]] in L.uniqs[b] {
      assert part[p] in part;
      var i :| 0 <= i < |rows| && rows[i] == part[p];
    }
  }

  /** Some row carries a label the tally lists. */
  lemma LabelInData(L: Learner, rows: seq<Row>, l: string)
    requires L.target in L.nameToIdx && Wide(rows, L.nameToIdx) && l in Labels(L, rows).at
    ensures exists i | 0 <= i < |rows| :: LabelOf(L, rows[i]) == l
  {
    var col := L.nameToIdx[L.target];
    WideHasColumn(rows, L.nameToIdx, L.target);
    TallyKeys(rows, col);
    assert l in ColumnValues(rows, col);
  }

  /** A label carried by a row of a partition is carried by a training row. */
  lemma LabelFromPart(L: Learner, rows: seq<Row>, remaining: seq<string>, a: string, v: string, l: string)
    requires Fits(L, rows, remaining) && a in remaining && v in Partitions(L, rows, a).at
    requires Fits(L, Partitions(L, rows, a).at[v], Remove(remaining, a))
    requires exists k | 0 <= k < |Partitions(L, rows, a).at[v]| :: LabelOf(L, Partitions(L, rows, a).at[v][k]) == l
    ensures exists i | 0 <= i < |rows| :: LabelOf(L, rows[i]) == l
  {
    PartFits(L, rows, remaining, a, v);
    var part := Partitions(L, rows, a).at[v];
    var k :| 0 <= k < |part| && LabelOf(L, part[k]) == l;
    assert part[k] in part;
    var i :| 0 <= i < |rows| && rows[i] == part[k];
  }

  /** Every leaf label of the tree is the label of some training row. */
  lemma {:induction false} LeavesFromData(L: Learner, rows: seq<Row>, remaining: seq<string>, key: ScoreKey, p: Path)
    requires Fits(L, rows, remaining) && rows != [] && p in Paths(Build(L, rows, remaining, key))
    ensures exists i | 0 <= i < |rows| :: LabelOf(L, rows[i]) == p.classLabel
    decreases |remaining|, 1
  {
    var labels := Labels(L, rows);
    if |labels.keys| == 1 {
      BuildPure(L, rows, remaining, key);
      assert labels.keys[0] in labels.keys;
      LabelInData(L, rows, p.classLabel);
    } else if remaining == [] {
      BuildExhausted(L, rows, key);
      LabelInData(L, rows, p.classLabel);
    } else {
      BuildSplitShape(L, rows, remaining, key);
      var t := Build(L, rows, remaining, key);
      var v, q :| v in t.children && q in Paths(t.children[v]) && p == Path([(t.attribute, v)] + q.conds, q.classLabel);
      LeavesFromChild(L, rows, remaining, key, v, q);
    }
  }

  /** The same for the leaves below the child for `v`. */
  lemma {:induction false} LeavesFromChild(L: Learner, rows: seq<Row>, remaining: seq<string>, key: ScoreKey, v: string, q: Path)
    requires Fits(L, rows, remaining) && rows != [] && remaining != []
    requires q in Paths(Child(L, rows, remaining, key, v))
    ensures exists i | 0 <= i < |rows| :: LabelOf(L, rows[i]) == q.classLabel
    decreases |remaining|, 0
  {
    var a := Choose(L, rows, remaining).att;
    if v in Partitions(L, rows, a).at {
      ChildPresent(L, rows, remaining, key, v);
      LeavesFromData(L, Partitions(L, rows, a).at[v], Remove(remaining, a), key, q);
      LabelFromPart(L, rows, remaining, a, v, q.classLabel);
    } else {
      var m := Majority(L, rows);
      assert Paths(Leaf(m)) == {Path([], m)};
      LabelInData(L, rows, m);
    }
  }

  /** Every path of the tree tests distinct remaining attributes, and no
      more of them than there are. */
  lemma {:induction false} BuildRespects(L: Learner, rows: seq<Row>, remaining: seq<string>, key: ScoreKey)
    requires Fits(L, rows, remaining) && rows != []
    ensures AttributesFrom(Build(L, rows, remaining, key), Elements(remaining))
    ensures DecisionsAtMost(Build(L, rows, remaining, key), |remaining|)
    decreases |remaining|
  {
    if |Labels(L, rows).keys| != 1 && remaining != [] {
      BuildSplitShape(L, rows, remaining, key);
      var t := Build(L, rows, remaining, key);
      var a := t.attribute;
      var rest := Remove(remaining, a);
      ElementsRemove(remaining, a);
      forall v | v in t.children
        ensures AttributesFrom(t.children[v], Elements(remaining) - {a})
        ensures DecisionsAtMost(t.children[v], |remaining| - 1)
      {
        if v in Partitions(L, rows, a).at {
          ChildPresent(L, rows, remaining, key, v);
          BuildRespects(L, Partitions(L, rows, a).at[v], rest, key);
          DecisionsAtMostRaise(t.children[v], |rest|, |remaining| - 1);
        }
      }
    }
  }

  /** The training values of one column lie in the corrected universe of the
      column's name. */
  lemma CoverColumn(header: seq<string>, idxToName: map<nat, string>, nameToIdx: map<string, nat>, rows: seq<Row>, a: string)
    requires NameMapsOf(header, idxToName, nameToIdx) && CoversIndices(rows, idxToName) && a in nameToIdx
    ensures nameToIdx[a] in idxToName && idxToName[nameToIdx[a]] == a
    ensures HasColumn(rows, nameToIdx[a]) && a in UniqValues(rows, idxToName)
    ensures forall i | 0 <= i < |rows| :: rows[i][nameToIdx[a]] in UniqValues(rows, idxToName)[a]
  {
    var n := nameToIdx[a];
    assert IsLastIndex(header, a, n);
    assert n in idxToName && idxToName[n] == a;
    forall i | 0 <= i < |rows| ensures rows[i][n] in UniqValues(rows, idxToName)[a] {
      UniqValuesComplete(rows, idxToName, i, n);
    }
  }

  /** With the corrected value universes of the training table, every
      training value is in its attribute's universe. */
  lemma UniversesCover(L: Learner, header: seq<string>, idxToName: map<nat, string>, rows: seq<Row>, remaining: seq<string>)
    requires NameMapsOf(header, idxToName, L.nameToIdx) && CoversIndices(rows, idxToName)
    requires L.uniqs == UniqValues(rows, idxToName) && Fits(L, rows, remaining)
    ensures Covered(L, rows, remaining)
  {
    forall a | a in remaining
      ensures HasColumn(rows, L.nameToIdx[a])
      ensures forall i | 0 <= i < |rows| :: rows[i][L.nameToIdx[a]] in L.uniqs[a]
    {
      CoverColumn(header, idxToName, L.nameToIdx, rows, a);
    }
  }

  /** The universes `get_uniq_values` builds as written cover the training
      rows too, when no cell of the table equals a column name. */
  lemma UniversesCoverAsWritten(L: Learner, header: seq<string>, idxToName: map<nat, string>, rows: seq<Row>, remaining: seq<string>)
    requires NameMapsOf(header, idxToName, L.nameToIdx) && CoversIndices(rows, idxToName)
    requires forall i, n | 0 <= i < |rows| && n in idxToName :: rows[i][n] !in idxToName.Values
    requires L.uniqs == UniqValuesAsWritten(rows, idxToName) && Fits(L, rows, remaining)
    ensures Covered(L, rows, remaining)
  {
    UniqValuesAsWrittenAgrees(rows, idxToName);
    UniversesCover(L, header, idxToName, rows, remaining);
  }

  /** The score a split records plays no part in prediction: tree.py's tree
      (scored by entropy) and the same tree scored by gain answer every
      example alike. */
  lemma {:induction false} KeyIrrelevant(L: Learner, rows: seq<Row>, remaining: seq<string>, ex: Example)
    requires Fits(L, rows, remaining) && rows != []
    ensures GetLabelOrNone(Build(L, rows, remaining, EntropyKey), ex) == GetLabelOrNone(Build(L, rows, remaining, GainKey), ex)
    decreases |remaining|, 1
  {
    if |Labels(L, rows).keys| != 1 && remaining != [] {
      BuildSplitShape(L, rows, remaining, EntropyKey);
      BuildSplitShape(L, rows, remaining, GainKey);
      var a := Choose(L, rows, remaining).att;
      if a in ex && ex[a] in L.uniqs[a] {
        ChildIrrelevant(L, rows, remaining, ex, ex[a]);
      }
    }
  }

  /** The same for the child of one value. */
  lemma {:induction false} ChildIrrelevant(L: Learner, rows: seq<Row>, remaining: seq<string>, ex: Example, v: string)
    requires Fits(L, rows, remaining) && rows != [] && remaining != []
    ensures GetLabelOrNone(Child(L, rows, remaining, EntropyKey, v), ex) == GetLabelOrNone(Child(L, rows, remaining, GainKey, v), ex)
    decreases |remaining|, 0
  {
    var a := Choose(L, rows, remaining).att;
    var parts := Partitions(L, rows, a);
    if v in parts.at {
      PartFits(L, rows, remaining, a, v);
      KeyIrrelevant(L, parts.at[v], Remove(remaining, a), ex);
    }
  }
}
