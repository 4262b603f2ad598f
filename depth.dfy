/** `id3` of limiting_depth.py (lines 156-213): the learner with an optional
    depth counter. Without a depth it builds what tree.py's `id3` builds
    (the split records its gain); a depth `d` is passed down as `d - 1`, and
    at depth 0 the loop over the chosen attribute's universe returns at the
    first value some row holds, with the children collected so far. */
module Depth {
  import opened Wrappers
  import opened Table
  import opened Trees
  import opened Induction

  /** The depth a child is built with: none stays none, a number counts down. */
  function Next(depth: Option<int>): Option<int>
  {
    match depth
    case None => None
    case Some(d) => Some(d - 1)
  }

  /** A depth that never meets 0 on the way down: none, or a negative number. */
  predicate Unbounded(depth: Option<int>)
  {
    depth.None? || depth.value < 0
  }

  /** The trees `id3(..., depth)` can return for non-empty rows, whatever
      order the universe sets are visited in: the stop conditions come
      first and do not look at the depth; a split is the one tree.py makes,
      recording its gain, with the children `DepthChildren` allows. */
  ghost predicate DepthTree(L: Learner, rows: seq<Row>, remaining: seq<string>, depth: Option<int>, t: Node)
    requires Fits(L, rows, remaining) && rows != []
    decreases |remaining|, 2
  {
    var labels := Labels(L, rows);
    if |labels.keys| == 1 then t == Leaf(labels.keys[0])
    else if remaining == [] then t == Leaf(Majority(L, rows))
    else
      var c := Choose(L, rows, remaining);
      && t.Decision? && t.attribute == c.att && t.score == InfoGain(c.gain)
      && DepthChildren(L, rows, remaining, depth, t.children)
  }

  /** The children of a split. At depth 0 the loop stops at the first value
      some row holds, so the children are majority leaves for some of the
      values no row holds (all of them when no row holds any value of the
      universe). At any other depth there is one child per universe value. */
  ghost predicate DepthChildren(L: Learner, rows: seq<Row>, remaining: seq<string>, depth: Option<int>, ch: map<string, Node>)
    requires Fits(L, rows, remaining) && rows != [] && remaining != []
    decreases |remaining|, 1
  {
    var a := Choose(L, rows, remaining).att;
    var parts := Partitions(L, rows, a);
    var universe := L.uniqs[a];
    if depth == Some(0) then
      && ch.Keys <= universe - parts.at.Keys
      && (forall v | v in ch :: ch[v] == Leaf(Majority(L, rows)))
      && (universe * parts.at.Keys == {} ==> ch.Keys == universe)
    else
      && ch.Keys == universe
      && forall v | v in ch :: DepthChild(L, rows, remaining, depth, v, ch[v])
  }

  /** The child for `v` above depth 0: a tree of `v`'s partition over the
      other attributes, one level deeper, or a majority leaf when no row
      holds `v`. */
  ghost predicate DepthChild(L: Learner, rows: seq<Row>, remaining: seq<string>, depth: Option<int>, v: string, t: Node)
    requires Fits(L, rows, remaining) && rows != [] && remaining != []
    decreases |remaining|, 0
  {
    var a := Choose(L, rows, remaining).att;
    var parts := Partitions(L, rows, a);
    if v in parts.at then
      PartFits(L, rows, remaining, a, v);
      DepthTree(L, parts.at[v], Remove(remaining, a), Next(depth), t)
    else t == Leaf(Majority(L, rows))
  }

  /** One pass of the child loop for a value the loop does not stop at. */
  method GrowDepthChild(L: Learner, rows: seq<Row>, remaining: seq<string>, depth: Option<int>, labels: OrderedMap<nat>,
                        att: string, parts: OrderedMap<seq<Row>>, v: string)
    returns (r: Result<Node>)
    requires Fits(L, rows, remaining) && remaining != [] && labels == Labels(L, rows)
    requires att == Choose(L, rows, remaining).att && parts == Partitions(L, rows, att)
    requires !(v in parts.at && depth == Some(0))
    ensures rows == [] ==> r == Err(EmptyMax)
    ensures rows != [] ==> r.Ok? && DepthChild(L, rows, remaining, depth, v, r.value)
    decreases |remaining|, 1
  {
    if v !in parts.at {
      var m := MostCommonLabel(labels);
      if m.None? {
        return Err(EmptyMax);
      }
      return Ok(Leaf(m.value));
    }
    r := GrowPartition(L, rows, remaining, depth, att, parts, v);
  }

  /** The child for a value some row holds, above depth 0: the tree of its
      partition, with no depth or one less. */
  method GrowPartition(L: Learner, rows: seq<Row>, remaining: seq<string>, depth: Option<int>,
                       att: string, parts: OrderedMap<seq<Row>>, v: string)
    returns (r: Result<Node>)
    requires Fits(L, rows, remaining) && remaining != []
    requires att == Choose(L, rows, remaining).att && parts == Partitions(L, rows, att)
    requires v in parts.at && depth != Some(0)
    ensures rows != [] && r.Ok? && DepthChild(L, rows, remaining, depth, v, r.value)
    decreases |remaining|, 0
  {
    PartFits(L, rows, remaining, att, v);
    var partition := parts.at[v];
    var rest := Remove(remaining, att);
    if depth == None {
      r := Id3Depth(L, partition, rest, None);
    } else {
      var deeper := Some(depth.value - 1);
      assert deeper == Next(depth);
      r := Id3Depth(L, partition, rest, deeper);
    }
  }

  /** The child loop of the depth-limited `id3`, visiting the universe in no
      particular order. */
  method GrowDepthChildren(L: Learner, rows: seq<Row>, remaining: seq<string>, depth: Option<int>, labels: OrderedMap<nat>,
                           att: string, parts: OrderedMap<seq<Row>>)
    returns (r: Result<map<string, Node>>)
    requires Fits(L, rows, remaining) && remaining != [] && labels == Labels(L, rows)
    requires att == Choose(L, rows, remaining).att && parts == Partitions(L, rows, att)
    ensures rows == [] ==> r == if L.uniqs[att] == {} then Ok(map[]) else Err(EmptyMax)
    ensures rows != [] ==> r.Ok? && DepthChildren(L, rows, remaining, depth, r.value)
    decreases |remaining|, 2
  {
    var universe := L.uniqs[att];
    var nodes: map<string, Node> := map[];
    var todo := universe;
    while todo != {}
      invariant todo <= universe
      invariant forall v :: v in nodes <==> v in universe && v !in todo
      invariant rows == [] ==> nodes == map[]
      invariant depth == Some(0) ==> forall v | v in nodes :: v !in parts.at && nodes[v] == Leaf(Majority(L, rows))
      invariant depth != Some(0) && rows != [] ==> forall v | v in nodes :: DepthChild(L, rows, remaining, depth, v, nodes[v])
      decreases todo
    {
      var v :| v in todo;
      if v in parts.at && depth == Some(0) {
        assert v in universe * parts.at.Keys;
        return Ok(nodes);
      }
      var child := GrowDepthChild(L, rows, remaining, depth, labels, att, parts, v);
      if child.Err? {
        return Err(child.error);
      }
      nodes := nodes[v := child.value];
      todo := todo - {v};
    }
    return Ok(nodes);
  }

  /** `id3(data, uniqs, remaining_atts, target_attribute, depth)`. Without
      rows it fails or returns as tree.py's `id3` does, since no value of
      the universe is held by a row and the depth is never consulted. */
  method Id3Depth(L: Learner, rows: seq<Row>, remaining: seq<string>, depth: Option<int>) returns (r: Result<Node>)
    requires Fits(L, rows, remaining)
    ensures rows != [] ==> r.Ok? && DepthTree(L, rows, remaining, depth, r.value)
    ensures rows == [] ==> r == Induce(L, rows, remaining, GainKey)
    decreases |remaining|, 3
  {
    WideHasColumn(rows, L.nameToIdx, L.target);
    var labelsOr := GetClassLabels(rows, L.nameToIdx, L.target);
    var labels := labelsOr.value;
    assert labels == Labels(L, rows);
    if |labels.keys| == 1 {
      return Ok(Leaf(labels.keys[0]));
    }
    if |remaining| == 0 {
      var m := MostCommonLabel(labels);
      if m.None? {
        return Err(EmptyMax);
      }
      return Ok(Leaf(m.value));
    }
    var n := |rows|;
    var ent := L.entropy(n, labels);
    var maxGain, maxAtt, maxParts := ChooseSplit(L, rows, remaining, labels, ent);
    var nodes := GrowDepthChildren(L, rows, remaining, depth, labels, maxAtt, maxParts);
    if nodes.Err? {
      return Err(nodes.error);
    }
    return Ok(Decision(maxAtt, InfoGain(maxGain), nodes.value));
  }

  /** A pure or attribute-exhausted subset is a leaf whatever the depth: the
      same leaf tree.py's `id3` makes. */
  lemma DepthStops(L: Learner, rows: seq<Row>, remaining: seq<string>, depth: Option<int>, t: Node)
    requires Fits(L, rows, remaining) && rows != []
    requires |Labels(L, rows).keys| == 1 || remaining == []
    ensures DepthTree(L, rows, remaining, depth, t) <==> t == Build(L, rows, remaining, GainKey)
    ensures DepthTree(L, rows, remaining, depth, t) ==> t.Leaf?
  {
  }

  /** With no depth, or a negative one that never counts down to 0, the
      depth-limited `id3` builds exactly the tree of tree.py's `id3`, with
      the gain recorded at each split. */
  lemma {:induction false} DepthUnboundedIsBuild(L: Learner, rows: seq<Row>, remaining: seq<string>, depth: Option<int>, t: Node)
    requires Fits(L, rows, remaining) && rows != [] && Unbounded(depth)
    ensures DepthTree(L, rows, remaining, depth, t) <==> t == Build(L, rows, remaining, GainKey)
    decreases |remaining|, 1
  {
    if |Labels(L, rows).keys| != 1 && remaining != [] {
      BuildSplits(L, rows, remaining, GainKey);
      var a := Choose(L, rows, remaining).att;
      var want := Children(L, rows, remaining, GainKey);
      ChildrenOnKeys(L, rows, remaining, GainKey, L.uniqs[a]);
      if t.Decision? && DepthChildren(L, rows, remaining, depth, t.children) {
        forall v | v in t.children ensures t.children[v] == want[v] {
          DepthChildUnbounded(L, rows, remaining, depth, v, t.children[v]);
          ChildrenOnValues(L, rows, remaining, GainKey, L.uniqs[a], v);
        }
        MapsAgree(t.children, want);
      }
      if t == Build(L, rows, remaining, GainKey) {
        forall v | v in want ensures DepthChild(L, rows, remaining, depth, v, want[v]) {
          ChildrenOnValues(L, rows, remaining, GainKey, L.uniqs[a], v);
          DepthChildUnbounded(L, rows, remaining, depth, v, want[v]);
        }
      }
    }
  }

  /** The same for the child of one value. */
  lemma {:induction false} DepthChildUnbounded(L: Learner, rows: seq<Row>, remaining: seq<string>, depth: Option<int>, v: string, t: Node)
    requires Fits(L, rows, remaining) && rows != [] && remaining != [] && Unbounded(depth)
    ensures DepthChild(L, rows, remaining, depth, v, t) <==> t == Child(L, rows, remaining, GainKey, v)
    decreases |remaining|, 0
  {
    var a := Choose(L, rows, remaining).att;
    if v in Partitions(L, rows, a).at {
      ChildPresent(L, rows, remaining, GainKey, v);
      DepthUnboundedIsBuild(L, Partitions(L, rows, a).at[v], Remove(remaining, a), Next(depth), t);
    }
  }

  /** Below a depth `d`, no root-to-leaf path passes more than `d + 1`
      splits. */
  lemma {:induction false} DepthBound(L: Learner, rows: seq<Row>, remaining: seq<string>, depth: Option<int>, t: Node)
    requires Fits(L, rows, remaining) && rows != [] && depth.Some? && depth.value >= 0
    requires DepthTree(L, rows, remaining, depth, t)
    ensures DecisionsAtMost(t, depth.value + 1)
    decreases |remaining|, 1
  {
    if |Labels(L, rows).keys| != 1 && remaining != [] && depth.value > 0 {
      forall v | v in t.children ensures DecisionsAtMost(t.children[v], depth.value) {
        DepthChildBound(L, rows, remaining, depth, v, t.children[v]);
      }
    }
  }

  /** The same for the child of one value above depth 0. */
  lemma {:induction false} DepthChildBound(L: Learner, rows: seq<Row>, remaining: seq<string>, depth: Option<int>, v: string, t: Node)
    requires Fits(L, rows, remaining) && rows != [] && remaining != [] && depth.Some? && depth.value > 0
    requires DepthChild(L, rows, remaining, depth, v, t)
    ensures DecisionsAtMost(t, depth.value)
    decreases |remaining|, 0
  {
    var a := Choose(L, rows, remaining).att;
    if v in Partitions(L, rows, a).at {
      PartFits(L, rows, remaining, a, v);
      DepthBound(L, Partitions(L, rows, a).at[v], Remove(remaining, a), Next(depth), t);
    }
  }

  /** Whatever the depth, the tree is tree.py's tree with branches cut off:
      where a node stops at depth 0, the children it keeps are the majority
      leaves the full tree has for the same values. */
  lemma {:induction false} DepthPrunes(L: Learner, rows: seq<Row>, remaining: seq<string>, depth: Option<int>, t: Node)
    requires Fits(L, rows, remaining) && rows != [] && DepthTree(L, rows, remaining, depth, t)
    ensures Pruned(t, Build(L, rows, remaining, GainKey))
    decreases |remaining|, 1
  {
    if |Labels(L, rows).keys| != 1 && remaining != [] {
      BuildSplitShape(L, rows, remaining, GainKey);
      BuildSplits(L, rows, remaining, GainKey);
      var full := Build(L, rows, remaining, GainKey);
      forall v | v in t.children ensures Pruned(t.children[v], full.children[v]) {
        DepthChildPrunes(L, rows, remaining, depth, v, t.children[v]);
      }
    }
  }

  /** The same for the child of one value. */
  lemma {:induction false} DepthChildPrunes(L: Learner, rows: seq<Row>, remaining: seq<string>, depth: Option<int>, v: string, t: Node)
    requires Fits(L, rows, remaining) && rows != [] && remaining != []
    requires (depth == Some(0) && v !in Partitions(L, rows, Choose(L, rows, remaining).att).at && t == Leaf(Majority(L, rows)))
          || (depth != Some(0) && DepthChild(L, rows, remaining, depth, v, t))
    ensures Pruned(t, Child(L, rows, remaining, GainKey, v))
    decreases |remaining|, 0
  {
    var a := Choose(L, rows, remaining).att;
    if v in Partitions(L, rows, a).at {
      ChildPresent(L, rows, remaining, GainKey, v);
      DepthPrunes(L, Partitions(L, rows, a).at[v], Remove(remaining, a), Next(depth), t);
    }
  }

  /** Limiting the depth never changes a prediction: where the depth-limited
      tree answers (limiting_depth.py's `get_label` does not return None),
      tree.py's tree gives the same label. */
  lemma DepthAnswersAgree(L: Learner, rows: seq<Row>, remaining: seq<string>, depth: Option<int>, t: Node, ex: Example)
    requires Fits(L, rows, remaining) && rows != [] && DepthTree(L, rows, remaining, depth, t)
    ensures GetLabelOrNone(t, ex).Some? ==> GetLabelOrNone(Build(L, rows, remaining, EntropyKey), ex) == GetLabelOrNone(t, ex)
  {
    DepthPrunes(L, rows, remaining, depth, t);
    PrunedPredicts(t, Build(L, rows, remaining, GainKey), ex);
    KeyIrrelevant(L, rows, remaining, ex);
  }

  /** A split made at depth 0 has no child for any value of the training
      rows, so `get_label` answers None for every training row there. */
  lemma DepthZeroMissesTraining(L: Learner, rows: seq<Row>, remaining: seq<string>, t: Node, i: nat)
    requires Fits(L, rows, remaining) && i < |rows| && remaining != [] && |Labels(L, rows).keys| != 1
    requires DepthTree(L, rows, remaining, Some(0), t)
    ensures GetLabelOrNone(t, ExampleOf(L, rows[i])) == None
  {
    var a := Choose(L, rows, remaining).att;
    WideHasColumn(rows, L.nameToIdx, a);
    GroupedRow(rows, L.nameToIdx[a], rows[i]);
    assert rows[i][L.nameToIdx[a]] !in t.children;
  }

  /** The depth limit as evidently intended: a node that reaches depth 0
      becomes a leaf with the majority label instead of a split that stops
      half-way. Otherwise the same tree as `DepthTree` describes. */
  ghost function BuildLimited(L: Learner, rows: seq<Row>, remaining: seq<string>, depth: Option<int>): (t: Node)
    requires Fits(L, rows, remaining) && rows != []
    ensures t.Leaf? ==> t.classLabel in Labels(L, rows).at
    ensures t.Decision? ==> t.attribute in remaining && t.children.Keys == L.uniqs[t.attribute]
    decreases |remaining|, 1
  {
    var labels := Labels(L, rows);
    if |labels.keys| == 1 then Leaf(labels.keys[0])
    else if remaining == [] || depth == Some(0) then Leaf(Majority(L, rows))
    else
      var c := Choose(L, rows, remaining);
      Decision(c.att, InfoGain(c.gain), map v | v in L.uniqs[c.att] :: LimitedChild(L, rows, remaining, depth, v))
  }

  /** The child for `v` in `BuildLimited`. */
  ghost function LimitedChild(L: Learner, rows: seq<Row>, remaining: seq<string>, depth: Option<int>, v: string): Node
    requires Fits(L, rows, remaining) && rows != [] && remaining != []
    decreases |remaining|, 0
  {
    var a := Choose(L, rows, remaining).att;
    var parts := Partitions(L, rows, a);
    if v in parts.at then
      PartFits(L, rows, remaining, a, v);
      BuildLimited(L, parts.at[v], Remove(remaining, a), Next(depth))
    else Leaf(Majority(L, rows))
  }

  /** How `BuildLimited` splits, unfolded once. */
  lemma LimitedSplits(L: Learner, rows: seq<Row>, remaining: seq<string>, depth: Option<int>)
    requires Fits(L, rows, remaining) && rows != [] && remaining != []
    requires |Labels(L, rows).keys| != 1 && depth != Some(0)
    ensures var t := BuildLimited(L, rows, remaining, depth);
            var a := Choose(L, rows, remaining).att;
            && t.Decision? && t.attribute == a
            && t.children.Keys == L.uniqs[a]
            && forall v | v in t.children :: t.children[v] == LimitedChild(L, rows, remaining, depth, v)
  {
  }

  /** With the intended limit, a depth `d` bounds the splits on every path
      by `d` itself. */
  lemma {:induction false} LimitedBound(L: Learner, rows: seq<Row>, remaining: seq<string>, depth: Option<int>)
    requires Fits(L, rows, remaining) && rows != [] && depth.Some? && depth.value >= 0
    ensures DecisionsAtMost(BuildLimited(L, rows, remaining, depth), depth.value)
    decreases |remaining|, 1
  {
    if |Labels(L, rows).keys| != 1 && remaining != [] && depth.value != 0 {
      LimitedSplits(L, rows, remaining, depth);
      var t := BuildLimited(L, rows, remaining, depth);
      forall v | v in t.children ensures DecisionsAtMost(t.children[v], depth.value - 1) {
        LimitedChildBound(L, rows, remaining, depth, v);
      }
    }
  }

  lemma {:induction false} LimitedChildBound(L: Learner, rows: seq<Row>, remaining: seq<string>, depth: Option<int>, v: string)
    requires Fits(L, rows, remaining) && rows != [] && remaining != [] && depth.Some? && depth.value > 0
    ensures DecisionsAtMost(LimitedChild(L, rows, remaining, depth, v), depth.value - 1)
    decreases |remaining|, 0
  {
    var a := Choose(L, rows, remaining).att;
    if v in Partitions(L, rows, a).at {
      PartFits(L, rows, remaining, a, v);
      LimitedBound(L, Partitions(L, rows, a).at[v], Remove(remaining, a), Next(depth));
    }
  }

  /** With the intended limit, `get_label` answers for every training row
      whose values lie in the universes, at any depth. */
  lemma {:induction false} LimitedAnswersTraining(L: Learner, rows: seq<Row>, remaining: seq<string>, depth: Option<int>, i: nat)
    requires Fits(L, rows, remaining) && i < |rows| && Covered(L, rows, remaining)
    ensures GetLabelOrNone(BuildLimited(L, rows, remaining, depth), ExampleOf(L, rows[i])).Some?
    decreases |remaining|, 1
  {
    if |Labels(L, rows).keys| != 1 && remaining != [] && depth != Some(0) {
      LimitedSplits(L, rows, remaining, depth);
      var a := Choose(L, rows, remaining).att;
      var v := rows[i][L.nameToIdx[a]];
      assert v in L.uniqs[a];
      LimitedChildAnswers(L, rows, remaining, depth, i);
    }
  }

  lemma {:induction false} LimitedChildAnswers(L: Learner, rows: seq<Row>, remaining: seq<string>, depth: Option<int>, i: nat)
    requires Fits(L, rows, remaining) && i < |rows| && remaining != [] && Covered(L, rows, remaining)
    ensures var a := Choose(L, rows, remaining).att;
            GetLabelOrNone(LimitedChild(L, rows, remaining, depth, rows[i][L.nameToIdx[a]]), ExampleOf(L, rows[i])).Some?
    decreases |remaining|, 0
  {
    var a := Choose(L, rows, remaining).att;
    var v := rows[i][L.nameToIdx[a]];
    WideHasColumn(rows, L.nameToIdx, a);
    GroupedRow(rows, L.nameToIdx[a], rows[i]);
    PartFits(L, rows, remaining, a, v);
    var part := Partitions(L, rows, a).at[v];
    var k :| 0 <= k < |part| && part[k] == rows[i];
    PartCovered(L, rows, remaining, a, v);
    LimitedAnswersTraining(L, part, Remove(remaining, a), Next(depth), k);
  }
}
