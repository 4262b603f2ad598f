/** The decision tree `id3` builds and `get_label` walks (tree.py lines
    200-204, limiting_depth.py lines 223-230). A node is a Python dict: a
    leaf holds `'label'`, a split holds `'attribute'`, a score and `'nodes'`,
    the children keyed by attribute value. */
module Trees {
  import opened Wrappers

  /** The score a split records: tree.py stores the node's entropy under
      `'entropy'`, limiting_depth.py the winning gain under `'Info-Gain'`. */
  datatype Score = Entropy(ent: real) | InfoGain(gain: real)

  datatype Node =
    | Leaf(classLabel: string)
    | Decision(attribute: string, score: Score, children: map<string, Node>)

  /** An example to classify: attribute name to value. */
  type Example = map<string, string>

  /** A root-to-leaf path: the (attribute, value) tests passed on the way
      down, and the label reached. */
  datatype Path = Path(conds: seq<(string, string)>, classLabel: string)

  /** All root-to-leaf paths. A split without children contributes none. */
  function Paths(t: Node): set<Path>
  {
    match t
    case Leaf(l) => {Path([], l)}
    case Decision(a, _, ch) =>
      set v, p | v in ch && p in Paths(ch[v]) :: Path([(a, v)] + p.conds, p.classLabel)
  }

  /** The example passes every test of the path. */
  ghost predicate Matches(ex: Example, conds: seq<(string, string)>)
  {
    forall i | 0 <= i < |conds| :: conds[i].0 in ex && ex[conds[i].0] == conds[i].1
  }

  /** tree.py's `get_label`: a leaf answers its label; a split looks up the
      example's value of its attribute (a KeyError when the example lacks
      the attribute) and then the child for that value (a KeyError when
      there is none). */
  function GetLabel(t: Node, ex: Example): (r: Result<string>)
    ensures r.Err? ==> r.error.KeyError?
  {
    match t
    case Leaf(l) => Ok(l)
    case Decision(a, _, ch) =>
      if a !in ex then Err(KeyError(a))
      else if ex[a] !in ch then Err(KeyError(ex[a]))
      else GetLabel(ch[ex[a]], ex)
  }

  /** limiting_depth.py's `get_label`: the same walk, with every failed
      lookup caught and answered by None. */
  function GetLabelOrNone(t: Node, ex: Example): (r: Option<string>)
    ensures r.Some? <==> GetLabel(t, ex).Ok?
  {
    match t
    case Leaf(l) => Some(l)
    case Decision(a, _, ch) =>
      if a in ex && ex[a] in ch then GetLabelOrNone(ch[ex[a]], ex) else None
  }

  /** Catching the exceptions is all that differs between the two walks. */
  lemma {:induction false} GetLabelOrNoneCatches(t: Node, ex: Example)
    ensures GetLabelOrNone(t, ex) == GetLabel(t, ex).ToOption()
  {
    match t
    case Leaf(_) =>
    case Decision(a, _, ch) =>
      if a in ex && ex[a] in ch {
        GetLabelOrNoneCatches(ch[ex[a]], ex);
      }
  }

  lemma MatchesCons(ex: Example, c: (string, string), conds: seq<(string, string)>)
    ensures Matches(ex, [c] + conds) <==> c.0 in ex && ex[c.0] == c.1 && Matches(ex, conds)
  {
    var s := [c] + conds;
    if c.0 in ex && ex[c.0] == c.1 && Matches(ex, conds) {
      forall i | 0 <= i < |s| ensures s[i].0 in ex && ex[s[i].0] == s[i].1 {
        if i > 0 {
          assert s[i] == conds[i - 1];
        }
      }
    }
    if Matches(ex, s) {
      assert s[0] == c;
      forall i | 0 <= i < |conds| ensures conds[i].0 in ex && ex[conds[i].0] == conds[i].1 {
        assert conds[i] == s[i + 1];
      }
    }
  }

  /** Prediction follows a path: `get_label` answers `l` exactly when some
      root-to-leaf path whose tests the example passes ends in `l`. */
  lemma {:induction false} PredictionFollowsPath(t: Node, ex: Example, l: string)
    ensures GetLabel(t, ex) == Ok(l) <==> exists p | p in Paths(t) :: Matches(ex, p.conds) && p.classLabel == l
  {
    match t
    case Leaf(l') =>
      assert Path([], l') in Paths(t);
    case Decision(a, _, ch) =>
      if GetLabel(t, ex) == Ok(l) {
        var v := ex[a];
        PredictionFollowsPath(ch[v], ex, l);
        var p :| p in Paths(ch[v]) && Matches(ex, p.conds) && p.classLabel == l;
        MatchesCons(ex, (a, v), p.conds);
        assert Path([(a, v)] + p.conds, l) in Paths(t);
      }
      if exists p | p in Paths(t) :: Matches(ex, p.conds) && p.classLabel == l {
        var p :| p in Paths(t) && Matches(ex, p.conds) && p.classLabel == l;
        var v, q :| v in ch && q in Paths(ch[v]) && p == Path([(a, v)] + q.conds, q.classLabel);
        MatchesCons(ex, (a, v), q.conds);
        PredictionFollowsPath(ch[v], ex, l);
      }
  }

  /** `get_label` raises exactly when the example passes the tests of no
      root-to-leaf path: a missing attribute or a value without a child. */
  lemma GetLabelFails(t: Node, ex: Example)
    ensures GetLabel(t, ex).Err? <==> forall p | p in Paths(t) :: !Matches(ex, p.conds)
  {
    if GetLabel(t, ex).Ok? {
      PredictionFollowsPath(t, ex, GetLabel(t, ex).value);
    } else {
      forall p | p in Paths(t) ensures !Matches(ex, p.conds) {
        PredictionFollowsPath(t, ex, p.classLabel);
      }
    }
  }

  /** Along every root-to-leaf path at most `n` splits are passed. */
  ghost predicate DecisionsAtMost(t: Node, n: nat)
  {
    match t
    case Leaf(_) => true
    case Decision(_, _, ch) => n > 0 && forall v | v in ch :: DecisionsAtMost(ch[v], n - 1)
  }

  /** Along every root-to-leaf path the split attributes are distinct and
      drawn from `avail`. */
  ghost predicate AttributesFrom(t: Node, avail: set<string>)
  {
    match t
    case Leaf(_) => true
    case Decision(a, _, ch) => a in avail && forall v | v in ch :: AttributesFrom(ch[v], avail - {a})
  }

  /** What `AttributesFrom` and `DecisionsAtMost` say about the paths: each
      path tests distinct attributes of `avail`, at most `n` of them. */
  lemma {:induction false} PathsRespect(t: Node, avail: set<string>, n: nat, p: Path)
    requires AttributesFrom(t, avail) && DecisionsAtMost(t, n) && p in Paths(t)
    ensures |p.conds| <= n
    ensures forall i | 0 <= i < |p.conds| :: p.conds[i].0 in avail
    ensures forall i, j | 0 <= i < j < |p.conds| :: p.conds[i].0 != p.conds[j].0
  {
    match t
    case Leaf(_) =>
    case Decision(a, _, ch) =>
      var v, q :| v in ch && q in Paths(ch[v]) && p == Path([(a, v)] + q.conds, q.classLabel);
      PathsRespect(ch[v], avail - {a}, n - 1, q);
      assert forall i | 0 < i < |p.conds| :: p.conds[i] == q.conds[i - 1];
  }

  /** A bound on the splits along a path stays a bound when raised. */
  lemma {:induction false} DecisionsAtMostRaise(t: Node, m: nat, n: nat)
    requires DecisionsAtMost(t, m) && m <= n
    ensures DecisionsAtMost(t, n)
  {
    match t
    case Leaf(_) =>
    case Decision(_, _, ch) =>
      forall v | v in ch ensures DecisionsAtMost(ch[v], n - 1) {
        DecisionsAtMostRaise(ch[v], m - 1, n - 1);
      }
  }

  /** `t` is `full` with some branches cut off: the same splits and leaves,
      with each child map a part of the corresponding one in `full`. */
  ghost predicate Pruned(t: Node, full: Node)
  {
    match full
    case Leaf(_) => t == full
    case Decision(a, s, ch) =>
      && t.Decision? && t.attribute == a && t.score == s
      && t.children.Keys <= ch.Keys
      && forall v | v in t.children :: Pruned(t.children[v], ch[v])
  }

  /** Cutting branches never changes an answer: where the cut tree answers,
      the full tree gives the same label. */
  lemma {:induction false} PrunedPredicts(t: Node, full: Node, ex: Example)
    requires Pruned(t, full)
    ensures GetLabelOrNone(t, ex).Some? ==> GetLabelOrNone(full, ex) == GetLabelOrNone(t, ex)
  {
    match full
    case Leaf(_) =>
    case Decision(a, _, ch) =>
      if a in ex && ex[a] in t.children {
        PrunedPredicts(t.children[ex[a]], ch[ex[a]], ex);
      }
  }
}
