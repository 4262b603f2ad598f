/** `pretty_print_tree` (tree.py lines 213-232, limiting_depth.py lines
    240-259): a depth-first walk that keeps the text of the current path on
    a stack of string pieces and adds one rule, the stack's pieces joined,
    at every leaf. */
module Rules {
  import opened Trees

  /** `''.join(stack)`. */
  function Join(pieces: seq<string>): string
  {
    if pieces == [] then "" else Join(pieces[..|pieces| - 1]) + pieces[|pieces| - 1]
  }

  /** The piece a split pushes, `ifnd + node['attribute'] + ' EQUALS '`:
      `IF ` when the stack is empty, that is at the root, ` AND ` below it. */
  function Opener(first: bool, a: string): string
  {
    (if first then "IF " else " AND ") + a + " EQUALS "
  }

  /** The piece a leaf pushes, `' THEN ' + node['label']`. */
  function Conclusion(l: string): string
  {
    " THEN " + l
  }

  /** The text of a sequence of tests: `IF a EQUALS v` for the one that
      opens the rule, ` AND a EQUALS v` for every other. */
  function CondText(conds: seq<(string, string)>, first: bool): string
  {
    if conds == [] then ""
    else Opener(first, conds[0].0) + conds[0].1 + CondText(conds[1..], false)
  }

  /** The rule printed for a path: `IF a1 EQUALS v1 AND ... THEN label`,
      or ` THEN label` for the empty path of a leaf root. */
  function RuleText(p: Path): string
  {
    CondText(p.conds, true) + Conclusion(p.classLabel)
  }

  /** The rules `traverse(node, stack, rules)` adds when `stack` already
      holds the pieces of the path from the root down to `node`. */
  function Emitted(t: Node, stack: seq<string>): set<string>
  {
    set p | p in Paths(t) :: Join(stack) + CondText(p.conds, stack == []) + Conclusion(p.classLabel)
  }

  lemma JoinSnoc(pieces: seq<string>, x: string)
    ensures Join(pieces + [x]) == Join(pieces) + x
  {
    assert (pieces + [x])[..|pieces|] == pieces;
  }

  /** The rules of a leaf: the stack with ` THEN label` pushed, joined. */
  lemma EmittedLeaf(l: string, stack: seq<string>)
    ensures Emitted(Leaf(l), stack) == {Join(stack + [Conclusion(l)])}
  {
    assert Paths(Leaf(l)) == {Path([], l)};
    JoinSnoc(stack, Conclusion(l));
    var j := Join(stack);
    assert j + CondText([], stack == []) + Conclusion(l) == j + Conclusion(l);
  }

  lemma CondTextCons(a: string, v: string, conds: seq<(string, string)>, first: bool)
    ensures CondText([(a, v)] + conds, first) == Opener(first, a) + v + CondText(conds, false)
  {
    assert ([(a, v)] + conds)[1..] == conds;
  }

  lemma JoinPushTwo(stack: seq<string>, x: string, v: string)
    ensures Join(stack + [x] + [v]) == Join(stack) + x + v
  {
    JoinSnoc(stack, x);
    JoinSnoc(stack + [x], v);
  }

  /** Pushing a split's two pieces, its opener and the chosen value, is the
      same as extending the path by that test. */
  lemma PushTest(stack: seq<string>, a: string, v: string, conds: seq<(string, string)>, l: string)
    ensures Join(stack + [Opener(stack == [], a)] + [v]) + CondText(conds, false) + Conclusion(l)
         == Join(stack) + CondText([(a, v)] + conds, stack == []) + Conclusion(l)
  {
    var x := Opener(stack == [], a);
    JoinPushTwo(stack, x, v);
    CondTextCons(a, v, conds, stack == []);
    Regroup(Join(stack), x, v, CondText(conds, false), Conclusion(l));
  }

  lemma Regroup(j: string, x: string, v: string, c: string, t: string)
    ensures j + x + v + c + t == j + (x + v + c) + t
  {
  }

  /** The rules found below the children in `done` of a split on `a`. */
  function Below(stack: seq<string>, a: string, ch: map<string, Node>, done: set<string>): set<string>
  {
    set v, p | v in done && v in ch && p in Paths(ch[v]) ::
      Join(stack) + CondText([(a, v)] + p.conds, stack == []) + Conclusion(p.classLabel)
  }

  /** Visiting one more child adds that child's rules, pushed below the split. */
  lemma BelowAdd(stack: seq<string>, a: string, ch: map<string, Node>, done: set<string>, v: string)
    requires v in ch
    ensures Below(stack, a, ch, done + {v})
         == Below(stack, a, ch, done) + Emitted(ch[v], stack + [Opener(stack == [], a)] + [v])
  {
    var inner := stack + [Opener(stack == [], a)] + [v];
    assert inner != [];
    forall p | p in Paths(ch[v]) {
      PushTest(stack, a, v, p.conds, p.classLabel);
    }
  }

  /** Once every child is visited, the rules below are those of the split. */
  lemma BelowAll(stack: seq<string>, a: string, sc: Score, ch: map<string, Node>)
    ensures Below(stack, a, ch, ch.Keys) == Emitted(Decision(a, sc, ch), stack)
  {
    var t := Decision(a, sc, ch);
    forall r | r in Emitted(t, stack) ensures r in Below(stack, a, ch, ch.Keys) {
      var p :| p in Paths(t) && r == Join(stack) + CondText(p.conds, stack == []) + Conclusion(p.classLabel);
      var v, q :| v in ch && q in Paths(ch[v]) && p == Path([(a, v)] + q.conds, q.classLabel);
    }
    forall r | r in Below(stack, a, ch, ch.Keys) ensures r in Emitted(t, stack) {
      var v, q :| v in ch && q in Paths(ch[v])
        && r == Join(stack) + CondText([(a, v)] + q.conds, stack == []) + Conclusion(q.classLabel);
      assert Path([(a, v)] + q.conds, q.classLabel) in Paths(t);
    }
  }

  /** `traverse(node, stack, rules)`: returns the stack it was given and the
      rule set grown by the rules of every path below `node`. The children
      are visited in no particular order; a set does not record it. */
  method Traverse(t: Node, stack: seq<string>, rules: set<string>) returns (stackOut: seq<string>, rulesOut: set<string>)
    ensures stackOut == stack
    ensures rulesOut == rules + Emitted(t, stack)
    decreases t
  {
    stackOut, rulesOut := stack, rules;
    match t
    case Leaf(l) =>
      stackOut := stackOut + [Conclusion(l)];
      rulesOut := rulesOut + {Join(stackOut)};
      stackOut := stackOut[..|stackOut| - 1];
      EmittedLeaf(l, stack);
    case Decision(a, sc, ch) =>
      stackOut := stackOut + [Opener(stackOut == [], a)];
      var todo := ch.Keys;
      assert Below(stack, a, ch, ch.Keys - todo) == {};
      while todo != {}
        invariant todo <= ch.Keys
        invariant stackOut == stack + [Opener(stack == [], a)]
        invariant rulesOut == rules + Below(stack, a, ch, ch.Keys - todo)
        decreases todo
      {
        var v :| v in todo;
        stackOut := stackOut + [v];
        BelowAdd(stack, a, ch, ch.Keys - todo, v);
        stackOut, rulesOut := Traverse(ch[v], stackOut, rulesOut);
        stackOut := stackOut[..|stackOut| - 1];
        assert ch.Keys - (todo - {v}) == ch.Keys - todo + {v};
        todo := todo - {v};
      }
      BelowAll(stack, a, sc, ch);
      stackOut := stackOut[..|stackOut| - 1];
  }

  /** With an empty stack the rules are the rule texts of the paths. */
  lemma EmittedFromRoot(t: Node)
    ensures Emitted(t, []) == set p | p in Paths(t) :: RuleText(p)
  {
    forall p | p in Paths(t) ensures Join([]) + CondText(p.conds, true) + Conclusion(p.classLabel) == RuleText(p) {
      assert Join([]) == "";
    }
  }

  /** `pretty_print_tree(root)`: the set of rules, one per root-to-leaf path.
      Printing them is not modelled. */
  method PrettyPrintTree(root: Node) returns (rules: set<string>)
    ensures rules == set p | p in Paths(root) :: RuleText(p)
  {
    var stack := [];
    stack, rules := Traverse(root, stack, {});
    EmittedFromRoot(root);
  }

  lemma PrefixOfConcat(o: string, rest: string)
    ensures (o + rest)[..|o|] == o
  {
  }

  /** Every rule of a split opens with `IF attribute EQUALS`. */
  lemma RuleOpens(a: string, v: string, conds: seq<(string, string)>, l: string)
    ensures RuleText(Path([(a, v)] + conds, l))[..|Opener(true, a)|] == Opener(true, a)
  {
    CondTextCons(a, v, conds, true);
    var o := Opener(true, a);
    Regroup(o, v, CondText(conds, false), Conclusion(l), "");
    PrefixOfConcat(o, v + CondText(conds, false) + Conclusion(l));
  }

  /** A leaf root prints ` THEN label`, a split with no children prints
      nothing, and every rule of a split opens with `IF attribute EQUALS`. */
  lemma RuleShapes(t: Node)
    ensures t.Leaf? ==> (set p | p in Paths(t) :: RuleText(p)) == {Conclusion(t.classLabel)}
    ensures t.Decision? && t.children == map[] ==> (set p | p in Paths(t) :: RuleText(p)) == {}
    ensures t.Decision? ==> forall p | p in Paths(t) ::
      RuleText(p)[..|Opener(true, t.attribute)|] == Opener(true, t.attribute)
  {
    if t.Leaf? {
      assert Paths(t) == {Path([], t.classLabel)};
      var c := Conclusion(t.classLabel);
      assert CondText([], true) == "";
      assert "" + c == c;
      assert RuleText(Path([], t.classLabel)) == c;
    } else {
      forall p | p in Paths(t)
        ensures RuleText(p)[..|Opener(true, t.attribute)|] == Opener(true, t.attribute)
      {
        var v, q :| v in t.children && q in Paths(t.children[v]) && p == Path([(t.attribute, v)] + q.conds, q.classLabel);
        RuleOpens(t.attribute, v, q.conds, q.classLabel);
      }
    }
  }
}
