/**
 * Trees as values: a label (its name) and the ordered list of branches below
 * it. The root of a tree built by the library carries the empty label and is not
 * printed. Being a value, a tree cannot share or cycle back into itself.
 */
module Nodes {
  import opened Sorting

  datatype Node = Node(name: string, branches: seq<Node>)

  function Leaf(name: string): (t: Node)
    ensures t.name == name && t.branches == []
  {
    Node(name, [])
  }

  /** Depth: 0 for a tree without branches, otherwise one more than the
      deepest branch (DepthIsMax). */
  function Depth(t: Node): nat
    decreases t, |t.branches| + 1
  {
    LevelDepth(t, |t.branches|)
  }

  /** The running maximum of the Depth loop after its first k branches. */
  function LevelDepth(t: Node, k: nat): nat
    requires k <= |t.branches|
    decreases t, k
  {
    if k == 0 then 0
    else
      var branchDepth := 1 + Depth(t.branches[k - 1]);
      var d := LevelDepth(t, k - 1);
      if branchDepth > d then branchDepth else d
  }

  /** LevelDepth(t, k) is the largest 1 + Depth over the first k branches,
      and 0 when k is 0. */
  lemma {:induction false} LevelDepthIsMax(t: Node, k: nat)
    requires k <= |t.branches|
    ensures LevelDepth(t, k) == 0 <==> k == 0
    ensures forall j :: 0 <= j < k ==> 1 + Depth(t.branches[j]) <= LevelDepth(t, k)
    ensures k > 0 ==> exists j :: 0 <= j < k && LevelDepth(t, k) == 1 + Depth(t.branches[j])
  {
    if k > 0 {
      LevelDepthIsMax(t, k - 1);
      if k - 1 > 0 && LevelDepth(t, k) == LevelDepth(t, k - 1) {
        var j :| 0 <= j < k - 1 && LevelDepth(t, k - 1) == 1 + Depth(t.branches[j]);
        assert LevelDepth(t, k) == 1 + Depth(t.branches[j]);
      } else {
        assert LevelDepth(t, k) == 1 + Depth(t.branches[k - 1]);
      }
    }
  }

  /** Depth is 0 exactly for a tree without branches, and otherwise one
      more than the deepest branch. */
  lemma DepthIsMax(t: Node)
    ensures Depth(t) == 0 <==> t.branches == []
    ensures forall j :: 0 <= j < |t.branches| ==> Depth(t.branches[j]) < Depth(t)
    ensures t.branches != [] ==> exists j :: 0 <= j < |t.branches| && Depth(t) == 1 + Depth(t.branches[j])
  {
    LevelDepthIsMax(t, |t.branches|);
  }

  /** Go's string "<": lexicographic order on the characters. On well-formed
      UTF-8 this agrees with the byte-wise order Go uses. */
  predicate LexLess(a: string, b: string)
  {
    if a == [] then b != []
    else if b == [] then false
    else a[0] < b[0] || (a[0] == b[0] && LexLess(a[1..], b[1..]))
  }

  lemma {:induction false} LexIrreflexive(a: string)
    ensures !LexLess(a, a)
  {
    if a != [] {
      LexIrreflexive(a[1..]);
    }
  }

  lemma {:induction false} LexTransitive(a: string, b: string, c: string)
    requires LexLess(a, b) && LexLess(b, c)
    ensures LexLess(a, c)
  {
    if a != [] && b != [] && c != [] && a[0] == b[0] == c[0] {
      LexTransitive(a[1..], b[1..], c[1..]);
    }
  }

  /** The order is total: of two different strings one comes first. */
  lemma {:induction false} LexTotal(a: string, b: string)
    ensures a == b || LexLess(a, b) || LexLess(b, a)
  {
    if a != [] && b != [] && a[0] == b[0] {
      LexTotal(a[1..], b[1..]);
      if a[1..] == b[1..] {
        assert a == [a[0]] + a[1..] && b == [b[0]] + b[1..];
      }
    }
  }

  /** The order Sort and DeepSort use. */
  predicate LabelLess(a: Node, b: Node)
  {
    LexLess(a.name, b.name)
  }

  /** Two branches are equivalent under LabelLess exactly when their labels
      are equal. */
  lemma LabelEquivalence(a: Node, b: Node)
    ensures Equivalent(LabelLess, a, b) <==> a.name == b.name
  {
    LexTotal(a.name, b.name);
    if a.name == b.name {
      LexIrreflexive(a.name);
    }
  }

  lemma LabelLessIsStrictWeakOrder()
    ensures StrictWeakOrder(LabelLess)
  {
    forall a: Node ensures !LabelLess(a, a) {
      LexIrreflexive(a.name);
    }
    forall a: Node, b: Node, c: Node | LabelLess(a, b) && LabelLess(b, c)
      ensures LabelLess(a, c)
    {
      LexTransitive(a.name, b.name, c.name);
    }
    forall a: Node, b: Node, c: Node | Equivalent(LabelLess, a, b) && Equivalent(LabelLess, b, c)
      ensures Equivalent(LabelLess, a, c)
    {
      LabelEquivalence(a, b);
      LabelEquivalence(b, c);
      LabelEquivalence(a, c);
    }
  }

  /** DeepSort / DeepSortCustom: sort the branches, then deep-sort each of
      the sorted branches in turn. */
  function DeepSorted(less: (Node, Node) -> bool, t: Node): (r: Node)
    ensures r.name == t.name && |r.branches| == |t.branches|
    decreases t, 1, 0
  {
    SortByElements(less, t.branches);
    Node(t.name, DeepSortEach(less, t, SortBy(less, t.branches)))
  }

  /** A branch of t sits at some position of t's branches, which makes it
      smaller than t for termination. */
  lemma BranchInTree(t: Node, b: Node)
    requires b in t.branches
    ensures exists i :: 0 <= i < |t.branches| && t.branches[i] == b
  {
  }

  /** Deep-sorts each node of s, a rearrangement of t's branches. */
  function DeepSortEach(less: (Node, Node) -> bool, t: Node, s: seq<Node>): (r: seq<Node>)
    requires forall i :: 0 <= i < |s| ==> s[i] in t.branches
    ensures |r| == |s|
    ensures forall i :: 0 <= i < |s| ==> (BranchInTree(t, s[i]); r[i] == DeepSorted(less, s[i]))
    decreases t, 0, |s|
  {
    if s == [] then []
    else
      BranchInTree(t, s[0]);
      [DeepSorted(less, s[0])] + DeepSortEach(less, t, s[1..])
  }

  /** The branches of DeepSorted(t): the sorted branches of t, each
      deep-sorted, each one of t's own branches. */
  lemma DeepSortedBranches(less: (Node, Node) -> bool, t: Node)
    ensures var sorted := SortBy(less, t.branches);
      && |DeepSorted(less, t).branches| == |sorted|
      && (forall k :: 0 <= k < |sorted| ==> sorted[k] in t.branches)
      && forall k :: 0 <= k < |sorted| ==> DeepSorted(less, t).branches[k] == DeepSorted(less, sorted[k])
  {
    SortByElements(less, t.branches);
  }

  /** DeepSorted(t) is the node whose branches are the sorted branches of
      t, each deep-sorted. */
  lemma DeepSortedFrom(less: (Node, Node) -> bool, t: Node, result: seq<Node>)
    requires |result| == |SortBy(less, t.branches)|
    requires forall k :: 0 <= k < |result| ==> result[k] == DeepSorted(less, SortBy(less, t.branches)[k])
    ensures Node(t.name, result) == DeepSorted(less, t)
  {
    DeepSortedBranches(less, t);
  }

  /** Every level of the tree has its branches in order. */
  ghost predicate EveryLevelSorted(less: (Node, Node) -> bool, t: Node)
    decreases t
  {
    && Sorted(less, t.branches)
    && forall j :: 0 <= j < |t.branches| ==> EveryLevelSorted(less, t.branches[j])
  }

  /** DeepSort leaves every level ordered by label: deep-sorting a branch
      keeps its label, so the order chosen at each level survives. */
  lemma {:induction false} DeepSortSortsEveryLevel(t: Node)
    ensures EveryLevelSorted(LabelLess, DeepSorted(LabelLess, t))
    decreases t
  {
    LabelLessIsStrictWeakOrder();
    var sorted := SortBy(LabelLess, t.branches);
    var r := DeepSorted(LabelLess, t);
    SortBySorted(LabelLess, t.branches);
    forall j | 0 <= j < |r.branches| ensures EveryLevelSorted(LabelLess, r.branches[j]) {
      SortByElements(LabelLess, t.branches);
      DeepSortSortsEveryLevel(sorted[j]);
    }
    assert Sorted(LabelLess, r.branches) by {
      forall i, j | 0 <= i < j < |r.branches| ensures !LabelLess(r.branches[j], r.branches[i]) {
        assert r.branches[i].name == sorted[i].name;
        assert r.branches[j].name == sorted[j].name;
      }
    }
  }

  /** Deep-sorting by a comparator that looks only at labels, twice, is the
      same as once. */
  lemma {:induction false} DeepSortIdempotent(t: Node)
    ensures DeepSorted(LabelLess, DeepSorted(LabelLess, t)) == DeepSorted(LabelLess, t)
    decreases t
  {
    var r := DeepSorted(LabelLess, t);
    DeepSortSortsEveryLevel(t);
    SortByOfSorted(LabelLess, r.branches);
    var rr := DeepSorted(LabelLess, r);
    forall j | 0 <= j < |r.branches| ensures rr.branches[j] == r.branches[j] {
      var sorted := SortBy(LabelLess, t.branches);
      SortByElements(LabelLess, t.branches);
      DeepSortIdempotent(sorted[j]);
    }
  }
}
