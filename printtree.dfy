/**
 * The Tree object of the library: a label and a list of branches that the
 * methods below grow, reorder and print. Branches are held as values
 * (Nodes.Node), so a branch added here is a copy, not a shared handle.
 */
module PrintTree {
  import opened Sorting
  import opened Nodes
  import opened Styles
  import opened Render
  import opened Lines

  class Tree {
    var name: string
    var branches: seq<Node>

    /** The tree as a value, for the specification functions. */
    function Value(): (t: Node)
      reads this
    {
      Node(name, branches)
    }

    /** NewTree: an unlabelled root without branches. */
    constructor NewTree()
      ensures name == "" && branches == []
    {
      name := "";
      branches := [];
    }

    /** AddBranch: one new leaf with the given label, after the existing
        branches. */
    method AddBranch(branchName: string) returns (child: Node)
      modifies this
      ensures child == Leaf(branchName)
      ensures name == old(name) && branches == old(branches) + [child]
    {
      child := Leaf(branchName);
      branches := branches + [child];
    }

    /** AddBranches: one new leaf per label, in the order given. */
    method AddBranches(branchNames: seq<string>) returns (added: seq<Node>)
      modifies this
      ensures |added| == |branchNames|
      ensures forall i :: 0 <= i < |added| ==> added[i] == Leaf(branchNames[i])
      ensures name == old(name) && branches == old(branches) + added
    {
      added := [];
      for i := 0 to |branchNames|
        invariant |added| == i
        invariant forall k :: 0 <= k < i ==> added[k] == Leaf(branchNames[k])
        invariant name == old(name) && branches == old(branches) + added
      {
        var child := AddBranch(branchNames[i]);
        added := added + [child];
      }
    }

    /** AddTreeAsBranch: a tree with an empty label is a root, and its
        branches are appended; any other tree is appended as one branch. */
    method AddTreeAsBranch(other: Node)
      modifies this
      ensures name == old(name)
      ensures other.name == "" ==> branches == old(branches) + other.branches
      ensures other.name != "" ==> branches == old(branches) + [other]
    {
      if other.name == "" {
        branches := branches + other.branches;
      } else {
        branches := branches + [other];
      }
    }

    /** Depth: the Depth loop over the branches of this tree. */
    method Depth() returns (depth: nat)
      ensures depth == Nodes.Depth(Value())
    {
      depth := NodeDepth(Value());
    }

    /** Sort: the branches in label order, equal labels in their old order. */
    method Sort()
      modifies this
      ensures name == old(name) && branches == SortBy(LabelLess, old(branches))
    {
      branches := SortBy(LabelLess, branches);
    }

    /** SortCustom: the branches sorted stably by a caller's comparator. */
    method SortCustom(less: (Node, Node) -> bool)
      modifies this
      ensures name == old(name) && branches == SortBy(less, old(branches))
    {
      branches := SortBy(less, branches);
    }

    /** DeepSort: every level sorted by label. */
    method DeepSort()
      modifies this
      ensures Value() == DeepSorted(LabelLess, old(Value()))
    {
      DeepSortCustom(LabelLess);
    }

    /** DeepSortCustom: sort this level, then deep-sort each branch in turn. */
    method DeepSortCustom(less: (Node, Node) -> bool)
      modifies this
      ensures Value() == DeepSorted(less, old(Value()))
    {
      ghost var before := Value();
      SortCustom(less);
      ghost var sorted := branches;
      for index := 0 to |branches|
        invariant name == before.name && |branches| == |sorted|
        invariant forall k :: 0 <= k < index ==> branches[k] == DeepSorted(less, sorted[k])
        invariant forall k :: index <= k < |branches| ==> branches[k] == sorted[k]
      {
        var child := DeepSortNode(less, branches[index]);
        branches := branches[index := child];
      }
      DeepSortedFrom(less, before, branches);
    }

    /** PrintStyle: the tree drawn in a registered style; an out-of-range
        id draws in BoxStyle. */
    method PrintStyle(registry: Registry, style: int) returns (r: Outcome<string>)
      requires registry.Valid()
      ensures r == Rendering(registry.styles, Value(), style)
    {
      var id := style;
      if id < 0 || id >= |registry.styles| {
        id := BoxStyle;
      }
      var scaffold := registry.styles[id];
      assert id == Resolve(|registry.styles|, style);
      r := PrintInto(Value(), 0, "", scaffold, "");
      if r.Ok? {
        assert "" + Text(Layout(Value(), 0, "", scaffold)) == Text(Layout(Value(), 0, "", scaffold));
      }
    }

    /** Print: the tree drawn in BoxStyle. */
    method Print(registry: Registry) returns (r: Outcome<string>)
      requires registry.Valid()
      ensures r == Rendering(registry.styles, Value(), BoxStyle)
    {
      r := PrintStyle(registry, BoxStyle);
    }

    /** String: the tree indented with white space. */
    method String(registry: Registry) returns (r: Outcome<string>)
      requires registry.Valid()
      ensures r == Rendering(registry.styles, Value(), WhiteSpaceStyle)
    {
      r := PrintStyle(registry, WhiteSpaceStyle);
    }
  }

  /** Depth of a branch: the loop keeping the deepest branch seen so far. */
  method NodeDepth(t: Node) returns (depth: nat)
    ensures depth == Nodes.Depth(t)
    decreases t
  {
    depth := 0;
    for index := 0 to |t.branches|
      invariant depth == LevelDepth(t, index)
    {
      var d := NodeDepth(t.branches[index]);
      var branchDepth := 1 + d;
      if branchDepth > depth {
        depth := branchDepth;
      }
    }
  }

  /** DeepSortCustom on a branch: sort its branches, then deep-sort each. */
  method DeepSortNode(less: (Node, Node) -> bool, t: Node) returns (r: Node)
    ensures r == DeepSorted(less, t)
    decreases t
  {
    var sorted := SortBy(less, t.branches);
    SortByElements(less, t.branches);
    var result := sorted;
    for index := 0 to |sorted|
      invariant |result| == |sorted|
      invariant forall k :: 0 <= k < index ==> result[k] == DeepSorted(less, sorted[k])
      invariant forall k :: index <= k < |sorted| ==> result[k] == sorted[k]
    {
      var child := DeepSortNode(less, result[index]);
      result := result[index := child];
    }
    DeepSortedFrom(less, t, result);
    r := Node(t.name, result);
  }
}
