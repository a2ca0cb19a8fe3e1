/**
 * A few of the worked cases of the repository's tests, computed with the
 * model.
 */
module Cases {
  import opened Wrappers
  import opened Ordinals
  import opened Placeholders
  import opened Lines
  import opened Nodes
  import opened Styles
  import opened Render

  /** A short value is right-aligned in the span "  1" covers. */
  lemma PlaceholderShortValue()
    ensures ReplaceNumberPlaceholder("(  1)", '1', "xx") == "( xx)"
  {
    var s := "(  1)";
    assert IndexOf(s, '1', 3) == Some(3);
    assert IndexOf(s, '1', 0) == Some(3);
    assert SpaceRunStart(s, 1) == 1;
    assert SpaceRunStart(s, 3) == 1;
    assert FindSpan(s, '1') == Some((1, 4));
    assert PadLeft("xx", 3) == " xx";
  }

  /** A value longer than the span pushes the rest of the template right. */
  lemma PlaceholderLongValue()
    ensures ReplaceNumberPlaceholder("(  1)", '1', "xxxx") == "(xxxx)"
  {
    var s := "(  1)";
    assert IndexOf(s, '1', 3) == Some(3);
    assert IndexOf(s, '1', 0) == Some(3);
    assert SpaceRunStart(s, 1) == 1;
    assert SpaceRunStart(s, 3) == 1;
    assert FindSpan(s, '1') == Some((1, 4));
  }

  /** 29 in letters is "ac". */
  lemma AlphaCase()
    ensures Alpha(29) == "ac"
  {
    assert AlphaDigits(1) == "a";
    assert AlphaDigits(29) == "ac";
  }

  /** 4 in Roman numerals is "iv". */
  lemma RomanCase()
    ensures Roman(4) == "iv"
  {
    FirstFitLeast(RomanMap, 4, 11);
    assert FirstFit(RomanMap, 4) == 11;
    assert Greedy(RomanMap, 0) == [];
    assert Greedy(RomanMap, 4) == [11];
    assert RomanMap[11].key == "iv";
    assert Keys(RomanMap, [11]) == "iv" + Keys(RomanMap, []);
    assert RomanDigits(4) == "iv";
  }

  /** The template " i" numbers in lower-case Roman numerals; "iv" fills
      the whole span, the space included. */
  lemma ListMarkupCase()
    ensures ReplaceNumberListMarkup(" i", 4) == "iv"
  {
    var s := " i";
    assert ChooseMarkerFrom(s, 3) == Some(3);
    assert ChooseMarker(s) == Some(3);
    RomanCase();
    assert IndexOf(s, 'i', 1) == Some(1);
    assert IndexOf(s, 'i', 0) == Some(1);
    assert SpaceRunStart(s, 0) == 0;
    assert FindSpan(s, 'i') == Some((0, 2));
  }

  /** The lines of a leaf branch whose label is one line. */
  lemma LeafLines(t: Node, j: nat, depth: nat, p: string, sc: Scaffolding)
    requires WellFormed(sc) && j < |t.branches| && t.branches[j].branches == []
    requires NoNewline(t.branches[j].name) && BranchPrintable(sc, depth, t.branches[j])
    ensures BranchLines(t, j, depth, p, sc) == [p + LabelPadding(depth, j, |t.branches|, sc).value + t.branches[j].name]
  {
    var b := t.branches[j];
    SplitLine(b.name);
    assert Printable(sc, depth + 1, b);
    assert Layout(b, depth + 1, p + FlowPadding(depth, j, |t.branches|, sc), sc) == [];
    assert [b.name][1..] == [];
  }

  /** Proof helper. Five lines written one after the other, each ended by a line break. */
  lemma TextOfFive(a: string, b: string, c: string, d: string, e: string)
    ensures Text([a, b, c, d, e]) == a + "\n" + (b + "\n" + (c + "\n" + (d + "\n" + (e + "\n"))))
  {
    assert Text([e]) == e + "\n";
    assert [d, e][1..] == [e];
    assert Text([d, e]) == d + "\n" + (e + "\n");
    assert [c, d, e][1..] == [d, e];
    assert Text([c, d, e]) == c + "\n" + Text([d, e]);
    assert [b, c, d, e][1..] == [c, d, e];
    assert Text([b, c, d, e]) == b + "\n" + Text([c, d, e]);
    assert [a, b, c, d, e][1..] == [b, c, d, e];
  }

  const Box := Scaffolding(false, ["├── ", "╰── ", "│   ", "    "])

  /** The test tree's branch 1: "a" with the leaf "i", then "b\nB". */
  function TestBranch(): Node
  {
    Node("1", [Node("a", [Leaf("i")]), Leaf("b\nB")])
  }

  /** Branch "a" of 1 (not the last), with its leaf "i": the leaf is
      drawn behind the bypass piece and the last-branch piece. */
  lemma FirstBranchLines()
    ensures BranchPrintable(Box, 1, TestBranch().branches[0])
    ensures BranchLines(TestBranch(), 0, 1, "", Box) == ["├── a", "│   ╰── i"]
  {
    var na := Node("a", [Leaf("i")]);
    PanicCondition(Box, 2, na);
    LeafLines(na, 0, 2, "│   ", Box);
    assert LabelPadding(2, 0, 1, Box) == Ok("╰── ");
    assert "│   " + "╰── " + "i" == "│   ╰── i";
    assert BranchLines(na, 0, 2, "│   ", Box) == ["│   ╰── i"];
    assert Layout(na, 2, "│   ", Box) == ["│   ╰── i"];
    SplitLine("a");
    assert LabelPadding(1, 0, 2, Box) == Ok("├── ") && FlowPadding(1, 0, 2, Box) == "│   ";
    assert "" + "│   " == "│   " && "" + "├── " == "├── ";
    assert ["a"][1..] == [];
    assert "├── " + "a" == "├── a";
    assert LabelLines(["a"], "├── ", "│   ") == ["├── a"];
  }

  /** Branch "b\nB" of 1, the last: its second line is drawn behind the
      blank piece. */
  lemma LastBranchLines()
    ensures BranchPrintable(Box, 1, TestBranch().branches[1])
    ensures BranchLines(TestBranch(), 1, 1, "", Box) == ["╰── b", "    B"]
  {
    var nb := Leaf("b\nB");
    PanicCondition(Box, 2, nb);
    SplitAfterLine("b", "B");
    SplitLine("B");
    assert "b\nB" == "b" + "\n" + "B";
    assert Split(nb.name) == ["b", "B"];
    assert LabelPadding(1, 1, 2, Box) == Ok("╰── ") && FlowPadding(1, 1, 2, Box) == "    ";
    assert "" + "    " == "    " && "" + "╰── " == "╰── ";
    assert Layout(nb, 2, "    ", Box) == [];
    assert ["b", "B"][1..] == ["B"];
    assert ["B"][1..] == [];
    assert "╰── " + "b" == "╰── b" && "    " + "B" == "    B";
    assert LabelLines(["B"], "    ", "    ") == ["    B"];
    assert LabelLines(["b", "B"], "╰── ", "    ") == ["╰── b", "    B"];
  }

  /** The branches of 1, drawn at depth 1 with no padding in BoxStyle. */
  lemma TestBranchLayout()
    ensures Printable(Box, 1, TestBranch())
    ensures Layout(TestBranch(), 1, "", Box) == ["├── a", "│   ╰── i", "╰── b", "    B"]
  {
    FirstBranchLines();
    LastBranchLines();
    assert LayoutUpTo(TestBranch(), 1, 1, "", Box) == ["├── a", "│   ╰── i"];
  }

  /** The whole test tree, drawn at depth 0 in BoxStyle. */
  lemma TestTreeLayout()
    ensures Printable(Box, 0, Node("", [TestBranch()]))
    ensures Layout(Node("", [TestBranch()]), 0, "", Box) == ["1", "├── a", "│   ╰── i", "╰── b", "    B"]
  {
    var t := Node("", [TestBranch()]);
    TestBranchLayout();
    assert HasTemplates(Box);
    assert BranchPrintable(Box, 0, TestBranch());
    SplitLine("1");
    assert LabelPadding(0, 0, 1, Box) == Ok("") && FlowPadding(0, 0, 1, Box) == "";
    assert "" + "" == "" && "" + "" + "1" == "1";
    assert LabelLines(["1"], "" + "", "" + "") == ["1"];
    assert BranchLines(t, 0, 0, "", Box) == ["1"] + Layout(TestBranch(), 1, "", Box);
  }

  /** The text of the five lines the test expects. */
  lemma TestTreeText()
    ensures Text(["1", "├── a", "│   ╰── i", "╰── b", "    B"]) == "1\n├── a\n│   ╰── i\n╰── b\n    B\n"
  {
    TextOfFive("1", "├── a", "│   ╰── i", "╰── b", "    B");
    assert "1" + "\n" + ("├── a" + "\n" + ("│   ╰── i" + "\n" + ("╰── b" + "\n" + ("    B" + "\n"))))
      == "1\n├── a\n│   ╰── i\n╰── b\n    B\n";
  }

  /** TestIllegalStyle: an unknown style id draws the tree in BoxStyle. */
  lemma IllegalStyleCase()
    ensures Rendering(Builtins(), Node("", [TestBranch()]), 999999)
      == Ok("1\n├── a\n│   ╰── i\n╰── b\n    B\n")
  {
    assert Resolve(|Builtins()|, 999999) == BoxStyle;
    assert Builtins()[BoxStyle] == Box;
    TestTreeLayout();
    TestTreeText();
  }
}
