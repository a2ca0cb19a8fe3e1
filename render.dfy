/**
 * The renderer: a pre-order walk that writes one line per line of every
 * branch label. The first line of a label is prefixed with the padding
 * inherited from the ancestors plus the label markup (labelPadding); its
 * further lines, and everything below the branch, get the padding plus the
 * flow markup (flowPadding). The root itself is never printed.
 *
 * Layout is the specification: the list of output lines. PrintInto is the
 * loop that writes them into a buffer, and Rendering is what PrintStyle
 * returns. A list style without bullets divides by zero as soon as a label
 * below the top level is drawn; that outcome is DivideByZero.
 */
module Render {
  import opened Seqs
  import opened Lines
  import opened Placeholders
  import opened Nodes
  import opened Styles

  datatype Outcome<T> = Ok(value: T) | DivideByZero

  /** labelPadding: the markup before the first line of branch `index` of
      `siblings` branches at the given depth. */
  function LabelPadding(depth: nat, index: nat, siblings: nat, sc: Scaffolding): (r: Outcome<string>)
    requires WellFormed(sc) && index < siblings
    ensures r.Ok? <==> depth == 0 || HasTemplates(sc)
    ensures depth == 0 ==> r == Ok("")
    ensures depth > 0 && sc.isList && HasTemplates(sc) ==>
      r == Ok(ReplaceNumberListMarkup(Bullet(sc, depth), index + 1))
    ensures depth > 0 && !sc.isList && index == siblings - 1 ==> r == Ok(sc.markup[LastBranchScaffold])
    ensures depth > 0 && !sc.isList && index < siblings - 1 ==> r == Ok(sc.markup[MidBranchScaffold])
  {
    if depth == 0 then Ok("")
    else if sc.isList then
      if |sc.markup| - 1 == 0 then DivideByZero
      else Ok(ReplaceNumberListMarkup(Bullet(sc, depth), index + 1))
    else if index == siblings - 1 then Ok(sc.markup[LastBranchScaffold])
    else Ok(sc.markup[MidBranchScaffold])
  }

  /** flowPadding: the markup before the further lines of a label and
      before everything drawn below that branch. */
  function FlowPadding(depth: nat, index: nat, siblings: nat, sc: Scaffolding): (r: string)
    requires WellFormed(sc) && index < siblings
    ensures depth == 0 ==> r == ""
    ensures depth > 0 && sc.isList ==> r == sc.markup[IndentList]
    ensures depth > 0 && !sc.isList && index == siblings - 1 ==> r == sc.markup[NoBranchScaffold]
    ensures depth > 0 && !sc.isList && index < siblings - 1 ==> r == sc.markup[BypassBranchScaffold]
  {
    if depth == 0 then ""
    else if sc.isList then sc.markup[IndentList]
    else if index == siblings - 1 then sc.markup[NoBranchScaffold]
    else sc.markup[BypassBranchScaffold]
  }

  /** The bullet template of a list style at a depth below the top level:
      the bullets in turn, starting over after the last one. */
  function Bullet(sc: Scaffolding, depth: nat): (b: string)
    requires sc.isList && HasTemplates(sc) && depth >= 1
    ensures b in sc.markup[LevelList..]
  {
    var offset := (depth - 1) % (|sc.markup| - 1);
    sc.markup[LevelList + offset]
  }

  /** The first round of levels uses the bullets in order, and each later
      level repeats the level one round of bullets above it. */
  lemma BulletsCycle(sc: Scaffolding, depth: nat)
    requires sc.isList && HasTemplates(sc) && depth >= 1
    ensures depth < |sc.markup| ==> Bullet(sc, depth) == sc.markup[depth]
    ensures Bullet(sc, depth + (|sc.markup| - 1)) == Bullet(sc, depth)
  {
    var m, x := |sc.markup| - 1, depth - 1;
    if depth < |sc.markup| {
      ModUnique(x, m, 0, x);
    }
    ModShift(x, m);
    assert depth + m - 1 == x + m;
  }

  lemma ModShift(x: nat, m: nat)
    requires m > 0
    ensures (x + m) % m == x % m
  {
    ModUnique(x + m, m, x / m + 1, x % m);
  }

  lemma ModUnique(x: int, m: int, q: int, r: int)
    requires m > 0 && 0 <= r < m && x == q * m + r
    ensures x % m == r
  {
    var q', r' := x / m, x % m;
    MulMonotone(q + 1, q', m);
    MulMonotone(q' + 1, q, m);
  }

  /** Proof helper: multiplying by a non-negative factor keeps order. */
  lemma MulMonotone(a: int, b: int, m: int)
    requires m >= 0
    ensures a <= b ==> a * m <= b * m
  {
    if a <= b {
      assert b * m - a * m == (b - a) * m;
    }
  }

  /** The lines of one label: the first after `first`, the others after
      `flow`. */
  function LabelLines(lines: seq<string>, first: string, flow: string): (r: seq<string>)
    ensures |r| == |lines|
  {
    if lines == [] then [] else [first + lines[0]] + LabelLines(lines[1..], flow, flow)
  }

  lemma {:induction false} LabelLinesSnoc(lines: seq<string>, line: string, first: string, flow: string)
    ensures LabelLines(lines + [line], first, flow)
      == LabelLines(lines, first, flow) + [(if lines == [] then first else flow) + line]
  {
    if lines != [] {
      LabelLinesSnoc(lines[1..], line, flow, flow);
      assert (lines + [line])[1..] == lines[1..] + [line];
    }
  }

  /** Drawing the branches of t succeeds: no list style without bullets is
      asked for a label below the top level. */
  predicate Printable(sc: Scaffolding, depth: nat, t: Node)
    decreases t, 1
  {
    forall j :: 0 <= j < |t.branches| ==> BranchPrintable(sc, depth, t.branches[j])
  }

  predicate BranchPrintable(sc: Scaffolding, depth: nat, b: Node)
    decreases b, 2
  {
    (depth == 0 || HasTemplates(sc)) && Printable(sc, depth + 1, b)
  }

  /** Drawing fails exactly when the style is a list style without bullets
      and some label sits below the top level. */
  lemma {:induction false} PanicCondition(sc: Scaffolding, depth: nat, t: Node)
    ensures Printable(sc, depth, t) <==> HasTemplates(sc) || Depth(t) <= (if depth == 0 then 1 else 0)
    decreases t
  {
    DepthIsMax(t);
    if HasTemplates(sc) {
      forall j | 0 <= j < |t.branches| ensures BranchPrintable(sc, depth, t.branches[j]) {
        PanicCondition(sc, depth + 1, t.branches[j]);
      }
    } else if Depth(t) <= (if depth == 0 then 1 else 0) {
      forall j | 0 <= j < |t.branches| ensures BranchPrintable(sc, depth, t.branches[j]) {
        PanicCondition(sc, depth + 1, t.branches[j]);
      }
    } else {
      var j :| 0 <= j < |t.branches| && Depth(t) == 1 + Depth(t.branches[j]);
      PanicCondition(sc, depth + 1, t.branches[j]);
      assert !BranchPrintable(sc, depth, t.branches[j]);
    }
  }

  /** The output lines for the whole tree below t. */
  function Layout(t: Node, depth: nat, padding: string, sc: Scaffolding): seq<string>
    requires WellFormed(sc) && Printable(sc, depth, t)
    decreases t, |t.branches| + 1, 0
  {
    LayoutUpTo(t, |t.branches|, depth, padding, sc)
  }

  /** The output lines for the first k branches of t. */
  function LayoutUpTo(t: Node, k: nat, depth: nat, padding: string, sc: Scaffolding): seq<string>
    requires WellFormed(sc) && k <= |t.branches|
    requires forall j :: 0 <= j < k ==> BranchPrintable(sc, depth, t.branches[j])
    decreases t, k, 1
  {
    if k == 0 then [] else LayoutUpTo(t, k - 1, depth, padding, sc) + BranchLines(t, k - 1, depth, padding, sc)
  }

  /** The output lines for branch j of t: its label, then its own branches
      one level deeper under the flow padding. */
  function BranchLines(t: Node, j: nat, depth: nat, padding: string, sc: Scaffolding): seq<string>
    requires WellFormed(sc) && j < |t.branches|
    requires BranchPrintable(sc, depth, t.branches[j])
    decreases t, j, 0
  {
    var b := t.branches[j];
    var first := padding + LabelPadding(depth, j, |t.branches|, sc).value;
    var flow := padding + FlowPadding(depth, j, |t.branches|, sc);
    LabelLines(Split(b.name), first, flow) + Layout(b, depth + 1, flow, sc)
  }

  /** PrintStyle: the tree drawn in the requested style, or in BoxStyle
      when the id is out of range. */
  function Rendering(styles: seq<Scaffolding>, t: Node, style: int): Outcome<string>
    requires Registered(styles)
  {
    var sc := styles[Resolve(|styles|, style)];
    if Printable(sc, 0, t) then Ok(Text(Layout(t, 0, "", sc))) else DivideByZero
  }

  /** An out-of-range style id draws exactly what BoxStyle draws. */
  lemma PrintStyleFallback(styles: seq<Scaffolding>, t: Node, style: int)
    requires Registered(styles)
    requires style < 0 || style >= |styles|
    ensures Rendering(styles, t, style) == Rendering(styles, t, BoxStyle)
  {
  }

  /** A built-in style draws every tree without failing. */
  lemma BuiltinsNeverFail(styles: seq<Scaffolding>, t: Node, style: int)
    requires Registered(styles) && style < |Builtins()|
    ensures Rendering(styles, t, style).Ok?
  {
    var id := Resolve(|styles|, style);
    assert styles[id] == Builtins()[id];
    PanicCondition(styles[id], 0, t);
  }

  /** A list style without bullets still draws a tree whose branches have
      no branches of their own, and fails on any deeper tree. */
  lemma BulletlessListStyle(styles: seq<Scaffolding>, t: Node, style: nat)
    requires Registered(styles) && style < |styles|
    requires styles[style].isList && |styles[style].markup| == 1
    ensures Rendering(styles, t, style).Ok? <==> Depth(t) <= 1
  {
    PanicCondition(styles[style], 0, t);
  }

  // ---------------------------------------------------------------------
  // Every line of a subtree starts with the padding handed down to it.

  function Indent(p: string, lines: seq<string>): (r: seq<string>)
    ensures |r| == |lines|
    ensures forall k :: 0 <= k < |lines| ==> r[k] == p + lines[k]
  {
    if lines == [] then [] else [p + lines[0]] + Indent(p, lines[1..])
  }

  lemma {:induction false} IndentAppend(p: string, a: seq<string>, b: seq<string>)
    ensures Indent(p, a + b) == Indent(p, a) + Indent(p, b)
  {
    assert forall k :: 0 <= k < |a + b| ==> Indent(p, a + b)[k] == (Indent(p, a) + Indent(p, b))[k];
  }

  lemma {:induction false} IndentTwice(p: string, q: string, lines: seq<string>)
    ensures Indent(p + q, lines) == Indent(p, Indent(q, lines))
  {
    if lines != [] {
      IndentTwice(p, q, lines[1..]);
      assert Indent(q, lines)[1..] == Indent(q, lines[1..]);
      assert p + q + lines[0] == p + (q + lines[0]);
    }
  }

  lemma {:induction false} LabelLinesIndent(lines: seq<string>, p: string, first: string, flow: string)
    ensures LabelLines(lines, p + first, p + flow) == Indent(p, LabelLines(lines, first, flow))
  {
    if lines != [] {
      LabelLinesIndent(lines[1..], p, flow, flow);
      assert p + first + lines[0] == p + (first + lines[0]);
    }
  }

  /** The padding a subtree is drawn with is a prefix of every one of its
      lines, and the lines are otherwise those drawn with no padding. */
  lemma {:induction false} LayoutIndent(t: Node, k: nat, depth: nat, p: string, sc: Scaffolding)
    requires WellFormed(sc) && k <= |t.branches|
    requires forall j :: 0 <= j < k ==> BranchPrintable(sc, depth, t.branches[j])
    ensures LayoutUpTo(t, k, depth, p, sc) == Indent(p, LayoutUpTo(t, k, depth, "", sc))
    decreases t, k, 1
  {
    if k > 0 {
      LayoutIndent(t, k - 1, depth, p, sc);
      BranchLinesIndent(t, k - 1, depth, p, sc);
      IndentAppend(p, LayoutUpTo(t, k - 1, depth, "", sc), BranchLines(t, k - 1, depth, "", sc));
    }
  }

  lemma {:induction false} BranchLinesIndent(t: Node, j: nat, depth: nat, p: string, sc: Scaffolding)
    requires WellFormed(sc) && j < |t.branches|
    requires BranchPrintable(sc, depth, t.branches[j])
    ensures BranchLines(t, j, depth, p, sc) == Indent(p, BranchLines(t, j, depth, "", sc))
    decreases t, j, 0
  {
    var b := t.branches[j];
    var n := |t.branches|;
    var mark := LabelPadding(depth, j, n, sc).value;
    var f := FlowPadding(depth, j, n, sc);
    var ls := Split(b.name);
    assert Printable(sc, depth + 1, b);
    assert "" + f == f;
    LayoutIndent(b, |b.branches|, depth + 1, p + f, sc);
    LayoutIndent(b, |b.branches|, depth + 1, f, sc);
    IndentBranch(ls, p, mark, f, Layout(b, depth + 1, "", sc));
  }

  /** The lines of one branch drawn under padding p are those drawn with no
      padding, each behind p. */
  lemma IndentBranch(ls: seq<string>, p: string, mark: string, f: string, inner: seq<string>)
    ensures LabelLines(ls, p + mark, p + f) + Indent(p + f, inner)
      == Indent(p, LabelLines(ls, "" + mark, "" + f) + Indent(f, inner))
  {
    LabelLinesIndent(ls, p, mark, f);
    IndentTwice(p, f, inner);
    assert "" + mark == mark && "" + f == f;
    IndentAppend(p, LabelLines(ls, mark, f), Indent(f, inner));
  }

  // ---------------------------------------------------------------------
  // Whatever the style, the output holds one line per label line, in
  // pre-order, each ending with that label line.

  /** The label lines of every node below the root, in pre-order. */
  function Outline(t: Node): seq<string>
    decreases t
  {
    OutlineOf(t.branches)
  }

  function OutlineOf(bs: seq<Node>): seq<string>
    decreases bs
  {
    if bs == [] then [] else OutlineOf(bs[..|bs| - 1]) + Split(bs[|bs| - 1].name) + Outline(bs[|bs| - 1])
  }

  lemma {:induction false} OutlineOfAppend(a: seq<Node>, b: seq<Node>)
    ensures OutlineOf(a + b) == OutlineOf(a) + OutlineOf(b)
    decreases |b|
  {
    if b == [] {
      assert a + b == a;
    } else {
      var init, last := b[..|b| - 1], b[|b| - 1];
      var x, y := OutlineOf(a), OutlineOf(init);
      var s, o := Split(last.name), Outline(last);
      OutlineOfAppend(a, init);
      InitOfAppend(a, b);
      AppendAssoc(x, y, s);
      AppendAssoc(x, y + s, o);
    }
  }

  predicate EndsWith(s: string, suffix: string)
  {
    |suffix| <= |s| && s[|s| - |suffix|..] == suffix
  }

  /** Line k of `lines` ends with line k of `outline`. */
  ghost predicate Matches(lines: seq<string>, outline: seq<string>)
  {
    |lines| == |outline| && forall k :: 0 <= k < |lines| ==> EndsWith(lines[k], outline[k])
  }

  lemma MatchesAppend(a: seq<string>, b: seq<string>, oa: seq<string>, ob: seq<string>)
    requires Matches(a, oa) && Matches(b, ob)
    ensures Matches(a + b, oa + ob)
  {
    forall k | 0 <= k < |a + b| ensures EndsWith((a + b)[k], (oa + ob)[k]) {
      if k >= |a| {
        assert (a + b)[k] == b[k - |a|] && (oa + ob)[k] == ob[k - |a|];
      }
    }
  }

  lemma {:induction false} LabelLinesMatch(lines: seq<string>, first: string, flow: string)
    ensures Matches(LabelLines(lines, first, flow), lines)
  {
    if lines != [] {
      LabelLinesMatch(lines[1..], flow, flow);
      var r := LabelLines(lines, first, flow);
      forall k | 0 <= k < |r| ensures EndsWith(r[k], lines[k]) {
        if k == 0 {
          assert r[0][|r[0]| - |lines[0]|..] == lines[0];
        } else {
          assert r[k] == LabelLines(lines[1..], flow, flow)[k - 1];
        }
      }
    }
  }

  /** The drawn lines of the first k branches end, one for one, with the
      label lines of those branches and their subtrees in pre-order. */
  lemma {:induction false} LayoutOutline(t: Node, k: nat, depth: nat, padding: string, sc: Scaffolding)
    requires WellFormed(sc) && k <= |t.branches|
    requires forall j :: 0 <= j < k ==> BranchPrintable(sc, depth, t.branches[j])
    ensures Matches(LayoutUpTo(t, k, depth, padding, sc), OutlineOf(t.branches[..k]))
    decreases t, k, 1
  {
    if k > 0 {
      var b := t.branches[k - 1];
      LayoutOutline(t, k - 1, depth, padding, sc);
      BranchLinesOutline(t, k - 1, depth, padding, sc);
      MatchesAppend(LayoutUpTo(t, k - 1, depth, padding, sc), BranchLines(t, k - 1, depth, padding, sc),
        OutlineOf(t.branches[..k - 1]), Split(b.name) + Outline(b));
      PrefixStep(t.branches, k);
      AppendAssoc(OutlineOf(t.branches[..k - 1]), Split(b.name), Outline(b));
    }
  }

  lemma {:induction false} BranchLinesOutline(t: Node, j: nat, depth: nat, padding: string, sc: Scaffolding)
    requires WellFormed(sc) && j < |t.branches|
    requires BranchPrintable(sc, depth, t.branches[j])
    ensures Matches(BranchLines(t, j, depth, padding, sc), Split(t.branches[j].name) + Outline(t.branches[j]))
    decreases t, j, 0
  {
    var b := t.branches[j];
    var n := |t.branches|;
    var first := padding + LabelPadding(depth, j, n, sc).value;
    var flow := padding + FlowPadding(depth, j, n, sc);
    assert Printable(sc, depth + 1, b);
    LabelLinesMatch(Split(b.name), first, flow);
    LayoutOutline(b, |b.branches|, depth + 1, flow, sc);
    assert b.branches[..|b.branches|] == b.branches;
    MatchesAppend(LabelLines(Split(b.name), first, flow), Layout(b, depth + 1, flow, sc),
      Split(b.name), Outline(b));
  }

  /** The whole drawing: one line per label line of the tree, in pre-order. */
  lemma RenderingOutline(t: Node, depth: nat, padding: string, sc: Scaffolding)
    requires WellFormed(sc) && Printable(sc, depth, t)
    ensures Matches(Layout(t, depth, padding, sc), Outline(t))
  {
    LayoutOutline(t, |t.branches|, depth, padding, sc);
    assert t.branches[..|t.branches|] == t.branches;
  }

  // ---------------------------------------------------------------------
  // The print loop.

  /** The text of one branch: its label lines, then its own branches. */
  lemma BranchText(t: Node, k: nat, depth: nat, padding: string, sc: Scaffolding, buf: string)
    requires WellFormed(sc) && k < |t.branches|
    requires BranchPrintable(sc, depth, t.branches[k])
    ensures var b, n := t.branches[k], |t.branches|;
      var flow := padding + FlowPadding(depth, k, n, sc);
      var ls := LabelLines(Split(b.name), padding + LabelPadding(depth, k, n, sc).value, flow);
      (buf + Text(ls)) + Text(Layout(b, depth + 1, flow, sc)) == buf + Text(BranchLines(t, k, depth, padding, sc))
  {
    var b, n := t.branches[k], |t.branches|;
    var flow := padding + FlowPadding(depth, k, n, sc);
    var ls := LabelLines(Split(b.name), padding + LabelPadding(depth, k, n, sc).value, flow);
    var rest := Layout(b, depth + 1, flow, sc);
    TextAppend(ls, rest);
    AppendAssoc(buf, Text(ls), Text(rest));
  }

  /** One turn of the branch loop: the text so far followed by the text of
      branch k is the text of the first k + 1 branches. */
  lemma LayoutStep(t: Node, k: nat, depth: nat, padding: string, sc: Scaffolding, buf: string)
    requires WellFormed(sc) && k < |t.branches|
    requires forall j :: 0 <= j <= k ==> BranchPrintable(sc, depth, t.branches[j])
    ensures (buf + Text(LayoutUpTo(t, k, depth, padding, sc))) + Text(BranchLines(t, k, depth, padding, sc))
      == buf + Text(LayoutUpTo(t, k + 1, depth, padding, sc))
  {
    var done := LayoutUpTo(t, k, depth, padding, sc);
    var next := BranchLines(t, k, depth, padding, sc);
    TextAppend(done, next);
    AppendAssoc(buf, Text(done), Text(next));
  }

  /** One turn of the line loop: line i of a label is written after the
      first i, behind the label markup if it is the first line and behind
      the flow markup otherwise. */
  lemma LabelLineStep(lines: seq<string>, i: nat, first: string, flow: string)
    requires i < |lines|
    ensures Text(LabelLines(lines[..i + 1], first, flow))
      == Text(LabelLines(lines[..i], first, flow)) + ((if i == 0 then first else flow) + lines[i] + "\n")
  {
    LabelLinesSnoc(lines[..i], lines[i], first, flow);
    assert lines[..i + 1] == lines[..i] + [lines[i]];
    TextAppend(LabelLines(lines[..i], first, flow), [(if i == 0 then first else flow) + lines[i]]);
  }

  /** The line loop of print: writes each line of a label after buf, the
      first behind the label markup and the rest behind the flow markup. */
  method WriteLabel(lines: seq<string>, depth: nat, index: nat, n: nat, padding: string, sc: Scaffolding, buf: string)
    returns (out: Outcome<string>)
    requires WellFormed(sc) && index < n && lines != []
    ensures var mark := LabelPadding(depth, index, n, sc);
      out == if mark.Ok? then Ok(buf + Text(LabelLines(lines, padding + mark.value, padding + FlowPadding(depth, index, n, sc))))
             else DivideByZero
  {
    var acc := buf;
    ghost var mark := LabelPadding(depth, index, n, sc);
    ghost var first := padding + (if mark.Ok? then mark.value else "");
    ghost var flow := padding + FlowPadding(depth, index, n, sc);
    for lineIndex := 0 to |lines|
      invariant lineIndex > 0 ==> mark.Ok?
      invariant acc == buf + Text(LabelLines(lines[..lineIndex], first, flow))
    {
      var prefix;
      if lineIndex == 0 {
        var labelPadding := LabelPadding(depth, index, n, sc);
        if labelPadding.DivideByZero? {
          return DivideByZero;
        }
        prefix := padding + labelPadding.value;
      } else {
        prefix := padding + FlowPadding(depth, index, n, sc);
      }
      LabelLineStep(lines, lineIndex, first, flow);
      acc := acc + (prefix + lines[lineIndex] + "\n");
    }
    assert lines[..|lines|] == lines;
    out := Ok(acc);
  }

  /** print: writes the lines for the branches of t after buf, stopping
      at the first label a bullet-less list style cannot mark. */
  method PrintInto(t: Node, depth: nat, padding: string, sc: Scaffolding, buf: string) returns (out: Outcome<string>)
    requires WellFormed(sc)
    ensures out == if Printable(sc, depth, t) then Ok(buf + Text(Layout(t, depth, padding, sc))) else DivideByZero
    decreases t, 1
  {
    var acc := buf;
    for index := 0 to |t.branches|
      invariant forall j :: 0 <= j < index ==> BranchPrintable(sc, depth, t.branches[j])
      invariant acc == buf + Text(LayoutUpTo(t, index, depth, padding, sc))
    {
      var written := PrintBranch(t, index, depth, padding, sc, acc);
      if written.DivideByZero? {
        return DivideByZero;
      }
      LayoutStep(t, index, depth, padding, sc, buf);
      acc := written.value;
    }
    out := Ok(acc);
  }

  /** The body of print's branch loop: the lines of the label of branch
      `index`, then that branch's own branches one level deeper, behind the
      flow markup. */
  method PrintBranch(t: Node, index: nat, depth: nat, padding: string, sc: Scaffolding, buf: string)
    returns (out: Outcome<string>)
    requires WellFormed(sc) && index < |t.branches|
    ensures out == if BranchPrintable(sc, depth, t.branches[index])
      then Ok(buf + Text(BranchLines(t, index, depth, padding, sc))) else DivideByZero
    decreases t, 0
  {
    var n := |t.branches|;
    var branch := t.branches[index];
    var written := WriteLabel(Split(branch.name), depth, index, n, padding, sc, buf);
    if written.DivideByZero? {
      return DivideByZero;
    }
    out := PrintInto(branch, depth + 1, padding + FlowPadding(depth, index, n, sc), sc, written.value);
    if out.Ok? {
      BranchText(t, index, depth, padding, sc, buf);
    }
  }
}
