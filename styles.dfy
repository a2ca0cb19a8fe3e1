/**
 * Scaffolding styles: the markup drawn to the left of each label. A
 * structural style draws branch lines (mid, last, bypass and no-branch
 * pieces); a list style has an indent followed by one bullet template per
 * nesting level. The registry starts with fifteen built-in styles and grows
 * as custom styles are added; a style id is an index into it.
 */
module Styles {

  datatype Scaffolding = Scaffolding(isList: bool, markup: seq<string>)

  // positions of the pieces of a structural style's markup
  const MidBranchScaffold := 0
  const LastBranchScaffold := 1
  const BypassBranchScaffold := 2
  const NoBranchScaffold := 3

  // positions in a list style's markup: the indent, then the first bullet
  const IndentList := 0
  const LevelList := 1

  // ids of the built-in styles
  const ASCIIStyle := 0
  const BoxStyle := 1
  const BoxBoldStyle := 2
  const ASCIINarrowStyle := 3
  const BoxNarrowStyle := 4
  const BoxBoldNarrowStyle := 5
  const WhiteSpaceStyle := 6
  const ASCIIBulletStyle := 7
  const BulletStyle := 8
  const OrderedStyle := 9
  const NumberStyle := 10
  const AlphaStyle := 11
  const AlphaUCStyle := 12
  const RomanStyle := 13
  const RomanUCStyle := 14

  /** Every style the library can build: a structural style has its four
      pieces, a list style at least its indent. */
  predicate WellFormed(sc: Scaffolding)
  {
    if sc.isList then |sc.markup| >= 1 else |sc.markup| == 4
  }

  /** A list style with at least one bullet; only such a list style can
      mark a label below the top level. */
  predicate HasTemplates(sc: Scaffolding)
  {
    !sc.isList || |sc.markup| >= 2
  }

  function Builtins(): (r: seq<Scaffolding>)
    ensures |r| == 15
    ensures forall i :: 0 <= i < |r| ==> WellFormed(r[i]) && HasTemplates(r[i])
    ensures forall i :: 0 <= i < |r| ==> (r[i].isList <==> i >= WhiteSpaceStyle)
  {
    [ Scaffolding(false, ["|-- ", "'-- ", "|   ", "    "]),
      Scaffolding(false, ["├── ", "╰── ", "│   ", "    "]),
      Scaffolding(false, ["┣━━ ", "┗━━ ", "┃   ", "    "]),
      Scaffolding(false, ["|-", "'-", "| ", "  "]),
      Scaffolding(false, ["├ ", "╰ ", "│ ", "  "]),
      Scaffolding(false, ["┣ ", "┗ ", "┃ ", "  "]),
      Scaffolding(true, ["    ", "    "]),
      Scaffolding(true, ["  ", "* ", "+ ", "- "]),
      Scaffolding(true, ["  ", "● ", "○ ", "■ ", "□ "]),
      Scaffolding(true, ["    ", " 1. ", " a. ", " i. ", " A. ", " I. "]),
      Scaffolding(true, ["    ", " 1. "]),
      Scaffolding(true, ["    ", " a. "]),
      Scaffolding(true, ["    ", " A. "]),
      Scaffolding(true, ["      ", "   i. "]),
      Scaffolding(true, ["      ", "   I. "]) ]
  }

  /** The registry invariant: the built-in styles first, then the added
      ones, all well formed. */
  ghost predicate Registered(styles: seq<Scaffolding>)
  {
    && |styles| >= |Builtins()|
    && styles[..|Builtins()|] == Builtins()
    && forall i :: 0 <= i < |styles| ==> WellFormed(styles[i])
  }

  /** The style PrintStyle draws with: the requested id when it is in
      range, otherwise BoxStyle. */
  function Resolve(count: nat, style: int): (id: nat)
    requires count > BoxStyle
    ensures id < count
    ensures 0 <= style < count ==> id == style
    ensures !(0 <= style < count) ==> id == BoxStyle
  {
    if style < 0 || style >= count then BoxStyle else style
  }

  /** The style dictionary, with the two operations that extend it. */
  class Registry {
    var styles: seq<Scaffolding>

    ghost predicate Valid()
      reads this
    {
      Registered(styles)
    }

    constructor()
      ensures Valid() && styles == Builtins()
    {
      styles := Builtins();
    }

    /** AddStructuralStyle: appends a structural style and returns its id. */
    method AddStructuralStyle(middleBranch: string, lastBranch: string, bypassBranch: string, noBranch: string)
      returns (id: nat)
      requires Valid()
      modifies this
      ensures Valid()
      ensures styles == old(styles) + [Scaffolding(false, [middleBranch, lastBranch, bypassBranch, noBranch])]
      ensures id == |styles| - 1 && id >= |Builtins()|
    {
      styles := styles + [Scaffolding(false, [middleBranch, lastBranch, bypassBranch, noBranch])];
      id := |styles| - 1;
    }

    /** AddListStyle: appends a list style holding the indent alone, then
        extends that entry's markup with the bullets; returns its id. */
    method AddListStyle(indent: string, bullets: seq<string>) returns (id: nat)
      requires Valid()
      modifies this
      ensures Valid()
      ensures styles == old(styles) + [Scaffolding(true, [indent] + bullets)]
      ensures id == |styles| - 1 && id >= |Builtins()|
    {
      styles := styles + [Scaffolding(true, [indent])];
      id := |styles| - 1;
      styles := styles[id := Scaffolding(true, styles[id].markup + bullets)];
    }
  }

  /** Adding a style keeps every existing id meaning the same style. */
  lemma AppendKeepsIds(styles: seq<Scaffolding>, sc: Scaffolding, style: nat)
    requires Registered(styles) && WellFormed(sc)
    ensures Registered(styles + [sc])
    ensures style < |styles| ==> (styles + [sc])[style] == styles[style]
    ensures Resolve(|styles| + 1, |styles|) == |styles|
  {
    assert (styles + [sc])[..|Builtins()|] == styles[..|Builtins()|];
  }
}
