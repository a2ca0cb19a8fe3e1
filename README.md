# go-printtree in Dafny

A model of the core of the Go library `printtree`. The library builds a tree of text labels and draws it as text. The root is never drawn. Each branch label is drawn on its own line, behind markup that depends on the chosen style. Labels may span several lines.

There are two kinds of style:

- A **structural style** draws branch lines. It has four pieces: the mark before a middle branch, before the last branch, the bypass line for a middle branch's subtree, and the blank line for the last branch's subtree.
- A **list style** has an indent followed by one bullet template per nesting level. The templates are used in turn and start over after the last one. A template may carry a number placeholder: `1`, `a`, `A`, `i` or `I`. That placeholder, together with the spaces to its left, is overwritten by the branch's position. The position is written in decimal, in bijective base-26 letters, or in Roman numerals, right-aligned in the span it replaces.

The model is split into these modules:

- `Nodes`: the tree as a value.
- `PrintTree.Tree`: the mutable tree object whose methods grow, sort and print it.
- `Styles`: the style table. `Styles.Registry` is a class holding the dictionary that `AddStructuralStyle` and `AddListStyle` extend.
- `Render`: the renderer. `Layout` is the specification, giving the list of output lines. `PrintInto`, `PrintBranch` and `WriteLabel` are the loops of `print`, each proved equal to that specification.
- `Placeholders`: placeholder replacement.
- `Ordinals`: the ordinal conversions.
- `Roman`: the stand-alone `RomanNumerals` routine.
- `Sorting`: the stable sort that `sort.SliceStable` performs.
- `Lines`: splitting a label into lines and joining lines into text.

A list style with no bullets makes `labelPadding` compute `x % 0`. In Go this is a run-time panic. The model returns it as the outcome `DivideByZero`. `PanicCondition` states exactly when it happens: a bullet-less list style and a tree deeper than one level.

## Model

| member | source | states |
|---|---|---|
| PrintTree.Tree.NewTree | tree.go:90-92 | a new tree has an empty label and no branches |
| PrintTree.Tree.AddBranch | tree.go:96-102 | appends exactly one leaf with the given label after the existing branches; the label is unchanged; returns that leaf |
| PrintTree.Tree.AddBranches | tree.go:106-113 | appends one leaf per label, in the order given, and returns them in that order; nothing else changes |
| PrintTree.Tree.AddTreeAsBranch | tree.go:126-134 | a tree with an empty label has its branches appended; any other tree is appended as a single branch |
| PrintTree.Tree.Depth | tree.go:138-149 | returns the depth of the tree: 0 without branches, otherwise one more than the deepest branch |
| PrintTree.NodeDepth | tree.go:138-149 | the max-keeping loop over the branches computes Nodes.Depth |
| Nodes.DepthIsMax | tree.go:138-149 | depth is 0 exactly when there are no branches; every branch is shallower than its parent, and some branch is exactly one level shallower |
| Nodes.LevelDepthIsMax | tree.go:140-146 | after k turns of the loop, depth is the maximum over the first k branches of 1 + their depth, or 0 when k is 0 |
| PrintTree.Tree.Sort | tree.go:152-156 | the branches become the stable sort by label of the old branches; the label is unchanged |
| PrintTree.Tree.SortCustom | tree.go:168-172 | the branches become SortBy of the old branches under the caller's comparator; for a strict weak order this is the one stable sort (Sorting.StableSortUnique), so it agrees with sort.SliceStable |
| PrintTree.Tree.DeepSort | tree.go:159-164 | the tree becomes DeepSorted by label of the old tree |
| PrintTree.Tree.DeepSortCustom | tree.go:176-181 | sorting this level, then deep-sorting each branch in place, yields DeepSorted of the old tree |
| PrintTree.DeepSortNode | tree.go:176-181 | a branch deep-sorted by the same loop equals DeepSorted of that branch |
| Nodes.DeepSortSortsEveryLevel | tree.go:159-164 | after DeepSort, the branches at every level are sorted by label |
| Nodes.DeepSortIdempotent | tree.go:159-164 | deep-sorting an already deep-sorted tree changes nothing |
| Nodes.DeepSorted | tree.go:176-181 | the specification of DeepSortCustom: same label and as many branches, the branches being SortBy of the old ones, each deep-sorted (Nodes.DeepSortedBranches) |
| Nodes.DeepSortedBranches | tree.go:177-180 | branch k of the deep-sorted tree is the deep-sorted form of branch k of the sorted level, which is one of the tree's own branches |
| Nodes.Depth | tree.go:138-149 | the depth of a tree: 0 without branches, otherwise one more than its deepest branch; its properties are stated by Nodes.DepthIsMax |
| Nodes.LexLess | tree.go:154 | Go's string `<`: a proper prefix comes first, otherwise the first differing character decides; it is irreflexive, transitive and total (Nodes.LexIrreflexive, Nodes.LexTransitive, Nodes.LexTotal) |
| Nodes.LabelLess | tree.go:153-155 | the comparator Sort and DeepSort hand to sort.SliceStable: a branch comes first when its label is LexLess than the other's |
| Nodes.DeepSortEach | tree.go:161-163 | the loop over the sorted branches: as many results as branches, result k being the deep-sorted form of branch k |
| Nodes.LabelLessIsStrictWeakOrder | tree.go:153-155 | comparing labels with `<` is a strict weak order |
| Nodes.LabelEquivalence | tree.go:153-155 | two branches tie under the label order exactly when their labels are equal |
| Sorting.SortBySorted | tree.go:153-155 | for a strict weak order, the sorted branches are in order |
| Sorting.SortByStable | tree.go:153-155 | for a strict weak order, tied elements keep their relative order |
| Sorting.StableSortUnique | tree.go:153-155 | two sorted sequences with the same tied elements in the same order are equal, so any stable sort gives the result SortBy gives |
| Sorting.SortByOfSorted | tree.go:153-155 | sorting an already sorted sequence leaves it unchanged |
| Sorting.SortBy | tree.go:168-172 | the stable insertion sort standing for sort.SliceStable: a permutation of its input (same length, same multiset), sorted and stable by the lemmas above |
| Styles.Builtins | tree.go:61-77 | fifteen styles, all well formed: six structural styles, then nine list styles each with at least one bullet |
| Styles.Resolve | tree.go:289-291 | an id in range selects itself; any other id selects BoxStyle |
| Styles.Registry.constructor | tree.go:61-77 | the dictionary starts with the built-in styles |
| Styles.Registry.AddStructuralStyle | tree.go:201-207 | appends a structural style with the four given pieces and returns its id, the new last index; built-in ids are kept |
| Styles.Registry.AddListStyle | tree.go:265-273 | appends a list style whose markup is the indent followed by the bullets, and returns its id |
| Styles.AppendKeepsIds | tree.go:201-207 | adding a style keeps the dictionary valid and keeps every existing id naming the same style |
| Render.LabelPadding | tree.go:324-341 | empty at depth 0; for a list style, the bullet of that level (Render.BulletsCycle) with the placeholder replaced by the 1-based position; for a structural style, the last-branch or middle-branch piece; fails exactly when a list style without bullets is asked for a label below the top level |
| Render.FlowPadding | tree.go:343-359 | empty at depth 0; the indent for a list style; the blank piece after the last branch and the bypass piece otherwise |
| Render.BulletsCycle | tree.go:330-332 | levels 1 to n use the n bullets in order, and each level repeats the bullet n levels above it |
| Render.PanicCondition | tree.go:330-332 | drawing fails exactly when the style is a list style without bullets and a label lies below the top level |
| Render.BulletlessListStyle | tree.go:265-273 | a list style added without bullets draws a tree exactly when the tree has depth at most 1 |
| Render.BuiltinsNeverFail | tree.go:61-77 | every built-in style draws every tree |
| Render.PrintStyleFallback | tree.go:287-297 | an out-of-range style id draws exactly what BoxStyle draws |
| Render.RenderingOutline | tree.go:300-322 | whatever the style, the drawing has one line per label line, in pre-order, each ending with that label line |
| Render.LayoutIndent | tree.go:319-320 | the padding a subtree is drawn under prefixes every one of its lines, and the lines are otherwise those drawn without padding |
| Render.WriteLabel | tree.go:307-317 | the line loop writes every line of a label, the first behind the label markup and the rest behind the flow markup; fails when the label markup fails |
| Render.PrintBranch | tree.go:301-320 | one turn of the branch loop writes the branch's lines and then its subtree, one level deeper behind the flow markup |
| Render.PrintInto | tree.go:300-322 | print writes exactly the lines of Layout, or fails exactly when the tree is not printable in that style |
| Render.Layout | tree.go:300-322 | the lines print writes for the branches of a tree: LayoutUpTo over all of them; characterised by Render.RenderingOutline and Render.LayoutIndent |
| Render.LayoutUpTo | tree.go:302-321 | the lines of the first k branches, in order: those of the first k - 1, then BranchLines of branch k - 1 |
| Render.BranchLines | tree.go:303-320 | one branch: each label line behind padding plus label markup (first) or flow markup (rest), then the branch's own branches one level deeper behind padding plus flow markup |
| Render.Rendering | tree.go:287-297 | what PrintStyle returns: the text of Layout in the resolved style, or the divide-by-zero outcome when the tree is not printable in it |
| Render.Bullet | tree.go:331-332 | the bullet template at offset (depth - 1) mod (number of bullets); always one of the style's bullets |
| PrintTree.Tree.PrintStyle | tree.go:287-297 | returns the rendering of this tree in the resolved style |
| PrintTree.Tree.Print | tree.go:281-283 | returns the rendering in BoxStyle |
| PrintTree.Tree.String | tree.go:276-278 | returns the rendering in WhiteSpaceStyle |
| Lines.Split | tree.go:307 | splitting on line breaks gives at least one piece, one more than there are line breaks, and no piece contains a line break |
| Lines.JoinSplit | tree.go:307 | joining the pieces with line breaks gives the label back |
| Lines.SplitJoin | tree.go:307 | splitting pieces that contain no line break, after joining them, gives those pieces back |
| Lines.TextNewlines | tree.go:316 | writing n lines, each ended by a line break, produces n line breaks |
| Placeholders.FindSpan | tree.go:388-392 | the leftmost match of a run of spaces followed by the placeholder; no match exactly when the placeholder does not occur |
| Placeholders.PadLeft | tree.go:396 | the value right-aligned in the given width, preceded only by spaces, never truncated |
| Placeholders.ReplaceNumberPlaceholder | tree.go:386-398 | without the placeholder the template comes back unchanged; otherwise the text before and after the matched span is kept and the value is right-aligned over the span, expanding to the right when longer |
| Placeholders.ChooseMarker | tree.go:366-377 | the first of 1, a, A, i, I that the template contains, or none exactly when it contains none of them |
| Placeholders.ReplaceNumberListMarkup | tree.go:365-381 | a template without a placeholder is returned as is; otherwise the chosen placeholder is replaced by the position in that numbering |
| Placeholders.Ordinal | tree.go:367-376 | the value written for each placeholder: Itoa, Alpha, upper-case Alpha, Roman, upper-case Roman |
| Placeholders.Upper | tree.go:372 | strings.ToUpper on the converters' output: same length, each letter a-z raised to A-Z, anything else kept |
| Placeholders.UpperOrdinals | tree.go:372-376 | the upper-case ordinals consist only of A to Z, or of M, D, C, L, X, V, I |
| Ordinals.Itoa | tree.go:368 | decimal digits that read back as the number, with no leading zero unless the number is 0, after a minus sign for a negative number |
| Ordinals.DecimalDecodeRoundTrip | tree.go:368 | every digit string without a leading zero is the decimal form of its value |
| Ordinals.ItoaUnique | tree.go:368 | the decimal form is the only such digit string of its value, so Itoa's contract fixes its output |
| Ordinals.DecimalRoundTrip | tree.go:368 | the decimal digits of n read back as n |
| Ordinals.Alpha | tree.go:401-411 | "-" for a non-positive number; otherwise non-empty lower-case letters that read back as n in bijective base 26 |
| Ordinals.AlphaRoundTrip | tree.go:401-411 | encoding and then decoding gives n back |
| Ordinals.AlphaDecodeRoundTrip | tree.go:401-411 | every non-empty string of lower-case letters is the encoding of exactly one positive number |
| Ordinals.ConvertToAlpha | tree.go:401-411 | the loop of convertToAlpha produces Alpha(n) |
| Ordinals.Roman | tree.go:433-449 | "-" for a non-positive number; otherwise a non-empty numeral over m, d, c, l, x, v, i whose table values add up to n; the table is Ordinals.RomanMap, the entries of tree.go:413-430 and roman.go:3-20 |
| Ordinals.GreedySum | tree.go:439-446 | the values of the entries the greedy scan emits add up to n |
| Ordinals.GreedyInTableOrder | tree.go:413-430 | the emitted entries follow table order, so their values never increase |
| Ordinals.RomanMapDescending | tree.go:413-430 | the table's values strictly decrease from first entry to last, so entries emitted in table order never grow in value |
| Ordinals.FirstFitLeast | tree.go:440-445 | the entry the inner loop stops at is the first one whose value fits |
| Ordinals.ScanRomanMap | tree.go:440-445 | the inner loop over romanMap stops at the first entry whose value fits |
| Ordinals.ConvertToRoman | tree.go:433-449 | the loops of convertToRoman produce Roman(n) |
| Roman.RomanNumerals | roman.go:22-34 | "" for a non-positive number; otherwise exactly what convertToRoman produces |
| Cases.PlaceholderShortValue | tree_test.go:460 | replacing in "(  1)" by "xx" gives "( xx)" |
| Cases.PlaceholderLongValue | tree_test.go:462 | replacing in "(  1)" by "xxxx" gives "(xxxx)" |
| Cases.AlphaCase | tree_test.go:490 | 29 in letters is "ac", as the template " a)" at position 29 shows |
| Cases.RomanCase | tree_test.go:508 | 4 in Roman numerals is "iv" |
| Cases.ListMarkupCase | tree_test.go:508 | the template " i" at position 4 becomes "iv" |
| Cases.IllegalStyleCase | tree_test.go:693-708 | an unknown style id draws the test tree exactly as the test expects, in BoxStyle |
| Cases.TestBranchLayout | tree_test.go:693-708 | the lines of the test tree's branch "1" at depth 1 in BoxStyle |

## Left out

- AddBranchf is not modelled, because it only formats a label with `fmt.Sprintf` and then calls AddBranch.
- Pointer sharing is not modelled. Branches are values (`Nodes.Node`), so the branch that AddBranch, AddBranches and AddTreeAsBranch return is a copy. Changes made later through a returned `*Tree`, shared subtrees and the cycles the source warns about are not captured.
- Comparators are pure functions here. A comparator with side effects, or one that is not a strict weak order, is not covered by the ordering lemmas, which assume a strict weak order.
- The global `scaffoldingDict` is an explicit `Styles.Registry` object passed to the printing methods. Concurrent access to the global is left out.
- `strings.Builder` is a string value that the print methods extend and return.
- PrintTree.Tree.SortCustom: the result equals Go's only when the comparator is a strict weak order. `sort.SliceStable` is modelled by a stable insertion sort that scans from the front, and `Sorting.StableSortUnique` shows that every stable sort gives the same result for a strict weak order. For other comparators Go's own algorithm (insertion sort scanning from the back on short blocks, then symMerge) can order elements differently, and that algorithm is not modelled.
- Placeholders.FindSpan is the leftmost-match specification of the regular expression ` *p`. The regular-expression engine is not modelled.
- `strings.ToUpper` is modelled by Placeholders.Upper, which maps only a to z. This covers every character Alpha and Roman produce; other characters of `strings.ToUpper` are left out.
- Strings are sequences of characters, while Go slices and searches strings by byte. This changes no result: the span the placeholder pattern matches is ASCII (spaces and the placeholder), so its byte length is its character length, `%*s` pads by character count, and the slices before and after the span are the same text either way.
- Nodes.LexLess compares labels character by character, while Go's `<` on strings compares bytes. The two orders agree on well-formed UTF-8, whose byte order follows code-point order; labels holding invalid UTF-8 are not covered.
- Integers are unbounded. Go's `int` overflow for positions near 2^63 is not modelled.
- `romanMap` is declared in both roman.go and tree.go, which one Go package cannot compile. The model has a single table, `Ordinals.RomanMap`, with the entries both files list.
