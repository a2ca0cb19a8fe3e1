/**
 * Ordinal templates: locating the placeholder of a bullet template together
 * with the spaces to its left (replaceNumberPlaceholder), and choosing which
 * placeholder a template carries (replaceNumberListMarkup).
 */
module Placeholders {
  import opened Seqs
  import opened Wrappers
  import opened Ordinals

  function Max(a: int, b: int): int { if a >= b then a else b }

  /** The regular expression " *ph" matches s[i..j]: a run of spaces
      followed by the placeholder. */
  predicate MatchesAt(s: string, ph: char, i: int, j: int)
  {
    0 <= i < j <= |s| && s[j - 1] == ph && forall k :: i <= k < j - 1 ==> s[k] == ' '
  }

  /** The first occurrence of c in s at or after `from`. */
  function IndexOf(s: string, c: char, from: nat): (r: Option<nat>)
    requires from <= |s|
    ensures r.None? ==> forall k :: from <= k < |s| ==> s[k] != c
    ensures r.Some? ==> from <= r.value < |s| && s[r.value] == c
    ensures r.Some? ==> forall k :: from <= k < r.value ==> s[k] != c
    decreases |s| - from
  {
    if from == |s| then None else if s[from] == c then Some(from) else IndexOf(s, c, from + 1)
  }

  /** The start of the run of spaces that ends just before position q. */
  function SpaceRunStart(s: string, q: nat): (p: nat)
    requires q <= |s|
    ensures p <= q
    ensures forall k :: p <= k < q ==> s[k] == ' '
    ensures p == 0 || s[p - 1] != ' '
  {
    if q == 0 || s[q - 1] != ' ' then q else SpaceRunStart(s, q - 1)
  }

  /** regexp.MustCompile(" *" + ph).FindIndex(s): the leftmost match, as the
      half-open span [start, end). */
  function FindSpan(s: string, ph: char): (r: Option<(nat, nat)>)
    requires ph != ' '
    ensures r.None? <==> ph !in s
    ensures r.None? ==> forall i, j :: !MatchesAt(s, ph, i, j)
    ensures r.Some? ==> MatchesAt(s, ph, r.value.0, r.value.1)
    ensures r.Some? ==> forall i, j :: 0 <= i < r.value.0 ==> !MatchesAt(s, ph, i, j)
  {
    match IndexOf(s, ph, 0)
    case None => None
    case Some(q) =>
      Some((SpaceRunStart(s, q), q + 1))
  }

  function Spaces(n: nat): (r: string)
    ensures |r| == n && forall k :: 0 <= k < n ==> r[k] == ' '
  {
    seq(n, _ => ' ')
  }

  /** fmt.Sprintf("%*s", width, v): v right-aligned in a field of the given
      width, never truncated. */
  function PadLeft(v: string, width: nat): (r: string)
    ensures |r| == Max(width, |v|)
    ensures r[|r| - |v|..] == v
    ensures forall k :: 0 <= k < |r| - |v| ==> r[k] == ' '
  {
    if width > |v| then Spaces(width - |v|) + v else v
  }

  /** r is s with s[i..j] overwritten by v right-aligned in that span: the
      text before and after the span is kept, v ends where the span ended
      (or further, when it is the longer), and spaces fill the rest of the
      span. */
  predicate RightAlignedOver(r: string, s: string, i: nat, j: nat, v: string)
  {
    var tail := |s| - j;
    && i <= j <= |s|
    && |r| == i + Max(j - i, |v|) + tail
    && r[..i] == s[..i]
    && r[|r| - tail..] == s[j..]
    && r[|r| - tail - |v|..|r| - tail] == v
    && forall k :: i <= k < |r| - tail - |v| ==> r[k] == ' '
  }

  lemma AlignedSplice(s: string, i: nat, j: nat, v: string)
    requires i <= j <= |s|
    ensures RightAlignedOver(s[..i] + PadLeft(v, j - i) + s[j..], s, i, j, v)
  {
    var pad := PadLeft(v, j - i);
    var spaces := pad[..|pad| - |v|];
    assert pad == spaces + v;
    Splice(s[..i], spaces, v, s[j..]);
  }

  /** replaceNumberPlaceholder: the placeholder and the spaces to its left,
      the leftmost match of " *ph", are overwritten by the value
      right-aligned in that span; a string without the placeholder comes
      back unchanged. */
  function ReplaceNumberPlaceholder(s: string, ph: char, v: string): (r: string)
    requires ph != ' '
    ensures ph !in s ==> r == s
    ensures ph in s ==> RightAlignedOver(r, s, FindSpan(s, ph).value.0, FindSpan(s, ph).value.1, v)
  {
    match FindSpan(s, ph)
    case None => s
    case Some((i, j)) =>
      AlignedSplice(s, i, j, v);
      s[..i] + PadLeft(v, j - i) + s[j..]
  }

  // ---------------------------------------------------------------------------
  // replaceNumberListMarkup
  // ---------------------------------------------------------------------------

  /** The placeholders a template may carry, in the order they are tried:
      decimal, lower-case letter, upper-case letter, lower-case Roman,
      upper-case Roman. */
  const Markers: string := "1aAiI"

  function ChooseMarkerFrom(markup: string, from: nat): (r: Option<nat>)
    requires from <= |Markers|
    ensures r.None? ==> forall k :: from <= k < |Markers| ==> Markers[k] !in markup
    ensures r.Some? ==> from <= r.value < |Markers| && Markers[r.value] in markup
    ensures r.Some? ==> forall k :: from <= k < r.value ==> Markers[k] !in markup
    decreases |Markers| - from
  {
    if from == |Markers| then None
    else if Markers[from] in markup then Some(from)
    else ChooseMarkerFrom(markup, from + 1)
  }

  /** The placeholder that governs a template: the first of Markers, in
      priority order, that occurs in it. */
  function ChooseMarker(markup: string): (r: Option<nat>)
    ensures r.None? <==> forall k :: 0 <= k < |Markers| ==> Markers[k] !in markup
    ensures r.Some? ==> r.value < |Markers| && Markers[r.value] in markup
    ensures r.Some? ==> forall k :: 0 <= k < r.value ==> Markers[k] !in markup
  {
    ChooseMarkerFrom(markup, 0)
  }

  predicate IsUpper(c: char) { 'A' <= c <= 'Z' }

  function UpperChar(c: char): char
  {
    if IsLower(c) then (c as int - 'a' as int + 'A' as int) as char else c
  }

  /** strings.ToUpper on the ASCII text the converters produce. */
  function Upper(s: string): (r: string)
    ensures |r| == |s| && forall k :: 0 <= k < |s| ==> r[k] == UpperChar(s[k])
  {
    seq(|s|, k requires 0 <= k < |s| => UpperChar(s[k]))
  }

  /** The value written for placeholder Markers[marker] and position n. */
  function Ordinal(marker: nat, n: int): string
    requires marker < |Markers|
  {
    match marker
    case 0 => Itoa(n)
    case 1 => Alpha(n)
    case 2 => Upper(Alpha(n))
    case 3 => Roman(n)
    case 4 => Upper(Roman(n))
  }

  /** The upper-case ordinals are the lower-case ones spelled in capitals:
      for a positive position, nothing but the letters A..Z (letters) and
      M, D, C, L, X, V, I (Roman). */
  lemma UpperOrdinals(n: int)
    requires n >= 1
    ensures forall k :: 0 <= k < |Ordinal(2, n)| ==> IsUpper(Ordinal(2, n)[k])
    ensures forall k :: 0 <= k < |Ordinal(4, n)| ==> Ordinal(4, n)[k] in "MDCLXVI"
  {
    var r := Roman(n);
    forall k | 0 <= k < |r| ensures UpperChar(r[k]) in "MDCLXVI" {
      assert r[k] in r;
    }
  }

  /** replaceNumberListMarkup: the first placeholder in priority order is
      replaced by position `index` in that numbering; a template without a
      placeholder is a plain bullet and comes back verbatim. */
  function ReplaceNumberListMarkup(markup: string, index: int): (r: string)
    ensures ChooseMarker(markup).None? ==> r == markup
    ensures ChooseMarker(markup).Some? ==>
      var k := ChooseMarker(markup).value;
      r == ReplaceNumberPlaceholder(markup, Markers[k], Ordinal(k, index))
  {
    match ChooseMarker(markup)
    case None => markup
    case Some(k) => ReplaceNumberPlaceholder(markup, Markers[k], Ordinal(k, index))
  }
}
