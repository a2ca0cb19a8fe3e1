/**
 * Ordinal converters of the list renderer: decimal (strconv.Itoa), bijective
 * base-26 letters (convertToAlpha) and greedy subtractive Roman numerals
 * (convertToRoman), plus the shared value/key table that the Roman
 * conversions walk.
 */
module Ordinals {
  import opened Seqs

  // ---------------------------------------------------------------------------
  // Decimal numbers (strconv.Itoa)
  // ---------------------------------------------------------------------------

  predicate IsDigit(c: char) { '0' <= c <= '9' }

  function DigitChar(d: nat): (c: char)
    requires d < 10
    ensures IsDigit(c)
  {
    ('0' as int + d) as char
  }

  /** The base-10 digits of n, most significant first, without leading zeros. */
  function DecimalDigits(n: nat): (r: string)
    ensures |r| >= 1
    ensures forall k :: 0 <= k < |r| ==> IsDigit(r[k])
    ensures r[0] == '0' ==> n == 0
  {
    if n < 10 then [DigitChar(n)] else DecimalDigits(n / 10) + [DigitChar(n % 10)]
  }

  /** Reads a string of decimal digits back as a number. */
  function DecimalValue(s: string): nat
  {
    if s == [] then 0
    else
      var c := s[|s| - 1];
      DecimalValue(s[..|s| - 1]) * 10 + (if IsDigit(c) then c as int - '0' as int else 0)
  }

  lemma {:induction false} DecimalRoundTrip(n: nat)
    ensures DecimalValue(DecimalDigits(n)) == n
  {
    if n >= 10 {
      DecimalRoundTrip(n / 10);
      var s := DecimalDigits(n);
      assert s[..|s| - 1] == DecimalDigits(n / 10);
    }
  }

  /** A canonical digit string (no leading zero unless it is "0" itself)
      is the decimal form of exactly its value: with DecimalRoundTrip, the
      decimal form is a bijection between numbers and such strings. */
  lemma {:induction false} DecimalDecodeRoundTrip(s: string)
    requires s != []
    requires forall k :: 0 <= k < |s| ==> IsDigit(s[k])
    requires s[0] == '0' ==> |s| == 1
    ensures DecimalDigits(DecimalValue(s)) == s
  {
    var p, c := s[..|s| - 1], s[|s| - 1];
    var v, d := DecimalValue(p), c as int - '0' as int;
    var n := DecimalValue(s);
    assert 0 <= d < 10 && n == v * 10 + d;
    assert DigitChar(d) == c;
    if p != [] {
      DecimalDecodeRoundTrip(p);
      assert v != 0 by {
        assert p[0] == s[0] != '0';
      }
      assert n / 10 == v && n % 10 == d;
    }
    assert s == p + [c];
  }

  /** strconv.Itoa: a minus sign for negative numbers, then the digits,
      with no leading zero (so the string is the only one of its value). */
  function Itoa(n: int): (r: string)
    ensures n >= 0 ==> |r| >= 1 && DecimalValue(r) == n && forall k :: 0 <= k < |r| ==> IsDigit(r[k])
    ensures n >= 0 ==> (r[0] == '0' ==> n == 0)
    ensures n < 0 ==> |r| >= 2 && r[0] == '-' && DecimalValue(r[1..]) == -n
    ensures n < 0 ==> r[1] != '0' && forall k :: 1 <= k < |r| ==> IsDigit(r[k])
  {
    if n < 0 then
      DecimalRoundTrip(-n);
      assert ("-" + DecimalDigits(-n))[1..] == DecimalDigits(-n);
      "-" + DecimalDigits(-n)
    else
      DecimalRoundTrip(n);
      DecimalDigits(n)
  }

  /** The decimal form is the only canonical digit string of its value. */
  lemma ItoaUnique(n: nat, s: string)
    requires s != [] && forall k :: 0 <= k < |s| ==> IsDigit(s[k])
    requires s[0] == '0' ==> |s| == 1
    requires DecimalValue(s) == n
    ensures s == Itoa(n)
  {
    DecimalDecodeRoundTrip(s);
  }

  // ---------------------------------------------------------------------------
  // Bijective base 26 (convertToAlpha): a..z, aa..az, ba.., the spreadsheet
  // column naming
  // ---------------------------------------------------------------------------

  predicate IsLower(c: char) { 'a' <= c <= 'z' }

  function AlphaLetter(d: nat): (c: char)
    requires d < 26
    ensures IsLower(c)
  {
    ('a' as int + d) as char
  }

  /** The letters of n in bijective base 26; empty for 0. */
  function AlphaDigits(n: nat): (r: string)
    ensures |r| == 0 <==> n == 0
    ensures forall k :: 0 <= k < |r| ==> IsLower(r[k])
  {
    if n == 0 then "" else AlphaDigits((n - 1) / 26) + [AlphaLetter((n - 1) % 26)]
  }

  /** Value of a letter as a bijective base-26 digit: a = 1, ..., z = 26. */
  function LetterValue(c: char): nat
  {
    if IsLower(c) then c as int - 'a' as int + 1 else 0
  }

  /** Reads a string of letters back as a number in bijective base 26. */
  function AlphaValue(s: string): nat
  {
    if s == [] then 0 else AlphaValue(s[..|s| - 1]) * 26 + LetterValue(s[|s| - 1])
  }

  /** Decoding the letters of n gives n back. */
  lemma {:induction false} AlphaRoundTrip(n: nat)
    ensures AlphaValue(AlphaDigits(n)) == n
  {
    if n > 0 {
      var q, d := (n - 1) / 26, (n - 1) % 26;
      AlphaRoundTrip(q);
      var s := AlphaDigits(n);
      assert s[..|s| - 1] == AlphaDigits(q);
      assert LetterValue(s[|s| - 1]) == d + 1;
    }
  }

  /** Every non-empty string of letters is the encoding of exactly its value:
      the letter form is a bijection between positive numbers and such strings. */
  lemma {:induction false} AlphaDecodeRoundTrip(s: string)
    requires s != []
    requires forall k :: 0 <= k < |s| ==> IsLower(s[k])
    ensures AlphaValue(s) >= 1
    ensures AlphaDigits(AlphaValue(s)) == s
  {
    var p, c := s[..|s| - 1], s[|s| - 1];
    var v, d := AlphaValue(p), LetterValue(c);
    var n := AlphaValue(s);
    assert 1 <= d <= 26 && n == v * 26 + d;
    assert (n - 1) / 26 == v && (n - 1) % 26 == d - 1;
    assert AlphaLetter(d - 1) == c;
    if p != [] {
      AlphaDecodeRoundTrip(p);
    }
    assert s == p + [c];
  }

  /** convertToAlpha: "-" for a non-positive n, otherwise its bijective
      base-26 letters, which read back as n. */
  function Alpha(n: int): (r: string)
    ensures n <= 0 ==> r == "-"
    ensures n >= 1 ==> r != [] && (forall k :: 0 <= k < |r| ==> IsLower(r[k])) && AlphaValue(r) == n
  {
    if n <= 0 then "-" else AlphaRoundTrip(n); AlphaDigits(n)
  }

  /** convertToAlpha as the loop the source runs: peel off the least
      significant letter and divide. */
  method ConvertToAlpha(n: int) returns (s: string)
    ensures s == Alpha(n)
  {
    if n <= 0 {
      return "-";
    }
    s := "";
    var m := n;
    while m > 0
      invariant 0 <= m
      invariant AlphaDigits(m) + s == AlphaDigits(n)
      decreases m
    {
      s := [AlphaLetter((m - 1) % 26)] + s;
      m := (m - 1) / 26;
    }
  }

  // ---------------------------------------------------------------------------
  // Roman numerals (convertToRoman and roman.go's RomanNumerals)
  // ---------------------------------------------------------------------------

  type Positive = x: nat | x >= 1 witness 1

  datatype RomanSymbol = RomanSymbol(value: Positive, key: string)

  /** The value/key table both Roman conversions scan, largest value first. */
  const RomanMap: seq<RomanSymbol> := [
    RomanSymbol(1000, "m"), RomanSymbol(900, "cm"), RomanSymbol(500, "d"),
    RomanSymbol(400, "cd"), RomanSymbol(100, "c"), RomanSymbol(90, "xc"),
    RomanSymbol(50, "l"), RomanSymbol(40, "xl"), RomanSymbol(10, "x"),
    RomanSymbol(9, "ix"), RomanSymbol(5, "v"), RomanSymbol(4, "iv"),
    RomanSymbol(1, "i")
  ]

  /** Each entry of the table is worth more than the next. */
  lemma RomanMapAdjacentDescending()
    ensures forall i :: 0 <= i < |RomanMap| - 1 ==> RomanMap[i].value > RomanMap[i + 1].value
  {
  }

  /** A table whose neighbours decrease is strictly decreasing throughout. */
  lemma {:induction false} DescendingFromAdjacent(table: seq<RomanSymbol>)
    requires forall i :: 0 <= i < |table| - 1 ==> table[i].value > table[i + 1].value
    ensures forall i, j :: 0 <= i < j < |table| ==> table[i].value > table[j].value
  {
    if |table| > 1 {
      DescendingFromAdjacent(table[1..]);
      forall i, j | 0 <= i < j < |table|
        ensures table[i].value > table[j].value
      {
        if i > 0 {
          assert table[i] == table[1..][i - 1] && table[j] == table[1..][j - 1];
        } else if j > 1 {
          assert table[1] == table[1..][0] && table[j] == table[1..][j - 1];
        }
      }
    }
  }

  /** RomanMap lists its values from largest to smallest, so entries met in
      table order never grow in value. */
  lemma RomanMapDescending()
    ensures forall i, j :: 0 <= i < j < |RomanMap| ==> RomanMap[i].value > RomanMap[j].value
  {
    RomanMapAdjacentDescending();
    DescendingFromAdjacent(RomanMap);
  }

  predicate IsRomanLetter(c: char) { c in "mdclxvi" }

  lemma RomanKeysAreLetters()
    ensures forall k, j :: 0 <= k < |RomanMap| && 0 <= j < |RomanMap[k].key| ==> IsRomanLetter(RomanMap[k].key[j])
    ensures forall k :: 0 <= k < |RomanMap| ==> RomanMap[k].key != []
  {
  }

  /** What the greedy scan needs of its table: a last entry of value 1, so
      that some entry fits every positive number. */
  predicate GreedyTable(table: seq<RomanSymbol>)
  {
    |table| > 0 && table[|table| - 1].value == 1
  }

  /** The first table entry, from position `from` on, whose value fits in
      n (FirstFitFromLeast: no earlier one from there on fits). */
  function FirstFitFrom(table: seq<RomanSymbol>, n: nat, from: nat): (k: nat)
    requires GreedyTable(table) && n >= 1 && from < |table|
    ensures from <= k < |table| && table[k].value <= n
    decreases |table| - from
  {
    if table[from].value <= n then from
    else
      assert from != |table| - 1;
      FirstFitFrom(table, n, from + 1)
  }

  lemma {:induction false} FirstFitFromLeast(table: seq<RomanSymbol>, n: nat, from: nat, i: nat)
    requires GreedyTable(table) && n >= 1 && from <= i < |table|
    requires table[i].value <= n
    ensures FirstFitFrom(table, n, from) <= i
    decreases |table| - from
  {
    if table[from].value > n {
      FirstFitFromLeast(table, n, from + 1, i);
    }
  }

  /** The entry the inner loop stops at: the first whose value is at most n
      (FirstFitLeast). */
  function FirstFit(table: seq<RomanSymbol>, n: nat): (k: nat)
    requires GreedyTable(table) && n >= 1
    ensures k < |table| && table[k].value <= n
  {
    FirstFitFrom(table, n, 0)
  }

  /** No entry before FirstFit(table, n) fits in n. */
  lemma FirstFitLeast(table: seq<RomanSymbol>, n: nat, i: nat)
    requires GreedyTable(table) && n >= 1 && i < |table|
    ensures table[i].value <= n ==> FirstFit(table, n) <= i
  {
    if table[i].value <= n {
      FirstFitFromLeast(table, n, 0, i);
    }
  }

  /** The table positions the greedy conversion emits, in order. */
  function Greedy(table: seq<RomanSymbol>, n: nat): (ks: seq<nat>)
    requires GreedyTable(table)
    ensures forall i :: 0 <= i < |ks| ==> ks[i] < |table|
    decreases n
  {
    if n == 0 then [] else var k := FirstFit(table, n); [k] + Greedy(table, n - table[k].value)
  }

  function Keys(table: seq<RomanSymbol>, ks: seq<nat>): string
    requires forall i :: 0 <= i < |ks| ==> ks[i] < |table|
  {
    if ks == [] then "" else table[ks[0]].key + Keys(table, ks[1..])
  }

  function Values(table: seq<RomanSymbol>, ks: seq<nat>): nat
    requires forall i :: 0 <= i < |ks| ==> ks[i] < |table|
  {
    if ks == [] then 0 else table[ks[0]].value + Values(table, ks[1..])
  }

  /** The greedy Roman numeral of n (empty for 0). */
  function RomanDigits(n: nat): string
  {
    Keys(RomanMap, Greedy(RomanMap, n))
  }

  /** The emitted values add up to n. */
  lemma {:induction false} GreedySum(table: seq<RomanSymbol>, n: nat)
    requires GreedyTable(table)
    ensures Values(table, Greedy(table, n)) == n
  {
    if n > 0 {
      GreedySum(table, n - table[FirstFit(table, n)].value);
    }
  }

  /** Every entry emitted for n lies at or after any position whose
      predecessors are all too large for n. */
  lemma {:induction false} GreedyFrom(table: seq<RomanSymbol>, n: nat, from: nat)
    requires GreedyTable(table) && from <= |table|
    requires forall j :: 0 <= j < from ==> table[j].value > n
    ensures forall i :: 0 <= i < |Greedy(table, n)| ==> Greedy(table, n)[i] >= from
  {
    if n > 0 {
      var k := FirstFit(table, n);
      GreedyFrom(table, n - table[k].value, from);
    }
  }

  /** Positions listed in table order: never an earlier one after a later one. */
  predicate InTableOrder(ks: seq<nat>)
  {
    forall i, j :: 0 <= i < j < |ks| ==> ks[i] <= ks[j]
  }

  lemma ConsInTableOrder(k: nat, tail: seq<nat>)
    requires InTableOrder(tail)
    requires forall i :: 0 <= i < |tail| ==> tail[i] >= k
    ensures InTableOrder([k] + tail)
  {
    var ks := [k] + tail;
    forall i, j | 0 <= i < j < |ks| ensures ks[i] <= ks[j] {
      assert ks[j] == tail[j - 1];
      if i > 0 {
        assert ks[i] == tail[i - 1];
      }
    }
  }

  /** One greedy step: the first fitting entry, then the greedy positions of
      what remains, all of them at or after that entry. */
  lemma GreedyStep(table: seq<RomanSymbol>, n: nat)
    requires GreedyTable(table) && n >= 1
    ensures var k := FirstFit(table, n); var rest := Greedy(table, n - table[k].value);
      && Greedy(table, n) == [k] + rest
      && forall i :: 0 <= i < |rest| ==> rest[i] >= k
  {
    var k := FirstFit(table, n);
    forall j | 0 <= j < k ensures table[j].value > n {
      FirstFitLeast(table, n, j);
    }
    GreedyFrom(table, n - table[k].value, k);
  }

  /** The entries are emitted in table order, so in non-increasing value. */
  lemma {:induction false} GreedyInTableOrder(table: seq<RomanSymbol>, n: nat)
    requires GreedyTable(table)
    ensures InTableOrder(Greedy(table, n))
  {
    if n > 0 {
      GreedyStep(table, n);
      var k := FirstFit(table, n);
      GreedyInTableOrder(table, n - table[k].value);
      ConsInTableOrder(k, Greedy(table, n - table[k].value));
    }
  }

  lemma {:induction false} KeysAreLetters(ks: seq<nat>)
    requires forall i :: 0 <= i < |ks| ==> ks[i] < |RomanMap|
    ensures forall c :: c in Keys(RomanMap, ks) ==> IsRomanLetter(c)
  {
    if ks != [] {
      RomanKeysAreLetters();
      KeysAreLetters(ks[1..]);
      assert forall c :: c in RomanMap[ks[0]].key ==> IsRomanLetter(c);
    }
  }

  /** convertToRoman: "-" for a non-positive n; otherwise a non-empty
      numeral over m, d, c, l, x, v, i whose table values sum to n. */
  function Roman(n: int): (r: string)
    ensures n <= 0 ==> r == "-"
    ensures n >= 1 ==> r != [] && r == RomanDigits(n) && Values(RomanMap, Greedy(RomanMap, n)) == n
    ensures n >= 1 ==> forall c :: c in r ==> IsRomanLetter(c)
  {
    if n <= 0 then "-"
    else
      GreedySum(RomanMap, n);
      KeysAreLetters(Greedy(RomanMap, n));
      GreedyKeysStep(RomanMap, n);
      RomanKeysAreLetters();
      RomanDigits(n)
  }

  /** One step of the greedy conversion: the key of the first entry that
      fits, then the keys for what remains. */
  lemma GreedyKeysStep(table: seq<RomanSymbol>, n: nat)
    requires GreedyTable(table) && n >= 1
    ensures var k := FirstFit(table, n);
      Keys(table, Greedy(table, n)) == table[k].key + Keys(table, Greedy(table, n - table[k].value))
  {
    var k := FirstFit(table, n);
    var ks := Greedy(table, n - table[k].value);
    assert Greedy(table, n) == [k] + ks;
    assert ([k] + ks)[1..] == ks;
  }

  /** One turn of the outer loop of both Roman conversions keeps the
      output so far followed by the keys for what remains equal to the
      keys for the whole. */
  lemma RomanLoopStep(table: seq<RomanSymbol>, s: string, m: nat, whole: string)
    requires GreedyTable(table) && m >= 1
    requires s + Keys(table, Greedy(table, m)) == whole
    ensures var k := FirstFit(table, m);
      (s + table[k].key) + Keys(table, Greedy(table, m - table[k].value)) == whole
  {
    var k := FirstFit(table, m);
    var rest := Keys(table, Greedy(table, m - table[k].value));
    GreedyKeysStep(table, m);
    AppendAssoc(s, table[k].key, rest);
  }

  /** The inner loop of both Roman conversions: scan the table from the
      top and stop at the first entry whose value fits in m. */
  method ScanRomanMap(m: nat) returns (k: nat)
    requires m >= 1
    ensures k == FirstFit(RomanMap, m)
  {
    for i := 0 to |RomanMap|
      invariant i <= FirstFit(RomanMap, m)
    {
      if m >= RomanMap[i].value {
        FirstFitLeast(RomanMap, m, i);
        return i;
      }
    }
    assert false;
  }

  /** convertToRoman: "-" for a non-positive n; otherwise, until nothing
      is left, append the key of the first entry that fits and subtract its
      value. */
  method ConvertToRoman(n: int) returns (s: string)
    ensures s == Roman(n)
  {
    if n <= 0 {
      return "-";
    }
    s := "";
    var m := n;
    while m > 0
      invariant 0 <= m
      invariant s + RomanDigits(m) == RomanDigits(n)
      decreases m
    {
      var k := ScanRomanMap(m);
      RomanLoopStep(RomanMap, s, m, RomanDigits(n));
      s := s + RomanMap[k].key;
      m := m - RomanMap[k].value;
    }
  }
}
