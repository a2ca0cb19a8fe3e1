/**
 * The stand-alone Roman numeral routine RomanNumerals. It scans the same
 * value/key table as convertToRoman (Ordinals.RomanMap), but has no
 * sentinel for non-positive input: the outer loop simply never runs.
 */
module Roman {
  import opened Ordinals

  /** RomanNumerals: "" for a non-positive n (the loop body never runs);
      otherwise exactly what convertToRoman produces. */
  method RomanNumerals(n: int) returns (s: string)
    ensures n <= 0 ==> s == ""
    ensures n >= 1 ==> s == Roman(n)
  {
    s := "";
    var m := n;
    while m > 0
      invariant m == n || 0 <= m
      invariant s + RomanDigits(if m > 0 then m else 0) == RomanDigits(if n > 0 then n else 0)
      decreases if m > 0 then m else 0
    {
      var k := ScanRomanMap(m);
      RomanLoopStep(RomanMap, s, m, RomanDigits(n));
      s := s + RomanMap[k].key;
      m := m - RomanMap[k].value;
    }
  }
}
