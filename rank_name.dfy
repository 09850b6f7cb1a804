/**
 * The rank of a cell is read from the name of its positions file:
 * the integer value of the LAST maximal run of decimal digits in the name,
 * as `int(re.findall(r'\d+', filename)[-1])` computes it.
 */
module RankName {
  import opened Wrappers

  predicate IsDigit(c: char) { '0' <= c <= '9' }

  predicate AllDigits(s: string) { forall k :: 0 <= k < |s| ==> IsDigit(s[k]) }

  predicate NoDigits(s: string) { forall k :: 0 <= k < |s| ==> !IsDigit(s[k]) }

  /** A digit run of `s + t` cannot straddle the seam when `s` does not end in a digit. */
  predicate EndsOutsideRun(s: string) { s == [] || !IsDigit(s[|s| - 1]) }

  function DigitValue(c: char): nat
    requires IsDigit(c)
  {
    c as int - '0' as int
  }

  function DigitChar(n: nat): (c: char)
    requires n < 10
    ensures IsDigit(c) && DigitValue(c) == n
  {
    ('0' as int + n) as char
  }

  /** `int(d)` for a string of decimal digits (leading zeros allowed). */
  function DecimalValue(d: string): nat
    requires AllDigits(d)
    decreases |d|
  {
    if d == [] then 0 else 10 * DecimalValue(d[..|d| - 1]) + DigitValue(d[|d| - 1])
  }

  /** `str(n)`: decimal digits without leading zeros. */
  function Decimal(n: nat): string
    decreases n
  {
    if n < 10 then [DigitChar(n)] else Decimal(n / 10) + [DigitChar(n % 10)]
  }

  /** Length of the maximal digit run at the front of `s`. */
  function LeadingDigits(s: string): (n: nat)
    ensures n <= |s| && AllDigits(s[..n])
    ensures n < |s| ==> !IsDigit(s[n])
  {
    if s == [] || !IsDigit(s[0]) then 0 else 1 + LeadingDigits(s[1..])
  }

  /** `re.findall(r'\d+', s)`: the maximal digit runs of `s`, left to right. */
  function DigitRuns(s: string): (runs: seq<string>)
    ensures forall k :: 0 <= k < |runs| ==> runs[k] != [] && AllDigits(runs[k])
    decreases |s|
  {
    if s == [] then []
    else if !IsDigit(s[0]) then DigitRuns(s[1..])
    else
      var n := LeadingDigits(s);
      [s[..n]] + DigitRuns(s[n..])
  }

  /** `int(re.findall(r'\d+', name)[-1])`; `None` stands for the IndexError on a name without digits. */
  function RankFromFileName(name: string): (r: Option<nat>)
    ensures r.None? <==> NoDigits(name)
  {
    DigitRunsEmpty(name);
    var runs := DigitRuns(name);
    if runs == [] then None else Some(DecimalValue(runs[|runs| - 1]))
  }

  lemma {:induction false} DecimalRoundTrip(n: nat)
    ensures Decimal(n) != [] && AllDigits(Decimal(n))
    ensures DecimalValue(Decimal(n)) == n
    ensures n > 0 ==> Decimal(n)[0] != '0'
    decreases n
  {
    if n >= 10 {
      DecimalRoundTrip(n / 10);
      var d := Decimal(n);
      assert d[..|d| - 1] == Decimal(n / 10);
    }
  }

  lemma {:induction false} DigitRunsEmpty(s: string)
    ensures DigitRuns(s) == [] <==> NoDigits(s)
    decreases |s|
  {
    if s != [] && !IsDigit(s[0]) {
      DigitRunsEmpty(s[1..]);
      assert forall k :: 1 <= k < |s| ==> s[k] == s[1..][k - 1];
    }
  }

  lemma {:induction false} LeadingDigitsOfRun(d: string, q: string)
    requires AllDigits(d)
    requires q == [] || !IsDigit(q[0])
    ensures LeadingDigits(d + q) == |d|
    decreases |d|
  {
    if d != [] {
      assert (d + q)[1..] == d[1..] + q;
      LeadingDigitsOfRun(d[1..], q);
    }
  }

  lemma {:induction false} LeadingDigitsStopsInside(p: string, r: string)
    requires LeadingDigits(p) < |p|
    ensures LeadingDigits(p + r) == LeadingDigits(p)
    decreases |p|
  {
    if IsDigit(p[0]) {
      assert (p + r)[1..] == p[1..] + r;
      LeadingDigitsStopsInside(p[1..], r);
    }
  }

  /** A maximal digit run at the front of the string is the first match, and matching resumes after it. */
  lemma DigitRunsOfRun(d: string, q: string)
    requires d != [] && AllDigits(d)
    requires q == [] || !IsDigit(q[0])
    ensures DigitRuns(d + q) == [d] + DigitRuns(q)
  {
    LeadingDigitsOfRun(d, q);
    assert (d + q)[..|d|] == d;
    assert (d + q)[|d|..] == q;
  }

  lemma {:induction false} DigitRunsSplit(p: string, r: string)
    requires EndsOutsideRun(p)
    ensures DigitRuns(p + r) == DigitRuns(p) + DigitRuns(r)
    decreases |p|
  {
    if p == [] {
      assert p + r == r;
    } else if !IsDigit(p[0]) {
      assert (p + r)[1..] == p[1..] + r;
      DigitRunsSplit(p[1..], r);
    } else {
      var m := LeadingDigits(p);
      LeadingDigitsStopsInside(p, r);
      assert (p + r)[..m] == p[..m];
      assert (p + r)[m..] == p[m..] + r;
      DigitRunsSplit(p[m..], r);
    }
  }

  /**
   * The rank is the value of the last digit run: for any name `p + d + q` where `d` is a
   * maximal digit run and `q` holds no digit, the rank is `int(d)`.
   */
  lemma RankFromFileNameLastRun(p: string, d: string, q: string)
    requires EndsOutsideRun(p)
    requires d != [] && AllDigits(d)
    requires NoDigits(q)
    ensures RankFromFileName(p + d + q) == Some(DecimalValue(d))
  {
    assert p + d + q == p + (d + q);
    DigitRunsSplit(p, d + q);
    LeadingDigitsOfRun(d, q);
    assert (d + q)[..|d|] == d;
    assert (d + q)[|d|..] == q;
    DigitRunsEmpty(q);
  }

  /**
   * Round trip with the file naming convention `<dir>/positions/neo_positions_p<rank>.csv`:
   * the rank written into the name is the rank read back, whatever digits `dir` holds.
   */
  lemma RankFromPositionsFileName(dir: string, rank: nat)
    ensures RankFromFileName(dir + "/positions/neo_positions_p" + Decimal(rank) + ".csv") == Some(rank)
  {
    var p := dir + "/positions/neo_positions_p";
    DecimalRoundTrip(rank);
    assert NoDigits(".csv");
    RankFromFileNameLastRun(p, Decimal(rank), ".csv");
  }
}
