/** `runChiSquaredTest`: the chi-squared test of independence, with Yates'
    continuity correction, on the 2x2 contingency table [[a, b], [c, d]],
    where (a, b) are the success and failure counts of the first group and
    (c, d) those of the second. */
module Significance {
  import opened Wrappers
  import opened Types

  /** The p-value below which a difference is reported as significant. */
  const SignificanceLevel: real := 0.05

  /** Expected cell counts below this make the test unreliable. */
  const MinExpectedFrequency: real := 5.0

  /** The continuity correction subtracted from every |observed - expected|. */
  const YatesCorrection: real := 0.5

  /** A 2x2 table has one degree of freedom. */
  const DegreesOfFreedom: nat := 1

  const InsufficientDataText: string := "N/A (insufficient data)"
  const LowFrequencyWarning: string := "Warning: low expected frequency"

  /** The grand total or one of the four margins is zero: no test is run. */
  predicate Degenerate(a: int, b: int, c: int, d: int) {
    a + b + c + d == 0 || a + b == 0 || c + d == 0 || a + c == 0 || b + d == 0
  }

  function Abs(x: real): real {
    if x < 0.0 then -x else x
  }

  function Max(x: real, y: real): real {
    if x < y then y else x
  }

  /** The count a cell would hold if group and outcome were independent. */
  function ExpectedCell(rowTotal: int, colTotal: int, total: int): real
    requires total != 0
  {
    (rowTotal * colTotal) as real / total as real
  }

  /** A table of two rows of two cells. */
  predicate TwoByTwo<T>(t: seq<seq<T>>) {
    |t| == 2 && |t[0]| == 2 && |t[1]| == 2
  }

  function ObservedTable(a: int, b: int, c: int, d: int): (t: seq<seq<int>>)
    ensures TwoByTwo(t)
  {
    [[a, b], [c, d]]
  }

  function ExpectedTable(a: int, b: int, c: int, d: int): (e: seq<seq<real>>)
    requires a + b + c + d != 0
    ensures TwoByTwo(e)
  {
    var total := a + b + c + d;
    [[ExpectedCell(a + b, a + c, total), ExpectedCell(a + b, b + d, total)],
     [ExpectedCell(c + d, a + c, total), ExpectedCell(c + d, b + d, total)]]
  }

  /** Some expected count is below the reliability threshold. */
  predicate AnyBelow(e: seq<seq<real>>, bound: real)
    requires TwoByTwo(e)
  {
    exists i, j :: 0 <= i < 2 && 0 <= j < 2 && e[i][j] < bound
  }

  /** `Math.pow(x, 2)`. */
  function Square(x: real): real {
    x * x
  }

  /** One cell's Yates-corrected contribution to the statistic; a cell
      expected to be empty contributes nothing. */
  function Contribution(observed: int, expected: real): real {
    if expected == 0.0 then 0.0
    else
      var corrected := Max(0.0, Abs(observed as real - expected) - YatesCorrection);
      Square(corrected) / expected
  }

  /** The cells of a table in row-major order. */
  function Flatten<T>(t: seq<seq<T>>): (cells: seq<T>)
    requires TwoByTwo(t)
    ensures |cells| == 4
  {
    t[0] + t[1]
  }

  /** The contributions of the first `n` cells in row-major order. */
  function PartialStatistic(observed: seq<seq<int>>, expected: seq<seq<real>>, n: nat): real
    requires TwoByTwo(observed) && TwoByTwo(expected) && n <= 4
  {
    if n == 0 then 0.0
    else PartialStatistic(observed, expected, n - 1) + Contribution(Flatten(observed)[n - 1], Flatten(expected)[n - 1])
  }

  /** The corrected chi-squared statistic: the sum over the four cells. */
  function Statistic(a: int, b: int, c: int, d: int): real
    requires a + b + c + d != 0
  {
    var e := ExpectedTable(a, b, c, d);
    Contribution(a, e[0][0]) + Contribution(b, e[0][1]) + Contribution(c, e[1][0]) + Contribution(d, e[1][1])
  }

  /** What the test reports for the table [[a, b], [c, d]]. */
  function ChiSquaredOf(prims: Primitives, a: int, b: int, c: int, d: int): ChiSquaredResult {
    if Degenerate(a, b, c, d) then
      ChiSquaredResult(None, false, InsufficientDataText, None)
    else
      var pValue := 1.0 - prims.chiSquareCdf(Statistic(a, b, c, d), DegreesOfFreedom);
      ChiSquaredResult(
        Some(pValue),
        pValue < SignificanceLevel,
        "p=" + prims.toFixed(pValue, 4),
        if AnyBelow(ExpectedTable(a, b, c, d), MinExpectedFrequency) then Some(LowFrequencyWarning) else None)
  }

  /** The test of lib/analysis.ts: the margin guard, the expected table, and
      the statistic summed cell by cell in a nested loop. */
  method RunChiSquaredTest(prims: Primitives, a: int, b: int, c: int, d: int) returns (r: ChiSquaredResult)
    ensures r == ChiSquaredOf(prims, a, b, c, d)
  {
    var contingencyTable := [[a, b], [c, d]];
    var row1Total, row2Total := a + b, c + d;
    var col1Total, col2Total := a + c, b + d;
    var total := a + b + c + d;
    if total == 0 || row1Total == 0 || row2Total == 0 || col1Total == 0 || col2Total == 0 {
      return ChiSquaredResult(None, false, InsufficientDataText, None);
    }
    var expected := [
      [(row1Total * col1Total) as real / total as real, (row1Total * col2Total) as real / total as real],
      [(row2Total * col1Total) as real / total as real, (row2Total * col2Total) as real / total as real]];
    assert expected == ExpectedTable(a, b, c, d);
    var lowExpectedFrequency := AnyBelow(expected, MinExpectedFrequency);

    var chi2 := SumCorrectedContributions(contingencyTable, expected);
    PartialStatisticComplete(a, b, c, d);

    var pValue := 1.0 - prims.chiSquareCdf(chi2, DegreesOfFreedom);
    r := ChiSquaredResult(
      Some(pValue),
      pValue < SignificanceLevel,
      "p=" + prims.toFixed(pValue, 4),
      if lowExpectedFrequency then Some(LowFrequencyWarning) else None);
  }

  /** The nested loop of the test: every cell's Yates-corrected squared
      deviation over its expected count, skipping cells expected to be empty. */
  method SumCorrectedContributions(contingencyTable: seq<seq<int>>, expected: seq<seq<real>>) returns (chi2: real)
    requires TwoByTwo(contingencyTable) && TwoByTwo(expected)
    ensures chi2 == PartialStatistic(contingencyTable, expected, 4)
  {
    chi2 := 0.0;
    var i := 0;
    while i < 2
      invariant 0 <= i <= 2
      invariant chi2 == PartialStatistic(contingencyTable, expected, 2 * i)
    {
      var j := 0;
      while j < 2
        invariant 0 <= j <= 2
        invariant chi2 == PartialStatistic(contingencyTable, expected, 2 * i + j)
      {
        PartialStatisticStep(contingencyTable, expected, i, j);
        ghost var before := chi2;
        if expected[i][j] != 0.0 {
          var corrected := Max(0.0, Abs(contingencyTable[i][j] as real - expected[i][j]) - YatesCorrection);
          chi2 := chi2 + Square(corrected) / expected[i][j];
        }
        assert chi2 == before + Contribution(contingencyTable[i][j], expected[i][j]);
        assert chi2 == PartialStatistic(contingencyTable, expected, 2 * i + j + 1);
        j := j + 1;
      }
      i := i + 1;
    }
  }

  /** Cell (i, j) is the next one the row-major sum takes in. */
  lemma PartialStatisticStep(observed: seq<seq<int>>, expected: seq<seq<real>>, i: nat, j: nat)
    requires TwoByTwo(observed) && TwoByTwo(expected) && i < 2 && j < 2
    ensures PartialStatistic(observed, expected, 2 * i + j + 1) ==
      PartialStatistic(observed, expected, 2 * i + j) + Contribution(observed[i][j], expected[i][j])
  {
    var n := 2 * i + j;
    assert Flatten(observed)[n] == observed[i][j] && Flatten(expected)[n] == expected[i][j] by {
      if i == 0 { assert n == j; } else { assert n == 2 + j; }
    }
  }

  /** Summing all four cells in row-major order gives the statistic. */
  lemma PartialStatisticComplete(a: int, b: int, c: int, d: int)
    requires a + b + c + d != 0
    ensures PartialStatistic(ObservedTable(a, b, c, d), ExpectedTable(a, b, c, d), 4) == Statistic(a, b, c, d)
  {
    var o, e := ObservedTable(a, b, c, d), ExpectedTable(a, b, c, d);
    var c00, c01 := Contribution(a, e[0][0]), Contribution(b, e[0][1]);
    var c10, c11 := Contribution(c, e[1][0]), Contribution(d, e[1][1]);
    assert PartialStatistic(o, e, 1) == c00;
    assert PartialStatistic(o, e, 2) == c00 + c01;
    assert PartialStatistic(o, e, 3) == c00 + c01 + c10;
    assert PartialStatistic(o, e, 4) == c00 + c01 + c10 + c11;
  }

  // ---- properties of the test ----

  /** The p-value is missing exactly when a margin is zero, and a missing
      p-value is never significant and carries no warning. */
  lemma NullExactlyWhenDegenerate(prims: Primitives, a: int, b: int, c: int, d: int)
    ensures var r := ChiSquaredOf(prims, a, b, c, d);
      && (r.pValue.None? <==> Degenerate(a, b, c, d))
      && (r.pValue.None? ==> !r.isStatisticallySignificant && r.warning.None? && r.text == InsufficientDataText)
  {
  }

  /** Without a zero margin the p-value is the upper tail of the chi-square
      distribution with one degree of freedom at the statistic, and the result
      is significant exactly when that p-value is below 0.05. */
  lemma PValueIsUpperTail(prims: Primitives, a: int, b: int, c: int, d: int)
    requires !Degenerate(a, b, c, d)
    ensures var r := ChiSquaredOf(prims, a, b, c, d);
      && r.pValue == Some(1.0 - prims.chiSquareCdf(Statistic(a, b, c, d), 1))
      && (r.isStatisticallySignificant <==> r.pValue.value < 0.05)
  {
  }

  /** Without a zero margin the warning is set exactly when some expected
      count is below 5. */
  lemma WarningExactlyWhenLowExpected(prims: Primitives, a: int, b: int, c: int, d: int)
    requires !Degenerate(a, b, c, d)
    ensures var e := ExpectedTable(a, b, c, d);
      ChiSquaredOf(prims, a, b, c, d).warning.Some? <==>
        (e[0][0] < 5.0 || e[0][1] < 5.0 || e[1][0] < 5.0 || e[1][1] < 5.0)
  {
    var e := ExpectedTable(a, b, c, d);
    if e[0][0] < 5.0 || e[0][1] < 5.0 || e[1][0] < 5.0 || e[1][1] < 5.0 {
      if e[0][0] < 5.0 { assert e[0][0] < MinExpectedFrequency; }
      else if e[0][1] < 5.0 { assert e[0][1] < MinExpectedFrequency; }
      else if e[1][0] < 5.0 { assert e[1][0] < MinExpectedFrequency; }
      else { assert e[1][1] < MinExpectedFrequency; }
    }
  }

  /** (r * c1) / t + (r * c2) / t == r when c1 + c2 == t. */
  lemma SplitMargin(r: int, c1: int, c2: int, t: int)
    requires t != 0 && c1 + c2 == t
    ensures ExpectedCell(r, c1, t) + ExpectedCell(r, c2, t) == r as real
    ensures ExpectedCell(c1, r, t) + ExpectedCell(c2, r, t) == r as real
  {
    assert (r * c1) as real + (r * c2) as real == r as real * t as real by {
      assert r * c1 + r * c2 == r * t;
    }
    assert (c1 * r) as real + (c2 * r) as real == r as real * t as real by {
      assert c1 * r + c2 * r == r * t;
    }
  }

  /** The expected table has the observed table's margins: each row of
      expected counts sums to the row total, each column to the column total,
      and all four to the grand total. */
  lemma ExpectedKeepsMargins(a: int, b: int, c: int, d: int)
    requires !Degenerate(a, b, c, d)
    ensures var e := ExpectedTable(a, b, c, d);
      && e[0][0] + e[0][1] == (a + b) as real
      && e[1][0] + e[1][1] == (c + d) as real
      && e[0][0] + e[1][0] == (a + c) as real
      && e[0][1] + e[1][1] == (b + d) as real
      && e[0][0] + e[0][1] + e[1][0] + e[1][1] == (a + b + c + d) as real
  {
    var t := a + b + c + d;
    SplitMargin(a + b, a + c, b + d, t);
    SplitMargin(c + d, a + c, b + d, t);
    SplitMargin(a + c, a + b, c + d, t);
    SplitMargin(b + d, a + b, c + d, t);
  }

  /** A contribution is never negative where the expected count is positive. */
  lemma ContributionNonNegative(observed: int, expected: real)
    requires expected > 0.0
    ensures Contribution(observed, expected) >= 0.0
  {
    var corrected := Max(0.0, Abs(observed as real - expected) - YatesCorrection);
    assert corrected * corrected >= 0.0;
  }

  /** A cell within the correction of its expected count contributes nothing. */
  lemma ContributionZeroWhenClose(observed: int, expected: real)
    requires Abs(observed as real - expected) <= YatesCorrection
    ensures Contribution(observed, expected) == 0.0
  {
  }

  /** With non-negative counts and no zero margin every expected count is
      positive. */
  lemma ExpectedPositive(a: int, b: int, c: int, d: int)
    requires a >= 0 && b >= 0 && c >= 0 && d >= 0 && !Degenerate(a, b, c, d)
    ensures var e := ExpectedTable(a, b, c, d);
      e[0][0] > 0.0 && e[0][1] > 0.0 && e[1][0] > 0.0 && e[1][1] > 0.0
  {
    var t := a + b + c + d;
    CellPositive(a + b, a + c, t);
    CellPositive(a + b, b + d, t);
    CellPositive(c + d, a + c, t);
    CellPositive(c + d, b + d, t);
  }

  /** A cell whose margins and total are positive is expected to be
      positive. */
  lemma CellPositive(rowTotal: int, colTotal: int, total: int)
    requires rowTotal > 0 && colTotal > 0 && total > 0
    ensures ExpectedCell(rowTotal, colTotal, total) > 0.0
  {
    var p := rowTotal * colTotal;
    assert p > 0 by {
      assert p == rowTotal * colTotal;
    }
    assert p as real > 0.0;
  }

  /** With non-negative counts the statistic is non-negative. */
  lemma StatisticNonNegative(a: int, b: int, c: int, d: int)
    requires a >= 0 && b >= 0 && c >= 0 && d >= 0 && !Degenerate(a, b, c, d)
    ensures Statistic(a, b, c, d) >= 0.0
  {
    var e := ExpectedTable(a, b, c, d);
    ExpectedPositive(a, b, c, d);
    ContributionNonNegative(a, e[0][0]);
    ContributionNonNegative(b, e[0][1]);
    ContributionNonNegative(c, e[1][0]);
    ContributionNonNegative(d, e[1][1]);
  }

  /** The statistic is zero when every observed count lies within the
      continuity correction of its expected count. */
  lemma StatisticZeroWhenClose(a: int, b: int, c: int, d: int)
    requires !Degenerate(a, b, c, d)
    requires var e := ExpectedTable(a, b, c, d);
      && Abs(a as real - e[0][0]) <= 0.5 && Abs(b as real - e[0][1]) <= 0.5
      && Abs(c as real - e[1][0]) <= 0.5 && Abs(d as real - e[1][1]) <= 0.5
    ensures Statistic(a, b, c, d) == 0.0
  {
    var e := ExpectedTable(a, b, c, d);
    ContributionZeroWhenClose(a, e[0][0]);
    ContributionZeroWhenClose(b, e[0][1]);
    ContributionZeroWhenClose(c, e[1][0]);
    ContributionZeroWhenClose(d, e[1][1]);
  }

  /** Two groups with the same counts match the expected table exactly, so
      the statistic is zero. */
  lemma IdenticalGroupsStatisticZero(a: int, b: int)
    requires !Degenerate(a, b, a, b)
    ensures Statistic(a, b, a, b) == 0.0
  {
    var t := 2 * (a + b);
    assert (a + b) * (2 * a) == a * t;
    assert (a + b) * (2 * b) == b * t;
    assert ExpectedCell(a + b, a + a, t) == a as real;
    assert ExpectedCell(a + b, b + b, t) == b as real;
    StatisticZeroWhenClose(a, b, a, b);
  }

  /** Where the distribution function is 0 at 0, two groups with the same
      counts give p-value 1, and the difference is not significant. */
  lemma IdenticalGroupsNotSignificant(prims: Primitives, a: int, b: int)
    requires !Degenerate(a, b, a, b)
    requires prims.chiSquareCdf(0.0, 1) == 0.0
    ensures ChiSquaredOf(prims, a, b, a, b).pValue == Some(1.0)
    ensures !ChiSquaredOf(prims, a, b, a, b).isStatisticallySignificant
  {
    IdenticalGroupsStatisticZero(a, b);
  }

  /** The test does not depend on which group comes first. */
  lemma GroupOrderIrrelevant(prims: Primitives, a: int, b: int, c: int, d: int)
    ensures ChiSquaredOf(prims, a, b, c, d) == ChiSquaredOf(prims, c, d, a, b)
  {
    if !Degenerate(a, b, c, d) {
      var e, f := ExpectedTable(a, b, c, d), ExpectedTable(c, d, a, b);
      assert e[0][0] == f[1][0] && e[0][1] == f[1][1] && e[1][0] == f[0][0] && e[1][1] == f[0][1] by {
        var t := a + b + c + d;
        assert (a + b) * (c + a) == (a + b) * (a + c);
        assert (a + b) * (d + b) == (a + b) * (b + d);
        assert (c + d) * (c + a) == (c + d) * (a + c);
        assert (c + d) * (d + b) == (c + d) * (b + d);
      }
      assert Statistic(a, b, c, d) == Statistic(c, d, a, b);
      assert AnyBelow(e, MinExpectedFrequency) <==> AnyBelow(f, MinExpectedFrequency) by {
        if AnyBelow(e, MinExpectedFrequency) {
          var i, j :| 0 <= i < 2 && 0 <= j < 2 && e[i][j] < MinExpectedFrequency;
          assert f[1 - i][j] < MinExpectedFrequency;
        }
        if AnyBelow(f, MinExpectedFrequency) {
          var i, j :| 0 <= i < 2 && 0 <= j < 2 && f[i][j] < MinExpectedFrequency;
          assert e[1 - i][j] < MinExpectedFrequency;
        }
      }
    }
  }
}
