/**
  The axis recommender of `handleFileSelect` (app/dashboard/page.tsx): the
  first column is the x axis; the y axis is the column whose numeric count
  first reaches the running maximum (which starts at 0), with JavaScript `||`
  fallbacks to the second and then the first column.
*/
module Axes {
  import opened Wrappers
  import opened Profiler

  /**
    Among the first `n` analyses, `i` holds the strictly greatest positive
    numeric count, and no earlier analysis reaches it.
  */
  predicate IsFirstMaximum(analysis: seq<ColumnAnalysis>, n: nat, i: nat)
    requires n <= |analysis|
  {
    && i < n
    && analysis[i].numericCount > 0
    && (forall j :: 0 <= j < i ==> analysis[j].numericCount < analysis[i].numericCount)
    && (forall j :: 0 <= j < n ==> analysis[j].numericCount <= analysis[i].numericCount)
  }

  predicate NoNumericColumn(analysis: seq<ColumnAnalysis>) {
    forall j :: 0 <= j < |analysis| ==> analysis[j].numericCount == 0
  }

  /** `columns[1] || columns[0]`: a missing or empty second name falls through to the first. */
  function FallbackMeasure(columns: seq<string>): string
    requires |columns| > 0
  {
    if |columns| > 1 && columns[1] != "" then columns[1] else columns[0]
  }

  /** `best || columns[1] || columns[0]`: an empty best name is falsy too. */
  function MeasureFor(best: string, columns: seq<string>): string
    requires |columns| > 0
  {
    if best != "" then best else FallbackMeasure(columns)
  }

  /** The y axis the page settles on for these columns and analyses. */
  predicate IsRecommendedMeasure(columns: seq<string>, analysis: seq<ColumnAnalysis>, y: string)
    requires |columns| > 0
  {
    if NoNumericColumn(analysis) then y == FallbackMeasure(columns)
    else exists i :: 0 <= i < |analysis| && IsFirstMaximum(analysis, |analysis|, i) && y == MeasureFor(analysis[i].column, columns)
  }

  /** Whenever some column has a numeric value, there is a first maximum. */
  lemma {:induction false} FirstMaximumExists(analysis: seq<ColumnAnalysis>, n: nat)
    requires n <= |analysis|
    requires exists j :: 0 <= j < n && analysis[j].numericCount > 0
    ensures exists i: nat :: IsFirstMaximum(analysis, n, i)
  {
    if forall j :: 0 <= j < n - 1 ==> analysis[j].numericCount == 0 {
      assert IsFirstMaximum(analysis, n, n - 1);
    } else {
      FirstMaximumExists(analysis, n - 1);
      var i: nat :| IsFirstMaximum(analysis, n - 1, i);
      if analysis[n - 1].numericCount > analysis[i].numericCount {
        assert IsFirstMaximum(analysis, n, n - 1);
      } else {
        assert IsFirstMaximum(analysis, n, i);
      }
    }
  }

  /** There is at most one first maximum, so the recommended y axis is determined. */
  lemma FirstMaximumUnique(analysis: seq<ColumnAnalysis>, n: nat, i: nat, k: nat)
    requires n <= |analysis|
    requires IsFirstMaximum(analysis, n, i) && IsFirstMaximum(analysis, n, k)
    ensures i == k
  {
  }

  /** The axis choice: the loop keeps the running maximum of the numeric counts. */
  method ChooseAxes(columns: seq<string>, analysis: seq<ColumnAnalysis>) returns (x: string, y: string)
    requires |columns| > 0
    ensures x == columns[0]
    ensures IsRecommendedMeasure(columns, analysis, y)
  {
    x := columns[0];
    var best: Option<string> := None;
    var maxNumericCount := 0;
    ghost var bestIndex := 0;
    for i := 0 to |analysis|
      invariant best.None? ==> maxNumericCount == 0 && forall j :: 0 <= j < i ==> analysis[j].numericCount == 0
      invariant best.Some? ==>
        && IsFirstMaximum(analysis, i, bestIndex)
        && best.value == analysis[bestIndex].column
        && maxNumericCount == analysis[bestIndex].numericCount
    {
      if analysis[i].numericCount > maxNumericCount {
        maxNumericCount := analysis[i].numericCount;
        best := Some(analysis[i].column);
        bestIndex := i;
      }
    }
    if best.Some? && best.value != "" {
      y := best.value;
    } else if |columns| > 1 && columns[1] != "" {
      y := columns[1];
    } else {
      y := columns[0];
    }
  }

  function CountOnly(column: string, numericCount: nat): ColumnAnalysis {
    ColumnAnalysis(column, numericCount, [], numericCount, 0, [], [], [])
  }

  /** Two numeric columns with counts 5 and 8: the one with 8 wins in either order. */
  lemma GreaterCountWinsInEitherOrder()
    ensures IsRecommendedMeasure(["a", "b"], [CountOnly("a", 5), CountOnly("b", 8)], "b")
    ensures IsRecommendedMeasure(["b", "a"], [CountOnly("b", 8), CountOnly("a", 5)], "b")
  {
    assert IsFirstMaximum([CountOnly("a", 5), CountOnly("b", 8)], 2, 1);
    assert IsFirstMaximum([CountOnly("b", 8), CountOnly("a", 5)], 2, 0);
  }
}
