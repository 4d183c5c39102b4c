/**
 * The row construction of `save_points_to_excel` (app.py): every point of
 * pillar i (counting from 0) becomes one row ("Pillar " + (i + 1), x, y),
 * pillar after pillar, point after point. Writing those rows into a
 * spreadsheet is library work and is not part of the model.
 */
module ExcelExport {
  import opened Decimal
  import opened Detection

  /** One spreadsheet row: the columns "Pillar ID", "X" and "Y". */
  datatype Row = Row(pillarId: string, x: int, y: int)

  /** `f"Pillar {ordinal}"`. */
  function PillarLabel(ordinal: nat): string {
    "Pillar " + NatToDecimal(ordinal)
  }

  /** The rows of one pillar, given its 1-based ordinal. */
  function PillarRows(ordinal: nat, points: seq<Point>): seq<Row> {
    seq(|points|, j requires 0 <= j < |points| => Row(PillarLabel(ordinal), points[j].x, points[j].y))
  }

  function Rows(pillars: seq<seq<Point>>): seq<Row> {
    if pillars == [] then []
    else Rows(pillars[..|pillars| - 1]) + PillarRows(|pillars|, pillars[|pillars| - 1])
  }

  /** The number of points over all pillars. */
  function TotalPoints(pillars: seq<seq<Point>>): nat {
    if pillars == [] then 0
    else TotalPoints(pillars[..|pillars| - 1]) + |pillars[|pillars| - 1]|
  }

  /** Where the rows of pillar i start: the points of the pillars before it. */
  function Offset(pillars: seq<seq<Point>>, i: nat): nat
    requires i <= |pillars|
  {
    TotalPoints(pillars[..i])
  }

  /** The nested loops that fill `data`, one appended row per point. */
  method ExcelRows(pillars: seq<seq<Point>>) returns (data: seq<Row>)
    ensures data == Rows(pillars)
  {
    data := [];
    for i := 0 to |pillars|
      invariant data == Rows(pillars[..i])
    {
      var points := pillars[i];
      for j := 0 to |points|
        invariant data == Rows(pillars[..i]) + PillarRows(i + 1, points[..j])
      {
        data := data + [Row(PillarLabel(i + 1), points[j].x, points[j].y)];
      }
      assert pillars[..i + 1][..i] == pillars[..i];
      assert points[..|points|] == points;
    }
    assert pillars[..|pillars|] == pillars;
  }

  /** Two pillars never share a label. */
  lemma LabelsDistinct(m: nat, n: nat)
    ensures PillarLabel(m) == PillarLabel(n) <==> m == n
  {
    if PillarLabel(m) == PillarLabel(n) {
      assert PillarLabel(m)[7..] == NatToDecimal(m);
      assert PillarLabel(n)[7..] == NatToDecimal(n);
      NatToDecimalInjective(m, n);
    }
  }

  /** There is one row per point. */
  lemma {:induction false} RowsLength(pillars: seq<seq<Point>>)
    ensures |Rows(pillars)| == TotalPoints(pillars)
  {
    if pillars != [] {
      RowsLength(pillars[..|pillars| - 1]);
    }
  }

  lemma OffsetStep(pillars: seq<seq<Point>>, i: nat)
    requires i < |pillars|
    ensures Offset(pillars, i + 1) == Offset(pillars, i) + |pillars[i]|
  {
    assert pillars[..i + 1][..i] == pillars[..i];
  }

  lemma {:induction false} OffsetMonotone(pillars: seq<seq<Point>>, i: nat, k: nat)
    requires i <= k <= |pillars|
    ensures Offset(pillars, i) <= Offset(pillars, k)
    decreases k - i
  {
    if i < k {
      OffsetStep(pillars, i);
      OffsetMonotone(pillars, i + 1, k);
    }
  }

  /**
   * Point j of pillar i is the row at Offset(pillars, i) + j, labelled with
   * the pillar's 1-based ordinal and carrying the point's coordinates.
   */
  lemma {:induction false} RowsAt(pillars: seq<seq<Point>>, i: nat, j: nat)
    requires i < |pillars| && j < |pillars[i]|
    ensures Offset(pillars, i) + j < |Rows(pillars)|
    ensures Rows(pillars)[Offset(pillars, i) + j] == Row(PillarLabel(i + 1), pillars[i][j].x, pillars[i][j].y)
  {
    var pre := pillars[..|pillars| - 1];
    RowsLength(pre);
    if i < |pre| {
      RowsAt(pre, i, j);
      assert pre[..i] == pillars[..i];
      OffsetMonotone(pre, i + 1, |pre|);
      OffsetStep(pre, i);
      assert pre[..|pre|] == pre;
    } else {
      assert pillars[..i] == pre;
    }
  }

  /** Row r holds point j of pillar i. */
  predicate RowPosition(pillars: seq<seq<Point>>, r: nat, i: nat, j: nat) {
    i < |pillars| && j < |pillars[i]| && r == Offset(pillars, i) + j
  }

  /** Conversely, every row is some point j of some pillar i. */
  lemma {:induction false} RowsLocate(pillars: seq<seq<Point>>, r: nat)
    requires r < |Rows(pillars)|
    ensures exists i: nat, j: nat :: RowPosition(pillars, r, i, j)
  {
    var pre := pillars[..|pillars| - 1];
    RowsLength(pre);
    if r < |Rows(pre)| {
      RowsLocate(pre, r);
      var i: nat, j: nat :| RowPosition(pre, r, i, j);
      assert pre[..i] == pillars[..i];
      assert Offset(pre, i) == Offset(pillars, i);
      assert RowPosition(pillars, r, i, j);
    } else {
      var i := |pillars| - 1;
      assert pillars[..i] == pre;
      assert RowPosition(pillars, r, i, r - |Rows(pre)|);
    }
  }

  /** The blocks of rows of different pillars do not overlap. */
  lemma BlockOfPosition(pillars: seq<seq<Point>>, r: nat, i: nat, i': nat, j: nat)
    requires i < |pillars| && RowPosition(pillars, r, i', j)
    ensures i' == i <==> Offset(pillars, i) <= r < Offset(pillars, i) + |pillars[i]|
  {
    OffsetStep(pillars, i);
    OffsetStep(pillars, i');
    if i' < i {
      OffsetMonotone(pillars, i' + 1, i);
    } else if i < i' {
      OffsetMonotone(pillars, i + 1, i');
    }
  }

  /**
   * The rows of pillar i are contiguous: a row carries the label of pillar
   * i exactly when it lies in the block that starts at Offset(pillars, i)
   * and holds as many rows as the pillar has points.
   */
  lemma PillarBlockContiguous(pillars: seq<seq<Point>>, i: nat, r: nat)
    requires i < |pillars| && r < |Rows(pillars)|
    ensures Rows(pillars)[r].pillarId == PillarLabel(i + 1) <==>
      Offset(pillars, i) <= r < Offset(pillars, i) + |pillars[i]|
  {
    RowsLocate(pillars, r);
    var i': nat, j: nat :| RowPosition(pillars, r, i', j);
    RowsAt(pillars, i', j);
    LabelsDistinct(i' + 1, i + 1);
    BlockOfPosition(pillars, r, i, i', j);
  }
}
