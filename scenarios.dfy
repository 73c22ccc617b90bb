/** Concrete runs of the cut and the draw gesture on small canvases. */
module Scenarios {
  import opened Types
  import opened Utils
  import opened Split
  import opened App

  /** A freshly drawn 100 by 100 pill at the origin, of colour `c`. */
  function Square(c: Color): Pill
  {
    Pill(1, 0, 0, 100, 100, c, Some(DefaultRadii()))
  }

  /** A cut through the middle of the square makes four 50 by 50 quadrants
      with ids 2 to 5; each keeps the rounding of the one outer corner it
      shares with the square, and the quadrants cover its area. */
  lemma CrossCutOfSquare(c: Color)
    ensures SplitPill(Square(c), 50, 50, 2) == [
      Pill(2, 0, 0, 50, 50, c, Some(Radii(20, 0, 0, 0))),
      Pill(3, 50, 0, 50, 50, c, Some(Radii(0, 20, 0, 0))),
      Pill(4, 0, 50, 50, 50, c, Some(Radii(0, 0, 0, 20))),
      Pill(5, 50, 50, 50, 50, c, Some(Radii(0, 0, 20, 0)))]
    ensures AreaSum(SplitPill(Square(c), 50, 50, 2)) == 10000
    ensures IdsUsed(Square(c), 50, 50) == 4
  {
    var p := Square(c);
    var q0 := Pill(2, 0, 0, 50, 50, c, None);
    var q1 := Pill(3, 50, 0, 50, 50, c, None);
    var q2 := Pill(4, 0, 50, 50, 50, c, None);
    var q3 := Pill(5, 50, 50, 50, 50, c, None);
    assert FitsCut(p, 50, 50);
    assert CutPieces(p, 50, 50, 2) == [q0, q1, q2, q3];
    var r := WithParentRadii(p, [q0, q1, q2, q3]);
    assert r[0] == WithRadii(p, q0) == Pill(2, 0, 0, 50, 50, c, Some(Radii(20, 0, 0, 0)));
    assert r[1] == WithRadii(p, q1) == Pill(3, 50, 0, 50, 50, c, Some(Radii(0, 20, 0, 0)));
    assert r[2] == WithRadii(p, q2) == Pill(4, 0, 50, 50, 50, c, Some(Radii(0, 0, 0, 20)));
    assert r[3] == WithRadii(p, q3) == Pill(5, 50, 50, 50, 50, c, Some(Radii(0, 0, 20, 0)));
    SplitArea(p, 50, 50, 2);
  }

  /** A vertical cut 5 from the left edge, with the horizontal line below
      the square, would leave a sliver, so the square is nudged right of the
      line, to x = 7, and keeps its y, size and id. */
  lemma SliverCutNudgesRight(c: Color)
    ensures SplitPill(Square(c), 5, 150, 2) == [Square(c).(x := 7)]
    ensures IdsUsed(Square(c), 5, 150) == 0
  {
    SplitNudge(Square(c), 5, 150, 2);
  }

  /** Cutting an empty canvas leaves it empty and mints nothing. */
  lemma CutOfEmptyCanvas(vx: int, hy: int, n: nat)
    ensures SplitAll([], vx, hy, n) == [] && TotalIds([], vx, hy) == 0
  {
    SplitAllMiss([], vx, hy, n);
  }

  /** A 30 by 30 drag is below the drawing minimum and commits nothing. */
  lemma SmallDrawCommitsNothing(pills: seq<Pill>, id: nat, c: Color)
    ensures CommitDraw(pills, Pill(9, 0, 0, 30, 30, c, None), id) == pills
  {
  }

  /** A drag that ends up and to the left of where it started is committed
      with its corner at the lesser point and a positive size. */
  lemma BackwardDrawNormalizes(c: Color)
    ensures CommitDraw([], Pill(9, 100, 100, -60, -50, c, None), 10) ==
      [Pill(10, 40, 50, 60, 50, c, Some(DefaultRadii()))]
  {
  }

  /** A 10 by 10 pill cut through its centre is too small for any quadrant;
      the halves tie on both axes, so it moves left and up, and the move
      stops at the canvas origin. */
  lemma TieMovesLeftAndUp(c: Color)
    ensures SplitPill(Pill(1, 0, 0, 10, 10, c, None), 5, 5, 2) == [Pill(1, 0, 0, 10, 10, c, None)]
  {
    SplitNudge(Pill(1, 0, 0, 10, 10, c, None), 5, 5, 2);
  }

  /** The same tie away from the origin: the pill at (100, 100) cut through
      its centre ends 2 before each line, at (93, 93). */
  lemma TieMovesLeftAndUpUnclamped(c: Color)
    ensures SplitPill(Pill(1, 100, 100, 10, 10, c, None), 105, 105, 2) == [Pill(1, 93, 93, 10, 10, c, None)]
  {
    SplitNudge(Pill(1, 100, 100, 10, 10, c, None), 105, 105, 2);
  }
}
