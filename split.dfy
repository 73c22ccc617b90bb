/** The partition engine of the pill canvas (performSplit in src/App.tsx):
    a click at (vx, hy) draws a vertical line at vx and a horizontal line at
    hy through the canvas, and every pill either passes through, is cut into
    two or four fragments, or, when a fragment would be too small, is nudged
    toward its larger side, which can leave it on the line when the move is
    clamped at 0. */
module Split {
  import opened Types
  import opened Utils

  /** The gap left between a nudged pill and the cut line. */
  const NUDGE_GAP: int := 2

  /** The size a fragment would have. */
  datatype Size = Size(w: int, h: int)

  /** Some fragment would be narrower or lower than MIN_PART. */
  function AnyTooSmall(parts: seq<Size>): bool
  {
    if parts == [] then false
    else parts[0].w < MIN_PART || parts[0].h < MIN_PART || AnyTooSmall(parts[1..])
  }

  /** AnyTooSmall holds exactly when some listed size is below MIN_PART on either side. */
  lemma {:induction false} AnyTooSmallIff(parts: seq<Size>)
    ensures AnyTooSmall(parts) <==> exists i :: 0 <= i < |parts| && (parts[i].w < MIN_PART || parts[i].h < MIN_PART)
  {
    if parts != [] {
      AnyTooSmallIff(parts[1..]);
      if exists i :: 0 <= i < |parts| && (parts[i].w < MIN_PART || parts[i].h < MIN_PART) {
        var i :| 0 <= i < |parts| && (parts[i].w < MIN_PART || parts[i].h < MIN_PART);
        if i > 0 { assert parts[1..][i - 1] == parts[i]; }
      }
      if AnyTooSmall(parts[1..]) {
        var i :| 0 <= i < |parts[1..]| && (parts[1..][i].w < MIN_PART || parts[1..][i].h < MIN_PART);
        assert parts[i + 1] == parts[1..][i];
      }
    }
  }

  /** The new coordinate of a pill of extent `size` nudged away from a cut at `cut`,
      where `before` and `after` are the pieces the cut would leave on either side.
      It moves toward the larger side (the earlier side on a tie): past the cut
      by NUDGE_GAP, or ending NUDGE_GAP before the cut unless that would put it
      below 0, where it stops. */
  function NudgeCoord(cut: int, size: int, before: int, after: int): (r: int)
    ensures after > before ==> r - cut == NUDGE_GAP
    ensures after <= before ==> r >= 0
    ensures after <= before && r > 0 ==> cut - (r + size) == NUDGE_GAP
    ensures after <= before ==> (r == 0 <==> cut - size - NUDGE_GAP <= 0)
  {
    var moveToAfter := after > before;
    if moveToAfter then cut + NUDGE_GAP else Max(0, cut - size - NUDGE_GAP)
  }

  /** `prt` with the corner radii it inherits from its parent `p`. */
  function WithRadii(p: Pill, prt: Pill): Pill
  {
    prt.(radii := Some(ComputeRadii(p, prt)))
  }

  /** The pieces of `p`, in order, each with the radii it inherits from `p`. */
  function WithParentRadii(p: Pill, parts: seq<Pill>): seq<Pill>
  {
    seq(|parts|, k requires 0 <= k < |parts| => WithRadii(p, parts[k]))
  }

  lemma WithParentRadiiSnoc(p: Pill, parts: seq<Pill>, prt: Pill)
    ensures WithParentRadii(p, parts + [prt]) == WithParentRadii(p, parts) + [WithRadii(p, prt)]
  {
    assert forall k :: 0 <= k < |parts| ==> (parts + [prt])[k] == parts[k];
  }

  /** The four quadrants of a cross cut, top-left, top-right, bottom-left,
      bottom-right, taking the ids n to n + 3; each keeps p's colour and has
      no radii yet. */
  function CrossPieces(p: Pill, vx: int, hy: int, n: nat): seq<Pill>
  {
    var leftW := vx - p.x;
    var rightW := p.x + p.w - vx;
    var topH := hy - p.y;
    var bottomH := p.y + p.h - hy;
    [p.(id := n, w := leftW, h := topH, radii := None),
     p.(id := n + 1, x := vx, w := rightW, h := topH, radii := None),
     p.(id := n + 2, y := hy, w := leftW, h := bottomH, radii := None),
     p.(id := n + 3, x := vx, y := hy, w := rightW, h := bottomH, radii := None)]
  }

  /** The left and right halves of a vertical cut, taking the ids n and n + 1. */
  function VerticalPieces(p: Pill, vx: int, n: nat): seq<Pill>
  {
    [p.(id := n, w := vx - p.x, radii := None),
     p.(id := n + 1, x := vx, w := p.x + p.w - vx, radii := None)]
  }

  /** The top and bottom halves of a horizontal cut, taking the ids n and n + 1. */
  function HorizontalPieces(p: Pill, hy: int, n: nat): seq<Pill>
  {
    [p.(id := n, h := hy - p.y, radii := None),
     p.(id := n + 1, y := hy, h := p.y + p.h - hy, radii := None)]
  }

  /** A cut at (vx, hy) really cuts `p`: one of its lines runs through p's
      interior, and every piece it makes is at least MIN_PART wide and high. */
  predicate FitsCut(p: Pill, vx: int, hy: int)
  {
    var hitV := IntersectsV(p, vx);
    var hitH := IntersectsH(p, hy);
    (hitV || hitH) &&
    (hitV ==> vx - p.x >= MIN_PART && p.x + p.w - vx >= MIN_PART) &&
    (hitH ==> hy - p.y >= MIN_PART && p.y + p.h - hy >= MIN_PART)
  }

  /** The pieces a cut that meets `p` makes of it, before their radii are set. */
  function CutPieces(p: Pill, vx: int, hy: int, n: nat): seq<Pill>
  {
    if IntersectsV(p, vx) && IntersectsH(p, hy) then CrossPieces(p, vx, hy, n)
    else if IntersectsV(p, vx) then VerticalPieces(p, vx, n)
    else HorizontalPieces(p, hy, n)
  }

  /** Where a pill the cut does not split ends up: moved along each axis
      whose line runs through it, toward the larger side by NudgeCoord (which can
      leave it on the line when the move is clamped at 0), and left where it
      is by a line that misses it. */
  function Nudged(p: Pill, vx: int, hy: int): Pill
  {
    p.(x := if IntersectsV(p, vx) then NudgeCoord(vx, p.w, vx - p.x, p.x + p.w - vx) else p.x,
       y := if IntersectsH(p, hy) then NudgeCoord(hy, p.h, hy - p.y, p.y + p.h - hy) else p.y)
  }

  /** What one pill becomes under a cut at (vx, hy): its pieces with inherited
      radii, taking the ids n, n + 1, ... in order, or else the pill itself,
      nudged along the lines that meet it. */
  function SplitPill(p: Pill, vx: int, hy: int, n: nat): seq<Pill>
  {
    if FitsCut(p, vx, hy) then WithParentRadii(p, CutPieces(p, vx, hy, n)) else [Nudged(p, vx, hy)]
  }

  /** How many ids cutting `p` consumes: one per fragment, none for a pill
      that passes through or is nudged. */
  function IdsUsed(p: Pill, vx: int, hy: int): nat
  {
    if !FitsCut(p, vx, hy) then 0
    else if IntersectsV(p, vx) && IntersectsH(p, hy) then 4
    else 2
  }

  /** How many ids a cut at (vx, hy) consumes over the first i pills of `s`. */
  function IdsBefore(s: seq<Pill>, i: nat, vx: int, hy: int): nat
    requires i <= |s|
  {
    if i == 0 then 0 else IdsBefore(s, i - 1, vx, hy) + IdsUsed(s[i - 1], vx, hy)
  }

  /** How many ids a cut at (vx, hy) consumes over the list `s`. */
  function TotalIds(s: seq<Pill>, vx: int, hy: int): nat
  {
    IdsBefore(s, |s|, vx, hy)
  }

  /** What pill i of `s` becomes under a cut at (vx, hy): it mints its ids
      after those minted for the pills before it, starting from n. */
  function ChunkAt(s: seq<Pill>, vx: int, hy: int, n: nat, i: nat): seq<Pill>
    requires i < |s|
  {
    SplitPill(s[i], vx, hy, n + IdsBefore(s, i, vx, hy))
  }

  /** What each pill of `s` becomes under a cut at (vx, hy). */
  function Chunks(s: seq<Pill>, vx: int, hy: int, n: nat): seq<seq<Pill>>
  {
    seq(|s|, i requires 0 <= i < |s| => ChunkAt(s, vx, hy, n, i))
  }

  /** The list of pills after a cut at (vx, hy), ids minted from n on. */
  function SplitAll(s: seq<Pill>, vx: int, hy: int, n: nat): seq<Pill>
  {
    Flatten(Chunks(s, vx, hy, n))
  }

  /** When both lines cross a pill, some would-be quadrant is below MIN_PART
      exactly when the pill does not fit the cut. */
  lemma CrossTooSmall(p: Pill, vx: int, hy: int)
    requires IntersectsV(p, vx) && IntersectsH(p, hy)
    ensures var leftW, rightW, topH, bottomH := vx - p.x, p.x + p.w - vx, hy - p.y, p.y + p.h - hy;
      AnyTooSmall([Size(leftW, topH), Size(rightW, topH), Size(leftW, bottomH), Size(rightW, bottomH)])
      <==> !FitsCut(p, vx, hy)
  {
    var leftW := vx - p.x;
    var rightW := p.x + p.w - vx;
    var topH := hy - p.y;
    var bottomH := p.y + p.h - hy;
    var partsWouldBe := [Size(leftW, topH), Size(rightW, topH), Size(leftW, bottomH), Size(rightW, bottomH)];
    AnyTooSmallIff(partsWouldBe);
    if !FitsCut(p, vx, hy) {
      if leftW < MIN_PART { assert partsWouldBe[0].w < MIN_PART; }
      else if rightW < MIN_PART { assert partsWouldBe[1].w < MIN_PART; }
      else if topH < MIN_PART { assert partsWouldBe[0].h < MIN_PART; }
      else { assert partsWouldBe[3].h < MIN_PART; }
    }
  }

  /** A pill is cut into four fragments when both lines cross it, into two
      when one does, and in either case only when no fragment would be below
      MIN_PART; otherwise it stays one pill and consumes no id. */
  lemma SplitOutcome(p: Pill, vx: int, hy: int, n: nat)
    ensures |SplitPill(p, vx, hy, n)| == 4 <==> FitsCut(p, vx, hy) && IntersectsV(p, vx) && IntersectsH(p, hy)
    ensures |SplitPill(p, vx, hy, n)| == 2 <==> FitsCut(p, vx, hy) && IntersectsV(p, vx) != IntersectsH(p, hy)
    ensures |SplitPill(p, vx, hy, n)| == 1 <==> !FitsCut(p, vx, hy)
    ensures IdsUsed(p, vx, hy) == if FitsCut(p, vx, hy) then |SplitPill(p, vx, hy, n)| else 0
  {
  }

  /** A pill the cut does not split keeps its id, colour, size and radii. It
      moves only along an axis whose line runs through it: past the line by
      NUDGE_GAP when the far side is strictly larger, and otherwise to end
      NUDGE_GAP before the line, but not below 0. A pill neither line meets
      is unchanged. */
  lemma SplitNudge(p: Pill, vx: int, hy: int, n: nat)
    requires !FitsCut(p, vx, hy)
    ensures var r := SplitPill(p, vx, hy, n);
      |r| == 1 && r[0].id == p.id && r[0].color == p.color &&
      r[0].w == p.w && r[0].h == p.h && r[0].radii == p.radii
    ensures var r := SplitPill(p, vx, hy, n);
      var leftW, rightW := vx - p.x, p.x + p.w - vx;
      r[0].x == if !IntersectsV(p, vx) then p.x
                else if rightW > leftW then vx + NUDGE_GAP
                else Max(0, vx - p.w - NUDGE_GAP)
    ensures var r := SplitPill(p, vx, hy, n);
      var topH, bottomH := hy - p.y, p.y + p.h - hy;
      r[0].y == if !IntersectsH(p, hy) then p.y
                else if bottomH > topH then hy + NUDGE_GAP
                else Max(0, hy - p.h - NUDGE_GAP)
    ensures !IntersectsV(p, vx) && !IntersectsH(p, hy) ==> SplitPill(p, vx, hy, n) == [p]
  {
  }

  /** The fragments of a pill that is cut take the fresh ids n, n + 1, ...,
      keep the parent's colour and take their radii from ComputeRadii against
      the parent. Along an axis the cut crosses they are at least MIN_PART;
      along an axis it does not cross they keep the parent's extent. */
  lemma SplitFragments(p: Pill, vx: int, hy: int, n: nat)
    requires FitsCut(p, vx, hy)
    ensures var r := SplitPill(p, vx, hy, n);
      forall k :: 0 <= k < |r| ==>
        r[k].id == n + k && r[k].color == p.color &&
        (if IntersectsV(p, vx) then r[k].w >= MIN_PART else r[k].w == p.w) &&
        (if IntersectsH(p, hy) then r[k].h >= MIN_PART else r[k].h == p.h) &&
        r[k].radii == Some(ComputeRadii(p, r[k]))
  {
    var r := SplitPill(p, vx, hy, n);
    var pieces := CutPieces(p, vx, hy, n);
    forall k | 0 <= k < |r|
      ensures r[k].id == n + k && r[k].color == p.color
      ensures if IntersectsV(p, vx) then r[k].w >= MIN_PART else r[k].w == p.w
      ensures if IntersectsH(p, hy) then r[k].h >= MIN_PART else r[k].h == p.h
      ensures r[k].radii == Some(ComputeRadii(p, r[k]))
    {
      assert r[k] == WithRadii(p, pieces[k]);
      assert (if IntersectsV(p, vx) then pieces[k].w >= MIN_PART else pieces[k].w == p.w) &&
             (if IntersectsH(p, hy) then pieces[k].h >= MIN_PART else pieces[k].h == p.h) by {
        if IntersectsV(p, vx) && IntersectsH(p, hy) {
          var q := CrossPieces(p, vx, hy, n);
          assert pieces == q;
          if k == 0 { assert pieces[k] == q[0]; }
          else if k == 1 { assert pieces[k] == q[1]; }
          else if k == 2 { assert pieces[k] == q[2]; }
          else { assert pieces[k] == q[3]; }
        } else if IntersectsV(p, vx) {
          var q := VerticalPieces(p, vx, n);
          assert pieces == q;
          if k == 0 { assert pieces[k] == q[0]; } else { assert pieces[k] == q[1]; }
        } else {
          var q := HorizontalPieces(p, hy, n);
          assert pieces == q;
          if k == 0 { assert pieces[k] == q[0]; } else { assert pieces[k] == q[1]; }
        }
      }
    }
  }

  lemma Count2(f0: Pill, f1: Pill, a: int, b: int)
    ensures Count([f0, f1], a, b) == (if Contains(f0, a, b) then 1 else 0) + (if Contains(f1, a, b) then 1 else 0)
  {
    assert [f0, f1][1..] == [f1];
    assert [f1][1..] == [];
    assert Count([f1], a, b) == (if Contains(f1, a, b) then 1 else 0) + Count([], a, b);
  }

  lemma Count4(f0: Pill, f1: Pill, f2: Pill, f3: Pill, a: int, b: int)
    ensures Count([f0, f1, f2, f3], a, b) ==
      (if Contains(f0, a, b) then 1 else 0) + (if Contains(f1, a, b) then 1 else 0) +
      (if Contains(f2, a, b) then 1 else 0) + (if Contains(f3, a, b) then 1 else 0)
  {
    assert [f0, f1, f2, f3][1..] == [f1, f2, f3];
    assert [f1, f2, f3][1..] == [f2, f3];
    Count2(f2, f3, a, b);
  }

  /** The fragments of a cut pill tile it exactly: every cell of the parent
      lies in exactly one fragment and no fragment reaches outside it. The
      seams lie on the cut lines: no cut line runs through a fragment. */
  lemma SplitTiles(p: Pill, vx: int, hy: int, n: nat)
    requires FitsCut(p, vx, hy)
    ensures Tiles(p, SplitPill(p, vx, hy, n))
    ensures var r := SplitPill(p, vx, hy, n);
      forall k :: 0 <= k < |r| ==> !IntersectsV(r[k], vx) && !IntersectsH(r[k], hy)
  {
    var r := SplitPill(p, vx, hy, n);
    var pieces := CutPieces(p, vx, hy, n);
    forall k | 0 <= k < |r| ensures !IntersectsV(r[k], vx) && !IntersectsH(r[k], hy) {
      assert r[k] == WithRadii(p, pieces[k]);
    }
    forall a, b ensures Count(r, a, b) == if Contains(p, a, b) then 1 else 0 {
      if IntersectsV(p, vx) && IntersectsH(p, hy) {
        assert pieces == CrossPieces(p, vx, hy, n);
        Count4(r[0], r[1], r[2], r[3], a, b);
        assert r == [r[0], r[1], r[2], r[3]];
      } else {
        assert pieces == VerticalPieces(p, vx, n) || pieces == HorizontalPieces(p, hy, n);
        Count2(r[0], r[1], a, b);
        assert r == [r[0], r[1]];
      }
    }
  }

  lemma AreaSum2(f0: Pill, f1: Pill)
    ensures AreaSum([f0, f1]) == Area(f0) + Area(f1)
  {
    assert [f0, f1][1..] == [f1];
    assert [f1][1..] == [];
    assert AreaSum([f1]) == Area(f1) + AreaSum([]);
  }

  lemma AreaSum4(f0: Pill, f1: Pill, f2: Pill, f3: Pill)
    ensures AreaSum([f0, f1, f2, f3]) == Area(f0) + Area(f1) + Area(f2) + Area(f3)
  {
    assert [f0, f1, f2, f3][1..] == [f1, f2, f3];
    assert [f1, f2, f3][1..] == [f2, f3];
    AreaSum2(f2, f3);
  }

  /** Cutting a pill conserves its area: the fragment areas add up to the
      parent's, and the fragments on either side of a cut line meet at that
      line, their sides adding up to the parent's side. */
  lemma SplitArea(p: Pill, vx: int, hy: int, n: nat)
    requires FitsCut(p, vx, hy)
    ensures AreaSum(SplitPill(p, vx, hy, n)) == Area(p)
    ensures var r := SplitPill(p, vx, hy, n);
      IntersectsV(p, vx) && IntersectsH(p, hy) ==>
        |r| == 4 && r[0].x == r[2].x == p.x && r[1].x == r[3].x == vx &&
        r[0].y == r[1].y == p.y && r[2].y == r[3].y == hy &&
        r[0].w + r[1].w == p.w && r[0].h + r[2].h == p.h
    ensures var r := SplitPill(p, vx, hy, n);
      IntersectsV(p, vx) && !IntersectsH(p, hy) ==>
        |r| == 2 && r[0].x == p.x && r[1].x == vx && r[0].w + r[1].w == p.w
    ensures var r := SplitPill(p, vx, hy, n);
      !IntersectsV(p, vx) && IntersectsH(p, hy) ==>
        |r| == 2 && r[0].y == p.y && r[1].y == hy && r[0].h + r[1].h == p.h
  {
    var r := SplitPill(p, vx, hy, n);
    var l, rt, t, bt := vx - p.x, p.x + p.w - vx, hy - p.y, p.y + p.h - hy;
    if IntersectsV(p, vx) && IntersectsH(p, hy) {
      assert r == [r[0], r[1], r[2], r[3]];
      AreaSum4(r[0], r[1], r[2], r[3]);
      assert Area(r[0]) == l * t && Area(r[1]) == rt * t && Area(r[2]) == l * bt && Area(r[3]) == rt * bt;
      assert (l + rt) * (t + bt) == l * t + rt * t + l * bt + rt * bt;
    } else if IntersectsV(p, vx) {
      assert r == [r[0], r[1]];
      AreaSum2(r[0], r[1]);
      assert Area(r[0]) == l * p.h && Area(r[1]) == rt * p.h;
      assert (l + rt) * p.h == l * p.h + rt * p.h;
    } else {
      assert r == [r[0], r[1]];
      AreaSum2(r[0], r[1]);
      assert Area(r[0]) == p.w * t && Area(r[1]) == p.w * bt;
      assert p.w * (t + bt) == p.w * t + p.w * bt;
    }
  }

  /** Each fragment keeps the parent's rounding only at its outer corners:
      every corner on a new seam is square. */
  lemma SplitCorners(p: Pill, vx: int, hy: int, n: nat)
    requires FitsCut(p, vx, hy)
    ensures var r := SplitPill(p, vx, hy, n);
      var P := BaseRadii(p);
      if IntersectsV(p, vx) && IntersectsH(p, hy) then
        |r| == 4 &&
        r[0].radii == Some(Radii(P.tl, 0, 0, 0)) && r[1].radii == Some(Radii(0, P.tr, 0, 0)) &&
        r[2].radii == Some(Radii(0, 0, 0, P.bl)) && r[3].radii == Some(Radii(0, 0, P.br, 0))
      else if IntersectsV(p, vx) then
        |r| == 2 &&
        r[0].radii == Some(Radii(P.tl, 0, 0, P.bl)) && r[1].radii == Some(Radii(0, P.tr, P.br, 0))
      else
        |r| == 2 &&
        r[0].radii == Some(Radii(P.tl, P.tr, 0, 0)) && r[1].radii == Some(Radii(0, 0, P.br, P.bl))
  {
  }

  /** The ids of the pills of `c` are `keep` when `minted` is false, and lie
      in [lo, hi) when it is true. */
  predicate IdsWithin(c: seq<Pill>, minted: bool, keep: nat, lo: nat, hi: nat)
  {
    forall k :: 0 <= k < |c| ==> if minted then lo <= c[k].id < hi else c[k].id == keep
  }

  /** Cutting keeps the list invariant for a single pill: the pieces are well
      formed, and a pill that is not cut keeps its id while fragments take the
      fresh ids n to n + IdsUsed - 1. */
  lemma SplitPillWellFormed(p: Pill, vx: int, hy: int, n: nat)
    requires p.w >= MIN_PART && p.h >= MIN_PART && RadiiNonNegative(p.radii)
    ensures WellFormed(SplitPill(p, vx, hy, n))
    ensures IdsWithin(SplitPill(p, vx, hy, n), IdsUsed(p, vx, hy) > 0, p.id, n, n + IdsUsed(p, vx, hy))
  {
    SplitOutcome(p, vx, hy, n);
    var r := SplitPill(p, vx, hy, n);
    if FitsCut(p, vx, hy) {
      SplitFragments(p, vx, hy, n);
      forall k | 0 <= k < |r| ensures RadiiNonNegative(r[k].radii) {
        ComputeRadiiFromParent(p, r[k], TL);
        ComputeRadiiFromParent(p, r[k], TR);
        ComputeRadiiFromParent(p, r[k], BR);
        ComputeRadiiFromParent(p, r[k], BL);
      }
    } else {
      SplitNudge(p, vx, hy, n);
    }
  }

  /** A longer prefix of the list consumes at least as many ids. */
  lemma {:induction false} IdsBeforeMono(s: seq<Pill>, i: nat, j: nat, vx: int, hy: int)
    requires i <= j <= |s|
    ensures IdsBefore(s, i, vx, hy) <= IdsBefore(s, j, vx, hy)
    decreases j
  {
    if i < j {
      IdsBeforeMono(s, i, j - 1, vx, hy);
    }
  }

  /** The cut keeps the order of the list: pill i becomes 1, 2 or 4
      consecutive pills, placed right after what the pills before it became
      and before what the pills after it become. */
  lemma SplitAllAt(s: seq<Pill>, i: nat, vx: int, hy: int, n: nat)
    requires i < |s|
    ensures var c := Chunks(s, vx, hy, n);
      SplitAll(s, vx, hy, n) == Flatten(c[..i]) + ChunkAt(s, vx, hy, n, i) + Flatten(c[i + 1..])
    ensures |ChunkAt(s, vx, hy, n, i)| in {1, 2, 4}
  {
    var c := Chunks(s, vx, hy, n);
    assert c == c[..i] + [c[i]] + c[i + 1..];
    FlattenAppend(c[..i] + [c[i]], c[i + 1..]);
    FlattenSnoc(c[..i], c[i]);
    SplitOutcome(s[i], vx, hy, n + IdsBefore(s, i, vx, hy));
  }

  /** A cut that meets no pill leaves the list as it is and mints nothing. */
  lemma SplitAllMiss(s: seq<Pill>, vx: int, hy: int, n: nat)
    requires forall i :: 0 <= i < |s| ==> !IntersectsV(s[i], vx) && !IntersectsH(s[i], hy)
    ensures SplitAll(s, vx, hy, n) == s
    ensures TotalIds(s, vx, hy) == 0
  {
    var c := Chunks(s, vx, hy, n);
    forall i | 0 <= i < |s| ensures c[i] == [s[i]] {
      SplitNudge(s[i], vx, hy, n + IdsBefore(s, i, vx, hy));
    }
    FlattenSingletons(c, s);
    IdsBeforeNone(s, |s|, vx, hy);
  }

  /** Pills none of which the cut splits mint no id. */
  lemma {:induction false} IdsBeforeNone(s: seq<Pill>, i: nat, vx: int, hy: int)
    requires i <= |s|
    requires forall k :: 0 <= k < |s| ==> !FitsCut(s[k], vx, hy)
    ensures IdsBefore(s, i, vx, hy) == 0
  {
    if i > 0 {
      IdsBeforeNone(s, i - 1, vx, hy);
    }
  }

  /** A cut conserves the total area of the list: fragments add up to their
      parent and nudged pills keep their size. */
  lemma SplitAllArea(s: seq<Pill>, vx: int, hy: int, n: nat)
    ensures AreaSum(SplitAll(s, vx, hy, n)) == AreaSum(s)
  {
    var c := Chunks(s, vx, hy, n);
    forall i | 0 <= i < |s| ensures AreaSum(c[i]) == Area(s[i]) {
      var m := n + IdsBefore(s, i, vx, hy);
      if FitsCut(s[i], vx, hy) {
        SplitArea(s[i], vx, hy, m);
      } else {
        SplitNudge(s[i], vx, hy, m);
        assert AreaSum(c[i]) == Area(c[i][0]) + AreaSum([]);
      }
    }
    FlattenArea(c, s);
  }

  /** The `i`th list of `c`, which stands for what the `i`th pill of `s`
      becomes, is well formed; it keeps that pill's id when the pill is not
      cut, and otherwise takes ids from the ones minted for the pills before
      it up to the ones minted for the pill itself. */
  predicate ChunkFits(c: seq<seq<Pill>>, s: seq<Pill>, vx: int, hy: int, n: nat, i: nat)
  {
    i < |c| && i < |s| && WellFormed(c[i]) &&
    IdsWithin(c[i], IdsUsed(s[i], vx, hy) > 0, s[i].id, n + IdsBefore(s, i, vx, hy), n + IdsBefore(s, i + 1, vx, hy))
  }

  /** What a well-formed pill of the list becomes is well formed and takes
      the ids ChunkFits describes. */
  lemma ChunkAtFits(s: seq<Pill>, vx: int, hy: int, n: nat, i: nat)
    requires WellFormed(s) && i < |s|
    ensures WellFormed(ChunkAt(s, vx, hy, n, i))
    ensures IdsWithin(ChunkAt(s, vx, hy, n, i), IdsUsed(s[i], vx, hy) > 0, s[i].id,
      n + IdsBefore(s, i, vx, hy), n + IdsBefore(s, i + 1, vx, hy))
  {
    SplitPillWellFormed(s[i], vx, hy, n + IdsBefore(s, i, vx, hy));
  }

  /** What each pill of a well-formed list becomes fits it as ChunkFits says. */
  lemma ChunkIds(s: seq<Pill>, vx: int, hy: int, n: nat)
    requires WellFormed(s)
    ensures forall i: nat :: i < |s| ==> ChunkFits(Chunks(s, vx, hy, n), s, vx, hy, n, i)
  {
    forall i: nat | i < |s| ensures ChunkFits(Chunks(s, vx, hy, n), s, vx, hy, n, i) {
      assert Chunks(s, vx, hy, n)[i] == ChunkAt(s, vx, hy, n, i);
      ChunkAtFits(s, vx, hy, n, i);
    }
  }

  /** Lists that each fit their pill of `s` share no id pairwise: the old ids
      are distinct and lie below `n`, and the stretches of minted ids start at
      `n` and do not overlap. */
  lemma {:induction false} ChunksDisjoint(c: seq<seq<Pill>>, s: seq<Pill>, vx: int, hy: int, n: nat)
    requires |c| == |s| && Unique(s) && IssuedBelow(s, n)
    requires forall i: nat :: i < |c| ==> ChunkFits(c, s, vx, hy, n, i)
    ensures forall i, j :: 0 <= i < j < |c| ==> Ids(c[i]) !! Ids(c[j])
  {
    forall i, j | 0 <= i < j < |c| ensures Ids(c[i]) !! Ids(c[j]) {
      IdsBeforeMono(s, i + 1, j, vx, hy);
      assert ChunkFits(c, s, vx, hy, n, i) && ChunkFits(c, s, vx, hy, n, j);
      forall id | id in Ids(c[i]) ensures id !in Ids(c[j]) {
        var a :| 0 <= a < |c[i]| && c[i][a].id == id;
        forall b | 0 <= b < |c[j]| ensures c[j][b].id != id {
          assert s[i].id != s[j].id;
        }
      }
    }
  }

  /** Lists that each fit their pill of `s` flatten to a well-formed list
      whose ids are old ids of `s` or minted ones from `n` on, all below the
      advanced counter. */
  lemma FlattenChunksWellFormed(c: seq<seq<Pill>>, s: seq<Pill>, vx: int, hy: int, n: nat)
    requires |c| == |s| && WellFormed(s) && IssuedBelow(s, n)
    requires forall i: nat :: i < |c| ==> ChunkFits(c, s, vx, hy, n, i)
    ensures WellFormed(Flatten(c))
    ensures IssuedBelow(Flatten(c), n + TotalIds(s, vx, hy))
    ensures forall k :: 0 <= k < |Flatten(c)| ==> Flatten(c)[k].id in Ids(s) || n <= Flatten(c)[k].id
  {
    var f := Flatten(c);
    ChunksDisjoint(c, s, vx, hy, n);
    forall i | 0 <= i < |c| ensures Unique(c[i]) {
      assert ChunkFits(c, s, vx, hy, n, i);
    }
    FlattenUnique(c);
    FlattenElements(c);
    forall k | 0 <= k < |f|
      ensures f[k].w >= MIN_PART && f[k].h >= MIN_PART && RadiiNonNegative(f[k].radii)
      ensures 1 <= f[k].id < n + TotalIds(s, vx, hy)
      ensures f[k].id in Ids(s) || n <= f[k].id
    {
      assert InSome(c, f[k]);
      var i, j :| 0 <= i < |c| && 0 <= j < |c[i]| && f[k] == c[i][j];
      assert ChunkFits(c, s, vx, hy, n, i);
      IdsBeforeMono(s, i + 1, |s|, vx, hy);
      assert s[i].id in Ids(s);
    }
  }

  /** A cut keeps the list invariant: ids stay distinct (old pills keep
      theirs, fragments take fresh ones from n on), sizes stay at least
      MIN_PART and radii non-negative, and every id is below the advanced
      counter. */
  lemma SplitAllWellFormed(s: seq<Pill>, vx: int, hy: int, n: nat)
    requires WellFormed(s) && IssuedBelow(s, n)
    ensures WellFormed(SplitAll(s, vx, hy, n))
    ensures IssuedBelow(SplitAll(s, vx, hy, n), n + TotalIds(s, vx, hy))
    ensures forall k :: 0 <= k < |SplitAll(s, vx, hy, n)| ==>
      SplitAll(s, vx, hy, n)[k].id in Ids(s) || n <= SplitAll(s, vx, hy, n)[k].id
  {
    ChunkIds(s, vx, hy, n);
    FlattenChunksWellFormed(Chunks(s, vx, hy, n), s, vx, hy, n);
  }

  /** Mints the ids of the four quadrants of a cross cut, in reading order,
      and sets each quadrant's radii from the parent. */
  method CutAcross(p: Pill, vx: int, hy: int, ids: Uid) returns (out: seq<Pill>)
    requires ids.Valid()
    modifies ids
    ensures ids.Valid() && ids.next == old(ids.next) + 4
    ensures out == WithParentRadii(p, CrossPieces(p, vx, hy, old(ids.next)))
  {
    ghost var m := ids.next;
    var leftW := vx - p.x;
    var rightW := p.x + p.w - vx;
    var topH := hy - p.y;
    var bottomH := p.y + p.h - hy;
    var a := ids.Mint();
    var b := ids.Mint();
    var c := ids.Mint();
    var d := ids.Mint();
    var parts := [
      Pill(a, p.x, p.y, leftW, topH, p.color, None),
      Pill(b, vx, p.y, rightW, topH, p.color, None),
      Pill(c, p.x, hy, leftW, bottomH, p.color, None),
      Pill(d, vx, hy, rightW, bottomH, p.color, None)];
    assert parts == CrossPieces(p, vx, hy, m);
    out := [];
    for j := 0 to |parts|
      invariant ids.Valid() && ids.next == m + 4
      invariant out == WithParentRadii(p, parts[..j])
    {
      var prt := parts[j].(radii := Some(ComputeRadii(p, parts[j])));
      WithParentRadiiSnoc(p, parts[..j], parts[j]);
      assert parts[..j + 1] == parts[..j] + [parts[j]];
      out := out + [prt];
    }
    assert parts[..|parts|] == parts;
  }

  /** Mints the ids of the two halves of a vertical cut, left then right,
      each with the radii it inherits from the parent. */
  method CutVertical(p: Pill, vx: int, ids: Uid) returns (left: Pill, right: Pill)
    requires ids.Valid()
    modifies ids
    ensures ids.Valid() && ids.next == old(ids.next) + 2
    ensures [left, right] == WithParentRadii(p, VerticalPieces(p, vx, old(ids.next)))
  {
    var leftW := vx - p.x;
    var rightW := p.x + p.w - vx;
    var leftId := ids.Mint();
    left := Pill(leftId, p.x, p.y, leftW, p.h, p.color,
      Some(ComputeRadii(p, Pill(0, p.x, p.y, leftW, p.h, p.color, None))));
    var rightId := ids.Mint();
    right := Pill(rightId, vx, p.y, rightW, p.h, p.color,
      Some(ComputeRadii(p, Pill(0, vx, p.y, rightW, p.h, p.color, None))));
  }

  /** Mints the ids of the two halves of a horizontal cut, top then bottom,
      each with the radii it inherits from the parent. */
  method CutHorizontal(p: Pill, hy: int, ids: Uid) returns (top: Pill, bottom: Pill)
    requires ids.Valid()
    modifies ids
    ensures ids.Valid() && ids.next == old(ids.next) + 2
    ensures [top, bottom] == WithParentRadii(p, HorizontalPieces(p, hy, old(ids.next)))
  {
    var topH := hy - p.y;
    var bottomH := p.y + p.h - hy;
    var topId := ids.Mint();
    top := Pill(topId, p.x, p.y, p.w, topH, p.color,
      Some(ComputeRadii(p, Pill(0, p.x, p.y, p.w, topH, p.color, None))));
    var bottomId := ids.Mint();
    bottom := Pill(bottomId, p.x, hy, p.w, bottomH, p.color,
      Some(ComputeRadii(p, Pill(0, p.x, hy, p.w, bottomH, p.color, None))));
  }

  /** What one pill of the loop in performSplit pushes: the pill itself, its
      nudged copy, or its fragments. */
  method SplitOne(p: Pill, vx: int, hy: int, ids: Uid) returns (out: seq<Pill>)
    requires ids.Valid()
    modifies ids
    ensures ids.Valid()
    ensures out == SplitPill(p, vx, hy, old(ids.next))
    ensures ids.next == old(ids.next) + IdsUsed(p, vx, hy)
  {
    var hitV := IntersectsV(p, vx);
    var hitH := IntersectsH(p, hy);

    if !hitV && !hitH {
      return [p];
    }

    if hitV && hitH {
      var leftW := vx - p.x;
      var rightW := p.x + p.w - vx;
      var topH := hy - p.y;
      var bottomH := p.y + p.h - hy;
      var partsWouldBe := [Size(leftW, topH), Size(rightW, topH), Size(leftW, bottomH), Size(rightW, bottomH)];
      var anyTooSmall := AnyTooSmall(partsWouldBe);
      CrossTooSmall(p, vx, hy);
      if anyTooSmall {
        var moveToRight := rightW > leftW;
        var moveToBottom := bottomH > topH;
        var newX := if moveToRight then vx + NUDGE_GAP else Max(0, vx - p.w - NUDGE_GAP);
        var newY := if moveToBottom then hy + NUDGE_GAP else Max(0, hy - p.h - NUDGE_GAP);
        return [p.(x := newX, y := newY)];
      }
      out := CutAcross(p, vx, hy, ids);
      return;
    }

    if hitV {
      var leftW := vx - p.x;
      var rightW := p.x + p.w - vx;
      if leftW < MIN_PART || rightW < MIN_PART {
        var moveToRight := rightW > leftW;
        var newX := if moveToRight then vx + NUDGE_GAP else Max(0, vx - p.w - NUDGE_GAP);
        return [p.(x := newX)];
      }
      var left, right := CutVertical(p, vx, ids);
      return [left, right];
    }

    // Only the horizontal line meets p here, so the pass-through that
    // follows this branch in the source is never reached.
    var topH := hy - p.y;
    var bottomH := p.y + p.h - hy;
    if topH < MIN_PART || bottomH < MIN_PART {
      var moveToBottom := bottomH > topH;
      var newY := if moveToBottom then hy + NUDGE_GAP else Max(0, hy - p.h - NUDGE_GAP);
      return [p.(y := newY)];
    }
    var top, bottom := CutHorizontal(p, hy, ids);
    return [top, bottom];
  }

  /** Cuts the pills of `prev` at (vx, hy), minting fragment ids from `ids`. */
  method PerformSplit(prev: seq<Pill>, vx: int, hy: int, ids: Uid) returns (next: seq<Pill>)
    requires ids.Valid()
    modifies ids
    ensures ids.Valid()
    ensures next == SplitAll(prev, vx, hy, old(ids.next))
    ensures ids.next == old(ids.next) + TotalIds(prev, vx, hy)
  {
    ghost var n0 := ids.next;
    ghost var chunks := Chunks(prev, vx, hy, n0);
    next := [];
    for k := 0 to |prev|
      invariant ids.Valid()
      invariant next == Flatten(chunks[..k])
      invariant ids.next == n0 + IdsBefore(prev, k, vx, hy)
    {
      ghost var m := ids.next;
      var out := SplitOne(prev[k], vx, hy, ids);
      assert m == n0 + IdsBefore(prev, k, vx, hy);
      assert chunks[k] == ChunkAt(prev, vx, hy, n0, k);
      assert chunks[..k + 1] == chunks[..k] + [out];
      FlattenSnoc(chunks[..k], out);
      next := next + out;
    }
    assert chunks[..|prev|] == chunks;
  }
}
