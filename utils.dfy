/** Constants, geometry predicates, corner-radius inheritance and the id
    counter of the pill canvas (src/utils/index.ts). */
module Utils {
  import opened Types

  /** The radius of every corner of a freshly drawn pill. */
  const INITIAL_BORDER_RADIUS: int := 20
  /** The least width and height of a drawn pill. */
  const MIN_PILL: int := 40
  /** The least width and height of a fragment produced by a cut. */
  const MIN_PART: int := 20

  function Abs(v: int): nat
  {
    if v < 0 then -v else v
  }

  function Max(a: int, b: int): int
  {
    if a < b then b else a
  }

  function Min(a: int, b: int): int
  {
    if a < b then a else b
  }

  /** A pill too narrow to be cut is still wide enough to have been drawn:
      fragments are held to a smaller minimum than drawn pills. */
  lemma FragmentMinimumBelowDrawMinimum()
    ensures 0 < MIN_PART < MIN_PILL
  {
  }

  predicate RadiiNonNegative(r: Option<Radii>)
  {
    r.Some? ==> r.value.tl >= 0 && r.value.tr >= 0 && r.value.br >= 0 && r.value.bl >= 0
  }

  /** The invariant of the committed list: ids are distinct, every pill is
      at least MIN_PART wide and high, and no corner radius is negative. */
  predicate WellFormed(s: seq<Pill>)
  {
    Unique(s) && forall i :: 0 <= i < |s| ==> s[i].w >= MIN_PART && s[i].h >= MIN_PART && RadiiNonNegative(s[i].radii)
  }

  /** Every id in `s` was minted by a counter that now stands at `next`. */
  predicate IssuedBelow(s: seq<Pill>, next: nat)
  {
    forall i :: 0 <= i < |s| ==> 1 <= s[i].id < next
  }

  /** A vertical line at `x` runs through the interior of `rect`. */
  predicate IntersectsV(rect: Pill, x: int)
  {
    x > rect.x && x < rect.x + rect.w
  }

  /** A horizontal line at `y` runs through the interior of `rect`. */
  predicate IntersectsH(rect: Pill, y: int)
  {
    y > rect.y && y < rect.y + rect.h
  }

  /** A vertical cut at `x` meets a pill exactly when the pill has cells on
      both sides of the line; a cut on either vertical edge meets nothing. */
  lemma IntersectsVSplitsCells(rect: Pill, x: int)
    requires rect.h > 0
    ensures IntersectsV(rect, x) <==>
      (exists a, b :: Contains(rect, a, b) && a < x) && (exists a, b :: Contains(rect, a, b) && a >= x)
    ensures !IntersectsV(rect, rect.x) && !IntersectsV(rect, rect.x + rect.w)
  {
    if IntersectsV(rect, x) {
      assert Contains(rect, rect.x, rect.y) && rect.x < x;
      assert Contains(rect, x, rect.y) && x >= x;
    }
  }

  /** A horizontal cut at `y` meets a pill exactly when the pill has cells
      above and below the line; a cut on either horizontal edge meets nothing. */
  lemma IntersectsHSplitsCells(rect: Pill, y: int)
    requires rect.w > 0
    ensures IntersectsH(rect, y) <==>
      (exists a, b :: Contains(rect, a, b) && b < y) && (exists a, b :: Contains(rect, a, b) && b >= y)
    ensures !IntersectsH(rect, rect.y) && !IntersectsH(rect, rect.y + rect.h)
  {
    if IntersectsH(rect, y) {
      assert Contains(rect, rect.x, rect.y) && rect.y < y;
      assert Contains(rect, rect.x, y) && y >= y;
    }
  }

  function DefaultRadii(): Radii
  {
    Radii(INITIAL_BORDER_RADIUS, INITIAL_BORDER_RADIUS, INITIAL_BORDER_RADIUS, INITIAL_BORDER_RADIUS)
  }

  /** The radii a pill is drawn with: its own, or the initial radius at every corner. */
  function BaseRadii(orig: Pill): Radii
  {
    match orig.radii
    case Some(r) => r
    case None => DefaultRadii()
  }

  /** Both edges of `part` that meet at corner `c` lie on the matching edges of `orig`. */
  predicate EdgesKept(orig: Pill, part: Pill, c: Corner)
  {
    var left := part.x == orig.x;
    var right := part.x + part.w == orig.x + orig.w;
    var top := part.y == orig.y;
    var bottom := part.y + part.h == orig.y + orig.h;
    match c
    case TL => left && top
    case TR => right && top
    case BR => right && bottom
    case BL => left && bottom
  }

  /** The corner radii of `part`, a piece cut from `orig`: a corner keeps the
      parent's radius only where both of its edges are the parent's own edges;
      a corner on a new cut edge is square. */
  function ComputeRadii(orig: Pill, part: Pill): Radii
  {
    var or := BaseRadii(orig);
    var origLeft := orig.x;
    var origRight := orig.x + orig.w;
    var origTop := orig.y;
    var origBottom := orig.y + orig.h;
    var partLeft := part.x;
    var partRight := part.x + part.w;
    var partTop := part.y;
    var partBottom := part.y + part.h;
    Radii(
      if partLeft == origLeft && partTop == origTop then or.tl else 0,
      if partRight == origRight && partTop == origTop then or.tr else 0,
      if partRight == origRight && partBottom == origBottom then or.br else 0,
      if partLeft == origLeft && partBottom == origBottom then or.bl else 0)
  }

  /** A corner of a piece keeps the parent's radius exactly when both of its
      edges lie on the parent's edges, and is square otherwise. */
  lemma ComputeRadiiCorner(orig: Pill, part: Pill, c: Corner)
    ensures At(ComputeRadii(orig, part), c) == if EdgesKept(orig, part, c) then At(BaseRadii(orig), c) else 0
  {
  }

  /** Every corner of a piece is square or the parent's radius at the same corner;
      in particular a parent without radii hands down only 0 or the initial radius. */
  lemma ComputeRadiiFromParent(orig: Pill, part: Pill, c: Corner)
    ensures At(ComputeRadii(orig, part), c) == 0 || At(ComputeRadii(orig, part), c) == At(BaseRadii(orig), c)
    ensures orig.radii.None? ==> At(ComputeRadii(orig, part), c) in {0, INITIAL_BORDER_RADIUS}
  {
  }

  /** A piece with the parent's own geometry keeps all of the parent's radii,
      or the initial radii when the parent has none. */
  lemma ComputeRadiiWholePill(orig: Pill, part: Pill)
    requires part.x == orig.x && part.y == orig.y && part.w == orig.w && part.h == orig.h
    ensures ComputeRadii(orig, part) == BaseRadii(orig)
    ensures orig.radii.Some? ==> ComputeRadii(orig, part) == orig.radii.value
    ensures orig.radii.None? ==> ComputeRadii(orig, part) == DefaultRadii()
  {
  }

  /** Rounding survives repeated cuts only on original outer edges: if `mid`
      took its radii from `orig`, and `part` was cut from `mid`, then a
      rounded corner of `part` has both its edges on edges of `orig`. */
  lemma ComputeRadiiAncestor(orig: Pill, mid: Pill, part: Pill, c: Corner)
    requires mid.radii == Some(ComputeRadii(orig, mid))
    requires At(ComputeRadii(mid, part), c) != 0
    ensures EdgesKept(orig, part, c)
  {
    ComputeRadiiCorner(mid, part, c);
    ComputeRadiiCorner(orig, mid, c);
    assert EdgesKept(mid, part, c);
    assert At(ComputeRadii(orig, mid), c) != 0;
  }

  /** The id counter: each call of Mint returns the counter and advances it,
      so no id is ever handed out twice. */
  class Uid {
    var next: nat
    /** The ids handed out so far. */
    ghost var issued: set<nat>

    ghost predicate Valid()
      reads this
    {
      1 <= next && forall id :: id in issued ==> 1 <= id < next
    }

    constructor ()
      ensures Valid() && next == 1 && issued == {}
    {
      next := 1;
      issued := {};
    }

    method Mint() returns (id: nat)
      requires Valid()
      modifies this
      ensures Valid()
      ensures id == old(next) && next == old(next) + 1
      ensures id !in old(issued) && issued == old(issued) + {id}
    {
      id := next;
      next := next + 1;
      issued := issued + {id};
    }
  }
}
