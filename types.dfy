/** The records of the pill canvas (src/types/index.ts) and the invariants
    that every committed list of pills keeps. */
module Types {

  datatype Option<T> = None | Some(value: T)

  /** A display colour, assigned once when a pill is drawn and never inspected. */
  type Color = string

  /** Corner radii, clockwise from the top-left corner. */
  datatype Radii = Radii(tl: int, tr: int, br: int, bl: int)

  datatype Corner = TL | TR | BR | BL

  /** The radius of `r` at corner `c`. */
  function At(r: Radii, c: Corner): int
  {
    match c
    case TL => r.tl
    case TR => r.tr
    case BR => r.br
    case BL => r.bl
  }

  /** A pill: an axis-aligned rectangle with top-left corner (x, y) and size
      w by h. Ids are the values of the id counter; `radii` is absent until
      a pill is committed or cut. */
  datatype Pill = Pill(id: nat, x: int, y: int, w: int, h: int, color: Color, radii: Option<Radii>)

  /** The pill being dragged and where the pointer grabbed it. */
  datatype DraggingState = DraggingState(id: nat, offsetX: int, offsetY: int)

  /** The unit cell with top-left corner (a, b) lies inside `p`. */
  predicate Contains(p: Pill, a: int, b: int)
  {
    p.x <= a < p.x + p.w && p.y <= b < p.y + p.h
  }

  function Area(p: Pill): int
  {
    p.w * p.h
  }

  /** The total area of a list of pills. */
  function AreaSum(s: seq<Pill>): int
  {
    if s == [] then 0 else Area(s[0]) + AreaSum(s[1..])
  }

  /** The number of pills of `s` that contain the cell (a, b). */
  function Count(s: seq<Pill>, a: int, b: int): nat
  {
    if s == [] then 0 else (if Contains(s[0], a, b) then 1 else 0) + Count(s[1..], a, b)
  }

  /** `parts` tile `p`: every cell of `p` lies in exactly one part, and no part
      covers a cell outside `p`. */
  ghost predicate Tiles(p: Pill, parts: seq<Pill>)
  {
    forall a, b :: Count(parts, a, b) == if Contains(p, a, b) then 1 else 0
  }

  function Ids(s: seq<Pill>): set<nat>
  {
    set i | 0 <= i < |s| :: s[i].id
  }

  /** No two pills of `s` share an id. */
  predicate Unique(s: seq<Pill>)
  {
    forall i, j :: 0 <= i < j < |s| ==> s[i].id != s[j].id
  }

  lemma IdsAppend(a: seq<Pill>, b: seq<Pill>)
    ensures Ids(a + b) == Ids(a) + Ids(b)
  {
    forall id | id in Ids(a + b) ensures id in Ids(a) + Ids(b) {
      var i :| 0 <= i < |a + b| && (a + b)[i].id == id;
      if i >= |a| { assert b[i - |a|].id == id; }
    }
    forall id | id in Ids(a) + Ids(b) ensures id in Ids(a + b) {
      if id in Ids(a) {
        var i :| 0 <= i < |a| && a[i].id == id;
        assert (a + b)[i].id == id;
      } else {
        var i :| 0 <= i < |b| && b[i].id == id;
        assert (a + b)[|a| + i].id == id;
      }
    }
  }

  /** Two lists without a shared id concatenate to a list without a shared id. */
  lemma UniqueAppend(a: seq<Pill>, b: seq<Pill>)
    requires Unique(a) && Unique(b) && Ids(a) !! Ids(b)
    ensures Unique(a + b)
  {
    forall i, j | 0 <= i < j < |a + b| ensures (a + b)[i].id != (a + b)[j].id {
      if j >= |a| && i < |a| {
        assert a[i].id in Ids(a);
        assert b[j - |a|].id in Ids(b);
      }
    }
  }

  lemma {:induction false} AreaSumAppend(a: seq<Pill>, b: seq<Pill>)
    ensures AreaSum(a + b) == AreaSum(a) + AreaSum(b)
  {
    if a != [] {
      assert (a + b)[0] == a[0] && (a + b)[1..] == a[1..] + b;
      AreaSumAppend(a[1..], b);
    } else {
      assert a + b == b;
    }
  }

  /** The concatenation of a sequence of lists of pills, in order. */
  function Flatten(c: seq<seq<Pill>>): seq<Pill>
  {
    if c == [] then [] else c[0] + Flatten(c[1..])
  }

  lemma {:induction false} FlattenSnoc(c: seq<seq<Pill>>, last: seq<Pill>)
    ensures Flatten(c + [last]) == Flatten(c) + last
  {
    if c == [] {
      assert c + [last] == [last];
      assert [last][1..] == [];
    } else {
      assert (c + [last])[0] == c[0] && (c + [last])[1..] == c[1..] + [last];
      FlattenSnoc(c[1..], last);
    }
  }

  lemma {:induction false} FlattenAppend(c: seq<seq<Pill>>, d: seq<seq<Pill>>)
    ensures Flatten(c + d) == Flatten(c) + Flatten(d)
  {
    if c == [] {
      assert c + d == d;
    } else {
      assert (c + d)[0] == c[0] && (c + d)[1..] == c[1..] + d;
      FlattenAppend(c[1..], d);
    }
  }

  /** `x` is a pill of one of the lists of `c`. */
  predicate InSome(c: seq<seq<Pill>>, x: Pill)
  {
    exists i, j :: 0 <= i < |c| && 0 <= j < |c[i]| && x == c[i][j]
  }

  /** Every pill of a flattening is a pill of one of its lists. */
  lemma {:induction false} FlattenElements(c: seq<seq<Pill>>)
    ensures forall k :: 0 <= k < |Flatten(c)| ==> InSome(c, Flatten(c)[k])
  {
    if c != [] {
      FlattenElements(c[1..]);
      var f := Flatten(c);
      assert f == c[0] + Flatten(c[1..]);
      forall k | 0 <= k < |f| ensures InSome(c, f[k]) {
        if k < |c[0]| {
          assert f[k] == c[0][k];
        } else {
          assert InSome(c[1..], Flatten(c[1..])[k - |c[0]|]);
          var i, j :| 0 <= i < |c[1..]| && 0 <= j < |c[1..][i]| && Flatten(c[1..])[k - |c[0]|] == c[1..][i][j];
          assert c[1..][i] == c[i + 1];
          assert f[k] == c[i + 1][j];
        }
      }
    }
  }

  /** The total area of a flattening, when each list has the area of the
      matching pill of `s`, is the total area of `s`. */
  lemma {:induction false} FlattenArea(c: seq<seq<Pill>>, s: seq<Pill>)
    requires |c| == |s|
    requires forall i :: 0 <= i < |c| ==> AreaSum(c[i]) == Area(s[i])
    ensures AreaSum(Flatten(c)) == AreaSum(s)
  {
    if c != [] {
      FlattenArea(c[1..], s[1..]);
      AreaSumAppend(c[0], Flatten(c[1..]));
    }
  }

  /** Lists without shared ids, each without a repeated id, flatten to a
      list without a repeated id. */
  lemma {:induction false} FlattenUnique(c: seq<seq<Pill>>)
    requires forall i :: 0 <= i < |c| ==> Unique(c[i])
    requires forall i, j :: 0 <= i < j < |c| ==> Ids(c[i]) !! Ids(c[j])
    ensures Unique(Flatten(c))
  {
    if c != [] {
      FlattenUnique(c[1..]);
      var rest := Flatten(c[1..]);
      FlattenElements(c[1..]);
      forall id | id in Ids(rest) ensures id !in Ids(c[0]) {
        var k :| 0 <= k < |rest| && rest[k].id == id;
        assert InSome(c[1..], rest[k]);
        var i, j :| 0 <= i < |c[1..]| && 0 <= j < |c[1..][i]| && rest[k] == c[1..][i][j];
        assert c[1..][i] == c[i + 1];
        assert id in Ids(c[i + 1]);
        assert Ids(c[0]) !! Ids(c[i + 1]);
      }
      UniqueAppend(c[0], rest);
    }
  }

  /** Lists of one pill each flatten to the list of those pills. */
  lemma {:induction false} FlattenSingletons(c: seq<seq<Pill>>, s: seq<Pill>)
    requires |c| == |s|
    requires forall i :: 0 <= i < |c| ==> c[i] == [s[i]]
    ensures Flatten(c) == s
  {
    if c != [] {
      FlattenSingletons(c[1..], s[1..]);
      assert s == [s[0]] + s[1..];
    }
  }
}
