/** The list operations and pointer handlers of the canvas (src/App.tsx):
    committing a drawn rectangle, bringing a pill to the front, dragging it,
    and the flag that tells a click (which cuts) from a drag (which draws). */
module App {
  import opened Types
  import opened Utils
  import opened Split

  /* ---------- click versus drag ---------- */

  /** How far the pointer may travel from where it went down and still count as a click. */
  const CLICK_MOVE_THRESHOLD: int := 5

  /** An offset (dx, dy) from the press point that makes the gesture a drag. */
  predicate BeyondClick(dx: int, dy: int)
  {
    Abs(dx) > CLICK_MOVE_THRESHOLD || Abs(dy) > CLICK_MOVE_THRESHOLD
  }

  /** The moved flag after one pointer move at offset (dx, dy) from the press point. */
  function MovedAfter(moved: bool, dx: int, dy: int): (r: bool)
    ensures r <==> moved || BeyondClick(dx, dy)
  {
    if !moved && BeyondClick(dx, dy) then true else moved
  }

  /** An offset from the press point. */
  datatype Offset = Offset(dx: int, dy: int)

  /** The moved flag after a run of pointer moves. */
  function MovedOver(moved: bool, moves: seq<Offset>): bool
    decreases |moves|
  {
    if moves == [] then moved else MovedOver(MovedAfter(moved, moves[0].dx, moves[0].dy), moves[1..])
  }

  /** Some move of the run goes beyond the click threshold. */
  predicate SomeBeyond(moves: seq<Offset>)
  {
    exists i :: 0 <= i < |moves| && BeyondClick(moves[i].dx, moves[i].dy)
  }

  /** The flag is set once some move goes beyond the threshold and then stays
      set: after a run of moves it is set exactly when it was set before or
      some move of the run went beyond the threshold. */
  lemma {:induction false} MovedOverIff(moved: bool, moves: seq<Offset>)
    ensures MovedOver(moved, moves) <==> moved || SomeBeyond(moves)
    decreases |moves|
  {
    if moves != [] {
      var m := MovedAfter(moved, moves[0].dx, moves[0].dy);
      MovedOverIff(m, moves[1..]);
      if SomeBeyond(moves[1..]) {
        var i :| 0 <= i < |moves[1..]| && BeyondClick(moves[1..][i].dx, moves[1..][i].dy);
        assert moves[i + 1] == moves[1..][i];
      }
      if SomeBeyond(moves) && !BeyondClick(moves[0].dx, moves[0].dy) {
        var i :| 0 <= i < |moves| && BeyondClick(moves[i].dx, moves[i].dy);
        assert moves[1..][i - 1] == moves[i];
      }
    }
  }

  /* ---------- committing a drawn rectangle ---------- */

  /** A drawn rectangle is kept only when it is at least MIN_PILL wide and
      high, whichever way it was dragged. */
  predicate LargeEnough(d: Pill)
  {
    Abs(d.w) >= MIN_PILL && Abs(d.h) >= MIN_PILL
  }

  /** The pill a drawn rectangle becomes: its top-left corner is the lesser
      corner of the drag, its size the absolute size of the drag, and every
      corner takes the initial radius. */
  function Normalize(d: Pill, id: nat): (r: Pill)
    ensures r.id == id && r.color == d.color && r.radii == Some(DefaultRadii())
    ensures r.w == Abs(d.w) && r.h == Abs(d.h)
    ensures r.x == Min(d.x, d.x + d.w) && r.y == Min(d.y, d.y + d.h)
  {
    Pill(id,
      if d.w < 0 then d.x + d.w else d.x,
      if d.h < 0 then d.y + d.h else d.y,
      Abs(d.w), Abs(d.h), d.color, Some(DefaultRadii()))
  }

  /** The committed pill covers exactly the cells between the point where the
      drag started and the point where it ended. */
  lemma NormalizeCovers(d: Pill, id: nat, a: int, b: int)
    ensures Contains(Normalize(d, id), a, b) <==>
      Min(d.x, d.x + d.w) <= a < Max(d.x, d.x + d.w) && Min(d.y, d.y + d.h) <= b < Max(d.y, d.y + d.h)
  {
  }

  /** The list after the pointer is released over a drawn rectangle `d`: the
      rectangle is appended, normalised and with id `id`, when it is large
      enough, and the list is left as it is otherwise. */
  function CommitDraw(pills: seq<Pill>, d: Pill, id: nat): (r: seq<Pill>)
    ensures LargeEnough(d) ==> |r| == |pills| + 1 && r[..|pills|] == pills && r[|pills|] == Normalize(d, id)
    ensures !LargeEnough(d) ==> r == pills
  {
    if LargeEnough(d) then pills + [Normalize(d, id)] else pills
  }

  /** Committing with a freshly minted id keeps the list invariant, takes
      the area of the drawn rectangle, and the new pill meets the drawing
      minimum. */
  lemma CommitDrawWellFormed(pills: seq<Pill>, d: Pill, id: nat)
    requires WellFormed(pills) && IssuedBelow(pills, id) && 1 <= id
    ensures WellFormed(CommitDraw(pills, d, id)) && IssuedBelow(CommitDraw(pills, d, id), id + 1)
    ensures AreaSum(CommitDraw(pills, d, id)) == AreaSum(pills) + (if LargeEnough(d) then Abs(d.w) * Abs(d.h) else 0)
    ensures LargeEnough(d) ==> CommitDraw(pills, d, id)[|pills|].w >= MIN_PILL && CommitDraw(pills, d, id)[|pills|].h >= MIN_PILL
  {
    var r := CommitDraw(pills, d, id);
    if LargeEnough(d) {
      var q := Normalize(d, id);
      assert r == pills + [q];
      assert id !in Ids(pills);
      assert Ids([q]) == {id};
      UniqueAppend(pills, [q]);
      AreaSumAppend(pills, [q]);
      assert AreaSum([q]) == Area(q) + AreaSum([]);
    } else {
      forall i | 0 <= i < |r| ensures 1 <= r[i].id < id + 1 {
      }
    }
  }

  /* ---------- bringing a pill to the front ---------- */

  /** The pills of `s` whose id is not `id`, in order. */
  function Without(s: seq<Pill>, id: nat): (r: seq<Pill>)
    ensures forall p :: p in r <==> p in s && p.id != id
  {
    if s == [] then []
    else (if s[0].id == id then [] else [s[0]]) + Without(s[1..], id)
  }

  /** The first pill of `s` with id `id`, if there is one. */
  function Find(s: seq<Pill>, id: nat): (r: Option<Pill>)
    ensures r.Some? ==> r.value in s && r.value.id == id
    ensures r.None? <==> id !in Ids(s)
  {
    if s == [] then None
    else if s[0].id == id then (assert s[0].id in Ids(s); Some(s[0]))
    else
      var t := Find(s[1..], id);
      assert Ids(s) == {s[0].id} + Ids(s[1..]) by {
        assert s == [s[0]] + s[1..];
        IdsAppend([s[0]], s[1..]);
      }
      t
  }

  /** The list after a press on pill `id`: that pill moved to the end, where
      it is drawn on top, and the list unchanged when no pill has that id. */
  function BringToFront(s: seq<Pill>, id: nat): seq<Pill>
  {
    match Find(s, id)
    case Some(found) => Without(s, id) + [found]
    case None => s
  }

  /** The first pill of a list without repeated ids shares its id with no
      later pill, and the later pills repeat no id either. */
  lemma UniqueTail(s: seq<Pill>)
    requires Unique(s) && s != []
    ensures Unique(s[1..]) && s[0].id !in Ids(s[1..])
  {
    forall i, j | 0 <= i < j < |s[1..]| ensures s[1..][i].id != s[1..][j].id {
      assert s[1..][i] == s[i + 1] && s[1..][j] == s[j + 1];
    }
    forall i | 0 <= i < |s[1..]| ensures s[1..][i].id != s[0].id {
      assert s[1..][i] == s[i + 1];
    }
  }

  /** Removing one id from a list without repeated ids removes exactly the
      pill that has it. */
  lemma {:induction false} WithoutFound(s: seq<Pill>, id: nat)
    requires Unique(s) && id in Ids(s)
    ensures multiset(Without(s, id)) + multiset{Find(s, id).value} == multiset(s)
  {
    assert s == [s[0]] + s[1..];
    UniqueTail(s);
    if s[0].id == id {
      forall i | 0 <= i < |s[1..]| ensures s[1..][i].id != id {
        assert s[1..][i].id in Ids(s[1..]);
      }
      WithoutNone(s[1..], id);
    } else {
      IdsAppend([s[0]], s[1..]);
      assert Ids([s[0]]) == {s[0].id};
      WithoutFound(s[1..], id);
    }
  }

  /** Removing an id keeps a list free of repeated ids. */
  lemma {:induction false} WithoutUnique(s: seq<Pill>, id: nat)
    requires Unique(s)
    ensures Unique(Without(s, id))
  {
    if s != [] {
      UniqueTail(s);
      WithoutUnique(s[1..], id);
      var rest := Without(s[1..], id);
      if s[0].id != id {
        forall k | k in Ids(rest) ensures k !in Ids([s[0]]) {
          var j :| 0 <= j < |rest| && rest[j].id == k;
          assert rest[j] in s[1..];
          var i :| 0 <= i < |s[1..]| && s[1..][i] == rest[j];
          assert k in Ids(s[1..]);
        }
        UniqueAppend([s[0]], rest);
      } else {
        assert Without(s, id) == rest;
      }
    }
  }

  /** Filtering distributes over concatenation, so the pills it keeps stay
      in their order. */
  lemma {:induction false} WithoutAppend(a: seq<Pill>, b: seq<Pill>, id: nat)
    ensures Without(a + b, id) == Without(a, id) + Without(b, id)
  {
    if a == [] {
      assert a + b == b;
    } else {
      assert (a + b)[0] == a[0];
      assert (a + b)[1..] == a[1..] + b;
      WithoutAppend(a[1..], b, id);
    }
  }

  /** Removing an id no pill has changes nothing. */
  lemma {:induction false} WithoutNone(s: seq<Pill>, id: nat)
    requires forall i :: 0 <= i < |s| ==> s[i].id != id
    ensures Without(s, id) == s
  {
    if s != [] {
      forall i | 0 <= i < |s[1..]| ensures s[1..][i].id != id {
        assert s[1..][i] == s[i + 1];
      }
      WithoutNone(s[1..], id);
      assert s == [s[0]] + s[1..];
    }
  }

  /** Bringing a pill of a list without repeated ids to the front keeps the
      same pills, puts that pill last and keeps the others in their order. */
  lemma BringToFrontMoves(s: seq<Pill>, id: nat)
    requires Unique(s) && id in Ids(s)
    ensures multiset(BringToFront(s, id)) == multiset(s)
    ensures |BringToFront(s, id)| == |s| && BringToFront(s, id)[|s| - 1].id == id
    ensures BringToFront(s, id)[..|s| - 1] == Without(s, id)
  {
    WithoutFound(s, id);
    var f := Find(s, id).value;
    assert multiset(Without(s, id) + [f]) == multiset(Without(s, id)) + multiset{f};
    assert |multiset(Without(s, id))| + 1 == |s| by {
      assert |multiset(Without(s, id)) + multiset{f}| == |multiset(s)|;
    }
    assert (Without(s, id) + [f])[..|s| - 1] == Without(s, id);
  }

  /** A press on an id no pill has leaves the list as it is. */
  lemma BringToFrontAbsent(s: seq<Pill>, id: nat)
    requires id !in Ids(s)
    ensures BringToFront(s, id) == s
  {
  }

  /** Bringing a pill to the front keeps the list invariant. */
  lemma BringToFrontWellFormed(s: seq<Pill>, id: nat, next: nat)
    requires WellFormed(s) && IssuedBelow(s, next)
    ensures WellFormed(BringToFront(s, id)) && IssuedBelow(BringToFront(s, id), next)
  {
    var r := BringToFront(s, id);
    if id in Ids(s) {
      WithoutUnique(s, id);
      var w := Without(s, id);
      var f := Find(s, id).value;
      assert [f][0] == f;
      forall k | k in Ids(w) ensures k !in Ids([f]) {
        var j :| 0 <= j < |w| && w[j].id == k;
        assert w[j] in w;
      }
      assert Ids([f]) == {f.id};
      UniqueAppend(w, [f]);
      forall i | 0 <= i < |r|
        ensures r[i].w >= MIN_PART && r[i].h >= MIN_PART && RadiiNonNegative(r[i].radii)
        ensures 1 <= r[i].id < next
      {
        assert r[i] in s by {
          if i < |w| { assert r[i] == w[i] && w[i] in w; }
        }
      }
    }
  }

  /* ---------- dragging ---------- */

  /** Where pill `p` lands when the pointer, grabbed at `d`'s offset, is at
      (clientX, clientY): never left of or above the canvas origin. */
  function Dragged(p: Pill, d: DraggingState, clientX: int, clientY: int): (r: Pill)
    ensures r == p.(x := r.x, y := r.y)
    ensures r.x >= 0 && r.y >= 0
    ensures clientX - d.offsetX >= 0 ==> r.x == clientX - d.offsetX
    ensures clientX - d.offsetX < 0 ==> r.x == 0
    ensures clientY - d.offsetY >= 0 ==> r.y == clientY - d.offsetY
    ensures clientY - d.offsetY < 0 ==> r.y == 0
  {
    p.(x := Max(0, clientX - d.offsetX), y := Max(0, clientY - d.offsetY))
  }

  /** The list after a pointer move while `d` is being dragged. */
  function DragTo(s: seq<Pill>, d: DraggingState, clientX: int, clientY: int): (r: seq<Pill>)
    ensures |r| == |s| && forall i :: 0 <= i < |s| ==> r[i].id == s[i].id && r[i].w == s[i].w && r[i].h == s[i].h
  {
    seq(|s|, i requires 0 <= i < |s| => if s[i].id == d.id then Dragged(s[i], d, clientX, clientY) else s[i])
  }

  /** A drag moves the pill with the dragged id and nothing else: in a list
      without repeated ids, that pill alone changes, and only in x and y. */
  lemma DragToMovesOne(s: seq<Pill>, d: DraggingState, clientX: int, clientY: int, k: nat)
    requires Unique(s) && k < |s| && s[k].id == d.id
    ensures DragTo(s, d, clientX, clientY) == s[k := Dragged(s[k], d, clientX, clientY)]
  {
  }

  /** A drag of an id no pill has changes nothing. */
  lemma DragToAbsent(s: seq<Pill>, d: DraggingState, clientX: int, clientY: int)
    requires d.id !in Ids(s)
    ensures DragTo(s, d, clientX, clientY) == s
  {
    forall i | 0 <= i < |s| ensures s[i].id != d.id {
      assert s[i].id in Ids(s);
    }
  }

  /** A drag keeps the list invariant and the total area. */
  lemma DragToWellFormed(s: seq<Pill>, d: DraggingState, clientX: int, clientY: int, next: nat)
    requires WellFormed(s) && IssuedBelow(s, next)
    ensures WellFormed(DragTo(s, d, clientX, clientY)) && IssuedBelow(DragTo(s, d, clientX, clientY), next)
    ensures AreaSum(DragTo(s, d, clientX, clientY)) == AreaSum(s)
  {
    DragToArea(s, d, clientX, clientY);
  }

  lemma {:induction false} DragToArea(s: seq<Pill>, d: DraggingState, clientX: int, clientY: int)
    ensures AreaSum(DragTo(s, d, clientX, clientY)) == AreaSum(s)
  {
    if s != [] {
      DragToArea(s[1..], d, clientX, clientY);
      assert DragTo(s, d, clientX, clientY)[1..] == DragTo(s[1..], d, clientX, clientY);
    }
  }

  /* ---------- the canvas ---------- */

  /** The interaction state of the canvas. `preview` is the rectangle being
      drawn: it is present from a press on the empty canvas to the release,
      and its corner (x, y) is where the press happened. */
  class Canvas {
    var pills: seq<Pill>
    var preview: Option<Pill>
    var dragging: Option<DraggingState>
    var moved: bool
    const ids: Uid

    /** The committed list keeps its invariant and every id in it was minted. */
    ghost predicate Valid()
      reads this, ids
    {
      ids.Valid() && WellFormed(pills) && IssuedBelow(pills, ids.next)
    }

    constructor (ids: Uid)
      requires ids.Valid()
      ensures Valid()
      ensures pills == [] && preview == None && dragging == None && !moved && this.ids == ids
      ensures ids.next == old(ids.next)
    {
      pills := [];
      preview := None;
      dragging := None;
      moved := false;
      this.ids := ids;
    }

    /** A press on the empty canvas at (x, y) starts a rectangle of size 0,
        with an id of its own, and clears the moved flag. */
    method PressCanvas(x: int, y: int, color: Color)
      requires Valid()
      modifies this, ids
      ensures Valid()
      ensures preview == Some(Pill(old(ids.next), x, y, 0, 0, color, None))
      ensures !moved && pills == old(pills) && dragging == old(dragging)
      ensures ids.next == old(ids.next) + 1
    {
      var id := ids.Mint();
      preview := Some(Pill(id, x, y, 0, 0, color, None));
      moved := false;
    }

    /** A pointer move to (x, y) while drawing: the moved flag is set once
        the pointer has gone beyond the click threshold, and from then on the
        rectangle stretches from the press point to the pointer. */
    method MoveCanvas(x: int, y: int)
      requires Valid()
      modifies this
      ensures Valid()
      ensures old(preview).None? ==> preview == old(preview) && moved == old(moved)
      ensures old(preview).Some? ==>
        var dx, dy := x - old(preview).value.x, y - old(preview).value.y;
        moved == MovedAfter(old(moved), dx, dy) &&
        preview == if moved then Some(old(preview).value.(w := dx, h := dy)) else old(preview)
      ensures pills == old(pills) && dragging == old(dragging)
    {
      if preview.None? {
        return;
      }
      var start := preview.value;
      var dx := x - start.x;
      var dy := y - start.y;
      if !moved && BeyondClick(dx, dy) {
        moved := true;
      }
      if moved {
        preview := Some(start.(w := dx, h := dy));
      }
    }

    /** A release on the canvas at (x, y): a click cuts every pill at (x, y);
        a drag commits the drawn rectangle when it is large enough, minting
        its id. Either way drawing ends and the moved flag is cleared. */
    method ReleaseCanvas(x: int, y: int)
      requires Valid()
      modifies this, ids
      ensures Valid()
      ensures !old(moved) ==>
        pills == SplitAll(old(pills), x, y, old(ids.next)) &&
        ids.next == old(ids.next) + TotalIds(old(pills), x, y)
      ensures old(moved) && old(preview).Some? && LargeEnough(old(preview).value) ==>
        pills == CommitDraw(old(pills), old(preview).value, old(ids.next)) && ids.next == old(ids.next) + 1
      ensures old(moved) && (old(preview).None? || !LargeEnough(old(preview).value)) ==>
        pills == old(pills) && ids.next == old(ids.next)
      ensures preview == None && !moved && dragging == old(dragging)
    {
      if !moved {
        SplitAllWellFormed(pills, x, y, ids.next);
        pills := PerformSplit(pills, x, y, ids);
      } else if preview.Some? {
        var d := preview.value;
        if Abs(d.w) >= MIN_PILL && Abs(d.h) >= MIN_PILL {
          var id := ids.Mint();
          CommitDrawWellFormed(pills, d, id);
          pills := pills + [Normalize(d, id)];
        }
      }
      preview := None;
      moved := false;
    }

    /** A press on pill `part` with the pointer at (clientX, clientY): the
        pill is grabbed at the pointer's offset from its corner and brought
        to the front, and the moved flag is cleared. */
    method PressPill(part: Pill, clientX: int, clientY: int)
      requires Valid()
      modifies this
      ensures Valid()
      ensures dragging == Some(DraggingState(part.id, clientX - part.x, clientY - part.y))
      ensures pills == BringToFront(old(pills), part.id)
      ensures !moved && preview == old(preview)
    {
      dragging := Some(DraggingState(part.id, clientX - part.x, clientY - part.y));
      BringToFrontWellFormed(pills, part.id, ids.next);
      var found := Find(pills, part.id);
      if found.Some? {
        pills := Without(pills, part.id) + [found.value];
      }
      moved := false;
    }

    /** A pointer move anywhere while a pill is grabbed: the pill follows the
        pointer, and the gesture no longer counts as a click. */
    method MoveWindow(clientX: int, clientY: int)
      requires Valid()
      modifies this
      ensures Valid()
      ensures old(dragging).None? ==> pills == old(pills) && moved == old(moved)
      ensures old(dragging).Some? ==> moved && pills == DragTo(old(pills), old(dragging).value, clientX, clientY)
      ensures dragging == old(dragging) && preview == old(preview)
    {
      if dragging.None? {
        return;
      }
      moved := true;
      var d := dragging.value;
      DragToWellFormed(pills, d, clientX, clientY, ids.next);
      pills := DragTo(pills, d, clientX, clientY);
    }

    /** A release anywhere ends a drag. */
    method ReleaseWindow()
      requires Valid()
      modifies this
      ensures Valid()
      ensures dragging == None && pills == old(pills) && preview == old(preview) && moved == old(moved)
    {
      if dragging.Some? {
        dragging := None;
      }
    }
  }
}
