/** The per-frame simulation pass: every occupied slot is visited once in
    column-major order; Sand falls one row when the slot below is empty and
    otherwise may slide sideways; a particle already moved this frame is not
    moved again. */
module Simulation {
  import opened Particles
  import opened Grid

  datatype Option<T> = None | Some(value: T)

  /** The lateral draw of line 185: gen_range(-2, 2) excludes its upper end. */
  type Offset = o: int | -2 <= o < 2

  /** The two random draws the source may make for one slot: the coin of
      line 184 (true when gen_range(0, 100) < 50) and the offset of line 185.
      The pass visits each position at most once, so drawing per position is
      the same as drawing from one stream. */
  datatype Roll = Roll(lateral: bool, offset: Offset)

  /** Lines 165-166: there is a slot below in this column and it is empty. */
  predicate BelowFree(g: World, px: int, py: int): (b: bool)
    requires 0 <= px < |g| && 0 <= py
    ensures b ==> InGrid(g, Cell(px, py + 1)) && !At(g, Cell(px, py + 1)).active
  {
    py + 1 < |g[px]| && !g[px][py + 1].active
  }

  /** Lines 163-199: where the particle at (px, py) goes, if anywhere.  Only
      active Sand moves.  It falls when it is above the floor row and the
      slot below is empty; otherwise, resting on something, inside columns
      2 .. w-1 and with the coin up, it slides by the drawn offset into an
      empty slot of columns 2 .. w-1. */
  function Destination(g: World, px: int, py: int, w: int, h: int, roll: Roll): (d: Option<Cell>)
    requires Fits(g, w, h) && 0 <= px < |g| && 0 <= py < h
    ensures d.Some? ==> InGrid(g, d.value) && !At(g, d.value).active
    ensures d.Some? ==> g[px][py].active && g[px][py].variant == Sand
  {
    if !g[px][py].active || g[px][py].variant != Sand then None
    else if py < h - 1 && BelowFree(g, px, py) then Some(Cell(px, py + 1))
    else if !BelowFree(g, px, py) && px > 1 && px <= w - 1 && roll.lateral then
      var xNew := px + roll.offset;
      if xNew > 1 && xNew < w && !g[xNew][py].active then Some(Cell(xNew, py)) else None
    else None
  }

  /** Lines 173-178 and 190-195: the moving record goes to d, active, with
      its id and variant; s keeps its variant, takes d's old id and becomes
      empty.  No other slot changes. */
  function Relocate(g: World, s: Cell, d: Cell): (r: World)
    requires InGrid(g, s) && InGrid(g, d) && s != d
    ensures SameShape(g, r)
    ensures r[d.x][d.y] == At(g, s).(active := true)
    ensures r[s.x][s.y] == At(g, s).(id := At(g, d).id, active := false)
    ensures forall x, y :: 0 <= x < |g| && 0 <= y < |g[x]| && Cell(x, y) != s && Cell(x, y) != d ==> r[x][y] == g[x][y]
  {
    var src := At(g, s);
    var dst := At(g, d);
    var moved := SetCell(g, d, Particle(src.id, src.variant, true));
    SetCell(moved, s, Particle(dst.id, src.variant, false))
  }

  // ---------------------------------------------------------------------
  // Properties of one move.

  /** Gravity first: a Sand particle above an empty slot (and above the floor
      row) always falls, and falling straight down happens only then. */
  lemma GravityPrecedence(g: World, px: int, py: int, w: int, h: int, roll: Roll)
    requires Fits(g, w, h) && 0 <= px < |g| && 0 <= py < h
    ensures Destination(g, px, py, w, h, roll) == Some(Cell(px, py + 1)) <==>
            g[px][py].active && g[px][py].variant == Sand && py < h - 1 && BelowFree(g, px, py)
  {
  }

  /** A sideways move happens exactly when the particle rests on something,
      lies in columns 2 .. w-1, the coin is up, and the slot the offset
      names is empty and in columns 2 .. w-1. */
  lemma LateralMove(g: World, px: int, py: int, w: int, h: int, roll: Roll, x: int)
    requires Fits(g, w, h) && 0 <= px < |g| && 0 <= py < h
    ensures Destination(g, px, py, w, h, roll) == Some(Cell(x, py)) <==>
            g[px][py].active && g[px][py].variant == Sand && !BelowFree(g, px, py) &&
            1 < px <= w - 1 && roll.lateral && x == px + roll.offset &&
            1 < x < w && !g[x][py].active
  {
  }

  /** Every move is one row down or a slide by -2 .. 1 columns in the same
      row; a particle never moves up and never lands on itself. */
  lemma MoveShape(g: World, px: int, py: int, w: int, h: int, roll: Roll)
    requires Fits(g, w, h) && 0 <= px < |g| && 0 <= py < h
    requires Destination(g, px, py, w, h, roll).Some?
    ensures var d := Destination(g, px, py, w, h, roll).value;
            d != Cell(px, py) &&
            (d == Cell(px, py + 1) || (d.y == py && 1 < d.x < w && -2 <= d.x - px < 2))
  {
  }

  /** An offset of 0 names the particle's own, occupied slot, so it never
      moves sideways. */
  lemma NoSidewaysWithoutOffset(g: World, px: int, py: int, w: int, h: int, roll: Roll)
    requires Fits(g, w, h) && 0 <= px < |g| && 0 <= py < h
    requires roll.offset == 0
    ensures Destination(g, px, py, w, h, roll) in {None, Some(Cell(px, py + 1))}
  {
  }

  /** Moving a particle into an empty slot keeps the occupied records, the
      ids and the occupied ids as they were. */
  lemma RelocateConserves(g: World, s: Cell, d: Cell)
    requires InGrid(g, s) && InGrid(g, d) && s != d
    requires At(g, s).active && !At(g, d).active
    ensures Active(Relocate(g, s, d)) == Active(g)
    ensures Ids(Relocate(g, s, d)) == Ids(g)
    ensures ActiveIds(Relocate(g, s, d)) == ActiveIds(g)
  {
    var src, dst := At(g, s), At(g, d);
    var moved := SetCell(g, d, Particle(src.id, src.variant, true));
    var back := Particle(dst.id, src.variant, false);
    var r := SetCell(moved, s, back);
    assert At(moved, s) == src;
    assert Particle(src.id, src.variant, true) == src;
    GatherUpdate(g, d, src, ActiveOf);
    GatherUpdate(moved, s, back, ActiveOf);
    MultisetCancel(Active(r), Active(g), ActiveOf(src));
    GatherUpdate(g, d, src, IdOf);
    GatherUpdate(moved, s, back, IdOf);
    assert Ids(r) + IdOf(src) == Ids(g) + IdOf(src);
    MultisetCancel(Ids(r), Ids(g), IdOf(src));
    GatherUpdate(g, d, src, ActiveIdOf);
    GatherUpdate(moved, s, back, ActiveIdOf);
    MultisetCancel(ActiveIds(r), ActiveIds(g), ActiveIdOf(src));
  }

  // ---------------------------------------------------------------------
  // The pass (lines 142-212).

  /** No id is listed twice. */
  predicate NoDup(ids: seq<int>) {
    forall i, j :: 0 <= i < j < |ids| ==> ids[i] != ids[j]
  }

  /** Slot (x, y) comes before (px, py) in the pass's column-major order. */
  predicate Before(x: int, y: int, px: int, py: int) {
    x < px || (x == px && y < py)
  }

  /** Every Brick of g0 is still in place in g. */
  predicate BricksKept(g0: World, g: World) {
    SameShape(g0, g) &&
    forall x, y :: 0 <= x < |g0| && 0 <= y < |g0[x]| && g0[x][y].active && g0[x][y].variant == Brick ==> g[x][y] == g0[x][y]
  }

  /** Every occupied slot the pass has gone past carries a listed id. */
  predicate Tracked(g: World, ids: seq<int>, px: int, py: int) {
    forall x, y :: 0 <= x < |g| && 0 <= y < |g[x]| && Before(x, y, px, py) && g[x][y].active ==> g[x][y].id in ids
  }

  /** The list holds no id twice, and only ids of occupied slots. */
  predicate Listed(g: World, ids: seq<int>) {
    NoDup(ids) && forall i :: i in ids ==> i in ActiveIds(g)
  }

  /** Lines 153-160, one slot of the pass.  An empty slot, or one whose id
      was already handled this frame, is skipped.  Otherwise its id is
      recorded and the particle advances. */
  method Visit(g: World, ids: seq<int>, px: int, py: int, w: int, h: int, roll: Roll)
      returns (g': World, ids': seq<int>)
    requires Fits(g, w, h) && 0 <= px < |g| && 0 <= py < h
    ensures (g', ids') == VisitNext(g, ids, px, py, w, h, roll)
    ensures g[px][py].active && g[px][py].id !in ids ==>
              g' == if Destination(g, px, py, w, h, roll).Some?
                    then Relocate(g, Cell(px, py), Destination(g, px, py, w, h, roll).value)
                    else g
    ensures ids' == if g[px][py].active && g[px][py].id !in ids then ids + [g[px][py].id] else ids
    ensures !g[px][py].active || g[px][py].id in ids ==> g' == g
    ensures Fits(g', w, h) && BricksKept(g, g')
    ensures Active(g') == Active(g) && Ids(g') == Ids(g) && ActiveIds(g') == ActiveIds(g)
    ensures Listed(g, ids) ==> Listed(g', ids')
    ensures Tracked(g, ids, px, py) ==> Tracked(g', ids', px, py + 1)
    ensures forall x, y :: 0 <= x < |g| && 0 <= y < |g[x]| && g'[x][y] != g[x][y] && g'[x][y].active ==> g'[x][y].id in ids'
    ensures forall x, y :: 0 <= x < |g| && 0 <= y < |g[x]| && g'[x][y] != g[x][y] && g'[x][y].active ==>
              g'[x][y] == g[px][py] && g[px][py].active && g[px][py].id !in ids && Step(px, py, x, y)
  {
    VisitNextKeeps(g, ids, px, py, w, h, roll);
    g', ids' := g, ids;
    if !g[px][py].active || g[px][py].id in ids {
      return;
    }
    ids' := ids + [g[px][py].id];
    g' := Advance(g, px, py, w, h, roll);
  }

  /** What one visit keeps: the shape, every Brick, the occupied records
      and all ids; the list stays duplicate-free and within the occupied
      ids, and covers the slot just passed; a slot that changed and is
      occupied holds the record of (px, py), which was not listed yet and
      has moved one step. */
  lemma VisitNextKeeps(g: World, ids: seq<int>, px: int, py: int, w: int, h: int, roll: Roll)
    requires Fits(g, w, h) && 0 <= px < |g| && 0 <= py < h
    ensures var r := VisitNext(g, ids, px, py, w, h, roll);
            BricksKept(g, r.0) &&
            Active(r.0) == Active(g) && Ids(r.0) == Ids(g) && ActiveIds(r.0) == ActiveIds(g) &&
            (Listed(g, ids) ==> Listed(r.0, r.1)) &&
            (Tracked(g, ids, px, py) ==> Tracked(r.0, r.1, px, py + 1))
    ensures var r := VisitNext(g, ids, px, py, w, h, roll);
            forall x, y :: 0 <= x < |g| && 0 <= y < |g[x]| && r.0[x][y] != g[x][y] && r.0[x][y].active ==> r.0[x][y].id in r.1
    ensures var r := VisitNext(g, ids, px, py, w, h, roll);
            forall x, y :: 0 <= x < |g| && 0 <= y < |g[x]| && r.0[x][y] != g[x][y] && r.0[x][y].active ==>
              r.0[x][y] == g[px][py] && g[px][py].active && g[px][py].id !in ids && Step(px, py, x, y)
  {
    var r := VisitNext(g, ids, px, py, w, h, roll);
    if !g[px][py].active || g[px][py].id in ids {
      SkipTracks(g, ids, px, py);
    } else {
      ListedPush(g, ids, Cell(px, py));
      var d := Destination(g, px, py, w, h, roll);
      if d.Some? {
        RelocateConserves(g, Cell(px, py), d.value);
        MoveKeeps(g, Cell(px, py), d.value, w, h);
        MoveShape(g, px, py, w, h, roll);
      }
      VisitTracks(g, r.0, ids, px, py, w, h);
    }
  }

  /** Lines 153-199 on the state before one slot's visit: a skipped slot
      changes nothing; otherwise the id is listed and the particle moves to
      its destination, if it has one. */
  function VisitNext(g: World, ids: seq<int>, px: int, py: int, w: int, h: int, roll: Roll): (r: (World, seq<int>))
    requires Fits(g, w, h) && 0 <= px < |g| && 0 <= py < h
    ensures Fits(r.0, w, h) && SameShape(g, r.0)
  {
    if !g[px][py].active || g[px][py].id in ids then (g, ids)
    else
      var d := Destination(g, px, py, w, h, roll);
      (if d.Some? then Relocate(g, Cell(px, py), d.value) else g, ids + [g[px][py].id])
  }

  /** Recording a new occupied slot's id keeps the list duplicate-free and
      within the occupied ids. */
  lemma ListedPush(g: World, ids: seq<int>, c: Cell)
    requires InGrid(g, c) && At(g, c).active && At(g, c).id !in ids
    ensures Listed(g, ids) ==> Listed(g, ids + [At(g, c).id])
  {
    GatherHas(g, c, ActiveIdOf);
  }

  /** Lines 163-199: the particle at (px, py) moves to its destination, if
      it has one; otherwise nothing changes. */
  method Advance(g: World, px: int, py: int, w: int, h: int, roll: Roll) returns (g': World)
    requires Fits(g, w, h) && 0 <= px < |g| && 0 <= py < h && g[px][py].active
    ensures g' == if Destination(g, px, py, w, h, roll).Some?
                  then Relocate(g, Cell(px, py), Destination(g, px, py, w, h, roll).value)
                  else g
    ensures Fits(g', w, h) && BricksKept(g, g')
    ensures Active(g') == Active(g) && Ids(g') == Ids(g) && ActiveIds(g') == ActiveIds(g)
    ensures forall x, y :: 0 <= x < |g| && 0 <= y < |g[x]| && g'[x][y] != g[x][y] && g'[x][y].active ==> g'[x][y].id == g[px][py].id
    ensures forall x, y :: 0 <= x < |g| && 0 <= y < |g[x]| && g'[x][y] != g[x][y] && g'[x][y].active ==>
              g'[x][y] == g[px][py] && Step(px, py, x, y)
    ensures g'[px][py] != g[px][py] ==> !g'[px][py].active
  {
    g' := g;
    var d := Destination(g, px, py, w, h, roll);
    if d.Some? {
      RelocateConserves(g, Cell(px, py), d.value);
      MoveKeeps(g, Cell(px, py), d.value, w, h);
      MoveShape(g, px, py, w, h, roll);
      g' := Relocate(g, Cell(px, py), d.value);
    }
  }

  /** A skipped slot is empty or already listed, so going past it keeps
      the coverage. */
  lemma SkipTracks(g: World, ids: seq<int>, px: int, py: int)
    requires 0 <= px < |g| && 0 <= py < |g[px]|
    requires !g[px][py].active || g[px][py].id in ids
    ensures Tracked(g, ids, px, py) ==> Tracked(g, ids, px, py + 1)
  {
    if Tracked(g, ids, px, py) {
      forall x, y | 0 <= x < |g| && 0 <= y < |g[x]| && Before(x, y, px, py + 1) && g[x][y].active
        ensures g[x][y].id in ids
      {
        assert Before(x, y, px, py) || Cell(x, y) == Cell(px, py);
      }
    }
  }

  /** A move from an active Sand slot into an empty one keeps the shape and
      every Brick, and only the destination gains an occupant. */
  lemma MoveKeeps(g: World, s: Cell, d: Cell, w: int, h: int)
    requires Fits(g, w, h) && InGrid(g, s) && InGrid(g, d) && s != d
    requires At(g, s).active && At(g, s).variant == Sand && !At(g, d).active
    ensures Fits(Relocate(g, s, d), w, h) && BricksKept(g, Relocate(g, s, d))
    ensures forall x, y :: 0 <= x < |g| && 0 <= y < |g[x]| && Relocate(g, s, d)[x][y] != g[x][y] && Relocate(g, s, d)[x][y].active ==>
              Relocate(g, s, d)[x][y] == At(g, s) && Cell(x, y) == d
    ensures !Relocate(g, s, d)[s.x][s.y].active
  {
  }

  /** The coverage step of Visit once the slot's id is recorded: every slot
      the move changed is either empty now or holds the recorded id. */
  lemma VisitTracks(g: World, g': World, ids: seq<int>, px: int, py: int, w: int, h: int)
    requires Fits(g, w, h) && 0 <= px < |g| && 0 <= py < h && g[px][py].active
    requires SameShape(g, g')
    requires forall x, y :: 0 <= x < |g| && 0 <= y < |g[x]| && g'[x][y] != g[x][y] && g'[x][y].active ==> g'[x][y].id == g[px][py].id
    requires g'[px][py] != g[px][py] ==> !g'[px][py].active
    ensures Tracked(g, ids, px, py) ==> Tracked(g', ids + [g[px][py].id], px, py + 1)
  {
    if Tracked(g, ids, px, py) {
      var ids' := ids + [g[px][py].id];
      forall x, y | 0 <= x < |g'| && 0 <= y < |g'[x]| && Before(x, y, px, py + 1) && g'[x][y].active
        ensures g'[x][y].id in ids'
      {
        if g'[x][y] == g[x][y] && Before(x, y, px, py) {
          assert g[x][y].id in ids;
        }
      }
    }
  }

  /** Lines 142-212: the whole pass.  It keeps the shape, the occupied
      records (so no material is made or lost), every id, and every Brick
      slot; it lists each id it handles once, and only ids of occupied slots.
      Every occupied slot at the end holds a record at most one move from
      where it started, so no particle moves twice (MovedAtMostOnce).  When
      ids are unique, it handles every particle exactly once. */
  method Simulate(world: World, w: int, h: int, roll: (int, int) -> Roll) returns (next: World, ids: seq<int>)
    requires Fits(world, w, h)
    ensures (next, ids) == Pass(world, w, h, roll)
    ensures Fits(next, w, h) && |next| == |world|
    ensures Active(next) == Active(world) && Ids(next) == Ids(world) && ActiveIds(next) == ActiveIds(world)
    ensures BricksKept(world, next)
    ensures Listed(next, ids)
    ensures forall x, y :: 0 <= x < |next| && 0 <= y < |next[x]| && next[x][y].active ==> next[x][y].id in ids
    ensures UniqueIds(world) ==> multiset(ids) == ActiveIds(next)
    ensures forall x, y :: 0 <= x < |next| && 0 <= y < |next[x]| && next[x][y].active ==> CameFrom(world, x, y, next[x][y])
  {
    next, ids := world, [];
    var px := 0;
    while px < |next|
      invariant 0 <= px <= |next| == |world| && Fits(next, w, h)
      invariant PassFrom(next, ids, px, w, h, roll) == Pass(world, w, h, roll)
    {
      PassFromStep(next, ids, px, w, h, roll);
      next, ids := PassColumn(next, ids, px, w, h, roll);
      px := px + 1;
    }
    PassKeepsAll(world, w, h, roll);
    PassDone(world, next, ids, w, h);
  }

  /** The pass keeps everything PassKeeps names and, at its end, has gone
      past every column. */
  lemma PassKeepsAll(world: World, w: int, h: int, roll: (int, int) -> Roll)
    requires Fits(world, w, h)
    ensures PassKeeps(world, Pass(world, w, h, roll).0, Pass(world, w, h, roll).1, w, h)
    ensures Tracked(Pass(world, w, h, roll).0, Pass(world, w, h, roll).1, |world|, 0)
  {
    assert Origins(world, world, []) by {
      forall x, y | 0 <= x < |world| && 0 <= y < |world[x]| && world[x][y].active
        ensures CameFrom(world, x, y, world[x][y])
      {
        assert RecordAt(world, Cell(x, y), world[x][y]);
      }
    }
    PassFromKeeps(world, world, [], 0, w, h, roll);
  }

  /** At the end of the scan every column has been passed, so every
      occupied slot is listed, and with unique ids each exactly once. */
  lemma PassDone(world: World, next: World, ids: seq<int>, w: int, h: int)
    requires PassKeeps(world, next, ids, w, h) && Tracked(next, ids, |next|, 0)
    ensures forall x, y :: 0 <= x < |next| && 0 <= y < |next[x]| && next[x][y].active ==> next[x][y].id in ids
    ensures UniqueIds(world) ==> multiset(ids) == ActiveIds(next)
    ensures forall x, y :: 0 <= x < |next| && 0 <= y < |next[x]| && next[x][y].active ==> CameFrom(world, x, y, next[x][y])
  {
    assert forall x, y :: 0 <= x < |next| && 0 <= y < |next[x]| ==> Before(x, y, |next|, 0);
    if UniqueIds(world) {
      ExactlyOnce(next, ids);
    }
  }

  /** What the pass keeps from its start world to every point of the scan. */
  predicate PassKeeps(world: World, g: World, ids: seq<int>, w: int, h: int) {
    Fits(g, w, h) && |g| == |world| &&
    Active(g) == Active(world) && Ids(g) == Ids(world) && ActiveIds(g) == ActiveIds(world) &&
    BricksKept(world, g) && Listed(g, ids) && Origins(world, g, ids)
  }

  /** Lines 149-211: the inner loop, over the rows of column px. */
  method PassColumn(g: World, ids: seq<int>, px: int, w: int, h: int, roll: (int, int) -> Roll)
      returns (g': World, ids': seq<int>)
    requires Fits(g, w, h) && 0 <= px < |g|
    ensures (g', ids') == ColumnFrom(g, ids, px, 0, w, h, roll)
  {
    g', ids' := g, ids;
    var py := 0;
    while py < |g'[px]|
      invariant 0 <= py <= h && Fits(g', w, h) && |g'| == |g|
      invariant ColumnFrom(g', ids', px, py, w, h, roll) == ColumnFrom(g, ids, px, 0, w, h, roll)
    {
      ColumnFromStep(g', ids', px, py, w, h, roll);
      g', ids' := Visit(g', ids', px, py, w, h, roll(px, py));
      py := py + 1;
    }
  }

  /** The column scan from row py on keeps the pass's invariant and ends
      past the column. */
  lemma {:induction false} ColumnFromKeeps(world: World, g: World, ids: seq<int>, px: int, py: int, w: int, h: int, roll: (int, int) -> Roll)
    requires 0 <= px < |g| && 0 <= py <= h && PassKeeps(world, g, ids, w, h) && Tracked(g, ids, px, py)
    ensures PassKeeps(world, ColumnFrom(g, ids, px, py, w, h, roll).0, ColumnFrom(g, ids, px, py, w, h, roll).1, w, h)
    ensures Tracked(ColumnFrom(g, ids, px, py, w, h, roll).0, ColumnFrom(g, ids, px, py, w, h, roll).1, px + 1, 0)
    decreases h - py
  {
    assert |g[px]| == h;
    if py == h {
      TrackedColumn(g, ids, px, py);
    } else {
      ColumnFromStep(g, ids, px, py, w, h, roll);
      var n := VisitNext(g, ids, px, py, w, h, roll(px, py));
      VisitNextKeeps(g, ids, px, py, w, h, roll(px, py));
      BricksKeptTrans(world, g, n.0);
      OriginsStep(world, g, n.0, ids, n.1, px, py);
      ColumnFromKeeps(world, n.0, n.1, px, py + 1, w, h, roll);
    }
  }

  /** The pass from column px on keeps the pass's invariant and ends past
      every column. */
  lemma {:induction false} PassFromKeeps(world: World, g: World, ids: seq<int>, px: int, w: int, h: int, roll: (int, int) -> Roll)
    requires 0 <= px <= |g| && PassKeeps(world, g, ids, w, h) && Tracked(g, ids, px, 0)
    ensures PassKeeps(world, PassFrom(g, ids, px, w, h, roll).0, PassFrom(g, ids, px, w, h, roll).1, w, h)
    ensures Tracked(PassFrom(g, ids, px, w, h, roll).0, PassFrom(g, ids, px, w, h, roll).1, |g|, 0)
    decreases |g| - px
  {
    if px < |g| {
      PassFromStep(g, ids, px, w, h, roll);
      var n := ColumnFrom(g, ids, px, 0, w, h, roll);
      ColumnFromKeeps(world, g, ids, px, 0, w, h, roll);
      PassFromKeeps(world, n.0, n.1, px + 1, w, h, roll);
    }
  }

  /** One more row of the column scan is one more visit. */
  lemma ColumnFromStep(g: World, ids: seq<int>, px: int, py: int, w: int, h: int, roll: (int, int) -> Roll)
    requires Fits(g, w, h) && 0 <= px < |g| && 0 <= py < h
    ensures ColumnFrom(g, ids, px, py, w, h, roll) ==
            ColumnFrom(VisitNext(g, ids, px, py, w, h, roll(px, py)).0, VisitNext(g, ids, px, py, w, h, roll(px, py)).1, px, py + 1, w, h, roll)
  {
    assert |g[px]| == h;
  }

  /** One more column of the pass is one more column scan. */
  lemma PassFromStep(g: World, ids: seq<int>, px: int, w: int, h: int, roll: (int, int) -> Roll)
    requires Fits(g, w, h) && 0 <= px < |g|
    ensures |g[px]| == h
    ensures PassFrom(g, ids, px, w, h, roll) ==
            PassFrom(ColumnFrom(g, ids, px, 0, w, h, roll).0, ColumnFrom(g, ids, px, 0, w, h, roll).1, px + 1, w, h, roll)
  {
  }

  /** Lines 149-211 from row py on: the visits of column px's remaining
      rows, top to bottom, each seeing the world the previous one left. */
  function ColumnFrom(g: World, ids: seq<int>, px: int, py: int, w: int, h: int, roll: (int, int) -> Roll): (r: (World, seq<int>))
    requires Fits(g, w, h) && 0 <= px < |g| && 0 <= py <= |g[px]|
    ensures Fits(r.0, w, h) && SameShape(g, r.0)
    decreases h - py
  {
    if py == |g[px]| then (g, ids)
    else
      var n := VisitNext(g, ids, px, py, w, h, roll(px, py));
      ColumnFrom(n.0, n.1, px, py + 1, w, h, roll)
  }

  /** Lines 145-211 from column px on: the remaining columns, left to
      right. */
  function PassFrom(g: World, ids: seq<int>, px: int, w: int, h: int, roll: (int, int) -> Roll): (r: (World, seq<int>))
    requires Fits(g, w, h) && 0 <= px <= |g|
    ensures Fits(r.0, w, h) && SameShape(g, r.0)
    decreases |g| - px
  {
    if px == |g| then (g, ids)
    else
      assert |g[px]| == h;
      var n := ColumnFrom(g, ids, px, 0, w, h, roll);
      PassFrom(n.0, n.1, px + 1, w, h, roll)
  }

  /** Lines 142-212: the world and the list of handled ids after one pass
      that starts with no id listed. */
  function Pass(world: World, w: int, h: int, roll: (int, int) -> Roll): (r: (World, seq<int>))
    requires Fits(world, w, h)
    ensures Fits(r.0, w, h) && SameShape(world, r.0)
  {
    PassFrom(world, [], 0, w, h, roll)
  }

  /** The pass passes over slot (x, y) without doing anything: it is empty
      or its id is already listed. */
  predicate Skipped(g: World, ids: seq<int>, x: int, y: int)
    requires 0 <= x < |g| && 0 <= y < |g[x]|
  {
    !g[x][y].active || g[x][y].id in ids
  }

  /** Rows py .. py2-1 of column px that the scan skips leave its state
      as it was. */
  lemma {:induction false} ColumnSkips(g: World, ids: seq<int>, px: int, py: int, py2: int, w: int, h: int, roll: (int, int) -> Roll)
    requires Fits(g, w, h) && 0 <= px < |g| && 0 <= py <= py2 <= h
    requires forall y :: py <= y < py2 ==> Skipped(g, ids, px, y)
    ensures ColumnFrom(g, ids, px, py, w, h, roll) == ColumnFrom(g, ids, px, py2, w, h, roll)
    decreases py2 - py
  {
    if py < py2 {
      assert py < |g[px]| && Skipped(g, ids, px, py);
      ColumnSkips(g, ids, px, py + 1, py2, w, h, roll);
    }
  }

  /** Columns px .. px2-1 whose slots the scan all skips leave its state
      as it was. */
  lemma {:induction false} PassSkips(g: World, ids: seq<int>, px: int, px2: int, w: int, h: int, roll: (int, int) -> Roll)
    requires Fits(g, w, h) && 0 <= px <= px2 <= |g|
    requires forall x, y :: px <= x < px2 && 0 <= y < h ==> Skipped(g, ids, x, y)
    ensures PassFrom(g, ids, px, w, h, roll) == PassFrom(g, ids, px2, w, h, roll)
    decreases px2 - px
  {
    if px < px2 {
      assert |g[px]| == h;
      ColumnSkips(g, ids, px, 0, h, w, h, roll);
      PassSkips(g, ids, px + 1, px2, w, h, roll);
    }
  }

  /** A lone grain of Sand above an empty slot and above the floor row ends
      the pass exactly one row lower, whatever the coins and offsets, and
      is listed once: the scan meets it again in its new slot and skips it. */
  lemma LoneGrainFalls(world: World, c: Cell, w: int, h: int, roll: (int, int) -> Roll)
    requires Fits(world, w, h) && InGrid(world, c) && c.y < h - 1
    requires world[c.x][c.y].active && world[c.x][c.y].variant == Sand
    requires forall x, y :: 0 <= x < |world| && 0 <= y < |world[x]| && Cell(x, y) != c ==> !world[x][y].active
    ensures Pass(world, w, h, roll) == (Relocate(world, c, Cell(c.x, c.y + 1)), [world[c.x][c.y].id])
  {
    var id := world[c.x][c.y].id;
    var below := Cell(c.x, c.y + 1);
    var g1 := Relocate(world, c, below);
    PassSkips(world, [], 0, c.x, w, h, roll);
    ColumnSkips(world, [], c.x, 0, c.y, w, h, roll);
    assert Destination(world, c.x, c.y, w, h, roll(c.x, c.y)) == Some(below);
    assert [] + [id] == [id];
    assert VisitNext(world, [], c.x, c.y, w, h, roll(c.x, c.y)) == (g1, [id]);
    ColumnSkips(g1, [id], c.x, c.y + 1, h, w, h, roll);
    assert ColumnFrom(world, [], c.x, 0, w, h, roll) == (g1, [id]);
    PassSkips(g1, [id], c.x + 1, |g1|, w, h, roll);
  }

  /** (x, y) is one move from (px, py): one row down, or a slide in the same
      row by -2 .. 1 columns other than 0. */
  predicate Step(px: int, py: int, x: int, y: int) {
    (x == px && y == py + 1) || (y == py && x != px && -2 <= x - px < 2)
  }

  predicate RecordAt(g: World, c: Cell, r: Particle) {
    InGrid(g, c) && At(g, c) == r
  }

  /** Record r can be at (x, y) after at most one move from g0: it was there,
      or it was directly above, or in the same row one column to the left
      or one or two columns to the right. */
  predicate CameFrom(g0: World, x: int, y: int, r: Particle) {
    RecordAt(g0, Cell(x, y), r) || RecordAt(g0, Cell(x, y - 1), r) ||
    RecordAt(g0, Cell(x - 1, y), r) || RecordAt(g0, Cell(x + 1, y), r) || RecordAt(g0, Cell(x + 2, y), r)
  }

  /** The pass's record of where things came from: every occupied slot holds
      a record at most one move from where it was in g0, and one whose id is
      not listed yet has not moved at all. */
  predicate Origins(g0: World, g: World, ids: seq<int>) {
    SameShape(g0, g) &&
    forall x, y :: 0 <= x < |g| && 0 <= y < |g[x]| && g[x][y].active ==>
      CameFrom(g0, x, y, g[x][y]) && (g[x][y].id !in ids ==> g[x][y] == g0[x][y])
  }

  /** A visit keeps the record of origins: only an unlisted particle, which
      is still where it started, moves, and its id is listed as it does. */
  lemma OriginsStep(g0: World, g: World, g': World, ids: seq<int>, ids': seq<int>, px: int, py: int)
    requires Origins(g0, g, ids) && SameShape(g, g') && 0 <= px < |g| && 0 <= py < |g[px]|
    requires ids' == if g[px][py].active && g[px][py].id !in ids then ids + [g[px][py].id] else ids
    requires forall x, y :: 0 <= x < |g| && 0 <= y < |g[x]| && g'[x][y] != g[x][y] && g'[x][y].active ==>
               g'[x][y] == g[px][py] && g[px][py].active && g[px][py].id !in ids && Step(px, py, x, y)
    ensures Origins(g0, g', ids')
  {
    forall x, y | 0 <= x < |g'| && 0 <= y < |g'[x]| && g'[x][y].active
      ensures CameFrom(g0, x, y, g'[x][y]) && (g'[x][y].id !in ids' ==> g'[x][y] == g0[x][y])
    {
      if g'[x][y] != g[x][y] {
        assert g[px][py] == g0[px][py];
        assert RecordAt(g0, Cell(px, py), g'[x][y]);
      }
    }
  }

  /** Read forwards: with unique ids, a particle occupied at the start of
      the pass ends in exactly one place, its own slot or one move from it.
      So no particle moves twice in one pass. */
  lemma MovedAtMostOnce(world: World, next: World, x0: int, y0: int) returns (c: Cell)
    requires UniqueIds(world) && SameShape(world, next) && Active(next) == Active(world)
    requires forall x, y :: 0 <= x < |next| && 0 <= y < |next[x]| && next[x][y].active ==> CameFrom(world, x, y, next[x][y])
    requires 0 <= x0 < |world| && 0 <= y0 < |world[x0]| && world[x0][y0].active
    ensures InGrid(next, c) && At(next, c) == world[x0][y0]
    ensures c == Cell(x0, y0) || Step(x0, y0, c.x, c.y)
  {
    var r := world[x0][y0];
    GatherHas(world, Cell(x0, y0), ActiveOf);
    assert r in ActiveOf(r);
    c := GatherWitness(next, r, ActiveOf);
    var from := Origin(world, c, r);
    if from != Cell(x0, y0) {
      DistinctSlotsDistinctIds(world, from, Cell(x0, y0));
    }
  }

  /** The slot a record came from, and that it is this slot or one move
      away from it. */
  lemma Origin(g0: World, c: Cell, r: Particle) returns (from: Cell)
    requires CameFrom(g0, c.x, c.y, r)
    ensures RecordAt(g0, from, r) && (from == c || Step(from.x, from.y, c.x, c.y))
  {
    if RecordAt(g0, c, r) {
      from := c;
    } else if RecordAt(g0, Cell(c.x, c.y - 1), r) {
      from := Cell(c.x, c.y - 1);
    } else if RecordAt(g0, Cell(c.x - 1, c.y), r) {
      from := Cell(c.x - 1, c.y);
    } else if RecordAt(g0, Cell(c.x + 1, c.y), r) {
      from := Cell(c.x + 1, c.y);
    } else {
      from := Cell(c.x + 2, c.y);
    }
  }

  /** With unique ids, two different slots carry different ids. */
  lemma DistinctSlotsDistinctIds(g: World, c1: Cell, c2: Cell)
    requires UniqueIds(g) && InGrid(g, c1) && InGrid(g, c2) && c1 != c2
    ensures At(g, c1).id != At(g, c2).id
  {
    var i := At(g, c1).id;
    var p := At(g, c1).(id := i + 1);
    var g' := SetCell(g, c1, p);
    GatherUpdate(g, c1, p, IdOf);
    assert At(g', c2) == At(g, c2);
    GatherHas(g', c2, IdOf);
    assert (Ids(g') + IdOf(At(g, c1)))[i] == (Ids(g) + IdOf(p))[i];
  }

  lemma BricksKeptTrans(g0: World, g1: World, g2: World)
    requires BricksKept(g0, g1) && BricksKept(g1, g2)
    ensures BricksKept(g0, g2)
  {
  }

  /** Finishing a column: having gone past all its rows is having gone past
      the column. */
  lemma TrackedColumn(g: World, ids: seq<int>, px: int, py: int)
    requires 0 <= px < |g| && py == |g[px]| && Tracked(g, ids, px, py)
    ensures Tracked(g, ids, px + 1, 0)
  {
  }

  /** With unique ids, a duplicate-free list that holds exactly the occupied
      slots' ids is their multiset. */
  lemma ExactlyOnce(g: World, ids: seq<int>)
    requires UniqueIds(g) && Listed(g, ids)
    requires forall x, y :: 0 <= x < |g| && 0 <= y < |g[x]| && g[x][y].active ==> g[x][y].id in ids
    ensures multiset(ids) == ActiveIds(g)
  {
    ActiveIdsWithinIds(g);
    forall i ensures multiset(ids)[i] == ActiveIds(g)[i] {
      if i in ids {
        NoDupCount(ids, i);
        assert ActiveIds(g)[i] <= Ids(g)[i];
      } else if i in ActiveIds(g) {
        var c := GatherWitness(g, i, ActiveIdOf);
        assert false;
      }
    }
  }

  lemma {:induction false} NoDupCount(ids: seq<int>, i: int)
    requires NoDup(ids) && i in ids
    ensures multiset(ids)[i] == 1
  {
    var n := |ids| - 1;
    assert ids == ids[..n] + [ids[n]];
    if ids[n] == i {
      assert i !in ids[..n];
    } else {
      NoDupCount(ids[..n], i);
    }
  }
}
