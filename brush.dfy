/** The two brushes: the left button fills a window around the pointer with
    Sand; the right button lays Brick along the smoothing walk.  Both only
    ever fill empty slots. */
module Brush {
  import opened Particles
  import opened Grid
  import opened Path

  /** Apply the fill rule to the listed cells, in order.  A cell off the
      grid is passed over (the brushes only list cells on it). */
  function PaintCells(g: World, cs: seq<Cell>, v: Variant): (r: World)
    ensures SameShape(g, r)
    decreases |cs|
  {
    if cs == [] then g
    else
      var g' := PaintCells(g, cs[..|cs| - 1], v);
      var c := cs[|cs| - 1];
      if InGrid(g', c) then SetCell(g', c, Fill(At(g', c), v)) else g'
  }

  /** One brush write as the source performs it (test the slot, then set
      variant and active) extends the fill by that cell. */
  lemma PaintStep(g: World, cs: seq<Cell>, c: Cell, v: Variant, painted: World)
    requires InGrid(g, c)
    requires painted == PaintCells(g, cs, v)
    ensures InGrid(painted, c)
    ensures PaintCells(g, cs + [c], v)
            == if painted[c.x][c.y].active then painted else SetCell(painted, c, painted[c.x][c.y].(variant := v, active := true))
  {
    assert (cs + [c])[..|cs|] == cs;
    if painted[c.x][c.y].active {
      assert painted[c.x][c.y := painted[c.x][c.y]] == painted[c.x];
      assert painted[c.x := painted[c.x]] == painted;
    }
  }

  /** What a fill leaves in each slot: a listed cell holds the fill of its
      old record, every other slot is untouched. */
  lemma {:induction false} PaintCellsAt(g: World, cs: seq<Cell>, v: Variant, x: int, y: int)
    requires 0 <= x < |g| && 0 <= y < |g[x]|
    ensures PaintCells(g, cs, v)[x][y] == if Cell(x, y) in cs then Fill(g[x][y], v) else g[x][y]
    decreases |cs|
  {
    if cs != [] {
      var init := cs[..|cs| - 1];
      PaintCellsAt(g, init, v, x, y);
      assert cs == init + [cs[|cs| - 1]];
    }
  }

  /** Painting changes no id, ... */
  lemma {:induction false} PaintCellsKeepsIds(g: World, cs: seq<Cell>, v: Variant)
    ensures Ids(PaintCells(g, cs, v)) == Ids(g)
    decreases |cs|
  {
    if cs != [] {
      var g' := PaintCells(g, cs[..|cs| - 1], v);
      var c := cs[|cs| - 1];
      PaintCellsKeepsIds(g, cs[..|cs| - 1], v);
      if InGrid(g', c) {
        var p := Fill(At(g', c), v);
        GatherUpdate(g', c, p, IdOf);
        assert IdOf(p) == IdOf(At(g', c));
        MultisetCancel(Ids(SetCell(g', c, p)), Ids(g'), IdOf(p));
      }
    }
  }

  /** ... and removes no occupied record. */
  lemma {:induction false} PaintCellsKeepsActive(g: World, cs: seq<Cell>, v: Variant)
    ensures Active(g) <= Active(PaintCells(g, cs, v))
    decreases |cs|
  {
    if cs != [] {
      var g' := PaintCells(g, cs[..|cs| - 1], v);
      var c := cs[|cs| - 1];
      PaintCellsKeepsActive(g, cs[..|cs| - 1], v);
      if InGrid(g', c) {
        var p := Fill(At(g', c), v);
        GatherUpdate(g', c, p, ActiveOf);
        if At(g', c).active {
          assert ActiveOf(p) == ActiveOf(At(g', c));
          MultisetCancel(Active(SetCell(g', c, p)), Active(g'), ActiveOf(p));
        } else {
          var r := SetCell(g', c, p);
          assert ActiveOf(At(g', c)) == multiset{};
          assert Active(r) == Active(g') + ActiveOf(p);
          assert Active(g') <= Active(r);
        }
      }
    }
  }

  // ---------------------------------------------------------------------
  // Area paint (left button), lines 64-84.

  /** The bounds check of line 74: strictly inside the screen, so column 0
      and row 0 are never painted. */
  predicate OnScreen(c: Cell, w: int, h: int): (b: bool)
    ensures b ==> c.x != 0 && c.y != 0
  {
    c.x > 0 && c.x < w && c.y > 0 && c.y < h
  }

  /** The cells of row y for x = lo .. hi-1 that pass the bounds check. */
  function RowCells(y: int, lo: int, hi: int, w: int, h: int): seq<Cell>
    decreases hi - lo
  {
    if hi <= lo then []
    else RowCells(y, lo, hi - 1, w, h) + (if OnScreen(Cell(hi - 1, y), w, h) then [Cell(hi - 1, y)] else [])
  }

  /** Rows ylo .. yhi-1, top to bottom, each scanned left to right. */
  function Rows(ylo: int, yhi: int, lo: int, hi: int, w: int, h: int): seq<Cell>
    decreases yhi - ylo
  {
    if yhi <= ylo then []
    else Rows(ylo, yhi - 1, lo, hi, w, h) + RowCells(yhi - 1, lo, hi, w, h)
  }

  /** The window of lines 70-71: x in [mx - r, mx + r), y in [my, my + r). */
  function AreaCells(mx: int, my: int, r: int, w: int, h: int): (cs: seq<Cell>)
    ensures forall c :: c in cs <==> InArea(c, mx, my, r, w, h)
  {
    RowsWindow(my, my + r, mx - r, mx + r, w, h);
    Rows(my, my + r, mx - r, mx + r, w, h)
  }

  lemma RowsWindow(ylo: int, yhi: int, lo: int, hi: int, w: int, h: int)
    ensures forall c :: c in Rows(ylo, yhi, lo, hi, w, h) <==> ylo <= c.y < yhi && lo <= c.x < hi && OnScreen(c, w, h)
  {
    forall c ensures c in Rows(ylo, yhi, lo, hi, w, h) <==> ylo <= c.y < yhi && lo <= c.x < hi && OnScreen(c, w, h) {
      RowsExactly(ylo, yhi, lo, hi, w, h, c);
    }
  }

  predicate InArea(c: Cell, mx: int, my: int, r: int, w: int, h: int) {
    my <= c.y < my + r && mx - r <= c.x < mx + r && OnScreen(c, w, h)
  }

  lemma {:induction false} RowCellsExactly(y: int, lo: int, hi: int, w: int, h: int, c: Cell)
    ensures c in RowCells(y, lo, hi, w, h) <==> c.y == y && lo <= c.x < hi && OnScreen(c, w, h)
    decreases hi - lo
  {
    if hi > lo {
      RowCellsExactly(y, lo, hi - 1, w, h, c);
    }
  }

  lemma {:induction false} RowsExactly(ylo: int, yhi: int, lo: int, hi: int, w: int, h: int, c: Cell)
    ensures c in Rows(ylo, yhi, lo, hi, w, h) <==> ylo <= c.y < yhi && lo <= c.x < hi && OnScreen(c, w, h)
    decreases yhi - ylo
  {
    if yhi > ylo {
      RowsExactly(ylo, yhi - 1, lo, hi, w, h, c);
      RowCellsExactly(yhi - 1, lo, hi, w, h, c);
    }
  }

  /** The area brush visits exactly the on-screen cells of its window. */
  lemma AreaCellsExactly(mx: int, my: int, r: int, w: int, h: int, c: Cell)
    ensures c in AreaCells(mx, my, r, w, h) <==> InArea(c, mx, my, r, w, h)
  {
    RowsExactly(my, my + r, mx - r, mx + r, w, h, c);
  }

  /** Under the shape the sandbox keeps, the bounds check of line 74 is
      enough for the area brush to index the grid legally. */
  lemma AreaCellsInGrid(g: World, mx: int, my: int, r: int, w: int, h: int)
    requires Fits(g, w, h)
    ensures forall c :: c in AreaCells(mx, my, r, w, h) ==> InGrid(g, c)
  {
    forall c | c in AreaCells(mx, my, r, w, h) ensures InGrid(g, c) {
      AreaCellsExactly(mx, my, r, w, h, c);
    }
  }

  /** Lines 70-83: scan the window row by row and fill each empty on-screen
      slot with Sand.  Only on-screen cells of the window can change, an
      occupied slot is never overwritten, and a changed slot becomes active
      Sand with its id unchanged. */
  method PaintArea(world: World, mx: int, my: int, radius: int, w: int, h: int) returns (painted: World)
    requires Fits(world, w, h)
    ensures painted == PaintCells(world, AreaCells(mx, my, radius, w, h), Sand)
    ensures SameShape(world, painted)
    ensures forall x, y :: 0 <= x < |world| && 0 <= y < |world[x]| ==>
              painted[x][y] == if InArea(Cell(x, y), mx, my, radius, w, h) then Fill(world[x][y], Sand) else world[x][y]
    ensures Ids(painted) == Ids(world) && Active(world) <= Active(painted)
  {
    var lo, hi := mx - radius, mx + radius;
    painted := world;
    var y := my;
    while y < my + radius
      invariant my <= y && (y <= my + radius || y == my)
      invariant painted == PaintCells(world, Rows(my, y, lo, hi, w, h), Sand)
    {
      ghost var done := Rows(my, y, lo, hi, w, h);
      painted := PaintRow(painted, y, lo, hi, w, h);
      PaintCellsConcat(world, done, RowCells(y, lo, hi, w, h), Sand);
      y := y + 1;
    }
    assert Rows(my, y, lo, hi, w, h) == AreaCells(mx, my, radius, w, h) by {
      if radius <= 0 {
        assert y == my;
      }
    }
    AreaPaintEffect(world, mx, my, radius, w, h);
  }

  /** The inner loop of lines 71-82: one row of the window, left to right. */
  method PaintRow(row0: World, y: int, lo: int, hi: int, w: int, h: int) returns (painted: World)
    requires Fits(row0, w, h)
    ensures painted == PaintCells(row0, RowCells(y, lo, hi, w, h), Sand)
  {
    painted := row0;
    var x := lo;
    while x < hi
      invariant lo <= x && (x <= hi || x == lo)
      invariant painted == PaintCells(row0, RowCells(y, lo, x, w, h), Sand)
    {
      RowStep(row0, painted, y, lo, x, w, h);
      if x > 0 && x < w && y > 0 && y < h {
        if !painted[x][y].active {
          painted := SetCell(painted, Cell(x, y), painted[x][y].(variant := Sand, active := true));
        }
      }
      x := x + 1;
    }
    if hi <= lo {
      assert RowCells(y, lo, hi, w, h) == [] == RowCells(y, lo, lo, w, h);
    }
  }

  /** One iteration of the row scan extends the fill by the next cell when
      it passes the bounds check, and changes nothing otherwise. */
  lemma RowStep(row0: World, painted: World, y: int, lo: int, x: int, w: int, h: int)
    requires Fits(row0, w, h) && lo <= x
    requires painted == PaintCells(row0, RowCells(y, lo, x, w, h), Sand)
    ensures OnScreen(Cell(x, y), w, h) ==>
              InGrid(painted, Cell(x, y)) &&
              PaintCells(row0, RowCells(y, lo, x + 1, w, h), Sand)
              == if painted[x][y].active then painted else SetCell(painted, Cell(x, y), painted[x][y].(variant := Sand, active := true))
    ensures !OnScreen(Cell(x, y), w, h) ==> PaintCells(row0, RowCells(y, lo, x + 1, w, h), Sand) == painted
  {
    var before := RowCells(y, lo, x, w, h);
    if OnScreen(Cell(x, y), w, h) {
      assert before + [Cell(x, y)] == RowCells(y, lo, x + 1, w, h);
      PaintStep(row0, before, Cell(x, y), Sand, painted);
    } else {
      assert RowCells(y, lo, x + 1, w, h) == before;
    }
  }

  /** Filling a + b is filling a, then b. */
  lemma {:induction false} PaintCellsConcat(g: World, a: seq<Cell>, b: seq<Cell>, v: Variant)
    ensures PaintCells(g, a + b, v) == PaintCells(PaintCells(g, a, v), b, v)
    decreases |b|
  {
    if b == [] {
      assert a + b == a;
    } else {
      var n := |b| - 1;
      assert (a + b)[..|a| + n] == a + b[..n];
      PaintCellsConcat(g, a, b[..n], v);
    }
  }

  /** What the area fill does to each slot, and what it conserves. */
  lemma AreaPaintEffect(world: World, mx: int, my: int, radius: int, w: int, h: int)
    ensures var painted := PaintCells(world, AreaCells(mx, my, radius, w, h), Sand);
            (forall x, y :: 0 <= x < |world| && 0 <= y < |world[x]| ==>
               painted[x][y] == if InArea(Cell(x, y), mx, my, radius, w, h) then Fill(world[x][y], Sand) else world[x][y]) &&
            Ids(painted) == Ids(world) && Active(world) <= Active(painted)
  {
    var cells := AreaCells(mx, my, radius, w, h);
    forall x, y | 0 <= x < |world| && 0 <= y < |world[x]|
      ensures PaintCells(world, cells, Sand)[x][y] == if InArea(Cell(x, y), mx, my, radius, w, h) then Fill(world[x][y], Sand) else world[x][y]
    {
      PaintCellsAt(world, cells, Sand, x, y);
      AreaCellsExactly(mx, my, radius, w, h, Cell(x, y));
    }
    PaintCellsKeepsIds(world, cells, Sand);
    PaintCellsKeepsActive(world, cells, Sand);
  }

  // ---------------------------------------------------------------------
  // Drag smoothing (right button), lines 87-121.

  /** Lines 97-108: step (lastX, lastY) toward the pointer one unit per axis
      per iteration, filling each reached slot with Brick.  The loop ends on
      the pointer after exactly Distance iterations; the start slot is not
      painted.  Line 103 indexes without a bounds check, so every visited
      cell must be on the grid. */
  method DragWalk(world: World, fromX: int, fromY: int, mx: int, my: int)
      returns (painted: World, lastX: int, lastY: int, ghost iterations: nat)
    requires forall c :: c in Walk(Cell(fromX, fromY), Cell(mx, my)) ==> InGrid(world, c)
    ensures lastX == mx && lastY == my
    ensures iterations == Distance(Cell(fromX, fromY), Cell(mx, my))
    ensures painted == PaintCells(world, Walk(Cell(fromX, fromY), Cell(mx, my)), Brick)
    ensures SameShape(world, painted)
    ensures forall x, y :: 0 <= x < |world| && 0 <= y < |world[x]| ==>
              painted[x][y] == if Cell(x, y) in Walk(Cell(fromX, fromY), Cell(mx, my)) then Fill(world[x][y], Brick) else world[x][y]
    ensures Ids(painted) == Ids(world) && Active(world) <= Active(painted)
  {
    ghost var target := Cell(mx, my);
    ghost var path := Walk(Cell(fromX, fromY), target);
    ghost var done: seq<Cell> := [];
    painted, lastX, lastY := world, fromX, fromY;
    iterations := 0;
    while lastX != mx || lastY != my
      invariant path == done + Walk(Cell(lastX, lastY), target)
      invariant painted == PaintCells(world, done, Brick)
      invariant iterations == |done|
      decreases Distance(Cell(lastX, lastY), target)
    {
      ghost var prev := Cell(lastX, lastY);
      WalkStep(world, painted, done, prev, target, path);
      lastX, lastY := Approach(lastX, lastY, mx, my);
      if !painted[lastX][lastY].active {
        painted := SetCell(painted, Cell(lastX, lastY), painted[lastX][lastY].(variant := Brick, active := true));
      }
      done := done + [Cell(lastX, lastY)];
      iterations := iterations + 1;
    }
    assert done == path;
    WalkPaintEffect(world, Cell(fromX, fromY), target);
  }

  /** Lines 98-101: each coordinate moves one unit toward the pointer, x
      first, then y; a coordinate that already matches holds. */
  method Approach(lastX: int, lastY: int, mx: int, my: int) returns (x: int, y: int)
    ensures Cell(x, y) == NextStep(Cell(lastX, lastY), Cell(mx, my))
  {
    x, y := lastX, lastY;
    if mx > x { x := x + 1; }
    if mx < x { x := x - 1; }
    if my > y { y := y + 1; }
    if my < y { y := y - 1; }
  }

  /** One iteration of the drag loop: the next cell of the walk is on the
      grid, is one step closer to the target, and filling it extends the
      fill of the walk so far. */
  lemma WalkStep(world: World, painted: World, done: seq<Cell>, prev: Cell, target: Cell, path: seq<Cell>)
    requires prev != target
    requires path == done + Walk(prev, target)
    requires forall c :: c in path ==> InGrid(world, c)
    requires painted == PaintCells(world, done, Brick)
    ensures var here := NextStep(prev, target);
            path == (done + [here]) + Walk(here, target) &&
            Distance(here, target) < Distance(prev, target) &&
            InGrid(painted, here) &&
            PaintCells(world, done + [here], Brick)
            == if painted[here.x][here.y].active then painted else SetCell(painted, here, painted[here.x][here.y].(variant := Brick, active := true))
  {
    var here := NextStep(prev, target);
    NextStepCloser(prev, target);
    assert Walk(prev, target) == [here] + Walk(here, target);
    assert path == (done + [here]) + Walk(here, target);
    assert here in path;
    PaintStep(world, done, here, Brick, painted);
  }

  /** What the walk fill does to each slot, and what it conserves. */
  lemma WalkPaintEffect(world: World, a: Cell, b: Cell)
    ensures var painted := PaintCells(world, Walk(a, b), Brick);
            (forall x, y :: 0 <= x < |world| && 0 <= y < |world[x]| ==>
               painted[x][y] == if Cell(x, y) in Walk(a, b) then Fill(world[x][y], Brick) else world[x][y]) &&
            Ids(painted) == Ids(world) && Active(world) <= Active(painted)
  {
    var path := Walk(a, b);
    forall x, y | 0 <= x < |world| && 0 <= y < |world[x]|
      ensures PaintCells(world, path, Brick)[x][y] == if Cell(x, y) in path then Fill(world[x][y], Brick) else world[x][y]
    {
      PaintCellsAt(world, path, Brick, x, y);
    }
    PaintCellsKeepsIds(world, path, Brick);
    PaintCellsKeepsActive(world, path, Brick);
  }

  /** Lines 87-116, one frame with the right button held.  Armed: walk to
      the pointer and paint.  Not armed (the first held frame): write
      nothing, remember the pointer as the anchor and arm.  Either way the
      remembered cell ends on the pointer and the machine is armed. */
  method RightButtonHeld(world: World, drawing: bool, fromX: int, fromY: int, mx: int, my: int)
      returns (painted: World, armed: bool, lastX: int, lastY: int)
    requires drawing ==> forall c :: c in Walk(Cell(fromX, fromY), Cell(mx, my)) ==> InGrid(world, c)
    ensures armed && lastX == mx && lastY == my
    ensures !drawing ==> painted == world
    ensures drawing ==> painted == PaintCells(world, Walk(Cell(fromX, fromY), Cell(mx, my)), Brick)
    ensures SameShape(world, painted) && Ids(painted) == Ids(world) && Active(world) <= Active(painted)
  {
    if drawing {
      ghost var steps;
      painted, lastX, lastY, steps := DragWalk(world, fromX, fromY, mx, my);
      armed := drawing;
    } else {
      painted := world;
      lastX := mx;
      lastY := my;
      armed := true;
    }
  }
}
