/** One frame of the sandbox: the state main keeps across frames, and the
    order in which each frame grows the world, applies the controls and runs
    the simulation pass. */
module Sandbox {
  import opened Particles
  import opened Grid
  import opened Path
  import opened Growth
  import opened Brush
  import opened Simulation

  /** The locals of main that live across frames (lines 25-34). */
  datatype State = State(
    world: World,
    lastId: int,
    paintRadius: int,
    isDrawingSecondary: bool,
    lastX: int,
    lastY: int)

  /** What one frame reads from the window: the buttons and keys, and the
      pointer position already cast to whole pixels. */
  datatype Input = Input(
    leftDown: bool,
    rightDown: bool,
    rightReleased: bool,
    plusPressed: bool,
    minusPressed: bool,
    mouseX: int,
    mouseY: int)

  /** What every frame keeps: the brush is at least one pixel, ids are
      unique and none is above the counter. */
  ghost predicate Valid(s: State): (b: bool)
    ensures b ==> forall x, y :: 0 <= x < |s.world| && 0 <= y < |s.world[x]| ==> s.world[x][y].id <= s.lastId
  {
    SlotIdsAtMost(s.world, s.lastId);
    s.paintRadius >= 1 && UniqueIds(s.world) && IdsAtMost(s.world, s.lastId)
  }

  /** A bound on the ids is a bound on every slot's id. */
  lemma SlotIdsAtMost(g: World, n: int)
    ensures IdsAtMost(g, n) ==> forall x, y :: 0 <= x < |g| && 0 <= y < |g[x]| ==> g[x][y].id <= n
  {
    forall x, y | 0 <= x < |g| && 0 <= y < |g[x]|
      ensures g[x][y].id in Ids(g)
    {
      GatherHas(g, Cell(x, y), IdOf);
    }
  }

  /** Lines 25-34: an empty world, counter 0, radius 1, smoothing off. */
  function Initial(): (s: State)
    ensures Valid(s) && s.world == [] && !s.isDrawingSecondary && s.paintRadius == 1
  {
    State([], 0, 1, false, 0, 0)
  }

  /** Lines 123-131: the plus key widens the brush; the minus key narrows it,
      but never below 1.  The minus test sees the already widened radius, so
      pressing both keeps the radius. */
  method AdjustRadius(radius: int, plus: bool, minus: bool) returns (r: int)
    ensures r == RadiusAfter(radius, plus, minus)
    ensures radius >= 1 ==> r >= 1
    ensures r == radius || r == radius + 1 || (r == radius - 1 && r >= 1)
    ensures plus && !minus ==> r == radius + 1
    ensures !plus && minus ==> r == if radius > 1 then radius - 1 else radius
    ensures plus == minus && radius >= 1 ==> r == radius
  {
    r := radius;
    if plus {
      r := r + 1;
    }
    if minus && r > 1 {
      r := r - 1;
    }
  }

  /** The radius after lines 123-131: widened by the plus key, then
      narrowed by the minus key if it is above 1. */
  function RadiusAfter(radius: int, plus: bool, minus: bool): (r: int)
    ensures radius >= 1 ==> r >= 1
    ensures r == radius || r == radius + 1 || (r == radius - 1 && r >= 1)
    ensures plus && !minus ==> r == radius + 1
    ensures !plus && minus ==> r == if radius > 1 then radius - 1 else radius
    ensures plus == minus && radius >= 1 ==> r == radius
  {
    var widened := if plus then radius + 1 else radius;
    if minus && widened > 1 then widened - 1 else widened
  }

  /** The world after the brushes of lines 63-116: the area of the left
      button filled with Sand, then, with the drag armed and the right
      button held, the walk from the anchor to the pointer filled with
      Brick. */
  function Painted(s: State, input: Input, world: World, w: int, h: int): (r: World)
    ensures SameShape(world, r)
  {
    var area := if input.leftDown then PaintCells(world, AreaCells(input.mouseX, input.mouseY, s.paintRadius, w, h), Sand)
                else world;
    if input.rightDown && s.isDrawingSecondary then
      PaintCells(area, Walk(Cell(s.lastX, s.lastY), Cell(input.mouseX, input.mouseY)), Brick)
    else area
  }

  /** What the brushes leave in each slot: a slot of the area is filled with
      Sand, then a slot of the walk with Brick; every other slot is as it
      was.  A filled slot keeps an occupant it already had. */
  lemma PaintedAt(s: State, input: Input, world: World, w: int, h: int, x: int, y: int)
    requires 0 <= x < |world| && 0 <= y < |world[x]|
    ensures var inArea := input.leftDown && InArea(Cell(x, y), input.mouseX, input.mouseY, s.paintRadius, w, h);
            var onWalk := input.rightDown && s.isDrawingSecondary &&
                          Cell(x, y) in Walk(Cell(s.lastX, s.lastY), Cell(input.mouseX, input.mouseY));
            var afterArea := if inArea then Fill(world[x][y], Sand) else world[x][y];
            Painted(s, input, world, w, h)[x][y] == if onWalk then Fill(afterArea, Brick) else afterArea
  {
    var cells := AreaCells(input.mouseX, input.mouseY, s.paintRadius, w, h);
    var area := if input.leftDown then PaintCells(world, cells, Sand) else world;
    if input.leftDown {
      PaintCellsAt(world, cells, Sand, x, y);
      AreaCellsExactly(input.mouseX, input.mouseY, s.paintRadius, w, h, Cell(x, y));
    }
    if input.rightDown && s.isDrawingSecondary {
      PaintCellsAt(area, Walk(Cell(s.lastX, s.lastY), Cell(input.mouseX, input.mouseY)), Brick, x, y);
    }
  }

  /** Lines 86-121, the drag state machine across one frame: holding the
      right button arms it (the first held frame only stores the anchor) and
      moves the anchor to the pointer; a release disarms it; with the button
      up the anchor stays. */
  predicate DragAfter(s: State, input: Input, s': State): (b: bool)
    ensures b && input.rightReleased ==> !s'.isDrawingSecondary
    ensures b && !input.rightReleased && (input.rightDown || s.isDrawingSecondary) ==> s'.isDrawingSecondary
    ensures b && !input.rightDown ==> (s'.lastX, s'.lastY) == (s.lastX, s.lastY)
    ensures b && input.rightDown ==> (s'.lastX, s'.lastY) == (input.mouseX, input.mouseY)
  {
    s'.isDrawingSecondary == ((input.rightDown || s.isDrawingSecondary) && !input.rightReleased) &&
    (input.rightDown ==> s'.lastX == input.mouseX && s'.lastY == input.mouseY) &&
    (!input.rightDown ==> s'.lastX == s.lastX && s'.lastY == s.lastY)
  }

  /** Lines 63-131, the controls of one frame on the grown world: the left
      button paints Sand, the right button drives the drag state machine,
      its release disarms it, and the keys adjust the radius.  Painting
      changes no id and removes no occupied record. */
  method Controls(s: State, world: World, input: Input, w: int, h: int) returns (s': State)
    requires Fits(world, w, h)
    requires input.rightDown && s.isDrawingSecondary ==>
               forall c :: c in Walk(Cell(s.lastX, s.lastY), Cell(input.mouseX, input.mouseY)) ==> InGrid(world, c)
    ensures Fits(s'.world, w, h) && |s'.world| == |world|
    ensures Ids(s'.world) == Ids(world) && Active(world) <= Active(s'.world)
    ensures s'.lastId == s.lastId
    ensures s'.world == Painted(s, input, world, w, h)
    ensures s'.paintRadius == RadiusAfter(s.paintRadius, input.plusPressed, input.minusPressed)
    ensures DragAfter(s, input, s')
    ensures s.paintRadius >= 1 ==> s'.paintRadius >= 1
    ensures !input.leftDown && !(input.rightDown && s.isDrawingSecondary) ==> s'.world == world
  {
    var painted := world;
    if input.leftDown {
      painted := PaintArea(painted, input.mouseX, input.mouseY, s.paintRadius, w, h);
    }
    var drawing, lastX, lastY := s.isDrawingSecondary, s.lastX, s.lastY;
    if input.rightDown {
      painted, drawing, lastX, lastY := RightButtonHeld(painted, drawing, lastX, lastY, input.mouseX, input.mouseY);
    }
    if input.rightReleased {
      drawing := false;
    }
    var radius := AdjustRadius(s.paintRadius, input.plusPressed, input.minusPressed);
    s' := State(painted, s.lastId, radius, drawing, lastX, lastY);
  }

  /** Lines 38-131 with the corrected growth: grow the world to the screen,
      also topping up the columns already there, then apply the controls.
      The world's columns must be no taller than the screen, and an armed
      drag must stay on the grid, since line 103 indexes without a bounds
      check.  grown is the world after the growth.  On a world already of
      the screen height the growth, and so the counter, are exactly those
      of the code as written. */
  method Prepare(s: State, input: Input, w: nat, h: nat) returns (grown: World, s': State)
    requires forall x :: 0 <= x < |s.world| ==> |s.world[x]| <= h
    requires input.rightDown && s.isDrawingSecondary ==>
               forall c :: c in Walk(Cell(s.lastX, s.lastY), Cell(input.mouseX, input.mouseY)) ==>
                 0 <= c.x < Max(|s.world|, w) && 0 <= c.y < h
    ensures Fits(grown, w, h) && |grown| == Max(|s.world|, w) && Active(grown) == Active(s.world)
    ensures forall x :: 0 <= x < |s.world| ==> grown[x][..|s.world[x]|] == s.world[x]
    ensures Fits(s.world, 0, h) ==> grown == s.world + NewColumns(s.lastId + 1, Missing(|s.world|, w), h)
    ensures s'.world == Painted(s, input, grown, w, h)
    ensures s'.paintRadius == RadiusAfter(s.paintRadius, input.plusPressed, input.minusPressed)
    ensures Valid(s) ==> Valid(s')
    ensures Fits(s'.world, w, h) && |s'.world| == Max(|s.world|, w)
    ensures s.lastId <= s'.lastId
    ensures Fits(s.world, 0, h) ==> s'.lastId == s.lastId + Missing(|s.world|, w) * h
    ensures DragAfter(s, input, s')
    ensures s.paintRadius >= 1 ==> s'.paintRadius >= 1
    ensures Active(s.world) <= Active(s'.world)
  {
    var lastId;
    grown, lastId := GrowToScreen(s.world, s.lastId, w, h);
    if input.rightDown && s.isDrawingSecondary {
      BoundedWalkOnGrid(grown, h, Walk(Cell(s.lastX, s.lastY), Cell(input.mouseX, input.mouseY)));
    }
    var moved := State(s.world, lastId, s.paintRadius, s.isDrawingSecondary, s.lastX, s.lastY);
    s' := Controls(moved, grown, input, w, h);
    assert Painted(moved, input, grown, w, h) == Painted(s, input, grown, w, h);
    SameIdsKeepUnique(grown, s'.world, lastId);
  }

  /** Lines 38-212 with the corrected growth, one frame: grow, apply the
      controls, run the pass.  grown is the world after the growth and
      painted the world after the controls.  The frame keeps the sandbox
      valid and never loses material; the pass moves every particle at most
      once, and with valid state it handles every particle exactly once. */
  method Frame(s: State, input: Input, w: nat, h: nat, roll: (int, int) -> Roll)
      returns (grown: World, painted: World, s': State, ids: seq<int>)
    requires forall x :: 0 <= x < |s.world| ==> |s.world[x]| <= h
    requires input.rightDown && s.isDrawingSecondary ==>
               forall c :: c in Walk(Cell(s.lastX, s.lastY), Cell(input.mouseX, input.mouseY)) ==>
                 0 <= c.x < Max(|s.world|, w) && 0 <= c.y < h
    ensures Fits(grown, w, h) && |grown| == Max(|s.world|, w) && Active(grown) == Active(s.world)
    ensures forall x :: 0 <= x < |s.world| ==> grown[x][..|s.world[x]|] == s.world[x]
    ensures Fits(s.world, 0, h) ==> grown == s.world + NewColumns(s.lastId + 1, Missing(|s.world|, w), h)
    ensures painted == Painted(s, input, grown, w, h)
    ensures Fits(painted, w, h) && (s'.world, ids) == Pass(painted, w, h, roll)
    ensures Active(s'.world) == Active(painted) && Ids(s'.world) == Ids(painted) && BricksKept(painted, s'.world)
    ensures forall x, y :: 0 <= x < |s'.world| && 0 <= y < |s'.world[x]| && s'.world[x][y].active ==>
              CameFrom(painted, x, y, s'.world[x][y])
    ensures s'.paintRadius == RadiusAfter(s.paintRadius, input.plusPressed, input.minusPressed)
    ensures Valid(s) ==> Valid(s')
    ensures Fits(s'.world, w, h) && |s'.world| == Max(|s.world|, w)
    ensures s.lastId <= s'.lastId
    ensures Fits(s.world, 0, h) ==> s'.lastId == s.lastId + Missing(|s.world|, w) * h
    ensures DragAfter(s, input, s')
    ensures s.paintRadius >= 1 ==> s'.paintRadius >= 1
    ensures Active(s.world) <= Active(s'.world) && |Active(s.world)| <= |Active(s'.world)|
    ensures Valid(s) ==> multiset(ids) == ActiveIds(s'.world)
  {
    var prepared;
    grown, prepared := Prepare(s, input, w, h);
    painted := prepared.world;
    var next;
    next, ids := Simulate(painted, w, h, roll);
    s' := prepared.(world := next);
    SameIdsKeepUnique(painted, next, s'.lastId);
    SubMultisetSize(s.world, next);
  }

  /** Ids are all the uniqueness invariant looks at. */
  lemma SameIdsKeepUnique(g: World, g': World, n: int)
    requires Ids(g) == Ids(g')
    ensures UniqueIds(g) ==> UniqueIds(g')
    ensures IdsAtMost(g, n) ==> IdsAtMost(g', n)
  {
  }

  /** Cells within the grid's width and the screen height are on a grid
      whose columns all have the screen height. */
  lemma BoundedWalkOnGrid(g: World, h: int, cs: seq<Cell>)
    requires Fits(g, 0, h)
    requires forall c :: c in cs ==> 0 <= c.x < |g| && 0 <= c.y < h
    ensures forall c :: c in cs ==> InGrid(g, c)
  {
  }

  /** The growth of lines 41-61 as written, on a 2 by 2 world whose window
      becomes 2 by 3: no column is missing, so nothing is added, and the
      bottom row of the screen is not in the grid.  A left click at (1, 2)
      with radius 1 passes the bounds check of line 74 and indexes past the
      end of column 1. */
  lemma GrowLeavesShortColumn()
    ensures var world := [Placeholders(1, 2), Placeholders(3, 2)];
            var grown := world + NewColumns(5, Missing(|world|, 2), 3);
            grown == world && Cell(1, 2) in AreaCells(1, 2, 1, 2, 3) && !InGrid(grown, Cell(1, 2))
  {
    var world := [Placeholders(1, 2), Placeholders(3, 2)];
    assert world + NewColumns(5, 0, 3) == world;
    AreaCellsExactly(1, 2, 1, 2, 3, Cell(1, 2));
  }

  lemma SubMultisetSize(g: World, g': World)
    requires Active(g) <= Active(g')
    ensures |Active(g)| <= |Active(g')|
  {
    assert Active(g') == Active(g) + (Active(g') - Active(g));
  }
}
