/** Growing the world to the screen, once per frame: columns missing up to
    the screen width are appended, each filled with empty Sand placeholders
    that take fresh ids from the running counter.  Grow is the code as
    written; GrowToScreen also tops up the columns already there, which is
    what the inner loop's start at the column's length evidently intends. */
module Growth {
  import opened Particles
  import opened Grid

  /** Slot y of col is an empty Sand placeholder with id first + y. */
  predicate IsRun(col: seq<Particle>, first: int) {
    forall y :: 0 <= y < |col| ==> col[y] == Particle(first + y, Sand, false)
  }

  /** A column of h empty Sand placeholders with ids first, first + 1, ... */
  function Placeholders(first: int, h: nat): (col: seq<Particle>)
    ensures |col| == h && IsRun(col, first)
  {
    seq(h, y => Particle(first + y, Sand, false))
  }

  /** k new columns of height h whose ids continue one another from first. */
  function NewColumns(first: int, k: nat, h: nat): (cols: World)
    ensures |cols| == k && forall j :: 0 <= j < k ==> |cols[j]| == h
  {
    if k == 0 then [] else NewColumns(first, k - 1, h) + [Placeholders(first + Span(k - 1, h), h)]
  }

  /** The number of slots in k columns of height h, counted column by column. */
  function Span(k: nat, h: nat): nat {
    if k == 0 then 0 else Span(k - 1, h) + h
  }

  lemma {:induction false} SpanIsProduct(k: nat, h: nat)
    ensures Span(k, h) == k * h
  {
    if k > 0 {
      SpanIsProduct(k - 1, h);
      assert (k - 1) * h + h == k * h;
    }
  }

  /** How many columns a grid of n columns lacks to be w wide. */
  function Missing(n: nat, w: nat): nat {
    if w > n then w - n else 0
  }

  /** The n-th id handed out from lo on. */
  function IdAt(lo: int, n: nat): int {
    lo + n
  }

  /** The ids lo, lo + 1, ..., hi - 1, once each. */
  function IdRange(lo: int, hi: int): multiset<int> {
    multiset(set n: nat | n < hi - lo :: IdAt(lo, n))
  }

  lemma IdRangeCount(lo: int, hi: int, i: int)
    ensures IdRange(lo, hi)[i] == if lo <= i < hi then 1 else 0
  {
    if lo <= i < hi {
      assert IdAt(lo, i - lo) == i;
    }
  }

  lemma IdRangeSplit(lo: int, mid: int, hi: int)
    requires lo <= mid <= hi
    ensures IdRange(lo, mid) + IdRange(mid, hi) == IdRange(lo, hi)
  {
    forall i ensures (IdRange(lo, mid) + IdRange(mid, hi))[i] == IdRange(lo, hi)[i] {
      IdRangeCount(lo, mid, i);
      IdRangeCount(mid, hi, i);
      IdRangeCount(lo, hi, i);
    }
  }

  /** Lines 48-60: push placeholders onto a column until it has h slots,
      bumping the counter before each one.  The column keeps its slots; the
      ids handed out are exactly the next ones after the counter. */
  method TopUp(col: seq<Particle>, last: int, h: nat) returns (col': seq<Particle>, last': int)
    ensures col' == col + Placeholders(last + 1, Missing(|col|, h))
    ensures |col'| == if |col| < h then h else |col|
    ensures last' == last + Missing(|col|, h)
  {
    col', last' := col, last;
    var y := |col|;
    while y < h
      invariant |col| <= y && (y <= h || y == |col|)
      invariant col' == col + Placeholders(last + 1, y - |col|)
      invariant last' == last + (y - |col|)
    {
      last' := last' + 1;
      col' := col' + [Particle(last', Sand, false)];
      y := y + 1;
    }
  }

  /** Appending placeholders adds their ids and no occupied slot. */
  lemma AddedGather(col: seq<Particle>, added: seq<Particle>, first: int)
    requires IsRun(added, first)
    ensures GatherColumn(col + added, IdOf) == GatherColumn(col, IdOf) + IdRange(first, first + |added|)
    ensures GatherColumn(col + added, ActiveOf) == GatherColumn(col, ActiveOf)
  {
    GatherColumnConcat(col, added, IdOf);
    GatherColumnConcat(col, added, ActiveOf);
    RunIds(added, first, first + |added|);
    RunInactive(added, first);
  }

  /** A run of placeholders from first holds each id first, ... once. */
  lemma {:induction false} RunCount(col: seq<Particle>, first: int, i: int)
    requires IsRun(col, first)
    ensures GatherColumn(col, IdOf)[i] == if first <= i < first + |col| then 1 else 0
    decreases |col|
  {
    if col != [] {
      var n := |col| - 1;
      assert IsRun(col[..n], first);
      RunCount(col[..n], first, i);
    }
  }

  lemma RunIds(col: seq<Particle>, first: int, end: int)
    requires IsRun(col, first) && end == first + |col|
    ensures GatherColumn(col, IdOf) == IdRange(first, end)
  {
    var a := GatherColumn(col, IdOf);
    var b := IdRange(first, end);
    forall i ensures a[i] == if first <= i < end then 1 else 0 {
      RunCount(col, first, i);
    }
    forall i ensures b[i] == if first <= i < end then 1 else 0 {
      IdRangeCount(first, end, i);
    }
    SameCounts(a, b, first, end);
  }

  /** A run of placeholders holds no occupied slot. */
  lemma {:induction false} RunInactive(col: seq<Particle>, first: int)
    requires IsRun(col, first)
    ensures GatherColumn(col, ActiveOf) == multiset{}
    decreases |col|
  {
    if col != [] {
      var n := |col| - 1;
      assert IsRun(col[..n], first);
      RunInactive(col[..n], first);
    }
  }

  lemma SameCounts(a: multiset<int>, b: multiset<int>, lo: int, hi: int)
    requires forall i :: a[i] == if lo <= i < hi then 1 else 0
    requires forall i :: b[i] == if lo <= i < hi then 1 else 0
    ensures a == b
  {
    forall i ensures a[i] == b[i] {}
  }

  /** Lines 44-60: push an empty column and top it up to h placeholders. */
  method AddColumn(g: World, last: int, h: nat) returns (g': World, last': int)
    ensures g' == g + [Placeholders(last + 1, h)]
    ensures last' == last + h
    ensures Ids(g') == Ids(g) + IdRange(last + 1, last' + 1)
    ensures Active(g') == Active(g)
  {
    g' := g + [[]];
    var col;
    col, last' := TopUp(g'[|g|], last, h);
    g' := g'[|g| := col];
    PushThenSet(g, [], col);
    assert col == Placeholders(last + 1, h);
    AppendRunGather(g, col, last + 1, last' + 1);
  }

  /** Lines 41-61 as written: for every column missing up to the screen
      width, push an empty column and top it up with h placeholders.  The
      columns already there are not touched, whatever their height; the
      counter advances by the number of slots added. */
  method Grow(world: World, lastId: int, w: nat, h: nat) returns (grown: World, last: int)
    ensures grown == world + NewColumns(lastId + 1, Missing(|world|, w), h)
    ensures grown[..|world|] == world
    ensures |grown| == |world| + Missing(|world|, w) && w <= |grown|
    ensures last == lastId + Missing(|world|, w) * h && lastId <= last
    ensures Ids(grown) == Ids(world) + IdRange(lastId + 1, last + 1)
    ensures Active(grown) == Active(world)
    ensures UniqueIds(world) && IdsAtMost(world, lastId) ==> UniqueIds(grown) && IdsAtMost(grown, last)
  {
    grown, last := world, lastId;
    var x := |world|;
    ghost var k: nat := 0;
    GrowStart(world, lastId, h);
    while x < w
      invariant |world| <= x && |grown| == x && k == x - |world|
      invariant x <= w || x == |world|
      invariant GrownBy(world, grown, lastId, last, k, h)
    {
      ghost var before, mark := grown, last;
      grown, last := AddColumn(grown, last, h);
      GrowStep(world, before, grown, lastId, mark, last, k, h);
      x, k := x + 1, k + 1;
    }
    GrowDone(world, grown, lastId, last, w, h, k);
  }

  /** The growth loop's invariant after k new columns. */
  predicate GrownBy(world: World, grown: World, lastId: int, last: int, k: nat, h: nat) {
    grown == world + NewColumns(lastId + 1, k, h) && last == lastId + Span(k, h) &&
    Ids(grown) == Ids(world) + IdRange(lastId + 1, last + 1) && Active(grown) == Active(world)
  }

  lemma GrowStart(world: World, lastId: int, h: nat)
    ensures GrownBy(world, world, lastId, lastId, 0, h)
  {
    assert world + NewColumns(lastId + 1, 0, h) == world;
    assert IdRange(lastId + 1, lastId + 1) == multiset{};
  }

  /** One iteration of the growth loop appends the next new column. */
  lemma GrowStep(world: World, before: World, grown: World, lastId: int, mark: int, last: int, k: nat, h: nat)
    requires GrownBy(world, before, lastId, mark, k, h)
    requires grown == before + [Placeholders(mark + 1, h)] && last == mark + h
    requires Ids(grown) == Ids(before) + IdRange(mark + 1, last + 1) && Active(grown) == Active(before)
    ensures GrownBy(world, grown, lastId, last, k + 1, h)
  {
    NewColumnsSnoc(world, lastId + 1, k, h, mark + 1);
    IdRangeChain(Ids(world), Ids(before), Ids(grown), lastId + 1, mark + 1, last + 1);
  }

  lemma GrowDone(world: World, grown: World, lastId: int, last: int, w: nat, h: nat, k: nat)
    requires k == Missing(|world|, w) && GrownBy(world, grown, lastId, last, k, h)
    ensures grown[..|world|] == world
    ensures last == lastId + Missing(|world|, w) * h
    ensures UniqueIds(world) && IdsAtMost(world, lastId) ==> UniqueIds(grown) && IdsAtMost(grown, last)
  {
    SpanIsProduct(k, h);
    assert grown[..|world|] == world;
    FreshIdsKeepUnique(world, grown, lastId, last);
  }

  lemma NewColumnsSnoc(world: World, first: int, k: nat, h: nat, start: int)
    requires start == first + Span(k, h)
    ensures world + NewColumns(first, k + 1, h) == world + NewColumns(first, k, h) + [Placeholders(start, h)]
  {
    SeqAssoc(world, NewColumns(first, k, h), [Placeholders(start, h)]);
  }

  lemma IdRangeChain(a: multiset<int>, b: multiset<int>, c: multiset<int>, lo: int, mid: int, hi: int)
    requires lo <= mid <= hi
    requires b == a + IdRange(lo, mid) && c == b + IdRange(mid, hi)
    ensures c == a + IdRange(lo, hi)
  {
    IdRangeSplit(lo, mid, hi);
    MultisetAssoc(a, IdRange(lo, mid), IdRange(mid, hi));
  }

  /** Appending a column of placeholders adds their ids and no occupied slot. */
  lemma AppendRunGather(g: World, col: seq<Particle>, first: int, end: int)
    requires IsRun(col, first) && end == first + |col|
    ensures Ids(g + [col]) == Ids(g) + IdRange(first, end)
    ensures Active(g + [col]) == Active(g)
  {
    GatherAppend(g, col, IdOf);
    GatherAppend(g, col, ActiveOf);
    RunIds(col, first, end);
    RunInactive(col, first);
  }

  /** Adding only the ids after the counter keeps ids unique and below the
      (advanced) counter. */
  lemma FreshIdsKeepUnique(world: World, grown: World, lastId: int, last: int)
    requires lastId <= last && Ids(grown) == Ids(world) + IdRange(lastId + 1, last + 1)
    ensures UniqueIds(world) && IdsAtMost(world, lastId) ==> UniqueIds(grown) && IdsAtMost(grown, last)
  {
    if UniqueIds(world) && IdsAtMost(world, lastId) {
      var added := IdRange(lastId + 1, last + 1);
      forall i ensures added[i] == if lastId + 1 <= i < last + 1 then 1 else 0 {
        IdRangeCount(lastId + 1, last + 1, i);
      }
      DisjointUnionUnique(Ids(world), added, lastId + 1, last + 1);
    }
  }

  // ---------------------------------------------------------------------
  // The growth the code evidently intends: the inner loop's start at the
  // column's current length only matters for columns already there, so
  // existing columns are topped up to the screen height as well.

  /** Columns before x are topped up to h rows, keeping their slots; the
      slots added are empty Sand placeholders.  Columns from x on are as in
      world. */
  predicate ToppedUp(world: World, grown: World, x: nat, h: nat) {
    |grown| == |world| &&
    (forall j :: 0 <= j < x && j < |world| ==>
       |grown[j]| == |world[j]| + Missing(|world[j]|, h) && grown[j][..|world[j]|] == world[j] &&
       forall y :: |world[j]| <= y < |grown[j]| ==> grown[j][y].variant == Sand && !grown[j][y].active) &&
    (forall j :: x <= j < |world| ==> grown[j] == world[j])
  }

  /** Lines 41-61 corrected: top up every existing column to the screen
      height, then add the missing columns as the code does.  The ids handed
      out are exactly the next ones after the counter; with columns no taller
      than the screen the result has the screen's shape; on a world already
      of the screen height it is exactly the growth as written. */
  method GrowToScreen(world: World, lastId: int, w: nat, h: nat) returns (grown: World, last: int)
    ensures |grown| == |world| + Missing(|world|, w) && w <= |grown|
    ensures forall x :: 0 <= x < |world| ==>
              |grown[x]| == |world[x]| + Missing(|world[x]|, h) && grown[x][..|world[x]|] == world[x]
    ensures forall x :: |world| <= x < |grown| ==> |grown[x]| == h
    ensures lastId <= last
    ensures Ids(grown) == Ids(world) + IdRange(lastId + 1, last + 1)
    ensures Active(grown) == Active(world)
    ensures UniqueIds(world) && IdsAtMost(world, lastId) ==> UniqueIds(grown) && IdsAtMost(grown, last)
    ensures (forall x :: 0 <= x < |world| ==> |world[x]| <= h) ==> Fits(grown, w, h)
    ensures Fits(world, 0, h) ==> grown == world + NewColumns(lastId + 1, Missing(|world|, w), h) &&
                                  last == lastId + Missing(|world|, w) * h
  {
    var topped, mid := TopUpAll(world, lastId, h);
    grown, last := Grow(topped, mid, w, h);
    IdRangeChain(Ids(world), Ids(topped), Ids(grown), lastId + 1, mid + 1, last + 1);
    ScreenShape(world, topped, grown, w, h);
    FreshIdsKeepUnique(world, grown, lastId, last);
  }

  /** The top-up half of the corrected growth: lines 48-60 run on every
      existing column. */
  method TopUpAll(world: World, lastId: int, h: nat) returns (topped: World, last: int)
    ensures ToppedUp(world, topped, |world|, h) && lastId <= last
    ensures Ids(topped) == Ids(world) + IdRange(lastId + 1, last + 1) && Active(topped) == Active(world)
    ensures Fits(world, 0, h) ==> topped == world && last == lastId
  {
    topped, last := world, lastId;
    var x := 0;
    TopUpAllStart(world, lastId, h);
    while x < |world|
      invariant x <= |world| && ToppedBy(world, topped, lastId, last, x, h)
    {
      ghost var before, mark := topped, last;
      topped, last := TopUpColumn(topped, x, last, h);
      TopUpAllStep(world, before, topped, lastId, mark, last, x, h);
      x := x + 1;
    }
    if Fits(world, 0, h) {
      ToppedUpFull(world, topped, h);
    }
  }

  /** Lines 48-60 on column x of the world. */
  method TopUpColumn(g: World, x: nat, last: int, h: nat) returns (g': World, last': int)
    requires x < |g|
    ensures g' == g[x := g[x] + Placeholders(last + 1, Missing(|g[x]|, h))]
    ensures last' == last + Missing(|g[x]|, h)
  {
    var col;
    col, last' := TopUp(g[x], last, h);
    g' := g[x := col];
  }

  /** The top-up loop's invariant after x columns. */
  predicate ToppedBy(world: World, topped: World, lastId: int, last: int, x: nat, h: nat) {
    ToppedUp(world, topped, x, h) && lastId <= last &&
    Ids(topped) == Ids(world) + IdRange(lastId + 1, last + 1) && Active(topped) == Active(world) &&
    (Fits(world, 0, h) ==> last == lastId)
  }

  lemma TopUpAllStart(world: World, lastId: int, h: nat)
    ensures ToppedBy(world, world, lastId, lastId, 0, h)
  {
    assert IdRange(lastId + 1, lastId + 1) == multiset{};
  }

  lemma TopUpAllStep(world: World, before: World, topped: World, lastId: int, mark: int, last: int, x: nat, h: nat)
    requires x < |world| && ToppedBy(world, before, lastId, mark, x, h)
    requires topped == before[x := before[x] + Placeholders(mark + 1, Missing(|before[x]|, h))]
    requires last == mark + Missing(|before[x]|, h)
    ensures ToppedBy(world, topped, lastId, last, x + 1, h)
  {
    TopUpKeeps(world, before, x, h, mark + 1, topped);
    TopUpIds(world, before, topped, x, lastId, mark, last);
  }

  /** The ids and occupied records after topping up column x. */
  lemma TopUpIds(world: World, before: World, topped: World, x: nat, lastId: int, mark: int, last: int)
    requires x < |before| && lastId <= mark <= last
    requires Ids(before) == Ids(world) + IdRange(lastId + 1, mark + 1) && Active(before) == Active(world)
    requires topped == before[x := before[x] + Placeholders(mark + 1, last - mark)]
    ensures Ids(topped) == Ids(world) + IdRange(lastId + 1, last + 1) && Active(topped) == Active(world)
  {
    ExtendColumnGather(before, x, Placeholders(mark + 1, last - mark), mark + 1, last + 1);
    IdRangeChain(Ids(world), Ids(before), Ids(topped), lastId + 1, mark + 1, last + 1);
  }

  /** Topping up a world whose columns already have the screen height
      changes nothing. */
  lemma ToppedUpFull(world: World, topped: World, h: nat)
    requires Fits(world, 0, h) && ToppedUp(world, topped, |world|, h)
    ensures topped == world
  {
    forall j | 0 <= j < |world| ensures topped[j] == world[j] {
      assert topped[j] == topped[j][..|world[j]|];
    }
  }

  /** Topping up column x keeps the invariant of the top-up loop. */
  lemma TopUpKeeps(world: World, before: World, x: nat, h: nat, first: int, topped: World)
    requires x < |world| && ToppedUp(world, before, x, h)
    requires topped == before[x := before[x] + Placeholders(first, Missing(|before[x]|, h))]
    ensures ToppedUp(world, topped, x + 1, h)
  {
    var col := topped[x];
    assert before[x] == world[x];
    assert col[..|world[x]|] == world[x];
    forall y | |world[x]| <= y < |col| ensures col[y].variant == Sand && !col[y].active {
      assert col[y] == Placeholders(first, Missing(|world[x]|, h))[y - |world[x]|];
    }
  }

  /** Appending placeholders to column x adds their ids and no occupied slot. */
  lemma ExtendColumnGather(g: World, x: nat, added: seq<Particle>, first: int, end: int)
    requires x < |g| && IsRun(added, first) && end == first + |added|
    ensures Ids(g[x := g[x] + added]) == Ids(g) + IdRange(first, end)
    ensures Active(g[x := g[x] + added]) == Active(g)
  {
    var col := g[x] + added;
    GatherReplace(g, x, col, IdOf);
    GatherReplace(g, x, col, ActiveOf);
    AddedGather(g[x], added, first);
    MultisetShift(Ids(g[x := col]), Ids(g), GatherColumn(g[x], IdOf), IdRange(first, end));
    MultisetShift(Active(g[x := col]), Active(g), GatherColumn(g[x], ActiveOf), multiset{});
  }

  /** The shape of the corrected growth: old columns topped up and kept,
      new columns of the screen height, and the screen's shape whenever no
      old column was taller than the screen. */
  lemma ScreenShape(world: World, topped: World, grown: World, w: nat, h: nat)
    requires ToppedUp(world, topped, |world|, h)
    requires |grown| == |topped| + Missing(|topped|, w) && grown[..|topped|] == topped
    requires forall x :: |topped| <= x < |grown| ==> |grown[x]| == h
    ensures forall x :: 0 <= x < |world| ==>
              |grown[x]| == |world[x]| + Missing(|world[x]|, h) && grown[x][..|world[x]|] == world[x]
    ensures (forall x :: 0 <= x < |world| ==> |world[x]| <= h) ==> Fits(grown, w, h)
  {
    forall x | 0 <= x < |world|
      ensures |grown[x]| == |world[x]| + Missing(|world[x]|, h) && grown[x][..|world[x]|] == world[x]
    {
      assert grown[x] == grown[..|topped|][x];
    }
  }

  // ---------------------------------------------------------------------

  /** Each new slot's id, in scan order: column j, row y gets first + j*h + y. */
  lemma NewColumnsAt(first: int, k: nat, h: nat, j: nat, y: nat)
    requires j < k && y < h
    ensures NewColumns(first, k, h)[j][y] == Particle(first + j * h + y, Sand, false)
  {
    NewColumnsSlot(first, k, h, j, y);
    SpanIsProduct(j, h);
  }

  lemma {:induction false} NewColumnsSlot(first: int, k: nat, h: nat, j: nat, y: nat)
    requires j < k && y < h
    ensures NewColumns(first, k, h)[j][y] == Particle(first + Span(j, h) + y, Sand, false)
  {
    if j < k - 1 {
      NewColumnsSlot(first, k - 1, h, j, y);
    }
  }

  lemma {:induction false} SpanGrows(j1: nat, j2: nat, h: nat)
    requires j1 < j2
    ensures Span(j1, h) + h <= Span(j2, h)
    decreases j2
  {
    if j1 < j2 - 1 {
      SpanGrows(j1, j2 - 1, h);
    }
  }

  /** The ids handed out by one growth strictly increase in the order the
      slots are created (column by column, top to bottom). */
  lemma NewIdsIncrease(first: int, k: nat, h: nat, j1: nat, y1: nat, j2: nat, y2: nat)
    requires j1 < k && j2 < k && y1 < h && y2 < h
    requires j1 < j2 || (j1 == j2 && y1 < y2)
    ensures NewColumns(first, k, h)[j1][y1].id < NewColumns(first, k, h)[j2][y2].id
  {
    NewColumnsSlot(first, k, h, j1, y1);
    NewColumnsSlot(first, k, h, j2, y2);
    if j1 < j2 {
      SpanGrows(j1, j2, h);
    }
  }

  lemma DisjointUnionUnique(before: multiset<int>, added: multiset<int>, first: int, end: int)
    requires first <= end
    requires forall i :: before[i] <= 1
    requires forall i :: i in before ==> i < first
    requires forall i :: added[i] == if first <= i < end then 1 else 0
    ensures forall i :: (before + added)[i] <= 1
    ensures forall i :: i in before + added ==> i < end
  {
    forall i ensures (before + added)[i] <= 1 && (i in before + added ==> i < end) {
      if i >= first {
        assert before[i] == 0;
      }
    }
  }
}
