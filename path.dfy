/** The drag-smoothing walk: from the last sampled pointer cell toward the
    current one, one step per axis at a time, until both coordinates match. */
module Path {
  import opened Grid

  function Abs(n: int): nat {
    if n < 0 then -n else n
  }

  function Max(a: int, b: int): int {
    if a < b then b else a
  }

  function Min(a: int, b: int): int {
    if a < b then a else b
  }

  /** Chebyshev distance: the number of steps the walk takes. */
  function Distance(a: Cell, b: Cell): nat {
    Max(Abs(a.x - b.x), Abs(a.y - b.y))
  }

  /** One coordinate's move in one iteration: up by one if the target is
      greater, down by one if it is smaller, else held. */
  function Toward(from: int, to: int): (t: int)
    ensures Abs(t - from) == if from == to then 0 else 1
    ensures Abs(t - to) == if from == to then 0 else Abs(from - to) - 1
  {
    if to > from then from + 1 else if to < from then from - 1 else from
  }

  /** One iteration of lines 98-101: each coordinate moves toward the
      target by one, or holds once it matches. */
  function NextStep(a: Cell, b: Cell): (c: Cell)
    ensures (c == a) == (a == b)
    ensures StepToward(a, c, b)
  {
    Cell(Toward(a.x, b.x), Toward(a.y, b.y))
  }

  /** here is one step from prev: each coordinate moves by at most one,
      and neither moves away from the target b. */
  predicate StepToward(prev: Cell, here: Cell, b: Cell) {
    Abs(here.x - prev.x) <= 1 && Abs(here.y - prev.y) <= 1 &&
    Abs(here.x - b.x) <= Abs(prev.x - b.x) && Abs(here.y - b.y) <= Abs(prev.y - b.y)
  }

  lemma NextStepCloser(a: Cell, b: Cell)
    requires a != b
    ensures Distance(NextStep(a, b), b) == Distance(a, b) - 1
  {
  }

  /** The cells the walk visits after a, in order: the start cell itself is
      not among them, the target is the last.
      The loop runs exactly max(|dx|, |dy|) times. */
  function Walk(a: Cell, b: Cell): (cs: seq<Cell>)
    ensures |cs| == Distance(a, b)
    decreases Distance(a, b)
  {
    if a == b then [] else NextStepCloser(a, b); [NextStep(a, b)] + Walk(NextStep(a, b), b)
  }

  // ---------------------------------------------------------------------

  /** The k-th visited cell is k + 1 steps closer to the target than the
      start; in particular the walk ends exactly on the target, never
      revisits a cell and never returns to the start. */
  lemma {:induction false} WalkApproaches(a: Cell, b: Cell, k: nat)
    requires k < |Walk(a, b)|
    ensures Distance(Walk(a, b)[k], b) == Distance(a, b) - (k + 1)
    decreases Distance(a, b)
  {
    NextStepCloser(a, b);
    if k > 0 {
      WalkApproaches(NextStep(a, b), b, k - 1);
    }
  }

  lemma WalkEndsAtTarget(a: Cell, b: Cell)
    requires a != b
    ensures |Walk(a, b)| > 0 && Walk(a, b)[|Walk(a, b)| - 1] == b
  {
    WalkApproaches(a, b, |Walk(a, b)| - 1);
  }

  lemma WalkSkipsStart(a: Cell, b: Cell)
    ensures a !in Walk(a, b)
  {
    forall k | 0 <= k < |Walk(a, b)| ensures Walk(a, b)[k] != a {
      WalkApproaches(a, b, k);
    }
  }

  lemma WalkCellsDistinct(a: Cell, b: Cell, i: nat, j: nat)
    requires i < j < |Walk(a, b)|
    ensures Walk(a, b)[i] != Walk(a, b)[j]
  {
    WalkApproaches(a, b, i);
    WalkApproaches(a, b, j);
  }

  /** Each iteration moves each coordinate by at most one, and never away
      from the target. */
  lemma {:induction false} WalkSteps(a: Cell, b: Cell, k: nat)
    requires k < |Walk(a, b)|
    ensures StepToward(if k == 0 then a else Walk(a, b)[k - 1], Walk(a, b)[k], b)
    decreases Distance(a, b)
  {
    if k > 0 {
      WalkSteps(NextStep(a, b), b, k - 1);
    }
  }

  /** Every visited cell lies in the rectangle spanned by start and target. */
  lemma {:induction false} WalkInBox(a: Cell, b: Cell, c: Cell)
    requires c in Walk(a, b)
    ensures Min(a.x, b.x) <= c.x <= Max(a.x, b.x) && Min(a.y, b.y) <= c.y <= Max(a.y, b.y)
    decreases Distance(a, b)
  {
    NextStepCloser(a, b);
    if c != NextStep(a, b) {
      WalkInBox(NextStep(a, b), b, c);
    }
  }

  /** In a grid whose columns all have the same height, a walk between two
      in-bounds cells stays in bounds, so the unchecked indexing of the
      walk is safe whenever both pointer samples are on the grid. */
  lemma WalkStaysInGrid(g: World, h: int, a: Cell, b: Cell)
    requires Fits(g, 0, h) && InGrid(g, a) && InGrid(g, b)
    ensures forall c :: c in Walk(a, b) ==> InGrid(g, c)
  {
    forall c | c in Walk(a, b) ensures InGrid(g, c) {
      WalkInBox(a, b, c);
    }
  }

  /** The diagonal-then-straight shape of a drag from (0,0) to (3,2). */
  lemma WalkExample()
    ensures Walk(Cell(0, 0), Cell(3, 2)) == [Cell(1, 1), Cell(2, 2), Cell(3, 2)]
  {
  }
}
