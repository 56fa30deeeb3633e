/** The world: a list of columns of slot records, indexed world[x][y], and the
    multisets of records and ids it holds. */
module Grid {
  import opened Particles

  /** `Vec<Vec<Particle>>`: outer index is the column x, inner the row y. */
  type World = seq<seq<Particle>>

  datatype Cell = Cell(x: int, y: int)

  predicate InGrid(g: World, c: Cell) {
    0 <= c.x < |g| && 0 <= c.y < |g[c.x]|
  }

  /** The shape the simulation and the area brush rely on: at least w
      columns, every column exactly h rows. */
  predicate Fits(g: World, w: int, h: int) {
    w <= |g| && forall x :: 0 <= x < |g| ==> |g[x]| == h
  }

  predicate SameShape(g: World, g': World) {
    |g| == |g'| && forall x :: 0 <= x < |g| ==> |g[x]| == |g'[x]|
  }

  function At(g: World, c: Cell): Particle
    requires InGrid(g, c)
  {
    g[c.x][c.y]
  }

  /** Overwrite one slot; every other slot keeps its record. */
  function SetCell(g: World, c: Cell, p: Particle): (r: World)
    requires InGrid(g, c)
    ensures SameShape(g, r) && r[c.x][c.y] == p
    ensures forall x, y :: 0 <= x < |g| && 0 <= y < |g[x]| && Cell(x, y) != c ==> r[x][y] == g[x][y]
  {
    g[c.x := g[c.x][c.y := p]]
  }

  // ---------------------------------------------------------------------
  // What a world holds, as multisets.  Gather sums a per-record multiset
  // over every slot; the three instances below are the quantities the
  // sandbox conserves.

  function GatherColumn<T>(col: seq<Particle>, f: Particle -> multiset<T>): multiset<T>
  {
    if col == [] then multiset{} else GatherColumn(col[..|col| - 1], f) + f(col[|col| - 1])
  }

  function Gather<T>(g: World, f: Particle -> multiset<T>): multiset<T>
  {
    if g == [] then multiset{} else Gather(g[..|g| - 1], f) + GatherColumn(g[|g| - 1], f)
  }

  function ActiveOf(p: Particle): multiset<Particle> {
    if p.active then multiset{p} else multiset{}
  }

  function IdOf(p: Particle): multiset<int> {
    multiset{p.id}
  }

  function ActiveIdOf(p: Particle): multiset<int> {
    if p.active then multiset{p.id} else multiset{}
  }

  /** The occupied slots' records (id, variant and all). */
  function Active(g: World): multiset<Particle> {
    Gather(g, ActiveOf)
  }

  /** Every slot's id, occupied or not. */
  function Ids(g: World): multiset<int> {
    Gather(g, IdOf)
  }

  /** The occupied slots' ids. */
  function ActiveIds(g: World): multiset<int> {
    Gather(g, ActiveIdOf)
  }

  /** No id is carried by two slots. */
  ghost predicate UniqueIds(g: World) {
    forall i :: Ids(g)[i] <= 1
  }

  /** Every id is at most n (the last id handed out). */
  ghost predicate IdsAtMost(g: World, n: int) {
    forall i :: i in Ids(g) ==> i <= n
  }

  // ---------------------------------------------------------------------
  // Lemmas about Gather.

  lemma {:induction false} GatherColumnUpdate<T>(col: seq<Particle>, i: nat, p: Particle, f: Particle -> multiset<T>)
    requires i < |col|
    ensures GatherColumn(col[i := p], f) + f(col[i]) == GatherColumn(col, f) + f(p)
  {
    var n := |col| - 1;
    var col' := col[i := p];
    if i == n {
      assert col'[..n] == col[..n];
    } else {
      assert col'[..n] == col[..n][i := p];
      GatherColumnUpdate(col[..n], i, p, f);
      assert col[..n][i] == col[i];
      calc {
        GatherColumn(col', f) + f(col[i]);
        GatherColumn(col'[..n], f) + f(col[n]) + f(col[i]);
        GatherColumn(col'[..n], f) + f(col[i]) + f(col[n]);
        GatherColumn(col[..n], f) + f(p) + f(col[n]);
        GatherColumn(col, f) + f(p);
      }
    }
  }

  /** Overwriting a slot takes that slot's share out of the total and puts
      the new record's share in. */
  lemma {:induction false} GatherUpdate<T>(g: World, c: Cell, p: Particle, f: Particle -> multiset<T>)
    requires InGrid(g, c)
    ensures Gather(SetCell(g, c, p), f) + f(At(g, c)) == Gather(g, f) + f(p)
  {
    var n := |g| - 1;
    var g' := SetCell(g, c, p);
    if c.x == n {
      assert g'[..n] == g[..n];
      GatherColumnUpdate(g[n], c.y, p, f);
      MultisetExtend(Gather(g[..n], f), GatherColumn(g[n][c.y := p], f), GatherColumn(g[n], f), f(g[n][c.y]), f(p));
    } else {
      assert g'[..n] == SetCell(g[..n], c, p);
      GatherUpdate(g[..n], c, p, f);
      assert At(g[..n], c) == At(g, c);
      MultisetSwap(Gather(g'[..n], f), Gather(g[..n], f), GatherColumn(g[n], f), f(At(g, c)), f(p));
    }
  }

  /** A change on the right of a sum carries over to the whole sum. */
  lemma MultisetExtend<T>(a: multiset<T>, b': multiset<T>, b: multiset<T>, o: multiset<T>, c: multiset<T>)
    requires b' + o == b + c
    ensures a + b' + o == a + b + c
  {
    forall t ensures (a + b' + o)[t] == (a + b + c)[t] {
      assert (b' + o)[t] == (b + c)[t];
    }
  }

  /** Replacing a whole column takes its share out of the total and puts
      the new column's share in. */
  lemma {:induction false} GatherReplace<T>(g: World, x: nat, col: seq<Particle>, f: Particle -> multiset<T>)
    requires x < |g|
    ensures Gather(g[x := col], f) + GatherColumn(g[x], f) == Gather(g, f) + GatherColumn(col, f)
  {
    var n := |g| - 1;
    var g' := g[x := col];
    if x == n {
      assert g'[..n] == g[..n];
      MultisetCommute(Gather(g[..n], f), GatherColumn(col, f), GatherColumn(g[n], f));
    } else {
      assert g'[..n] == g[..n][x := col];
      GatherReplace(g[..n], x, col, f);
      MultisetSwap(Gather(g'[..n], f), Gather(g[..n], f), GatherColumn(g[n], f), GatherColumn(g[x], f),
                   GatherColumn(col, f));
    }
  }

  lemma MultisetCommute<T>(a: multiset<T>, b: multiset<T>, c: multiset<T>)
    ensures a + b + c == a + c + b
  {
  }

  /** The step of a column replacement: a part both sides share moves
      through. */
  lemma MultisetSwap<T>(a': multiset<T>, a: multiset<T>, b: multiset<T>, o: multiset<T>, c: multiset<T>)
    requires a' + o == a + c
    ensures a' + b + o == a + b + c
  {
    forall t ensures (a' + b + o)[t] == (a + b + c)[t] {
      assert (a' + o)[t] == (a + c)[t];
    }
  }

  /** Appending a record to a column adds exactly its share. */
  lemma {:induction false} GatherPush<T>(g: World, x: nat, p: Particle, f: Particle -> multiset<T>)
    requires x < |g|
    ensures Gather(g[x := g[x] + [p]], f) == Gather(g, f) + f(p)
  {
    var n := |g| - 1;
    var g' := g[x := g[x] + [p]];
    if x == n {
      assert g'[..n] == g[..n];
      assert (g[x] + [p])[..|g[x]|] == g[x];
    } else {
      assert g'[..n] == g[..n][x := g[..n][x] + [p]];
      GatherPush(g[..n], x, p, f);
    }
  }

  lemma GatherColumnSnoc<T>(col: seq<Particle>, p: Particle, f: Particle -> multiset<T>)
    ensures GatherColumn(col + [p], f) == GatherColumn(col, f) + f(p)
  {
    assert (col + [p])[..|col|] == col;
  }

  /** A column's share is the sum of its two halves' shares. */
  lemma {:induction false} GatherColumnConcat<T>(a: seq<Particle>, b: seq<Particle>, f: Particle -> multiset<T>)
    ensures GatherColumn(a + b, f) == GatherColumn(a, f) + GatherColumn(b, f)
    decreases |b|
  {
    if b == [] {
      assert a + b == a;
    } else {
      var n := |b| - 1;
      SnocTake(a, b);
      GatherColumnConcat(a, b[..n], f);
      GatherColumnSnoc(a + b[..n], b[n], f);
      GatherColumnSnoc(b[..n], b[n], f);
      SnocTake([], b);
      MultisetAssoc(GatherColumn(a, f), GatherColumn(b[..n], f), f(b[n]));
    }
  }

  lemma GatherAppend<T>(g: World, col: seq<Particle>, f: Particle -> multiset<T>)
    ensures Gather(g + [col], f) == Gather(g, f) + GatherColumn(col, f)
  {
    assert (g + [col])[..|g|] == g;
  }

  /** One slot's share is part of the total. */
  lemma {:induction false} GatherHas<T>(g: World, c: Cell, f: Particle -> multiset<T>)
    requires InGrid(g, c)
    ensures f(At(g, c)) <= Gather(g, f)
  {
    var n := |g| - 1;
    if c.x == n {
      GatherColumnHas(g[n], c.y, f);
    } else {
      GatherHas(g[..n], c, f);
    }
  }

  lemma {:induction false} GatherColumnHas<T>(col: seq<Particle>, i: nat, f: Particle -> multiset<T>)
    requires i < |col|
    ensures f(col[i]) <= GatherColumn(col, f)
  {
    if i < |col| - 1 {
      GatherColumnHas(col[..|col| - 1], i, f);
    }
  }

  /** Whatever is in the total comes from some slot. */
  lemma {:induction false} GatherWitness<T>(g: World, t: T, f: Particle -> multiset<T>) returns (c: Cell)
    requires t in Gather(g, f)
    ensures InGrid(g, c) && t in f(At(g, c))
  {
    var n := |g| - 1;
    if t in GatherColumn(g[n], f) {
      var y := GatherColumnWitness(g[n], t, f);
      c := Cell(n, y);
    } else {
      c := GatherWitness(g[..n], t, f);
    }
  }

  lemma {:induction false} GatherColumnWitness<T>(col: seq<Particle>, t: T, f: Particle -> multiset<T>) returns (y: nat)
    requires t in GatherColumn(col, f)
    ensures y < |col| && t in f(col[y])
  {
    var n := |col| - 1;
    if t in f(col[n]) {
      y := n;
    } else {
      y := GatherColumnWitness(col[..n], t, f);
    }
  }

  /** A per-record share that is always smaller gives a smaller total. */
  lemma {:induction false} GatherMono<T>(g: World, f: Particle -> multiset<T>, f': Particle -> multiset<T>)
    requires forall p :: f(p) <= f'(p)
    ensures Gather(g, f) <= Gather(g, f')
  {
    if g != [] {
      GatherMono(g[..|g| - 1], f, f');
      GatherColumnMono(g[|g| - 1], f, f');
    }
  }

  lemma {:induction false} GatherColumnMono<T>(col: seq<Particle>, f: Particle -> multiset<T>, f': Particle -> multiset<T>)
    requires forall p :: f(p) <= f'(p)
    ensures GatherColumn(col, f) <= GatherColumn(col, f')
  {
    if col != [] {
      GatherColumnMono(col[..|col| - 1], f, f');
    }
  }

  lemma SeqAssoc<T>(a: seq<T>, b: seq<T>, c: seq<T>)
    ensures a + (b + c) == a + b + c
  {
  }

  lemma SnocTake<T>(a: seq<T>, b: seq<T>)
    requires b != []
    ensures a + b[..|b| - 1] + [b[|b| - 1]] == a + b
  {
    assert b[..|b| - 1] + [b[|b| - 1]] == b;
  }

  lemma PushThenSet<T>(a: seq<T>, e: T, c: T)
    ensures (a + [e])[|a| := c] == a + [c]
  {
  }

  lemma MultisetAssoc<T>(a: multiset<T>, b: multiset<T>, c: multiset<T>)
    ensures a + b + c == a + (b + c)
  {
  }

  /** Cancelling a common part on both sides of a sum. */
  lemma MultisetShift<T>(a: multiset<T>, b: multiset<T>, c: multiset<T>, d: multiset<T>)
    requires a + c == b + (c + d)
    ensures a == b + d
  {
    forall t ensures a[t] == (b + d)[t] {
      assert (a + c)[t] == (b + (c + d))[t];
    }
  }

  /** Multiset addition cancels. */
  lemma MultisetCancel<T>(a: multiset<T>, b: multiset<T>, m: multiset<T>)
    requires a + m == b + m
    ensures a == b
  {
    forall t ensures a[t] == b[t] {
      assert (a + m)[t] == (b + m)[t];
    }
  }

  /** The occupied slots' ids are among all ids; so with unique ids each
      occupied id occurs once. */
  lemma ActiveIdsWithinIds(g: World)
    ensures ActiveIds(g) <= Ids(g)
  {
    GatherMono(g, ActiveIdOf, IdOf);
  }
}
