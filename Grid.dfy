/**
 * The simulator's collision grid as values: a flat array of signed bytes,
 * one per 16x16 tile of an 8192x8192 map, counting the ground agents on
 * each tile. Java's `byte` wraps around, so a counter holds the number of
 * agents modulo 256, read as a signed byte.
 */
module Grid {
  import opened Unordered

  const MaxMapDimension: int := 8192
  const TileSize: int := 16
  const CollisionMapDimension: int := MaxMapDimension / TileSize
  const CellCount: int := CollisionMapDimension * CollisionMapDimension
  /** A ground agent may enter another tile only while its counter is at most this. */
  const TileCapacity: int := TileSize / 8 - 1

  /** Java's signed 8-bit `byte`. */
  newtype Byte = b: int | -128 <= b < 128

  /** The byte that `n` narrows to (two's complement wrap-around). */
  function Wrap8(n: int): (r: Byte)
    ensures -128 <= n < 128 ==> r as int == n
  {
    ((n + 128) % 256 - 128) as Byte
  }

  /** Wrapping changes a number by a multiple of 256. */
  lemma Wrap8Congruent(n: int)
    ensures (Wrap8(n) as int - n) % 256 == 0
  {
    var r := (n + 128) % 256;
    var d := (n + 128) / 256;
    assert n + 128 == 256 * d + r;
    assert Wrap8(n) as int - n == 256 * (-d);
  }

  /** Adding to a wrapped byte and wrapping again is wrapping the exact sum. */
  lemma Wrap8Shift(n: int, k: int)
    ensures Wrap8(Wrap8(n) as int + k) == Wrap8(n + k)
  {
    Wrap8Congruent(n);
    var w := Wrap8(n) as int;
    var q := (w - n) / 256;
    assert w == n + 256 * q;
    assert (w + k + 128) % 256 == (n + k + 128) % 256 by {
      ModShift(n + k + 128, q);
    }
  }

  lemma ModShift(a: int, q: int)
    ensures (a + 256 * q) % 256 == a % 256
  {
    var r := a % 256;
    var d := a / 256;
    assert a == 256 * d + r;
    assert a + 256 * q == 256 * (d + q) + r;
  }

  /** The map region `checkBounds` admits. */
  predicate InMap(x: int, y: int) {
    0 <= x < MaxMapDimension && 0 <= y < MaxMapDimension
  }

  /** Java's `/` on `int`, which truncates toward zero. */
  function JavaDiv(a: int, d: int): (q: int)
    requires d > 0
    ensures a >= 0 ==> q == a / d
  {
    if a >= 0 then a / d else -((-a) / d)
  }

  /** An in-map coordinate falls in one of the `CollisionMapDimension` tile rows or columns. */
  lemma TileBounds(t: int)
    ensures 0 <= t < MaxMapDimension ==> 0 <= JavaDiv(t, TileSize) < CollisionMapDimension
  {
    assert CollisionMapDimension == 512;
  }

  /** `colindex`: the counter of the tile holding (tx, ty). */
  function ColIndex(tx: int, ty: int): (r: int)
    ensures InMap(tx, ty) ==> 0 <= r < CellCount
  {
    TileBounds(tx);
    TileBounds(ty);
    assert CellCount == 512 * 512;
    JavaDiv(ty, TileSize) * CollisionMapDimension + JavaDiv(tx, TileSize)
  }

  /** Two in-map points share a counter exactly when they lie on the same tile. */
  lemma ColIndexSameTile(x1: int, y1: int, x2: int, y2: int)
    requires InMap(x1, y1) && InMap(x2, y2)
    ensures ColIndex(x1, y1) == ColIndex(x2, y2)
        <==> x1 / TileSize == x2 / TileSize && y1 / TileSize == y2 / TileSize
  {
    var a1, b1 := x1 / TileSize, y1 / TileSize;
    var a2, b2 := x2 / TileSize, y2 / TileSize;
    assert 0 <= a1 < 512 && 0 <= a2 < 512;
    if ColIndex(x1, y1) == ColIndex(x2, y2) {
      assert b1 * 512 + a1 == b2 * 512 + a2;
    }
  }

  /** The part of an agent the grid depends on. */
  datatype Body = Body(x: int, y: int, isFlyer: bool)

  /** An agent's velocity for the current frame. */
  datatype Velocity = Velocity(vx: int, vy: int)

  predicate OnTile(b: Body, c: int) {
    !b.isFlyer && ColIndex(b.x, b.y) == c
  }

  function One(b: Body, c: int): nat {
    if OnTile(b, c) then 1 else 0
  }

  predicate AllInMap(bs: seq<Body>) {
    forall i | 0 <= i < |bs| :: InMap(bs[i].x, bs[i].y)
  }

  /** Number of ground bodies in `bs` standing on tile `c`. */
  function Occupancy(bs: seq<Body>, c: int): nat
  {
    if bs == [] then 0 else One(bs[0], c) + Occupancy(bs[1..], c)
  }

  lemma {:induction false} OccupancyConcat(a: seq<Body>, b: seq<Body>, c: int)
    ensures Occupancy(a + b, c) == Occupancy(a, c) + Occupancy(b, c)
  {
    if a == [] {
      assert a + b == b;
    } else {
      assert (a + b)[1..] == a[1..] + b;
      OccupancyConcat(a[1..], b, c);
    }
  }

  /** Occupancy of a body list with one body replaced. */
  lemma OccupancyReplace(pre: seq<Body>, b: Body, b': Body, post: seq<Body>, c: int)
    ensures Occupancy(pre + [b'] + post, c) + One(b, c)
         == Occupancy(pre + [b] + post, c) + One(b', c)
  {
    OccupancyConcat(pre + [b'], post, c);
    OccupancyConcat(pre, [b'], c);
    OccupancyConcat(pre + [b], post, c);
    OccupancyConcat(pre, [b], c);
  }

  /** Occupancy of a body list split around one body. */
  lemma OccupancySplit(pre: seq<Body>, b: Body, post: seq<Body>, c: int)
    ensures Occupancy(pre + [b] + post, c) == Occupancy(pre, c) + One(b, c) + Occupancy(post, c)
  {
    OccupancyConcat(pre + [b], post, c);
    OccupancyConcat(pre, [b], c);
  }

  /** Swap-removal takes exactly the removed body's unit off its tile. */
  lemma OccupancyRemoveAt(bs: seq<Body>, i: nat, c: int)
    requires i < |bs|
    ensures Occupancy(RemoveAt(bs, i), c) + One(bs[i], c) == Occupancy(bs, c)
  {
    var r := RemoveAt(bs, i);
    var last := |bs| - 1;
    if i == last {
      assert bs == r + [bs[i]] + [];
      OccupancySplit(r, bs[i], [], c);
    } else {
      var mid := bs[i + 1..last];
      assert bs == bs[..i] + [bs[i]] + (mid + [bs[last]]);
      assert r == bs[..i] + [bs[last]] + mid;
      OccupancySplit(bs[..i], bs[i], mid + [bs[last]], c);
      OccupancySplit(bs[..i], bs[last], mid, c);
      OccupancySplit(mid, bs[last], [], c);
      assert mid + [bs[last]] + [] == mid + [bs[last]];
    }
  }

  /** A tile no ground body stands on has occupancy zero. */
  lemma {:induction false} OccupancyEmptyTile(bs: seq<Body>, c: int)
    requires forall i | 0 <= i < |bs| :: !OnTile(bs[i], c)
    ensures Occupancy(bs, c) == 0
  {
    if bs != [] {
      assert !OnTile(bs[0], c);
      OccupancyEmptyTile(bs[1..], c);
    }
  }

  /** The grid invariant: every counter is the (wrapped) number of ground bodies on its tile. */
  ghost predicate Consistent(grid: seq<Byte>, bs: seq<Body>) {
    |grid| == CellCount && forall c | 0 <= c < CellCount :: grid[c] == Wrap8(Occupancy(bs, c))
  }

  /** The grid after `collision[colindex(x, y)]++` for a ground body. */
  function Place(grid: seq<Byte>, b: Body): (r: seq<Byte>)
    requires |grid| == CellCount && InMap(b.x, b.y)
    ensures |r| == CellCount
  {
    if b.isFlyer then grid
    else var i := ColIndex(b.x, b.y); grid[i := Wrap8(grid[i] as int + 1)]
  }

  /** Adding a body to the agents and placing it keeps the grid invariant. */
  lemma PlaceKeepsConsistent(grid: seq<Byte>, pre: seq<Body>, b: Body, post: seq<Body>)
    requires Consistent(grid, pre + post) && InMap(b.x, b.y)
    ensures Consistent(Place(grid, b), pre + [b] + post)
  {
    var g := Place(grid, b);
    forall c | 0 <= c < CellCount
      ensures g[c] == Wrap8(Occupancy(pre + [b] + post, c))
    {
      OccupancyConcat(pre + [b], post, c);
      OccupancyConcat(pre, [b], c);
      OccupancyConcat(pre, post, c);
      assert Occupancy([b], c) == One(b, c);
      Wrap8Shift(Occupancy(pre + post, c), 1);
    }
  }

  /**
   * A group shrinking from `bs` to `bs2` while every counter loses the
   * ground bodies that left its tile keeps the grid invariant.
   */
  lemma ShrinkKeepsConsistent(grid: seq<Byte>, grid2: seq<Byte>,
                              pre: seq<Body>, bs: seq<Body>, bs2: seq<Body>, post: seq<Body>)
    requires Consistent(grid, pre + bs + post) && Drained(grid2, grid, bs, bs2)
    ensures Consistent(grid2, pre + bs2 + post)
  {
    forall c | 0 <= c < CellCount
      ensures grid2[c] == Wrap8(Occupancy(pre + bs2 + post, c))
    {
      ShrinkTile(grid[c], grid2[c], pre, bs, bs2, post, c);
    }
  }

  /** The grid after `collision[colindex(x, y)]--` for a ground body. */
  function Unplace(grid: seq<Byte>, b: Body): (r: seq<Byte>)
    requires |grid| == CellCount && InMap(b.x, b.y)
    ensures |r| == CellCount
  {
    if b.isFlyer then grid
    else var i := ColIndex(b.x, b.y); grid[i := Wrap8(grid[i] as int - 1)]
  }

  /**
   * Every counter of `grid` is that of `g0` less the units of the ground
   * bodies that left `total` to leave `bs`.
   */
  ghost predicate Drained(grid: seq<Byte>, g0: seq<Byte>, total: seq<Body>, bs: seq<Body>) {
    && |grid| == |g0| == CellCount
    && forall c | 0 <= c < CellCount ::
         grid[c] == Wrap8(g0[c] as int - (Occupancy(total, c) - Occupancy(bs, c)))
  }

  /** Swap-removing a body and taking it off the grid keeps the grid drained. */
  lemma UnplaceKeepsDrained(g: seq<Byte>, g0: seq<Byte>, total: seq<Body>, bs: seq<Body>, i: nat)
    requires Drained(g, g0, total, bs) && i < |bs| && AllInMap(bs)
    ensures Drained(Unplace(g, bs[i]), g0, total, RemoveAt(bs, i))
  {
    var g2 := Unplace(g, bs[i]);
    forall c | 0 <= c < CellCount
      ensures g2[c] == Wrap8(g0[c] as int - (Occupancy(total, c) - Occupancy(RemoveAt(bs, i), c)))
    {
      OccupancyRemoveAt(bs, i, c);
      assert g2[c] == if OnTile(bs[i], c) then Wrap8(g[c] as int - 1) else g[c];
      Wrap8Shift(g0[c] as int - (Occupancy(total, c) - Occupancy(bs, c)), -1);
    }
  }

  /** `ShrinkKeepsConsistent` for the counter of one tile `c`. */
  lemma ShrinkTile(g: Byte, g2: Byte, pre: seq<Body>, bs: seq<Body>, bs2: seq<Body>, post: seq<Body>, c: int)
    requires g == Wrap8(Occupancy(pre + bs + post, c))
    requires g2 == Wrap8(g as int - (Occupancy(bs, c) - Occupancy(bs2, c)))
    ensures g2 == Wrap8(Occupancy(pre + bs2 + post, c))
  {
    var before, after := Occupancy(pre + bs + post, c), Occupancy(pre + bs2 + post, c);
    var d := Occupancy(bs, c) - Occupancy(bs2, c);
    assert before - d == after by {
      OccupancyConcat(pre + bs, post, c);
      OccupancyConcat(pre, bs, c);
      OccupancyConcat(pre + bs2, post, c);
      OccupancyConcat(pre, bs2, c);
    }
    assert g2 == Wrap8(before - d) by {
      Wrap8Shift(before, -d);
    }
  }

  /**
   * `updatePosition` for one body: the destination is its position plus its
   * velocity; off the map nothing happens; a ground body entering another
   * tile needs that tile's counter to be at most `TileCapacity` and then
   * shifts one unit from its old counter to the new one.
   */
  function Move(grid: seq<Byte>, b: Body, v: Velocity): (r: (seq<Byte>, Body))
    requires |grid| == CellCount && InMap(b.x, b.y)
    ensures |r.0| == CellCount && InMap(r.1.x, r.1.y) && r.1.isFlyer == b.isFlyer
  {
    var tx := b.x + v.vx;
    var ty := b.y + v.vy;
    if !InMap(tx, ty) then (grid, b)
    else if b.isFlyer then (grid, Body(tx, ty, true))
    else
      var o := ColIndex(b.x, b.y);
      var n := ColIndex(tx, ty);
      if o == n then (grid, Body(tx, ty, false))
      else if grid[n] as int > TileCapacity then (grid, b)
      else (grid[o := Wrap8(grid[o] as int - 1)][n := Wrap8(grid[n] as int + 1)], Body(tx, ty, false))
  }

  /** What `Move` does, case by case. */
  lemma MoveCases(grid: seq<Byte>, b: Body, v: Velocity)
    requires |grid| == CellCount && InMap(b.x, b.y)
    ensures var r := Move(grid, b, v);
            var tx, ty := b.x + v.vx, b.y + v.vy;
            var o, n := ColIndex(b.x, b.y), ColIndex(tx, ty);
            && (r.1 == b || r.1 == Body(tx, ty, b.isFlyer))
            && (!InMap(tx, ty) ==> r == (grid, b))
            && (InMap(tx, ty) && (b.isFlyer || o == n) ==> r == (grid, Body(tx, ty, b.isFlyer)))
            && (InMap(tx, ty) && !b.isFlyer && o != n ==>
                  if grid[n] as int <= TileCapacity
                  then r.1 == Body(tx, ty, false)
                       && r.0 == grid[o := Wrap8(grid[o] as int - 1)][n := Wrap8(grid[n] as int + 1)]
                  else r == (grid, b))
  {
  }

  /** Moving one body keeps the grid invariant of the whole body list. */
  lemma MoveKeepsConsistent(grid: seq<Byte>, pre: seq<Body>, b: Body, v: Velocity, post: seq<Body>)
    requires InMap(b.x, b.y) && Consistent(grid, pre + [b] + post)
    ensures Consistent(Move(grid, b, v).0, pre + [Move(grid, b, v).1] + post)
  {
    var r := Move(grid, b, v);
    var b' := r.1;
    var o, n := ColIndex(b.x, b.y), ColIndex(b'.x, b'.y);
    forall c | 0 <= c < CellCount
      ensures r.0[c] == Wrap8(Occupancy(pre + [b'] + post, c))
    {
      OccupancyReplace(pre, b, b', post, c);
      if r.0 == grid {
        if b' != b {
          assert b.isFlyer || o == ColIndex(b.x, b.y);
          assert One(b, c) == One(b', c);
        }
      } else {
        assert !b.isFlyer && !b'.isFlyer && o != n;
        if c == o {
          Wrap8Shift(Occupancy(pre + [b] + post, c), -1);
        } else if c == n {
          Wrap8Shift(Occupancy(pre + [b] + post, c), 1);
        }
      }
    }
  }

  /**
   * The grid and positions after `updatePosition` has run for the bodies at
   * indices `i` and above, from the last index down to `i`, each move seeing
   * the grid left by the ones before it; the bodies below `i` are untouched.
   */
  function MoveFrom(grid: seq<Byte>, bs: seq<Body>, vs: seq<Velocity>, i: nat): (r: (seq<Byte>, seq<Body>))
    requires |grid| == CellCount && |vs| == |bs| && AllInMap(bs) && i <= |bs|
    ensures |r.0| == CellCount && |r.1| == |bs| && AllInMap(r.1)
    ensures forall j | 0 <= j < |bs| :: r.1[j].isFlyer == bs[j].isFlyer
    ensures forall j | 0 <= j < i :: r.1[j] == bs[j]
    decreases |bs| - i
  {
    if i == |bs| then (grid, bs)
    else
      var rest := MoveFrom(grid, bs, vs, i + 1);
      var m := Move(rest.0, bs[i], vs[i]);
      (m.0, rest.1[i := m.1])
  }

  /** One more body moved: the unfolding of `MoveFrom` at `i`. */
  lemma MoveFromStep(grid: seq<Byte>, bs: seq<Body>, vs: seq<Velocity>, i: nat)
    requires |grid| == CellCount && |vs| == |bs| && AllInMap(bs) && i < |bs|
    ensures var rest := MoveFrom(grid, bs, vs, i + 1);
            rest.1[i] == bs[i]
            && MoveFrom(grid, bs, vs, i) == (Move(rest.0, rest.1[i], vs[i]).0, rest.1[i := Move(rest.0, rest.1[i], vs[i]).1])
  {
  }

  /** The grid and positions after `updatePosition` has run for every body of a group. */
  function MoveAll(grid: seq<Byte>, bs: seq<Body>, vs: seq<Velocity>): (r: (seq<Byte>, seq<Body>))
    requires |grid| == CellCount && |vs| == |bs| && AllInMap(bs)
    ensures |r.0| == CellCount && |r.1| == |bs| && AllInMap(r.1)
    ensures forall j | 0 <= j < |bs| :: r.1[j].isFlyer == bs[j].isFlyer
  {
    MoveFrom(grid, bs, vs, 0)
  }

  /** Moving the bodies from index `i` on keeps the grid invariant of all agents. */
  lemma {:induction false} MoveFromKeepsConsistent(grid: seq<Byte>, pre: seq<Body>, bs: seq<Body>,
                                                   vs: seq<Velocity>, post: seq<Body>, i: nat)
    requires |vs| == |bs| && AllInMap(bs) && i <= |bs| && Consistent(grid, pre + bs + post)
    ensures Consistent(MoveFrom(grid, bs, vs, i).0, pre + MoveFrom(grid, bs, vs, i).1 + post)
    decreases |bs| - i
  {
    if i < |bs| {
      MoveFromKeepsConsistent(grid, pre, bs, vs, post, i + 1);
      var rest := MoveFrom(grid, bs, vs, i + 1);
      var m := Move(rest.0, bs[i], vs[i]);
      var left, right := pre + rest.1[..i], rest.1[i + 1..] + post;
      assert rest.1[i] == bs[i];
      assert pre + rest.1 + post == left + [bs[i]] + right;
      MoveKeepsConsistent(rest.0, left, bs[i], vs[i], right);
      assert pre + rest.1[i := m.1] + post == left + [m.1] + right;
    }
  }

  /** Moving every body of a group keeps the grid invariant of all agents. */
  lemma MoveAllKeepsConsistent(grid: seq<Byte>, pre: seq<Body>, bs: seq<Body>,
                               vs: seq<Velocity>, post: seq<Body>)
    requires |vs| == |bs| && AllInMap(bs) && Consistent(grid, pre + bs + post)
    ensures Consistent(MoveAll(grid, bs, vs).0, pre + MoveAll(grid, bs, vs).1 + post)
  {
    MoveFromKeepsConsistent(grid, pre, bs, vs, post, 0);
  }

  /** Moving the first of two groups keeps the grid invariant of both. */
  lemma MoveFirstKeepsConsistent(grid: seq<Byte>, ba: seq<Body>, va: seq<Velocity>, bb: seq<Body>)
    requires |va| == |ba| && AllInMap(ba) && Consistent(grid, ba + bb)
    ensures Consistent(MoveAll(grid, ba, va).0, MoveAll(grid, ba, va).1 + bb)
  {
    assert [] + ba + bb == ba + bb;
    MoveAllKeepsConsistent(grid, [], ba, va, bb);
    assert [] + MoveAll(grid, ba, va).1 + bb == MoveAll(grid, ba, va).1 + bb;
  }

  /** Moving the second of two groups keeps the grid invariant of both. */
  lemma MoveSecondKeepsConsistent(grid: seq<Byte>, ba: seq<Body>, bb: seq<Body>, vb: seq<Velocity>)
    requires |vb| == |bb| && AllInMap(bb) && Consistent(grid, ba + bb)
    ensures Consistent(MoveAll(grid, bb, vb).0, ba + MoveAll(grid, bb, vb).1)
  {
    assert ba + bb + [] == ba + bb;
    MoveAllKeepsConsistent(grid, ba, bb, vb, []);
    assert ba + MoveAll(grid, bb, vb).1 + [] == ba + MoveAll(grid, bb, vb).1;
  }

  /** The first of two groups shrinking keeps the grid invariant of both. */
  lemma ShrinkFirstKeepsConsistent(grid: seq<Byte>, grid2: seq<Byte>, bs: seq<Body>, bs2: seq<Body>, post: seq<Body>)
    requires Consistent(grid, bs + post) && Drained(grid2, grid, bs, bs2)
    ensures Consistent(grid2, bs2 + post)
  {
    assert [] + bs + post == bs + post;
    ShrinkKeepsConsistent(grid, grid2, [], bs, bs2, post);
    assert [] + bs2 + post == bs2 + post;
  }

  /** The second of two groups shrinking keeps the grid invariant of both. */
  lemma ShrinkSecondKeepsConsistent(grid: seq<Byte>, grid2: seq<Byte>, pre: seq<Body>, bs: seq<Body>, bs2: seq<Body>)
    requires Consistent(grid, pre + bs) && Drained(grid2, grid, bs, bs2)
    ensures Consistent(grid2, pre + bs2)
  {
    assert pre + bs + [] == pre + bs;
    ShrinkKeepsConsistent(grid, grid2, pre, bs, bs2, []);
    assert pre + bs2 + [] == pre + bs2;
  }

  /** Appending a placed body to the second of two groups keeps the grid invariant. */
  lemma PlaceSecondKeepsConsistent(grid: seq<Byte>, pre: seq<Body>, mid: seq<Body>, b: Body)
    requires Consistent(grid, pre + mid) && InMap(b.x, b.y)
    ensures Consistent(Place(grid, b), pre + (mid + [b]))
  {
    assert pre + mid + [] == pre + mid;
    PlaceKeepsConsistent(grid, pre + mid, b, []);
    assert pre + mid + [b] + [] == pre + (mid + [b]);
  }

  lemma AllInMapConcat(a: seq<Body>, b: seq<Body>)
    ensures AllInMap(a + b) <==> AllInMap(a) && AllInMap(b)
  {
    assert forall j | 0 <= j < |b| :: b[j] == (a + b)[|a| + j];
    assert forall j | 0 <= j < |a| :: a[j] == (a + b)[j];
  }

  /** The tile of a body, flyer or not. */
  function TileOf(b: Body): int {
    ColIndex(b.x, b.y)
  }

  /**
   * The grid after `reset`'s loop over one group has zeroed the tile of
   * every body of `bs[i..]`, from the last body down to `bs[i]`.
   */
  function Cleared(grid: seq<Byte>, bs: seq<Body>, i: nat): (r: seq<Byte>)
    requires |grid| == CellCount && AllInMap(bs) && i <= |bs|
    ensures |r| == CellCount
    decreases |bs| - i
  {
    if i == |bs| then grid else Cleared(grid, bs, i + 1)[TileOf(bs[i]) := 0]
  }

  /** Clearing zeroes exactly the tiles of the cleared bodies and leaves every other counter alone. */
  lemma {:induction false} ClearedEffect(grid: seq<Byte>, bs: seq<Body>, i: nat)
    requires |grid| == CellCount && AllInMap(bs) && i <= |bs|
    ensures forall j | i <= j < |bs| :: Cleared(grid, bs, i)[TileOf(bs[j])] == 0
    ensures forall c | 0 <= c < CellCount && (forall j | i <= j < |bs| :: TileOf(bs[j]) != c) ::
              Cleared(grid, bs, i)[c] == grid[c]
    decreases |bs| - i
  {
    if i < |bs| {
      ClearedEffect(grid, bs, i + 1);
    }
  }

  /**
   * `reset` empties the grid: zeroing the tiles of both groups leaves no
   * counter set, because every other tile holds no ground body.
   */
  lemma ClearingBothEmpties(grid: seq<Byte>, ba: seq<Body>, bb: seq<Body>)
    requires Consistent(grid, ba + bb) && AllInMap(ba) && AllInMap(bb)
    ensures forall c | 0 <= c < CellCount :: Cleared(Cleared(grid, ba, 0), bb, 0)[c] == 0
  {
    var g1 := Cleared(grid, ba, 0);
    ClearedEffect(grid, ba, 0);
    ClearedEffect(g1, bb, 0);
    forall c | 0 <= c < CellCount
      ensures Cleared(g1, bb, 0)[c] == 0
    {
      if (forall j | 0 <= j < |bb| :: TileOf(bb[j]) != c) && (forall j | 0 <= j < |ba| :: TileOf(ba[j]) != c) {
        forall k | 0 <= k < |ba + bb|
          ensures !OnTile((ba + bb)[k], c)
        {
          if k < |ba| { assert (ba + bb)[k] == ba[k]; } else { assert (ba + bb)[k] == bb[k - |ba|]; }
        }
        OccupancyEmptyTile(ba + bb, c);
      }
    }
  }
}
