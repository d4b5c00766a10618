/**
 * The straight-line scans of jump point search (Harabor and Grastien) and
 * the start-equals-end shortcut of `findPath`. The map is an abstract
 * walkability predicate whose open cells lie within a bounded square; the
 * open-list search behind `findPath` is a parameter.
 */
module Jps {
  import opened Wrappers

  datatype Position = Position(x: int, y: int)

  /** What `findPath` answers: a length and the cells of the path. */
  datatype PathResult = PathResult(length: int, path: seq<Position>)

  /** Every walkable cell lies within `bound` of the origin on both axes. */
  ghost predicate Bounded(isWalkable: (int, int) -> bool, bound: int) {
    forall x, y :: isWalkable(x, y) ==> -bound <= x < bound && -bound <= y < bound
  }

  /**
   * `findPath`: a search from a cell to itself is the one-cell path of
   * length zero; any other search is left to `searchFrom`.
   */
  function FindPath(start: Position, end: Position, searchFrom: Position -> PathResult): (r: PathResult)
    ensures start == end ==> r.length == 0 && r.path == [start] && r.path[0] == start && r.path[|r.path| - 1] == end
    ensures start != end ==> r == searchFrom(start)
  {
    if start == end then PathResult(0, [start]) else searchFrom(start)
  }

  /**
   * A scan runs along one axis: `along` is the coordinate that changes,
   * `across` the one that stays fixed. For a horizontal scan these are x
   * and y, for a vertical one y and x.
   */
  function Walk(isWalkable: (int, int) -> bool, horizontal: bool, along: int, across: int): bool {
    if horizontal then isWalkable(along, across) else isWalkable(across, along)
  }

  function Spot(horizontal: bool, along: int, across: int): Position {
    if horizontal then Position(along, across) else Position(across, along)
  }

  /** The coordinate `n` steps of `d` from `start` along the axis, that is `start + n * d`. */
  function Cell(start: int, d: int, n: nat): int {
    if n == 0 then start else Cell(start, d, n - 1) + d
  }

  /**
   * A forced neighbour while moving by `d`: on one side the cell beside the
   * scan is blocked while the cell diagonally ahead on that side is open.
   */
  predicate Forced(isWalkable: (int, int) -> bool, horizontal: bool, along: int, across: int, d: int) {
    || (!Walk(isWalkable, horizontal, along, across - 1) && Walk(isWalkable, horizontal, along + d, across - 1))
    || (!Walk(isWalkable, horizontal, along, across + 1) && Walk(isWalkable, horizontal, along + d, across + 1))
  }

  /** Where a scan may stop: the target or a cell with a forced neighbour. */
  predicate JumpPoint(isWalkable: (int, int) -> bool, target: Position, horizontal: bool,
                      along: int, across: int, d: int)
  {
    Spot(horizontal, along, across) == target || Forced(isWalkable, horizontal, along, across, d)
  }

  /** The scan from `start` by `d` passes steps 1 to `n - 1`: each is open and no jump point. */
  ghost predicate Clear(isWalkable: (int, int) -> bool, target: Position, horizontal: bool,
                        start: int, across: int, d: int, n: nat)
  {
    forall m | 1 <= m < n ::
      Walk(isWalkable, horizontal, Cell(start, d, m), across)
      && !JumpPoint(isWalkable, target, horizontal, Cell(start, d, m), across, d)
  }

  lemma ClearStep(isWalkable: (int, int) -> bool, target: Position, horizontal: bool,
                  start: int, across: int, d: int, n: nat)
    requires Clear(isWalkable, target, horizontal, start, across, d, n)
    requires Walk(isWalkable, horizontal, Cell(start, d, n), across)
    requires !JumpPoint(isWalkable, target, horizontal, Cell(start, d, n), across, d)
    ensures Clear(isWalkable, target, horizontal, start, across, d, n + 1)
  {
  }

  /**
   * The scan from `start` by `d` ends at step `n`: every cell before it is
   * open and no jump point, and the cell at step `n` is blocked or a jump
   * point.
   */
  ghost predicate StopsAt(isWalkable: (int, int) -> bool, target: Position, horizontal: bool,
                          start: int, across: int, d: int, n: nat)
  {
    && n >= 1
    && Clear(isWalkable, target, horizontal, start, across, d, n)
    && (!Walk(isWalkable, horizontal, Cell(start, d, n), across)
        || JumpPoint(isWalkable, target, horizontal, Cell(start, d, n), across, d))
  }

  /** The answer for a scan that ends at step `n`: the cell there if it is open, else nothing. */
  function Landing(isWalkable: (int, int) -> bool, horizontal: bool, start: int, across: int, d: int, n: nat)
    : Option<Position>
  {
    if Walk(isWalkable, horizontal, Cell(start, d, n), across) then Some(Spot(horizontal, Cell(start, d, n), across))
    else None
  }

  /** A scan has one end: the first step that is blocked or a jump point. */
  lemma StopIsFirst(isWalkable: (int, int) -> bool, target: Position, horizontal: bool,
                    start: int, across: int, d: int, n1: nat, n2: nat)
    requires StopsAt(isWalkable, target, horizontal, start, across, d, n1)
    requires StopsAt(isWalkable, target, horizontal, start, across, d, n2)
    ensures n1 == n2
  {
  }

  /**
   * A scan that lands reaches its landing cell over open cells only, and
   * lands on a jump point; one that lands nowhere was stopped by a blocked
   * cell.
   */
  lemma LandingIsJumpPoint(isWalkable: (int, int) -> bool, target: Position, horizontal: bool,
                           start: int, across: int, d: int, n: nat)
    requires StopsAt(isWalkable, target, horizontal, start, across, d, n)
    ensures Landing(isWalkable, horizontal, start, across, d, n).Some? ==>
              && Landing(isWalkable, horizontal, start, across, d, n).value == Spot(horizontal, Cell(start, d, n), across)
              && (forall m | 1 <= m <= n :: Walk(isWalkable, horizontal, Cell(start, d, m), across))
              && JumpPoint(isWalkable, target, horizontal, Cell(start, d, n), across, d)
    ensures Landing(isWalkable, horizontal, start, across, d, n).None? ==>
              !Walk(isWalkable, horizontal, Cell(start, d, n), across)
  {
  }

  /** Bit 0 for the side at `across - 1`, bit 1 for the side at `across + 1`: set where blocked. */
  function BlockedMask(isWalkable: (int, int) -> bool, horizontal: bool, along: int, across: int): bv32 {
    (if Walk(isWalkable, horizontal, along, across - 1) then 0 else 1)
    | (if Walk(isWalkable, horizontal, along, across + 1) then 0 else 2)
  }

  /** The same two bits, set where open. */
  function OpenMask(isWalkable: (int, int) -> bool, horizontal: bool, along: int, across: int): bv32 {
    (if Walk(isWalkable, horizontal, along, across - 1) then 1 else 0)
    | (if Walk(isWalkable, horizontal, along, across + 1) then 2 else 0)
  }

  /**
   * The bitmask test of the scans is the forced-neighbour test: a mask
   * whose low two bits are the blocked sides of one cell, and-ed with the
   * open sides of the next, is non-zero exactly when a neighbour is forced.
   * And complementing the open sides of the next cell gives, in the low two
   * bits, that cell's blocked sides, which is what `a = ~b` carries forward.
   */
  lemma MaskTestIsForced(isWalkable: (int, int) -> bool, horizontal: bool, along: int, across: int, d: int,
                         a: bv32)
    requires a & 3 == BlockedMask(isWalkable, horizontal, along, across)
    ensures ((a & OpenMask(isWalkable, horizontal, along + d, across)) != 0)
            <==> Forced(isWalkable, horizontal, along, across, d)
    ensures (!OpenMask(isWalkable, horizontal, along + d, across) & 3)
            == BlockedMask(isWalkable, horizontal, along + d, across)
  {
    var w1, w2 := Walk(isWalkable, horizontal, along, across - 1), Walk(isWalkable, horizontal, along, across + 1);
    var v1, v2 := Walk(isWalkable, horizontal, along + d, across - 1), Walk(isWalkable, horizontal, along + d, across + 1);
    var b := OpenMask(isWalkable, horizontal, along + d, across);
    assert b == (if v1 then 1 else 0) | (if v2 then 2 else 0);
    assert a & b == (a & 3) & b by {
      assert b & 3 == b;
    }
  }

  /**
   * `jumpHorizontal`: from (`px`, `py`) step by `dx` along the row while
   * the cell is open, and answer the first open cell that is the target or
   * has a forced neighbour, or nothing once a blocked cell comes first.
   */
  method JumpHorizontal(isWalkable: (int, int) -> bool, target: Position, px: int, py: int, dx: int,
                        ghost bound: int)
    returns (r: Option<Position>)
    requires dx != 0 && Bounded(isWalkable, bound)
    ensures exists n :: StopsAt(isWalkable, target, true, px, py, dx, n) && r == Landing(isWalkable, true, px, py, dx, n)
  {
    var x := px + dx;
    var a := BlockedMask(isWalkable, true, x, py);
    ghost var n: nat := 1;
    while isWalkable(x, py)
      invariant n >= 1 && x == Cell(px, dx, n)
      invariant a & 3 == BlockedMask(isWalkable, true, x, py)
      invariant Clear(isWalkable, target, true, px, py, dx, n)
      decreases if dx > 0 then bound - x else bound + x
    {
      var b := OpenMask(isWalkable, true, x + dx, py);
      MaskTestIsForced(isWalkable, true, x, py, dx, a);
      if (x == target.x && py == target.y) || (a & b) != 0 {
        assert StopsAt(isWalkable, target, true, px, py, dx, n);
        return Some(Position(x, py));
      }
      ClearStep(isWalkable, target, true, px, py, dx, n);
      x := x + dx;
      a := !b;
      n := n + 1;
    }
    assert StopsAt(isWalkable, target, true, px, py, dx, n);
    return None;
  }

  /**
   * `jumpVertical`: the same scan down or up the column at `px`, stepping
   * by `dy`, with the neighbours at `px - 1` and `px + 1`.
   */
  method JumpVertical(isWalkable: (int, int) -> bool, target: Position, px: int, py: int, dy: int,
                      ghost bound: int)
    returns (r: Option<Position>)
    requires dy != 0 && Bounded(isWalkable, bound)
    ensures exists n :: StopsAt(isWalkable, target, false, py, px, dy, n) && r == Landing(isWalkable, false, py, px, dy, n)
  {
    var y := py + dy;
    var a := BlockedMask(isWalkable, false, y, px);
    ghost var n: nat := 1;
    while isWalkable(px, y)
      invariant n >= 1 && y == Cell(py, dy, n)
      invariant a & 3 == BlockedMask(isWalkable, false, y, px)
      invariant Clear(isWalkable, target, false, py, px, dy, n)
      decreases if dy > 0 then bound - y else bound + y
    {
      var b := OpenMask(isWalkable, false, y + dy, px);
      MaskTestIsForced(isWalkable, false, y, px, dy, a);
      if (px == target.x && y == target.y) || (a & b) != 0 {
        assert StopsAt(isWalkable, target, false, py, px, dy, n);
        return Some(Position(px, y));
      }
      ClearStep(isWalkable, target, false, py, px, dy, n);
      y := y + dy;
      a := !b;
      n := n + 1;
    }
    assert StopsAt(isWalkable, target, false, py, px, dy, n);
    return None;
  }
}
