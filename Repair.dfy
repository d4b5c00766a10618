/**
 * What the two SCV repair behaviours have in common: the repair range, the
 * capped heal, and a description, independent of any loop, of the ally a
 * satisficing nearest-search picks. Both scans keep the strictly closer
 * candidate and stop at the first one within repair range; they differ in
 * the direction of the scan and in whether stasised allies are passed over.
 */
module Repair {
  import opened Agents

  /** `SCV_REPAIR_RANGE_SQUARED`: an SCV repairs an ally within this squared distance. */
  const RepairRangeSquared: int := 5 * 5

  /** `Integer.MAX_VALUE`, the distance both scans start from. */
  const IntMaxValue: int := 0x7fff_ffff

  /**
   * One repair step on an ally with `health` out of `maxHealth`: add `rate`,
   * then cut the result back to `maxHealth` if it went past it.
   */
  function Healed(health: int, rate: int, maxHealth: int): (h: int)
    ensures h <= maxHealth
    ensures health + rate <= maxHealth ==> h == health + rate
    ensures health + rate > maxHealth ==> h == maxHealth
  {
    var raised := health + rate;
    if raised > maxHealth then maxHealth else raised
  }

  /** A repair by a non-negative rate never lowers health that was within the cap. */
  lemma HealedRaises(health: int, rate: int, maxHealth: int)
    requires rate >= 0 && health <= maxHealth
    ensures health <= Healed(health, rate, maxHealth) <= maxHealth
    ensures Healed(health, rate, maxHealth) == health <==> rate == 0 || health == maxHealth
  {
  }

  /**
   * An ally the scan may choose for `agent`: a damaged mechanical unit other
   * than the repairer; when `checkStasis` holds, also one not in stasis.
   */
  predicate Eligible(agent: Agent, ally: Agent, checkStasis: bool)
    reads ally`healthShifted
  {
    ally.isMechanic && !(checkStasis && ally.isStasised) && ally.healthShifted < ally.maxHealthShifted
    && ally != agent
  }

  /** Slot `j` is examined before slot `k`: from the top down when `reverse`, else from 0 up. */
  predicate Earlier(reverse: bool, j: int, k: int) {
    if reverse then k < j else j < k
  }

  /** No eligible ally among `allies[lo..hi]` lies nearer than `Integer.MAX_VALUE`. */
  ghost predicate NoneWithin(agent: Agent, allies: seq<Agent>, checkStasis: bool, lo: int, hi: int)
    requires 0 <= lo <= hi <= |allies|
    reads agent`x, agent`y, allies`x, allies`y, allies`healthShifted
  {
    forall j | lo <= j < hi && Eligible(agent, allies[j], checkStasis) ::
      DistanceSquared(agent, allies[j]) >= IntMaxValue
  }

  /**
   * Scanning only the slots `lo..hi` picks slot `k` at squared distance `d`:
   * it is eligible and nearer than `Integer.MAX_VALUE`; every eligible ally
   * examined before it lay farther away and out of range (else the scan
   * would have kept or stopped at that one); and unless `d` is within range,
   * which stops the scan, no eligible ally examined after it is nearer.
   */
  ghost predicate PickedWithin(agent: Agent, allies: seq<Agent>, checkStasis: bool, reverse: bool,
                               lo: int, hi: int, k: int, d: int)
    requires 0 <= lo <= hi <= |allies|
    reads agent`x, agent`y, allies`x, allies`y, allies`healthShifted
  {
    && lo <= k < hi && Eligible(agent, allies[k], checkStasis)
    && d == DistanceSquared(agent, allies[k]) && d < IntMaxValue
    && (forall j | lo <= j < hi && Earlier(reverse, j, k) && Eligible(agent, allies[j], checkStasis) ::
          DistanceSquared(agent, allies[j]) > d && DistanceSquared(agent, allies[j]) > RepairRangeSquared)
    && (d > RepairRangeSquared ==>
          forall j | lo <= j < hi && Earlier(reverse, k, j) && Eligible(agent, allies[j], checkStasis) ::
            DistanceSquared(agent, allies[j]) >= d)
  }

  /**
   * A whole scan of `allies` ends with `selected` at squared distance `d`:
   * nothing and `Integer.MAX_VALUE` when no eligible ally is nearer than
   * that, otherwise the ally in a slot the scan picks.
   */
  ghost predicate Picked(agent: Agent, allies: seq<Agent>, checkStasis: bool, reverse: bool,
                         selected: Agent?, d: int)
    reads agent`x, agent`y, allies`x, allies`y, allies`healthShifted
  {
    if selected == null then d == IntMaxValue && NoneWithin(agent, allies, checkStasis, 0, |allies|)
    else exists k | 0 <= k < |allies| ::
           allies[k] == selected && PickedWithin(agent, allies, checkStasis, reverse, 0, |allies|, k, d)
  }

  /** The description determines the scan's outcome: at most one choice and distance fit it. */
  lemma PickedIsUnique(agent: Agent, allies: seq<Agent>, checkStasis: bool, reverse: bool,
                       s1: Agent?, d1: int, s2: Agent?, d2: int)
    requires Picked(agent, allies, checkStasis, reverse, s1, d1)
    requires Picked(agent, allies, checkStasis, reverse, s2, d2)
    ensures s1 == s2 && d1 == d2
  {
    if s1 == null && s2 != null {
      assert false;
    } else if s1 != null && s2 == null {
      assert false;
    } else if s1 != null && s2 != null {
      var k1 :| 0 <= k1 < |allies| && allies[k1] == s1
                && PickedWithin(agent, allies, checkStasis, reverse, 0, |allies|, k1, d1);
      var k2 :| 0 <= k2 < |allies| && allies[k2] == s2
                && PickedWithin(agent, allies, checkStasis, reverse, 0, |allies|, k2, d2);
      if Earlier(reverse, k1, k2) {
        assert false;
      } else if Earlier(reverse, k2, k1) {
        assert false;
      }
    }
  }

  /**
   * The scan finds nothing exactly when no eligible ally is nearer than
   * `Integer.MAX_VALUE`; a choice is always an eligible ally at the
   * distance reported.
   */
  lemma PickedNothing(agent: Agent, allies: seq<Agent>, checkStasis: bool, reverse: bool,
                      selected: Agent?, d: int)
    requires Picked(agent, allies, checkStasis, reverse, selected, d)
    ensures selected == null <==> NoneWithin(agent, allies, checkStasis, 0, |allies|)
    ensures selected != null ==>
              selected in allies && Eligible(agent, selected, checkStasis) && d == DistanceSquared(agent, selected)
  {
    if selected != null {
      var k :| 0 <= k < |allies| && allies[k] == selected
               && PickedWithin(agent, allies, checkStasis, reverse, 0, |allies|, k, d);
      assert DistanceSquared(agent, allies[k]) < IntMaxValue;
    }
  }

  /**
   * A choice out of repair range is a nearest eligible ally: the scan only
   * stops early on an ally within range.
   */
  lemma PickedNearest(agent: Agent, allies: seq<Agent>, checkStasis: bool, reverse: bool,
                      selected: Agent?, d: int)
    requires Picked(agent, allies, checkStasis, reverse, selected, d)
    requires d > RepairRangeSquared
    ensures forall j | 0 <= j < |allies| && Eligible(agent, allies[j], checkStasis) ::
              DistanceSquared(agent, allies[j]) >= d
  {
    if selected != null {
      var k :| 0 <= k < |allies| && allies[k] == selected
               && PickedWithin(agent, allies, checkStasis, reverse, 0, |allies|, k, d);
      forall j | 0 <= j < |allies| && Eligible(agent, allies[j], checkStasis)
        ensures DistanceSquared(agent, allies[j]) >= d
      {
        if Earlier(reverse, j, k) {
        } else if Earlier(reverse, k, j) {
        } else {
          assert j == k;
        }
      }
    }
  }

  /** When some eligible ally is within repair range, the scan picks one within range. */
  lemma PicksInRange(agent: Agent, allies: seq<Agent>, checkStasis: bool, reverse: bool,
                     selected: Agent?, d: int, j: int)
    requires Picked(agent, allies, checkStasis, reverse, selected, d)
    requires 0 <= j < |allies| && Eligible(agent, allies[j], checkStasis)
    requires DistanceSquared(agent, allies[j]) <= RepairRangeSquared
    ensures selected != null && d <= RepairRangeSquared
  {
    if d > RepairRangeSquared {
      PickedNearest(agent, allies, checkStasis, reverse, selected, d);
      assert false;
    }
  }

  /**
   * The end of both `simUnit`s once the scan is over: with no ally chosen,
   * report no activity and touch nothing; otherwise steer toward it, and
   * if it lies within range also repair it by the ally's own construction
   * rate, capped at its maximum health. Either way report activity.
   */
  method ApproachOrRepair(agent: Agent, selected: Agent?, dist: int) returns (active: bool)
    modifies agent`vx, agent`vy, Present(selected)`healthShifted
    ensures active <==> selected != null
    ensures selected == null ==> agent.vx == old(agent.vx) && agent.vy == old(agent.vy)
    ensures selected != null ==>
              selected.healthShifted
              == if dist <= RepairRangeSquared
                 then Healed(old(selected.healthShifted), selected.hpConstructionRate, selected.maxHealthShifted)
                 else old(selected.healthShifted)
  {
    if selected == null {
      return false;
    }
    MoveToward(agent, selected, dist);
    if dist > RepairRangeSquared {
      return true;
    }
    selected.healthShifted := selected.healthShifted + selected.hpConstructionRate;
    if selected.healthShifted > selected.maxHealthShifted {
      selected.healthShifted := selected.maxHealthShifted;
    }
    return true;
  }
}
