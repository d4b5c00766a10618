/**
 * `RepairerBehavior.simUnit`: an SCV keeps repairing the ally it repaired
 * last when the stickiness test passes, and otherwise scans the allies from
 * the last slot down for a damaged mechanical unit that is not in stasis.
 */
module RepairerBehavior {
  import opened Agents
  import opened Repair

  /**
   * The stickiness test as the code states it: there is a last ally, the
   * repairer ITSELF is below its maximum health, and the last ally is within
   * repair range. The last ally's own health, kind, stasis and liveness are
   * not looked at.
   */
  predicate Sticky(agent: Agent)
    reads agent`lastAlly, agent`healthShifted, agent`x, agent`y
    reads Present(agent.lastAlly)`x, Present(agent.lastAlly)`y
  {
    agent.lastAlly != null && agent.healthShifted < agent.maxHealthShifted
    && DistanceSquared(agent, agent.lastAlly) <= RepairRangeSquared
  }

  /**
   * The stickiness test with the health check moved to the last ally, the
   * evident intent of the `lastAlly` test: keep repairing an ally while it
   * is still damaged and within range. (The last ally's being alive is not
   * checked here either; the model keeps only the health comparison fixed.)
   */
  predicate StickyIntended(agent: Agent)
    reads agent`lastAlly, agent`x, agent`y, Present(agent.lastAlly)`x, Present(agent.lastAlly)`y,
          Present(agent.lastAlly)`healthShifted
  {
    agent.lastAlly != null && agent.lastAlly.healthShifted < agent.lastAlly.maxHealthShifted
    && DistanceSquared(agent, agent.lastAlly) <= RepairRangeSquared
  }

  /**
   * The scan of `simUnit`, from the last slot down: the nearest damaged
   * mechanical ally not in stasis, except that the first one found within
   * repair range ends the search.
   */
  method Scan(agent: Agent, allies: seq<Agent>) returns (selected: Agent?, dist: int)
    ensures Picked(agent, allies, true, true, selected, dist)
  {
    selected, dist := null, IntMaxValue;
    ghost var k := -1;
    var i := |allies| - 1;
    while i >= 0
      invariant -1 <= i < |allies| && dist > RepairRangeSquared
      invariant selected == null ==> dist == IntMaxValue && NoneWithin(agent, allies, true, i + 1, |allies|)
      invariant selected != null ==>
                  0 <= k < |allies| && allies[k] == selected
                  && PickedWithin(agent, allies, true, true, i + 1, |allies|, k, dist)
    {
      var ally := allies[i];
      if ally.isMechanic && !ally.isStasised && ally.healthShifted < ally.maxHealthShifted && ally != agent {
        var distance := DistanceSquared(agent, ally);
        if distance < dist {
          dist, selected, k := distance, ally, i;
          if dist <= RepairRangeSquared {
            break;
          }
        }
      }
      i := i - 1;
    }
  }

  /**
   * `simUnit`: choose the last ally when the stickiness test passes, else
   * the scan's choice; remember the choice (or its absence) as the last
   * ally; then approach or repair it. The answer is whether an ally was
   * chosen. Only the chosen ally's health changes.
   */
  method SimUnit(agent: Agent, allies: seq<Agent>, enemies: seq<Agent>)
    returns (active: bool, ghost selected: Agent?, ghost dist: int)
    modifies agent`lastAlly, agent`vx, agent`vy, allies`healthShifted,
             Present(agent.lastAlly)`healthShifted
    ensures agent.lastAlly == selected && (active <==> selected != null)
    ensures old(Sticky(agent)) ==>
              selected == old(agent.lastAlly) && dist == old(DistanceSquared(agent, agent.lastAlly))
    ensures !old(Sticky(agent)) ==>
              (selected == null || selected in allies) && old(Picked(agent, allies, true, true, selected, dist))
    ensures selected == null ==> agent.vx == old(agent.vx) && agent.vy == old(agent.vy)
    ensures selected != null ==>
              selected.healthShifted
              == if dist <= RepairRangeSquared
                 then Healed(old(selected.healthShifted), selected.hpConstructionRate, selected.maxHealthShifted)
                 else old(selected.healthShifted)
    ensures forall a | a in allies && a != selected :: a.healthShifted == old(a.healthShifted)
    ensures old(agent.lastAlly) != null && old(agent.lastAlly) != selected ==>
              old(agent.lastAlly).healthShifted == old(agent.lastAlly.healthShifted)
  {
    var selectedAlly: Agent? := null;
    var selectedDistanceSquared := IntMaxValue;
    if agent.lastAlly != null && agent.healthShifted < agent.maxHealthShifted {
      var dstSq := DistanceSquared(agent, agent.lastAlly);
      if dstSq <= RepairRangeSquared {
        selectedAlly, selectedDistanceSquared := agent.lastAlly, dstSq;
      }
    }
    if selectedAlly == null {
      selectedAlly, selectedDistanceSquared := Scan(agent, allies);
      PickedNothing(agent, allies, true, true, selectedAlly, selectedDistanceSquared);
    }
    agent.lastAlly := selectedAlly;
    active := ApproachOrRepair(agent, selectedAlly, selectedDistanceSquared);
    selected, dist := selectedAlly, selectedDistanceSquared;
  }

  /**
   * `simUnit` with `StickyIntended` in place of `Sticky`: as `SimUnit`, but
   * an ally is only ever repaired while it is damaged.
   */
  method SimUnitIntended(agent: Agent, allies: seq<Agent>, enemies: seq<Agent>)
    returns (active: bool, ghost selected: Agent?, ghost dist: int)
    modifies agent`lastAlly, agent`vx, agent`vy, allies`healthShifted,
             Present(agent.lastAlly)`healthShifted
    ensures agent.lastAlly == selected && (active <==> selected != null)
    ensures old(StickyIntended(agent)) ==>
              selected == old(agent.lastAlly) && dist == old(DistanceSquared(agent, agent.lastAlly))
    ensures !old(StickyIntended(agent)) ==>
              (selected == null || selected in allies) && old(Picked(agent, allies, true, true, selected, dist))
    ensures selected != null ==> old(selected.healthShifted) < selected.maxHealthShifted
    ensures selected == null ==> agent.vx == old(agent.vx) && agent.vy == old(agent.vy)
    ensures selected != null ==>
              selected.healthShifted
              == if dist <= RepairRangeSquared
                 then Healed(old(selected.healthShifted), selected.hpConstructionRate, selected.maxHealthShifted)
                 else old(selected.healthShifted)
    ensures forall a | a in allies && a != selected :: a.healthShifted == old(a.healthShifted)
    ensures old(agent.lastAlly) != null && old(agent.lastAlly) != selected ==>
              old(agent.lastAlly).healthShifted == old(agent.lastAlly.healthShifted)
  {
    var selectedAlly: Agent? := null;
    var selectedDistanceSquared := IntMaxValue;
    if agent.lastAlly != null && agent.lastAlly.healthShifted < agent.lastAlly.maxHealthShifted {
      var dstSq := DistanceSquared(agent, agent.lastAlly);
      if dstSq <= RepairRangeSquared {
        selectedAlly, selectedDistanceSquared := agent.lastAlly, dstSq;
      }
    }
    if selectedAlly == null {
      selectedAlly, selectedDistanceSquared := Scan(agent, allies);
      PickedNothing(agent, allies, true, true, selectedAlly, selectedDistanceSquared);
    }
    agent.lastAlly := selectedAlly;
    active := ApproachOrRepair(agent, selectedAlly, selectedDistanceSquared);
    selected, dist := selectedAlly, selectedDistanceSquared;
  }

  /**
   * Where the two stickiness tests part: a damaged repairer next to a last
   * ally at full health keeps that ally as written, though there is nothing
   * to repair, and its repair leaves the ally's health where it was.
   */
  lemma StickyKeepsHealthyAlly(agent: Agent)
    requires agent.lastAlly != null && agent.healthShifted < agent.maxHealthShifted
    requires agent.lastAlly.healthShifted == agent.lastAlly.maxHealthShifted
    requires agent.lastAlly.hpConstructionRate >= 0
    requires DistanceSquared(agent, agent.lastAlly) <= RepairRangeSquared
    ensures Sticky(agent) && !StickyIntended(agent)
    ensures Healed(agent.lastAlly.healthShifted, agent.lastAlly.hpConstructionRate,
                   agent.lastAlly.maxHealthShifted) == agent.lastAlly.healthShifted
  {
  }

  /**
   * And the other way: a repairer at full health never sticks as written,
   * so it rescans even while its last ally is still damaged within range.
   */
  lemma HealthyRepairerNeverSticks(agent: Agent)
    requires agent.lastAlly != null && agent.healthShifted == agent.maxHealthShifted
    requires agent.lastAlly.healthShifted < agent.lastAlly.maxHealthShifted
    requires DistanceSquared(agent, agent.lastAlly) <= RepairRangeSquared
    ensures !Sticky(agent) && StickyIntended(agent)
  {
  }
}
