/**
 * `RepairerSimulator.simUnit`, the older repair behaviour: no stickiness,
 * a scan from slot 0 up, and stasised allies are not passed over.
 */
module RepairerSimulator {
  import opened Agents
  import opened Repair

  /**
   * The scan of `simUnit`, from slot 0 up: the nearest damaged mechanical
   * ally, except that the first one found within repair range ends the
   * search.
   */
  method Scan(agent: Agent, allies: seq<Agent>) returns (selected: Agent?, dist: int)
    ensures Picked(agent, allies, false, false, selected, dist)
  {
    selected, dist := null, IntMaxValue;
    ghost var k := -1;
    var i := 0;
    while i < |allies|
      invariant 0 <= i <= |allies| && dist > RepairRangeSquared
      invariant selected == null ==> dist == IntMaxValue && NoneWithin(agent, allies, false, 0, i)
      invariant selected != null ==>
                  0 <= k < |allies| && allies[k] == selected && PickedWithin(agent, allies, false, false, 0, i, k, dist)
    {
      var ally := allies[i];
      if ally.isMechanic && ally.healthShifted < ally.maxHealthShifted && ally != agent {
        var distance := DistanceSquared(agent, ally);
        if distance < dist {
          dist, selected, k := distance, ally, i;
          if dist <= RepairRangeSquared {
            break;
          }
        }
      }
      i := i + 1;
    }
  }

  /**
   * `simUnit`: the scan's choice is approached, and repaired when within
   * range; the answer is whether there was a choice. Only the chosen ally's
   * health changes.
   */
  method SimUnit(agent: Agent, allies: seq<Agent>) returns (active: bool, ghost selected: Agent?, ghost dist: int)
    modifies agent`vx, agent`vy, allies`healthShifted
    ensures active <==> selected != null
    ensures (selected == null || selected in allies) && old(Picked(agent, allies, false, false, selected, dist))
    ensures selected == null ==> agent.vx == old(agent.vx) && agent.vy == old(agent.vy)
    ensures selected != null ==>
              selected.healthShifted
              == if dist <= RepairRangeSquared
                 then Healed(old(selected.healthShifted), selected.hpConstructionRate, selected.maxHealthShifted)
                 else old(selected.healthShifted)
    ensures forall a | a in allies && a != selected :: a.healthShifted == old(a.healthShifted)
  {
    var selectedAlly, selectedDistanceSquared := Scan(agent, allies);
    PickedNothing(agent, allies, false, false, selectedAlly, selectedDistanceSquared);
    active := ApproachOrRepair(agent, selectedAlly, selectedDistanceSquared);
    selected, dist := selectedAlly, selectedDistanceSquared;
  }
}
