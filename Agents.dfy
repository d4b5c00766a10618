/**
 * The combat unit record, reduced to the fields the modelled code reads or
 * writes, and the two `AgentUtil` helpers the repair behaviours call.
 */
module Agents {

  /**
   * One combat unit. Vitals are fixed-point ("shifted") integers. The kind,
   * status and role flags, the health cap, the plague rate and the repair
   * rate are never written by the simulator or the repair behaviours, so
   * they are constants here, set when the agent is made.
   */
  class Agent {
    var x: int
    var y: int
    var vx: int
    var vy: int
    var healthShifted: int
    var shieldsShifted: int
    var energyShifted: int
    var cooldown: int
    var remainingStimFrames: int
    var healedThisFrame: bool
    /** The ally this unit repaired last, used for target stickiness. */
    var lastAlly: Agent?
    const isFlyer: bool
    const maxHealthShifted: int
    const plagueDamagePerFrameShifted: int
    const regeneratesHealth: bool
    const isLockeddown: bool
    const isStasised: bool
    const isSuicider: bool
    const isHealer: bool
    const isRepairer: bool
    const isMechanic: bool
    const hpConstructionRate: int

    /** A unit at rest at (`x`, `y`) with full health, no shields, energy or cooldown. */
    constructor (x: int, y: int, isFlyer: bool, maxHealthShifted: int, plagueDamagePerFrameShifted: int,
                 regeneratesHealth: bool, isLockeddown: bool, isStasised: bool, isSuicider: bool,
                 isHealer: bool, isRepairer: bool, isMechanic: bool, hpConstructionRate: int)
      ensures this.x == x && this.y == y && vx == 0 && vy == 0
      ensures healthShifted == maxHealthShifted && shieldsShifted == 0 && energyShifted == 0
      ensures cooldown == 0 && remainingStimFrames == 0 && !healedThisFrame && lastAlly == null
      ensures this.isFlyer == isFlyer && this.maxHealthShifted == maxHealthShifted
      ensures this.plagueDamagePerFrameShifted == plagueDamagePerFrameShifted
      ensures this.regeneratesHealth == regeneratesHealth
      ensures this.isLockeddown == isLockeddown && this.isStasised == isStasised
      ensures this.isSuicider == isSuicider && this.isHealer == isHealer && this.isRepairer == isRepairer
      ensures this.isMechanic == isMechanic && this.hpConstructionRate == hpConstructionRate
    {
      this.x, this.y := x, y;
      vx, vy := 0, 0;
      healthShifted := maxHealthShifted;
      shieldsShifted, energyShifted, cooldown, remainingStimFrames := 0, 0, 0, 0;
      healedThisFrame := false;
      lastAlly := null;
      this.isFlyer := isFlyer;
      this.maxHealthShifted := maxHealthShifted;
      this.plagueDamagePerFrameShifted := plagueDamagePerFrameShifted;
      this.regeneratesHealth := regeneratesHealth;
      this.isLockeddown, this.isStasised := isLockeddown, isStasised;
      this.isSuicider, this.isHealer, this.isRepairer := isSuicider, isHealer, isRepairer;
      this.isMechanic, this.hpConstructionRate := isMechanic, hpConstructionRate;
    }
  }

  /** The agent `a` refers to, if any, as a frame. */
  function Present(a: Agent?): set<Agent> {
    if a == null then {} else {a}
  }

  /** Squared Euclidean distance between the positions of two agents. */
  function DistanceSquared(a: Agent, b: Agent): (d: int)
    reads a`x, a`y, b`x, b`y
    ensures d >= 0
    ensures d == 0 <==> a.x == b.x && a.y == b.y
  {
    (a.x - b.x) * (a.x - b.x) + (a.y - b.y) * (a.y - b.y)
  }

  /**
   * Steers `mover` toward `target`. Its body is not part of this model: all
   * that is known is that it only sets the mover's velocity.
   */
  method MoveToward(mover: Agent, target: Agent, distanceSquared: int)
    modifies mover`vx, mover`vy
  {
    mover.vx, mover.vy := *, *;
  }
}
