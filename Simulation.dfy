/**
 * The combat simulator: two groups of agents, the collision grid, the
 * frame loop (act, reap, regenerate, move) and the role dispatcher.
 *
 * Behaviours whose code is not part of this model (attacker, healer,
 * suicider, the repairer the dispatcher holds, and custom behaviours) are
 * represented by `Simulator.Act`, whose frame says what a behaviour may
 * change: the vitals, cooldown, velocity, stim timer, healed marker and
 * last-ally reference of the agents of both groups; never a position, a
 * flag or a group. Ghost logs record which behaviour ran for which agent.
 */
module Simulation {
  import opened Wrappers
  import opened Agents
  import opened Grid
  import opened Unordered
  import opened Evaluation

  datatype Role = Suicider | Healer | Repairer | Attacker

  /** A side's behaviour: the built-in role dispatcher or a caller-supplied one. */
  datatype Behavior = RoleBased | Custom(id: nat)

  /** One primitive behaviour that ran. */
  datatype Action = RoleAction(role: Role) | CustomAction(id: nat)

  datatype Invocation = Invocation(agent: Agent, action: Action, active: bool)

  /**
   * A side's behaviour was asked to simulate `agent` and answered `active`;
   * `trace` is what that run of the behaviour did.
   */
  datatype Visit = Visit(agent: Agent, active: bool, trace: seq<Invocation>)

  datatype ConfigError = FrameSkipBelowOne | MissingPlayerABehavior | MissingPlayerBBehavior

  datatype BoundsError = PositionOutOfBounds

  /** The checks of the private constructor, in the order it makes them. */
  function ConfigCheck(frameSkip: int, a: Option<Behavior>, b: Option<Behavior>): (r: Option<ConfigError>)
    ensures r.None? <==> frameSkip >= 1 && a.Some? && b.Some?
    ensures frameSkip < 1 ==> r == Some(FrameSkipBelowOne)
    ensures frameSkip >= 1 && a.None? ==> r == Some(MissingPlayerABehavior)
    ensures frameSkip >= 1 && a.Some? && b.None? ==> r == Some(MissingPlayerBBehavior)
  {
    if frameSkip < 1 then Some(FrameSkipBelowOne)
    else if a.None? then Some(MissingPlayerABehavior)
    else if b.None? then Some(MissingPlayerBBehavior)
    else None
  }

  /** `Simulator.Builder`; its `with...` setters are datatype updates. */
  datatype Builder = Builder(playerABehavior: Option<Behavior>, playerBBehavior: Option<Behavior>, frameSkip: int)

  /** A fresh builder: role-based behaviour on both sides, frame skip 1. */
  function NewBuilder(): (b: Builder)
    ensures b.frameSkip == 1
    ensures b.playerABehavior == Some(RoleBased) && b.playerBBehavior == Some(RoleBased)
    ensures ConfigCheck(b.frameSkip, b.playerABehavior, b.playerBBehavior).None?
  {
    Builder(Some(RoleBased), Some(RoleBased), 1)
  }

  /** `Builder.build`. */
  method Build(b: Builder) returns (r: Result<Simulator, ConfigError>)
    ensures r.Failure? <==> ConfigCheck(b.frameSkip, b.playerABehavior, b.playerBBehavior).Some?
    ensures r.Failure? ==> Some(r.error) == ConfigCheck(b.frameSkip, b.playerABehavior, b.playerBBehavior)
    ensures r.Success? ==> fresh(r.value) && fresh(r.value.collision) && r.value.Valid()
    ensures r.Success? ==> r.value.frameSkip == b.frameSkip && r.value.playerA == [] && r.value.playerB == []
  {
    r := Simulator.Create(b.frameSkip, b.playerABehavior, b.playerBBehavior);
  }

  // ----- Snapshots of agent state -----

  function BodyOf(a: Agent): Body
    reads a`x, a`y
  {
    Body(a.x, a.y, a.isFlyer)
  }

  function Bodies(s: seq<Agent>): (r: seq<Body>)
    reads s`x, s`y
    ensures |r| == |s| && forall i {:trigger r[i]} | 0 <= i < |s| :: r[i] == BodyOf(s[i])
  {
    if s == [] then [] else [BodyOf(s[0])] + Bodies(s[1..])
  }

  function VelocityOf(a: Agent): Velocity
    reads a`vx, a`vy
  {
    Velocity(a.vx, a.vy)
  }

  function Velocities(s: seq<Agent>): (r: seq<Velocity>)
    reads s`vx, s`vy
    ensures |r| == |s| && forall i {:trigger r[i]} | 0 <= i < |s| :: r[i] == VelocityOf(s[i])
  {
    if s == [] then [] else [VelocityOf(s[0])] + Velocities(s[1..])
  }

  /** The per-frame counters `updateStats` rewrites. */
  datatype Vitals = Vitals(healthShifted: int, shieldsShifted: int, energyShifted: int,
                           cooldown: int, remainingStimFrames: int)

  function VitalsOf(a: Agent): Vitals
    reads a`healthShifted, a`shieldsShifted, a`energyShifted, a`cooldown, a`remainingStimFrames
  {
    Vitals(a.healthShifted, a.shieldsShifted, a.energyShifted, a.cooldown, a.remainingStimFrames)
  }

  /** `a * n` as repeated addition, so that the solver meets no product of two unknowns. */
  function Times(a: int, n: nat): int
  {
    if n == 0 then 0 else Times(a, n - 1) + a
  }

  lemma TimesStep(a: int, n: nat)
    ensures Times(a, n + 1) == Times(a, n) + a
  {
  }

  lemma {:induction false} TimesIsProduct(a: int, n: nat)
    ensures Times(a, n) == a * n
  {
    if n > 0 {
      TimesIsProduct(a, n - 1);
    }
  }

  /** The stat changes of `updateStats` for one agent; nothing is clamped. */
  function Regenerate(v: Vitals, frameSkip: nat, plague: int, regenerates: bool): Vitals
  {
    var afterPlague := if Times(plague, frameSkip) < v.healthShifted then v.healthShifted - Times(plague, frameSkip)
                       else v.healthShifted;
    Vitals(if regenerates then afterPlague + 4 * frameSkip else afterPlague,
           v.shieldsShifted + 7 * frameSkip,
           v.energyShifted + 8 * frameSkip,
           v.cooldown - frameSkip,
           v.remainingStimFrames - frameSkip)
  }

  /** What one frame of regeneration does to each counter. */
  lemma RegenerateEffect(v: Vitals, frameSkip: nat, plague: int, regenerates: bool)
    ensures var r := Regenerate(v, frameSkip, plague, regenerates);
            && r.cooldown == v.cooldown - frameSkip
            && r.remainingStimFrames == v.remainingStimFrames - frameSkip
            && r.shieldsShifted == v.shieldsShifted + 7 * frameSkip
            && r.energyShifted == v.energyShifted + 8 * frameSkip
            && r.healthShifted - (if regenerates then 4 * frameSkip else 0)
               == (if plague * frameSkip < v.healthShifted then v.healthShifted - plague * frameSkip
                   else v.healthShifted)
  {
    TimesIsProduct(plague, frameSkip);
  }

  /** Plague never takes a living agent below 1 health. */
  lemma RegenerateKeepsAlive(v: Vitals, frameSkip: nat, plague: int, regenerates: bool)
    requires frameSkip >= 1 && v.healthShifted >= 1
    ensures Regenerate(v, frameSkip, plague, regenerates).healthShifted >= 1
  {
  }

  /** Signs of a product with a positive factor. */
  lemma MulSign(x: int, d: int)
    requires d > 0
    ensures x >= 1 ==> x * d >= d
    ensures x <= 0 ==> x * d <= 0
  {
  }

  /** A multiple of `d` leaves no remainder. */
  lemma MultipleMod(n: int, d: int)
    requires d > 0
    ensures (n * d) % d == 0
  {
    var q, r := (n * d) / d, (n * d) % d;
    assert (n - q) * d == r;
    MulSign(n - q, d);
    MulSign(q - n, d);
  }

  /** `simulate` rounds a positive frame count up to a multiple of the frame skip. */
  function RoundUpFrames(frames: int, frameSkip: int): (r: int)
    requires frames > 0 && frameSkip >= 1
    ensures frames <= r < frames + frameSkip
    ensures r % frameSkip == 0
  {
    // Math.floorMod with a positive divisor is Dafny's Euclidean %.
    var k := (frameSkip - frames) % frameSkip;
    var q := (frameSkip - frames) / frameSkip;
    assert frames + k == (1 - q) * frameSkip;
    MultipleMod(1 - q, frameSkip);
    frames + k
  }

  /** The rounded count is the least multiple of the frame skip that is not below the request. */
  lemma RoundUpFramesIsLeast(frames: int, frameSkip: int, m: int)
    requires frames > 0 && frameSkip >= 1
    requires m >= frames && m % frameSkip == 0
    ensures RoundUpFrames(frames, frameSkip) <= m
  {
    var r := RoundUpFrames(frames, frameSkip);
    var a, b := r / frameSkip, m / frameSkip;
    assert r == a * frameSkip && m == b * frameSkip;
    assert (b + 1 - a) * frameSkip == m + frameSkip - r;
    MulSign(b + 1 - a, frameSkip);
    MulSign(b - a, frameSkip);
  }

  /** A sum of non-negative terms is not negative. */
  lemma {:induction false} TimesNonNegative(a: int, n: nat)
    requires a >= 0
    ensures Times(a, n) >= 0
  {
    if n > 0 {
      TimesNonNegative(a, n - 1);
    }
  }

  /** The rounded frame count is a whole number of frame skips. */
  lemma RoundUpFramesIsWhole(frames: int, frameSkip: int) returns (k: nat)
    requires frames > 0 && frameSkip >= 1
    ensures RoundUpFrames(frames, frameSkip) == Times(frameSkip, k)
  {
    var r := RoundUpFrames(frames, frameSkip);
    var q := r / frameSkip;
    assert r == q * frameSkip;
    MulSign(q, frameSkip);
    k := q;
    TimesIsProduct(frameSkip, k);
  }

  /**
   * The rounding at the head of `simulate(frames)`, stated without remainders:
   * the least whole number of frame skips that is not below `frames`.
   */
  method RoundUp(frames: int, frameSkip: int) returns (r: int, ghost k: nat)
    requires frames > 0 && frameSkip >= 1
    ensures frames <= r < frames + frameSkip && r == Times(frameSkip, k)
  {
    r := RoundUpFrames(frames, frameSkip);
    k := RoundUpFramesIsWhole(frames, frameSkip);
  }

  /** A whole number of frame skips in `[frames, frames + frameSkip)` is the rounded count. */
  lemma {:induction false} WholeCountIsRounded(frames: int, frameSkip: int, k: nat)
    requires frames > 0 && frameSkip >= 1
    requires frames <= Times(frameSkip, k) < frames + frameSkip
    ensures Times(frameSkip, k) == RoundUpFrames(frames, frameSkip)
  {
    var r := RoundUpFrames(frames, frameSkip);
    TimesIsProduct(frameSkip, k);
    MultipleMod(k, frameSkip);
    RoundUpFramesIsLeast(frames, frameSkip, Times(frameSkip, k));
    var a := r / frameSkip;
    assert r == a * frameSkip;
    assert (k - a) * frameSkip == Times(frameSkip, k) - r;
    MulSign(k - a, frameSkip);
  }

  /** Splitting a count of whole frame skips. */
  lemma {:induction false} TimesAdd(a: int, m: nat, n: nat)
    ensures Times(a, m) + Times(a, n) == Times(a, m + n)
  {
    if n > 0 {
      TimesAdd(a, m, n - 1);
    }
  }

  /**
   * The frame bookkeeping of `simulate`'s loop: `left` is `start` less one
   * frame skip per step; a positive start stays `rest` whole frame skips,
   * a non-positive one stays non-positive within `fuel` steps.
   */
  ghost predicate Countdown(start: int, left: int, steps: nat, rest: nat, fuel: nat, frameSkip: int) {
    && frameSkip >= 1
    && left == start - Times(frameSkip, steps)
    && (start > 0 ==> left == Times(frameSkip, rest))
    && (start <= 0 ==> left <= 0 && steps <= fuel)
    && (start == 0 ==> left == 0 && steps == 0)
  }

  /** One more step of the loop keeps the bookkeeping, one frame skip fewer. */
  lemma CountdownStep(start: int, left: int, steps: nat, rest: nat, fuel: nat, frameSkip: int)
    requires Countdown(start, left, steps, rest, fuel, frameSkip)
    requires left != 0 && (left > 0 || steps < fuel)
    ensures start > 0 ==> rest > 0
    ensures Countdown(start, left - frameSkip, steps + 1, if start > 0 then rest - 1 else rest, fuel, frameSkip)
    ensures left > 0 ==> 0 <= left - frameSkip < left
  {
    TimesStep(frameSkip, steps);
    if start > 0 {
      assert rest > 0;
      TimesStep(frameSkip, rest - 1);
      TimesNonNegative(frameSkip, rest - 1);
    }
  }

  /** The loop ends with no frames left, or, for a negative count, with the step budget spent. */
  lemma CountdownDone(frames: int, start: int, left: int, steps: nat, rest: nat, fuel: nat, frameSkip: int)
    requires Countdown(start, left, steps, rest, fuel, frameSkip)
    requires (frames > 0 ==> start > 0) && (frames <= 0 ==> start == frames)
    requires !(left != 0 && (left > 0 || steps < fuel))
    ensures left == 0 || (frames < 0 && steps == fuel)
  {
    TimesNonNegative(frameSkip, rest);
  }

  /** What `simulate(96)` leaves: a whole, non-negative number of frame skips. */
  lemma {:induction false} DefaultCountdown(frameSkip: int, left: int, steps: nat, rest: nat)
    requires frameSkip >= 1
    requires 96 <= left + Times(frameSkip, steps) < 96 + frameSkip && left == Times(frameSkip, rest)
    ensures left == RoundUpFrames(96, frameSkip) - Times(frameSkip, steps)
    ensures left >= 0 && left % frameSkip == 0
  {
    TimesAdd(frameSkip, rest, steps);
    WholeCountIsRounded(96, frameSkip, rest + steps);
    TimesNonNegative(frameSkip, rest);
    TimesIsProduct(frameSkip, rest);
    MultipleMod(rest, frameSkip);
  }

  /** The counters `updateStats` rewrites, with the two fields that steer regeneration. */
  datatype Stats = Stats(velocity: Velocity, healed: bool, vitals: Vitals, plague: int, regenerates: bool)

  function StatsOf(a: Agent): Stats
    reads a`vx, a`vy, a`healedThisFrame, a`healthShifted, a`shieldsShifted, a`energyShifted, a`cooldown,
          a`remainingStimFrames
  {
    Stats(VelocityOf(a), a.healedThisFrame, VitalsOf(a), a.plagueDamagePerFrameShifted, a.regeneratesHealth)
  }

  function AllStats(s: seq<Agent>): (r: seq<Stats>)
    reads s`vx, s`vy, s`healedThisFrame, s`healthShifted, s`shieldsShifted, s`energyShifted, s`cooldown,
          s`remainingStimFrames
    ensures |r| == |s| && forall i {:trigger r[i]} | 0 <= i < |s| :: r[i] == StatsOf(s[i])
  {
    if s == [] then [] else [StatsOf(s[0])] + AllStats(s[1..])
  }

  /** Everything of an agent that `removeDead` and `updateStats` read: its grid part and its counters. */
  datatype AgentState = AgentState(body: Body, stats: Stats)

  function StateOf(a: Agent): AgentState
    reads a`x, a`y, a`vx, a`vy, a`healedThisFrame, a`healthShifted, a`shieldsShifted, a`energyShifted,
          a`cooldown, a`remainingStimFrames
  {
    AgentState(BodyOf(a), StatsOf(a))
  }

  function States(s: seq<Agent>): (r: seq<AgentState>)
    reads s`x, s`y, s`vx, s`vy, s`healedThisFrame, s`healthShifted, s`shieldsShifted, s`energyShifted,
          s`cooldown, s`remainingStimFrames
    ensures |r| == |s| && forall i {:trigger r[i]} | 0 <= i < |s| :: r[i] == StateOf(s[i])
  {
    if s == [] then [] else [StateOf(s[0])] + States(s[1..])
  }

  function StateBodies(st: seq<AgentState>): (r: seq<Body>)
    ensures |r| == |st|
  {
    seq(|st|, i requires 0 <= i < |st| => st[i].body)
  }

  function StateVelocities(st: seq<AgentState>): (r: seq<Velocity>)
    ensures |r| == |st|
  {
    seq(|st|, i requires 0 <= i < |st| => st[i].stats.velocity)
  }

  function StateStats(st: seq<AgentState>): (r: seq<Stats>)
    ensures |r| == |st|
  {
    seq(|st|, i requires 0 <= i < |st| => st[i].stats)
  }

  function StateHealths(st: seq<AgentState>): (r: seq<int>)
    ensures |r| == |st|
  {
    seq(|st|, i requires 0 <= i < |st| => st[i].stats.vitals.healthShifted)
  }

  /** The projections of a group's state snapshot are the group's own projections. */
  lemma StatesProject(s: seq<Agent>)
    ensures StateBodies(States(s)) == Bodies(s) && StateVelocities(States(s)) == Velocities(s)
    ensures StateStats(States(s)) == AllStats(s) && StateHealths(States(s)) == Healths(s)
  {
  }

  /** Culling a group and taking its states commute. */
  lemma {:induction false} CullStates(s: seq<Agent>, hs: seq<int>, i: nat)
    requires |hs| == |s|
    ensures States(Cull(s, hs, i)) == Cull(States(s), hs, i)
    decreases |s| - i
  {
    if i < |s| {
      if hs[i] < 1 {
        assert States(RemoveAt(s, i)) == RemoveAt(States(s), i);
        CullStates(RemoveAt(s, i), RemoveAt(hs, i), i);
      } else {
        CullStates(s, hs, i + 1);
      }
    }
  }

  /**
   * The two `updateStats` calls of `step` on values: on the grid `g`, group
   * A's agents in states `ka` move first, then group B's in states `kb`,
   * leaving the grid `grid` and bodies `ba` and `bb`, and both groups'
   * counters are refreshed into `sa` and `sb`.
   */
  ghost predicate Moved(g: seq<Byte>, ka: seq<AgentState>, kb: seq<AgentState>, frameSkip: nat,
                        grid: seq<Byte>, ba: seq<Body>, bb: seq<Body>, sa: seq<Stats>, sb: seq<Stats>)
  {
    && |g| == CellCount && AllInMap(StateBodies(ka)) && AllInMap(StateBodies(kb))
    && var mA := MoveAll(g, StateBodies(ka), StateVelocities(ka));
       var mB := MoveAll(mA.0, StateBodies(kb), StateVelocities(kb));
       && grid == mB.0 && ba == mA.1 && bb == mB.1
       && sa == Refreshes(StateStats(ka), frameSkip) && sb == Refreshes(StateStats(kb), frameSkip)
  }

  /**
   * The second half of `step` on values. From the groups' states `ma` and
   * `mb` once the behaviours have run, `removeDead` keeps `Cull`'s survivors
   * of each and leaves the grid `reaped`, counting exactly their ground
   * bodies; `updateStats` then moves and refreshes the survivors as `Moved`
   * says, ending in grid `grid`, bodies `ba`, `bb` and counters `sa`, `sb`.
   */
  ghost predicate Updated(ma: seq<AgentState>, mb: seq<AgentState>, reaped: seq<Byte>, frameSkip: nat,
                          grid: seq<Byte>, ba: seq<Body>, bb: seq<Body>, sa: seq<Stats>, sb: seq<Stats>)
  {
    var ka, kb := Cull(ma, StateHealths(ma), 0), Cull(mb, StateHealths(mb), 0);
    && Consistent(reaped, StateBodies(ka) + StateBodies(kb))
    && Moved(reaped, ka, kb, frameSkip, grid, ba, bb, sa, sb)
  }

  /** What `updateStats` leaves in an agent's counters. */
  function Refreshed(st: Stats, frameSkip: nat): Stats {
    Stats(Velocity(0, 0), false, Regenerate(st.vitals, frameSkip, st.plague, st.regenerates), st.plague, st.regenerates)
  }

  predicate Immobilised(a: Agent) {
    a.isLockeddown || a.isStasised
  }

  /** The agents of `s` whose behaviour `step` invokes, in the order it does (last index first). */
  function Scheduled(s: seq<Agent>): (r: seq<Agent>)
    ensures forall a | a in r :: a in s && !Immobilised(a)
  {
    if s == [] then [] else Scheduled(s[1..]) + (if Immobilised(s[0]) then [] else [s[0]])
  }

  predicate AnyImmobilised(s: seq<Agent>) {
    exists j | 0 <= j < |s| :: Immobilised(s[j])
  }

  ghost function VisitedAgents(vs: seq<Visit>): (r: seq<Agent>)
    ensures |r| == |vs| && forall k | 0 <= k < |vs| :: r[k] == vs[k].agent
  {
    seq(|vs|, k requires 0 <= k < |vs| => vs[k].agent)
  }

  ghost predicate AnyActive(vs: seq<Visit>) {
    exists k | 0 <= k < |vs| :: vs[k].active
  }

  /** What the role dispatcher ran for `agent`, in order, given that it answered `active`. */
  ghost predicate Routed(agent: Agent, trace: seq<Invocation>, active: bool)
  {
    if agent.isSuicider then trace == [Invocation(agent, RoleAction(Suicider), active)]
    else if agent.isHealer then trace == [Invocation(agent, RoleAction(Healer), active)]
    else if agent.isRepairer && |trace| == 1 then
      active && trace == [Invocation(agent, RoleAction(Repairer), true)]
    else if agent.isRepairer then
      trace == [Invocation(agent, RoleAction(Repairer), false), Invocation(agent, RoleAction(Attacker), active)]
    else trace == [Invocation(agent, RoleAction(Attacker), active)]
  }

  ghost predicate Dispatched(behavior: Behavior, agent: Agent, trace: seq<Invocation>, active: bool)
  {
    match behavior
    case RoleBased => Routed(agent, trace, active)
    case Custom(id) => trace == [Invocation(agent, CustomAction(id), active)]
  }

  function Healths(s: seq<Agent>): (r: seq<int>)
    reads s`healthShifted
    ensures |r| == |s| && forall j {:trigger r[j]} | 0 <= j < |s| :: r[j] == s[j].healthShifted
  {
    if s == [] then [] else [s[0].healthShifted] + Healths(s[1..])
  }

  /**
   * The agents `removeDead` keeps, in the order it leaves them, when it
   * resumes its scan at slot `i` of `s`, whose healths are `hs`: a dead
   * agent is swap-removed and the slot is examined again, a living one is
   * passed over.
   */
  function Cull<T>(s: seq<T>, hs: seq<int>, i: nat): seq<T>
    requires |hs| == |s|
    decreases |s| - i
  {
    if i >= |s| then s
    else if hs[i] < 1 then Cull(RemoveAt(s, i), RemoveAt(hs, i), i)
    else Cull(s, hs, i + 1)
  }

  /** Every agent `removeDead` keeps has health at least one. */
  lemma {:induction false} CullKeepsOnlyTheLiving(s: seq<Agent>, hs: seq<int>, i: nat)
    requires |hs| == |s| && forall j | 0 <= j < |s| :: hs[j] == s[j].healthShifted
    requires i <= |s| && forall j | 0 <= j < i :: hs[j] >= 1
    ensures forall j | 0 <= j < |Cull(s, hs, i)| :: Cull(s, hs, i)[j].healthShifted >= 1
    decreases |s| - i
  {
    if i < |s| {
      if hs[i] < 1 {
        var t, ht := RemoveAt(s, i), RemoveAt(hs, i);
        assert forall j | 0 <= j < i :: ht[j] == hs[j];
        CullKeepsOnlyTheLiving(t, ht, i);
      } else {
        CullKeepsOnlyTheLiving(s, hs, i + 1);
      }
    }
  }

  /** `removeDead` only drops agents. */
  lemma {:induction false} CullShrinks(s: seq<Agent>, hs: seq<int>, i: nat)
    requires |hs| == |s|
    ensures multiset(Cull(s, hs, i)) <= multiset(s)
    decreases |s| - i
  {
    if i < |s| {
      if hs[i] < 1 {
        RemoveAtMultiset(s, i);
        CullShrinks(RemoveAt(s, i), RemoveAt(hs, i), i);
      } else {
        CullShrinks(s, hs, i + 1);
      }
    }
  }

  /** `removeDead` keeps every agent whose health is at least one. */
  lemma {:induction false} CullKeepsTheLiving(s: seq<Agent>, hs: seq<int>, i: nat)
    requires |hs| == |s|
    ensures forall j | 0 <= j < |s| && hs[j] >= 1 :: s[j] in Cull(s, hs, i)
    decreases |s| - i
  {
    if i < |s| {
      if hs[i] < 1 {
        var t, ht := RemoveAt(s, i), RemoveAt(hs, i);
        CullKeepsTheLiving(t, ht, i);
        forall j | 0 <= j < |s| && hs[j] >= 1
          ensures s[j] in Cull(s, hs, i)
        {
          var k := if j == |s| - 1 then i else j;
          assert t[k] == s[j] && ht[k] == hs[j];
        }
      } else {
        CullKeepsTheLiving(s, hs, i + 1);
      }
    }
  }

  /** Swap-removal at the same slot keeps parallel snapshots of the agents aligned. */
  lemma RemoveAtAligned(s: seq<Agent>, bs: seq<Body>, hs: seq<int>, i: nat)
    requires i < |s| == |bs| == |hs|
    requires forall j | 0 <= j < |s| :: bs[j] == BodyOf(s[j]) && hs[j] == s[j].healthShifted
    ensures forall j | 0 <= j < |s| - 1 ::
              RemoveAt(bs, i)[j] == BodyOf(RemoveAt(s, i)[j]) && RemoveAt(hs, i)[j] == RemoveAt(s, i)[j].healthShifted
  {
  }

  /** No agent occurs twice. */
  ghost predicate Distinct(s: seq<Agent>) {
    forall i, j | 0 <= i < j < |s| :: s[i] != s[j]
  }

  /** No agent belongs to both groups. */
  ghost predicate Apart(a: seq<Agent>, b: seq<Agent>) {
    forall i, j | 0 <= i < |a| && 0 <= j < |b| :: a[i] != b[j]
  }

  lemma ApartFlip(a: seq<Agent>, b: seq<Agent>)
    requires Apart(a, b)
    ensures Apart(b, a)
  {
  }

  /** Groups drawn from two groups with no common agent have none either. */
  lemma ApartSub(a: seq<Agent>, a': seq<Agent>, b: seq<Agent>, b': seq<Agent>)
    requires Apart(a, b)
    requires forall k | 0 <= k < |a'| :: a'[k] in a
    requires forall k | 0 <= k < |b'| :: b'[k] in b
    ensures Apart(a', b')
  {
    forall i, j | 0 <= i < |a'| && 0 <= j < |b'|
      ensures a'[i] != b'[j]
    {
      var m :| 0 <= m < |a| && a[m] == a'[i];
      var n :| 0 <= n < |b| && b[n] == b'[j];
    }
  }

  /** Appending an agent that is not yet present keeps a group free of repeats. */
  lemma DistinctAppend(s: seq<Agent>, x: Agent)
    requires Distinct(s) && x !in s
    ensures Distinct(s + [x])
  {
    assert forall k | 0 <= k < |s| :: (s + [x])[k] == s[k];
  }

  /** Appending to one group an agent the other lacks keeps them apart. */
  lemma ApartAppend(a: seq<Agent>, b: seq<Agent>, x: Agent)
    requires Apart(a, b) && x !in b
    ensures Apart(a + [x], b)
  {
    assert forall k | 0 <= k < |a| :: (a + [x])[k] == a[k];
  }

  /** Swap-removal keeps a group free of repeats and only keeps agents it had. */
  lemma RemoveAtKeepsDistinct(s: seq<Agent>, i: nat)
    requires Distinct(s) && i < |s|
    ensures Distinct(RemoveAt(s, i))
    ensures forall k | 0 <= k < |s| - 1 :: RemoveAt(s, i)[k] in s
  {
    var r := RemoveAt(s, i);
    forall j, k | 0 <= j < k < |r|
      ensures r[j] != r[k]
    {
      if j == i {
        assert r[j] == s[|s| - 1] && r[k] == s[k];
      } else if k == i {
        assert r[k] == s[|s| - 1] && r[j] == s[j];
      }
    }
    forall k | 0 <= k < |r|
      ensures r[k] in s
    {
      if k == i {
        assert r[k] == s[|s| - 1];
      } else {
        assert r[k] == s[k];
      }
    }
  }

  /** `removeDead` keeps a group free of repeats and only keeps agents it had. */
  lemma {:induction false} CullKeepsDistinct(s: seq<Agent>, hs: seq<int>, i: nat)
    requires |hs| == |s| && Distinct(s)
    ensures Distinct(Cull(s, hs, i))
    ensures forall k | 0 <= k < |Cull(s, hs, i)| :: Cull(s, hs, i)[k] in s
    decreases |s| - i
  {
    if i < |s| {
      if hs[i] < 1 {
        var t := RemoveAt(s, i);
        RemoveAtKeepsDistinct(s, i);
        CullKeepsDistinct(t, RemoveAt(hs, i), i);
        var c := Cull(s, hs, i);
        forall k | 0 <= k < |c|
          ensures c[k] in s
        {
          var m :| 0 <= m < |t| && t[m] == c[k];
        }
      } else {
        CullKeepsDistinct(s, hs, i + 1);
      }
    }
  }

  lemma AnyActiveAppend(vs: seq<Visit>, v: Visit)
    ensures AnyActive(vs + [v]) <==> AnyActive(vs) || v.active
  {
    if AnyActive(vs) {
      var k :| 0 <= k < |vs| && vs[k].active;
      assert (vs + [v])[k] == vs[k];
    }
    assert (vs + [v])[|vs|] == v;
  }

  lemma VisitedAgentsAppend(vs: seq<Visit>, v: Visit)
    ensures VisitedAgents(vs + [v]) == VisitedAgents(vs) + [v.agent]
  {
  }

  lemma BodiesConcat(a: seq<Agent>, b: seq<Agent>)
    ensures Bodies(a + b) == Bodies(a) + Bodies(b)
  {
  }

  /** A full scan of agents views, as `ToIntFunction<Agent>` callers see them. */
  datatype AgentView = AgentView(x: int, y: int, isFlyer: bool, healthShifted: int, maxHealthShifted: int,
                                 shieldsShifted: int, energyShifted: int, cooldown: int)

  function ViewOf(a: Agent): AgentView
    reads a
  {
    AgentView(a.x, a.y, a.isFlyer, a.healthShifted, a.maxHealthShifted, a.shieldsShifted,
              a.energyShifted, a.cooldown)
  }

  function Views(s: seq<Agent>): (r: seq<AgentView>)
    reads s
    ensures |r| == |s| && forall i {:trigger r[i]} | 0 <= i < |s| :: r[i] == ViewOf(s[i])
  {
    if s == [] then [] else [ViewOf(s[0])] + Views(s[1..])
  }

  function SumScores(score: AgentView -> int, vs: seq<AgentView>): int
  {
    if vs == [] then 0 else SumScores(score, vs[..|vs| - 1]) + score(vs[|vs| - 1])
  }

  /** The score of a group is the sum over its parts, whatever the split. */
  lemma {:induction false} SumScoresConcat(score: AgentView -> int, a: seq<AgentView>, b: seq<AgentView>)
    ensures SumScores(score, a + b) == SumScores(score, a) + SumScores(score, b)
    decreases |b|
  {
    if b == [] {
      assert a + b == a;
    } else {
      assert (a + b)[..|a + b| - 1] == a + b[..|b| - 1];
      SumScoresConcat(score, a, b[..|b| - 1]);
    }
  }

  /** Dropping slot `k` of a group takes its agent's score out of the sum. */
  lemma SumScoresRemove(score: AgentView -> int, b: seq<AgentView>, k: nat)
    requires k < |b|
    ensures SumScores(score, b) == SumScores(score, b[..k] + b[k + 1..]) + score(b[k])
  {
    var front, x, back := b[..k], b[k], b[k + 1..];
    assert b == (front + [x]) + back;
    SumScoresConcat(score, front + [x], back);
    assert (front + [x])[..|front + [x]| - 1] == front;
    assert SumScores(score, front + [x]) == SumScores(score, front) + score(x);
    SumScoresConcat(score, front, back);
  }

  /** Taking the last agent of `a` out of `a` and out of slot `k` of `b` leaves equal multisets. */
  lemma MultisetRemove(a: seq<AgentView>, b: seq<AgentView>, k: nat)
    requires multiset(a) == multiset(b) && 0 < |a| && k < |b| && b[k] == a[|a| - 1]
    ensures multiset(a[..|a| - 1]) == multiset(b[..k] + b[k + 1..])
  {
    var n, x := |a| - 1, a[|a| - 1];
    assert a == a[..n] + [x];
    assert b == b[..k] + [x] + b[k + 1..];
    calc {
      multiset(a[..n]) + multiset{x};
      multiset(a);
      multiset(b);
      multiset(b[..k] + [x] + b[k + 1..]);
      multiset(b[..k]) + multiset{x} + multiset(b[k + 1..]);
      multiset(b[..k] + b[k + 1..]) + multiset{x};
    }
    assert multiset(a[..n]) == multiset(a[..n]) + multiset{x} - multiset{x};
  }

  /**
   * A group's score does not depend on the order of its agents, which
   * `removeDead` changes when it swaps the last agent into a dead one's slot.
   */
  lemma {:induction false} SumScoresPermutation(score: AgentView -> int, a: seq<AgentView>, b: seq<AgentView>)
    requires multiset(a) == multiset(b)
    ensures SumScores(score, a) == SumScores(score, b)
    decreases |a|
  {
    if a == [] {
      assert |b| == |multiset(b)| == 0;
    } else {
      var x := a[|a| - 1];
      assert x in multiset(b);
      var k :| 0 <= k < |b| && b[k] == x;
      MultisetRemove(a, b, k);
      SumScoresPermutation(score, a[..|a| - 1], b[..k] + b[k + 1..]);
      SumScoresRemove(score, b, k);
    }
  }

  /**
   * The simulator's invariant on values: no agent occurs twice or in both
   * groups, every body lies in the map, and the grid counts exactly the
   * ground bodies of both groups.
   */
  ghost predicate Sound(pa: seq<Agent>, pb: seq<Agent>, ba: seq<Body>, bb: seq<Body>, grid: seq<Byte>) {
    && Distinct(pa) && Distinct(pb) && Apart(pa, pb)
    && AllInMap(ba) && AllInMap(bb)
    && Consistent(grid, ba + bb)
  }

  /** With no agents at all, only the all-zero grid is sound. */
  lemma EmptySound(grid: seq<Byte>)
    requires |grid| == CellCount && forall c | 0 <= c < CellCount :: grid[c] == 0
    ensures Sound([], [], [], [], grid)
  {
    var none: seq<Body> := [];
    assert none + none == none;
  }

  /** `addAgentA` of an in-map agent of neither group keeps the invariant. */
  lemma PlaceFirstIsSound(pa: seq<Agent>, pb: seq<Agent>, ba: seq<Body>, bb: seq<Body>, g0: seq<Byte>,
                          x: Agent, b: Body)
    requires Sound(pa, pb, ba, bb, g0) && InMap(b.x, b.y) && x !in pa && x !in pb
    ensures Sound(pa + [x], pb, ba + [b], bb, Place(g0, b))
  {
    PlaceKeepsConsistent(g0, ba, b, bb);
    AllInMapConcat(ba, [b]);
    DistinctAppend(pa, x);
    ApartAppend(pa, pb, x);
  }

  /** `addAgentB` of an in-map agent of neither group keeps the invariant. */
  lemma PlaceSecondIsSound(pa: seq<Agent>, pb: seq<Agent>, ba: seq<Body>, bb: seq<Body>, g0: seq<Byte>,
                           x: Agent, b: Body)
    requires Sound(pa, pb, ba, bb, g0) && InMap(b.x, b.y) && x !in pa && x !in pb
    ensures Sound(pa, pb + [x], ba, bb + [b], Place(g0, b))
  {
    PlaceSecondKeepsConsistent(g0, ba, bb, b);
    AllInMapConcat(bb, [b]);
    DistinctAppend(pb, x);
    ApartFlip(pa, pb);
    ApartAppend(pb, pa, x);
    ApartFlip(pb + [x], pa);
  }

  /** `updateStats(playerA)` keeps the invariant. */
  lemma MoveFirstIsSound(pa: seq<Agent>, pb: seq<Agent>, ba: seq<Body>, bb: seq<Body>, g0: seq<Byte>,
                         va: seq<Velocity>)
    requires Sound(pa, pb, ba, bb, g0) && |va| == |ba|
    ensures Sound(pa, pb, MoveAll(g0, ba, va).1, bb, MoveAll(g0, ba, va).0)
  {
    MoveFirstKeepsConsistent(g0, ba, va, bb);
  }

  /** `updateStats(playerB)` keeps the invariant. */
  lemma MoveSecondIsSound(pa: seq<Agent>, pb: seq<Agent>, ba: seq<Body>, bb: seq<Body>, g0: seq<Byte>,
                          vb: seq<Velocity>)
    requires Sound(pa, pb, ba, bb, g0) && |vb| == |bb|
    ensures Sound(pa, pb, ba, MoveAll(g0, bb, vb).1, MoveAll(g0, bb, vb).0)
  {
    MoveSecondKeepsConsistent(g0, ba, bb, vb);
  }

  /** `removeDead(playerA)` keeps the invariant. */
  lemma CullFirstIsSound(pa: seq<Agent>, pb: seq<Agent>, hs: seq<int>, ba: seq<Body>, bb: seq<Body>,
                         sa: seq<Body>, g0: seq<Byte>, g1: seq<Byte>)
    requires |hs| == |pa| && Sound(pa, pb, ba, bb, g0)
    requires AllInMap(sa) && Drained(g1, g0, ba, sa)
    ensures Sound(Cull(pa, hs, 0), pb, sa, bb, g1)
  {
    ShrinkFirstKeepsConsistent(g0, g1, ba, sa, bb);
    CullKeepsDistinct(pa, hs, 0);
    ApartSub(pa, Cull(pa, hs, 0), pb, pb);
  }

  /** `removeDead(playerB)` keeps the invariant. */
  lemma CullSecondIsSound(pa: seq<Agent>, pb: seq<Agent>, hs: seq<int>, ba: seq<Body>, bb: seq<Body>,
                          sb: seq<Body>, g0: seq<Byte>, g1: seq<Byte>)
    requires |hs| == |pb| && Sound(pa, pb, ba, bb, g0)
    requires AllInMap(sb) && Drained(g1, g0, bb, sb)
    ensures Sound(pa, Cull(pb, hs, 0), ba, sb, g1)
  {
    ShrinkSecondKeepsConsistent(g0, g1, ba, bb, sb);
    CullKeepsDistinct(pb, hs, 0);
    ApartSub(pa, pa, pb, Cull(pb, hs, 0));
  }

  /** Every agent of `s` has health at least one. */
  ghost predicate Alive(s: seq<Agent>)
    reads s`healthShifted
  {
    forall j | 0 <= j < |s| :: s[j].healthShifted >= 1
  }

  /** `updateStats` applied to the counters of a whole group. */
  function Refreshes(st: seq<Stats>, frameSkip: nat): seq<Stats> {
    seq(|st|, j requires 0 <= j < |st| => Refreshed(st[j], frameSkip))
  }

  /** Every agent alive, standing still and not marked as healed. */
  predicate SettledStats(st: seq<Stats>) {
    forall j | 0 <= j < |st| ::
      st[j].vitals.healthShifted >= 1 && st[j].velocity == Velocity(0, 0) && !st[j].healed
  }

  ghost predicate Settled(s: seq<Agent>)
    reads s`vx, s`vy, s`healedThisFrame, s`healthShifted, s`shieldsShifted, s`energyShifted, s`cooldown,
          s`remainingStimFrames
  {
    SettledStats(AllStats(s))
  }

  /** `updateStats` on a group of living agents leaves them alive, still and unhealed. */
  lemma RefreshSettles(before: seq<Stats>, frameSkip: nat)
    requires frameSkip >= 1
    requires forall j | 0 <= j < |before| :: before[j].vitals.healthShifted >= 1
    ensures SettledStats(Refreshes(before, frameSkip))
  {
    forall j | 0 <= j < |before|
      ensures Refreshes(before, frameSkip)[j].vitals.healthShifted >= 1
    {
      RegenerateKeepsAlive(before[j].vitals, frameSkip, before[j].plague, before[j].regenerates);
    }
  }

  lemma AnyActiveConcat(a: seq<Visit>, b: seq<Visit>)
    ensures AnyActive(a + b) <==> AnyActive(a) || AnyActive(b)
  {
    if AnyActive(a) {
      var k :| 0 <= k < |a| && a[k].active;
      assert (a + b)[k] == a[k];
    }
    if AnyActive(b) {
      var k :| 0 <= k < |b| && b[k].active;
      assert (a + b)[|a| + k] == b[k];
    }
  }

  lemma VisitedAgentsConcat(a: seq<Visit>, b: seq<Visit>)
    ensures VisitedAgents(a + b) == VisitedAgents(a) + VisitedAgents(b)
  {
  }

  /** Two extensions of the visit log in a row make one extension, visit by visit. */
  lemma VisitsCompose(v0: seq<Visit>, v1: seq<Visit>, v2: seq<Visit>)
    requires |v0| <= |v1| && v1[..|v0|] == v0
    requires |v1| <= |v2| && v2[..|v1|] == v1
    ensures |v0| <= |v2| && v2[..|v0|] == v0
    ensures VisitedAgents(v2[|v0|..]) == VisitedAgents(v1[|v0|..]) + VisitedAgents(v2[|v1|..])
    ensures AnyActive(v2[|v0|..]) <==> AnyActive(v1[|v0|..]) || AnyActive(v2[|v1|..])
    ensures Traces(v2[|v0|..]) == Traces(v1[|v0|..]) + Traces(v2[|v1|..])
    ensures v2[|v0|..|v1|] == v1[|v0|..]
  {
    assert v2[|v0|..] == v1[|v0|..] + v2[|v1|..];
    AnyActiveConcat(v1[|v0|..], v2[|v1|..]);
    VisitedAgentsConcat(v1[|v0|..], v2[|v1|..]);
    TracesConcat(v1[|v0|..], v2[|v1|..]);
  }

  /** The behaviour runs of a visit log, one visit after the other. */
  ghost function Traces(vs: seq<Visit>): seq<Invocation>
  {
    if vs == [] then [] else Traces(vs[..|vs| - 1]) + vs[|vs| - 1].trace
  }

  /** Every visit of the log ran `behavior` on its agent, the visit's trace being what that run did. */
  ghost predicate AllDispatched(behavior: Behavior, vs: seq<Visit>)
  {
    vs == [] || (AllDispatched(behavior, vs[..|vs| - 1]) && Dispatched(behavior, vs[|vs| - 1].agent, vs[|vs| - 1].trace, vs[|vs| - 1].active))
  }

  /**
   * What the two behaviour loops of a `step` over groups `a` and `b` did:
   * group A's loop visited exactly its scheduled agents (`nA`), then group
   * B's (`nB`); the step answers whether any agent was immobilised or any
   * visit was active; the primitive behaviours run extend the log from
   * `before` to `after` by the visits' traces, each one what the side's
   * behaviour dispatches.
   */
  ghost predicate Behaved(behA: Behavior, behB: Behavior, a: seq<Agent>, b: seq<Agent>,
                          nA: seq<Visit>, nB: seq<Visit>, running: bool,
                          before: seq<Invocation>, after: seq<Invocation>)
  {
    && VisitedAgents(nA) == Scheduled(a) && VisitedAgents(nB) == Scheduled(b)
    && (running <==> AnyImmobilised(a) || AnyImmobilised(b) || AnyActive(nA) || AnyActive(nB))
    && after == before + Traces(nA) + Traces(nB)
    && AllDispatched(behA, nA) && AllDispatched(behB, nB)
  }

  /** In a dispatched log, visit `k` is a dispatched run. */
  lemma {:induction false} AllDispatchedAt(behavior: Behavior, vs: seq<Visit>, k: nat)
    requires AllDispatched(behavior, vs) && k < |vs|
    ensures Dispatched(behavior, vs[k].agent, vs[k].trace, vs[k].active)
    decreases |vs|
  {
    if k < |vs| - 1 {
      AllDispatchedAt(behavior, vs[..|vs| - 1], k);
    }
  }

  lemma {:induction false} TracesConcat(a: seq<Visit>, b: seq<Visit>)
    ensures Traces(a + b) == Traces(a) + Traces(b)
    decreases |b|
  {
    if b == [] {
      assert a + b == a;
    } else {
      assert (a + b)[..|a + b| - 1] == a + b[..|b| - 1];
      TracesConcat(a, b[..|b| - 1]);
    }
  }

  /** Whatever a dispatched run did, it did for the agent it was given. */
  lemma DispatchedConcerns(behavior: Behavior, agent: Agent, trace: seq<Invocation>, active: bool)
    requires Dispatched(behavior, agent, trace, active)
    ensures forall i | 0 <= i < |trace| :: trace[i].agent == agent
  {
  }

  /**
   * Only scheduled agents act: every primitive behaviour in the trace of a
   * dispatched visit log ran for an agent of the group that is neither
   * locked down nor stasised.
   */
  lemma {:induction false} OnlyScheduledAct(behavior: Behavior, vs: seq<Visit>, s: seq<Agent>)
    requires AllDispatched(behavior, vs) && VisitedAgents(vs) == Scheduled(s)
    ensures forall i | 0 <= i < |Traces(vs)| :: Traces(vs)[i].agent in s && !Immobilised(Traces(vs)[i].agent)
  {
    forall i | 0 <= i < |Traces(vs)|
      ensures Traces(vs)[i].agent in s && !Immobilised(Traces(vs)[i].agent)
    {
      var k, j := TraceOrigin(vs, i);
      AllDispatchedAt(behavior, vs, k);
      DispatchedConcerns(behavior, vs[k].agent, vs[k].trace, vs[k].active);
      assert Traces(vs)[i].agent == vs[k].agent == VisitedAgents(vs)[k];
      assert Scheduled(s)[k] in Scheduled(s);
    }
  }

  /** The `i`th invocation of a log's traces is the `j`th of visit `k`'s trace. */
  lemma {:induction false} TraceOrigin(vs: seq<Visit>, i: nat) returns (k: nat, j: nat)
    requires i < |Traces(vs)|
    ensures k < |vs| && j < |vs[k].trace| && Traces(vs)[i] == vs[k].trace[j]
    decreases |vs|
  {
    var n := |vs| - 1;
    if i < |Traces(vs[..n])| {
      k, j := TraceOrigin(vs[..n], i);
      assert vs[..n][k] == vs[k];
    } else {
      k, j := n, i - |Traces(vs[..n])|;
    }
  }

  /** Logging one more dispatched visit extends each summary of the log by that visit. */
  lemma LogVisit(behavior: Behavior, vs: seq<Visit>, v: Visit)
    requires AllDispatched(behavior, vs) && Dispatched(behavior, v.agent, v.trace, v.active)
    ensures AllDispatched(behavior, vs + [v]) && Traces(vs + [v]) == Traces(vs) + v.trace
    ensures VisitedAgents(vs + [v]) == VisitedAgents(vs) + [v.agent]
    ensures AnyActive(vs + [v]) <==> AnyActive(vs) || v.active
  {
    assert (vs + [v])[..|vs|] == vs;
    AnyActiveAppend(vs, v);
  }

  /** Scanning one slot further down a group: how the schedule and the immobilised test grow. */
  lemma ScheduleFrom(s: seq<Agent>, i: nat)
    requires i < |s|
    ensures Immobilised(s[i]) ==> Scheduled(s[i..]) == Scheduled(s[i + 1..]) && AnyImmobilised(s[i..])
    ensures !Immobilised(s[i]) ==> Scheduled(s[i..]) == Scheduled(s[i + 1..]) + [s[i]]
    ensures !Immobilised(s[i]) ==> (AnyImmobilised(s[i..]) <==> AnyImmobilised(s[i + 1..]))
  {
    assert Scheduled(s[i..]) == Scheduled(s[i + 1..]) + (if Immobilised(s[i]) then [] else [s[i]]);
    assert s[i..][1..] == s[i + 1..] && s[i..][0] == s[i];
    if AnyImmobilised(s[i + 1..]) {
      var j :| 0 <= j < |s[i + 1..]| && Immobilised(s[i + 1..][j]);
      assert s[i..][j + 1] == s[i + 1..][j];
    }
  }

  /**
   * The behaviour loop of one side, scanned down to slot `i`: the visits
   * `nv` are those of the scheduled agents from slot `i` up, each what
   * `behavior` dispatches, and `running` says whether any of those agents
   * was immobilised or any visit active.
   */
  ghost predicate Scanned(behavior: Behavior, allies: seq<Agent>, i: nat, nv: seq<Visit>, running: bool)
    requires i <= |allies|
  {
    && VisitedAgents(nv) == Scheduled(allies[i..])
    && (running <==> AnyImmobilised(allies[i..]) || AnyActive(nv))
    && AllDispatched(behavior, nv)
  }

  /** An immobilised agent at slot `i` is skipped and keeps the loop running. */
  lemma ScanSkip(behavior: Behavior, allies: seq<Agent>, i: nat, nv: seq<Visit>, running: bool)
    requires i < |allies| && Immobilised(allies[i]) && Scanned(behavior, allies, i + 1, nv, running)
    ensures Scanned(behavior, allies, i, nv, true)
  {
    ScheduleFrom(allies, i);
  }

  /** Any other agent at slot `i` is visited, and its answer joins `running`. */
  lemma ScanVisit(behavior: Behavior, allies: seq<Agent>, i: nat, nv: seq<Visit>, running: bool, v: Visit)
    requires i < |allies| && !Immobilised(allies[i]) && Scanned(behavior, allies, i + 1, nv, running)
    requires v.agent == allies[i] && Dispatched(behavior, v.agent, v.trace, v.active)
    ensures Scanned(behavior, allies, i, nv + [v], running || v.active)
    ensures Traces(nv + [v]) == Traces(nv) + v.trace
  {
    ScheduleFrom(allies, i);
    LogVisit(behavior, nv, v);
  }

  lemma AppendAssoc<T>(a: seq<T>, b: seq<T>, c: seq<T>)
    ensures a + (b + c) == (a + b) + c
  {
  }

  /**
   * One `step` of `simulate` as the round log records it: the groups it
   * began with, the visits of its two loops, its answer, and the action log
   * before and after it.
   */
  datatype Round = Round(a: seq<Agent>, b: seq<Agent>, nA: seq<Visit>, nB: seq<Visit>, running: bool,
                         before: seq<Invocation>, after: seq<Invocation>)

  /** The round is a `step` as `Behaved` describes it, under behaviours `behA` and `behB`. */
  ghost predicate RoundBehaved(behA: Behavior, behB: Behavior, r: Round) {
    Behaved(behA, behB, r.a, r.b, r.nA, r.nB, r.running, r.before, r.after)
  }

  /** Every round of the log `w` is a `step` as `Behaved` describes it, and answered true. */
  ghost predicate Streak(behA: Behavior, behB: Behavior, w: seq<Round>) {
    && (forall k | 0 <= k < |w| :: w[k].running)
    && (forall k {:trigger RoundBehaved(behA, behB, w[k])} | 0 <= k < |w| :: RoundBehaved(behA, behB, w[k]))
  }

  /**
   * The round log `w` of `simulate` after `steps` steps: one `step` per
   * round, each answering true but perhaps the last, which answered false
   * exactly when the loop stalled.
   */
  ghost predicate Answered(behA: Behavior, behB: Behavior, w: seq<Round>, steps: nat, stalled: bool) {
    && |w| == steps
    && (forall k {:trigger RoundBehaved(behA, behB, w[k])} | 0 <= k < |w| :: RoundBehaved(behA, behB, w[k]))
    && (forall k | 0 <= k < |w| - 1 :: w[k].running)
    && (stalled <==> steps > 0 && !w[|w| - 1].running)
  }

  /**
   * Logging one more step `r` after a streak: a false answer stalls the
   * loop, a true one lengthens the streak.
   */
  lemma LogAnswer(behA: Behavior, behB: Behavior, w: seq<Round>, r: Round)
    requires Streak(behA, behB, w) && RoundBehaved(behA, behB, r)
    ensures Answered(behA, behB, w + [r], |w| + 1, !r.running)
    ensures r.running ==> Streak(behA, behB, w + [r])
  {
  }

  /** A streak that ends the loop without a stall. */
  lemma StreakLast(behA: Behavior, behB: Behavior, w: seq<Round>)
    requires Streak(behA, behB, w)
    ensures Answered(behA, behB, w, |w|, false)
  {
  }

  /** Extending a log that begins with `v0` keeps `v0` at its head. */
  lemma PrefixExtend(v0: seq<Visit>, v1: seq<Visit>, nA: seq<Visit>, nB: seq<Visit>)
    requires |v0| <= |v1| && v1[..|v0|] == v0
    ensures |v0| <= |v1 + nA + nB| && (v1 + nA + nB)[..|v0|] == v0
  {
    assert (v1 + nA + nB)[..|v0|] == v1[..|v0|];
  }

  /** Agents whose fields did not change keep their states. */
  twostate lemma StatesFrame(s: seq<Agent>)
    requires unchanged(s)
    ensures States(s) == old(States(s))
  {
  }

  /** Every agent `removeDead` keeps was in the group before. */
  lemma CullDropsOnly(s: seq<Agent>, hs: seq<int>)
    requires |hs| == |s|
    ensures forall j | 0 <= j < |Cull(s, hs, 0)| :: Cull(s, hs, 0)[j] in s
    ensures forall a | a in Cull(s, hs, 0) :: a in s
  {
    CullShrinks(s, hs, 0);
    forall j | 0 <= j < |Cull(s, hs, 0)|
      ensures Cull(s, hs, 0)[j] in s
    {
      assert Cull(s, hs, 0)[j] in multiset(Cull(s, hs, 0));
    }
  }

  /** A group drawn from `pool` is still drawn from it after `removeDead`. */
  lemma CullWithin(s: seq<Agent>, hs: seq<int>, pool: seq<Agent>)
    requires |hs| == |s| && forall j | 0 <= j < |s| :: s[j] in pool
    ensures forall j | 0 <= j < |Cull(s, hs, 0)| :: Cull(s, hs, 0)[j] in pool
  {
    CullDropsOnly(s, hs);
    forall j | 0 <= j < |Cull(s, hs, 0)|
      ensures Cull(s, hs, 0)[j] in pool
    {
      var k :| 0 <= k < |s| && s[k] == Cull(s, hs, 0)[j];
    }
  }

  class Simulator {
    var playerA: seq<Agent>
    var playerB: seq<Agent>
    const collision: array<Byte>
    const playerABehavior: Behavior
    const playerBBehavior: Behavior
    const frameSkip: int
    /** Every primitive behaviour run so far. */
    ghost var actions: seq<Invocation>
    /** Every behaviour invocation made by `step` so far. */
    ghost var visits: seq<Visit>

    /**
     * The grid counts exactly the ground agents of both groups, all inside
     * the map; no agent occurs twice or in both groups.
     */
    ghost predicate Valid()
      reads this`playerA, this`playerB, collision
      reads playerA`x, playerA`y, playerB`x, playerB`y
    {
      && frameSkip >= 1
      && collision.Length == CellCount
      && Sound(playerA, playerB, Bodies(playerA), Bodies(playerB), collision[..])
    }

    constructor (frameSkip: int, playerABehavior: Behavior, playerBBehavior: Behavior)
      requires frameSkip >= 1
      ensures Valid() && fresh(collision)
      ensures this.frameSkip == frameSkip
      ensures this.playerABehavior == playerABehavior && this.playerBBehavior == playerBBehavior
      ensures playerA == [] && playerB == [] && actions == [] && visits == []
      ensures forall c | 0 <= c < CellCount :: collision[c] == 0
    {
      this.frameSkip := frameSkip;
      this.playerABehavior := playerABehavior;
      this.playerBBehavior := playerBBehavior;
      playerA, playerB := [], [];
      actions, visits := [], [];
      collision := new Byte[CellCount](_ => 0);
      new;
      assert Bodies(playerA) + Bodies(playerB) == [];
    }

    /** The private constructor with its argument checks: an error instead of an exception. */
    static method Create(frameSkip: int, a: Option<Behavior>, b: Option<Behavior>)
      returns (r: Result<Simulator, ConfigError>)
      ensures r.Failure? <==> ConfigCheck(frameSkip, a, b).Some?
      ensures r.Failure? ==> Some(r.error) == ConfigCheck(frameSkip, a, b)
      ensures r.Success? ==> fresh(r.value) && fresh(r.value.collision) && r.value.Valid()
      ensures r.Success? ==> r.value.frameSkip == frameSkip && r.value.playerA == [] && r.value.playerB == []
      ensures r.Success? ==> Some(r.value.playerABehavior) == a && Some(r.value.playerBBehavior) == b
    {
      var check := ConfigCheck(frameSkip, a, b);
      if check.Some? {
        return Failure(check.value);
      }
      var sim := new Simulator(frameSkip, a.value, b.value);
      return Success(sim);
    }

    /** `addAgentA`: rejects an agent outside the map; otherwise appends it and counts it if it walks. */
    method AddAgentA(agent: Agent) returns (r: Outcome<BoundsError>)
      requires Valid()
      modifies this`playerA, collision
      ensures r.Fail? <==> !InMap(agent.x, agent.y)
      ensures r.Fail? ==> playerA == old(playerA) && collision[..] == old(collision[..])
      ensures r.Pass? ==> playerA == old(playerA) + [agent]
      ensures r.Pass? ==> collision[..] == Place(old(collision[..]), BodyOf(agent))
      ensures r.Fail? || (agent !in old(playerA) && agent !in old(playerB)) ==> Valid()
    {
      if !InMap(agent.x, agent.y) {
        return Fail(PositionOutOfBounds);
      }
      ghost var g0, a0, ba, bb := collision[..], playerA, Bodies(playerA), Bodies(playerB);
      ghost var body := BodyOf(agent);
      if !agent.isFlyer {
        var i := ColIndex(agent.x, agent.y);
        collision[i] := Wrap8(collision[i] as int + 1);
      }
      ghost var g1 := collision[..];
      assert g1 == Place(g0, body);
      playerA := playerA + [agent];
      r := Pass;
      if agent !in a0 && agent !in playerB {
        PlaceFirstIsSound(a0, playerB, ba, bb, g0, agent, body);
        assert Bodies(playerA) == ba + [body] by {
          BodiesConcat(a0, [agent]);
        }
        assert Bodies(playerB) == bb && collision[..] == g1;
      }
    }

    /** `addAgentB`: as `AddAgentA`, for the other group. */
    method AddAgentB(agent: Agent) returns (r: Outcome<BoundsError>)
      requires Valid()
      modifies this`playerB, collision
      ensures r.Fail? <==> !InMap(agent.x, agent.y)
      ensures r.Fail? ==> playerB == old(playerB) && collision[..] == old(collision[..])
      ensures r.Pass? ==> playerB == old(playerB) + [agent]
      ensures r.Pass? ==> collision[..] == Place(old(collision[..]), BodyOf(agent))
      ensures r.Fail? || (agent !in old(playerA) && agent !in old(playerB)) ==> Valid()
    {
      if !InMap(agent.x, agent.y) {
        return Fail(PositionOutOfBounds);
      }
      ghost var g0, b0, ba, bb := collision[..], playerB, Bodies(playerA), Bodies(playerB);
      ghost var body := BodyOf(agent);
      if !agent.isFlyer {
        var i := ColIndex(agent.x, agent.y);
        collision[i] := Wrap8(collision[i] as int + 1);
      }
      ghost var g1 := collision[..];
      assert g1 == Place(g0, body);
      playerB := playerB + [agent];
      r := Pass;
      if agent !in playerA && agent !in b0 {
        PlaceSecondIsSound(playerA, b0, ba, bb, g0, agent, body);
        assert Bodies(playerB) == bb + [body] by {
          BodiesConcat(b0, [agent]);
        }
        assert Bodies(playerA) == ba && collision[..] == g1;
      }
    }

    /** `evalToInt`: the scorer summed over each group. */
    method EvalToInt(score: AgentView -> int) returns (e: IntEvaluation)
      ensures e == IntEvaluation(SumScores(score, Views(playerA)), SumScores(score, Views(playerB)))
    {
      var evalA := 0;
      for i := 0 to |playerA|
        invariant evalA == SumScores(score, Views(playerA[..i]))
      {
        assert Views(playerA[..i + 1])[..i] == Views(playerA[..i]);
        evalA := evalA + score(ViewOf(playerA[i]));
      }
      assert playerA[..|playerA|] == playerA;
      var evalB := 0;
      for i := 0 to |playerB|
        invariant evalB == SumScores(score, Views(playerB[..i]))
      {
        assert Views(playerB[..i + 1])[..i] == Views(playerB[..i]);
        evalB := evalB + score(ViewOf(playerB[i]));
      }
      assert playerB[..|playerB|] == playerB;
      e := IntEvaluation(evalA, evalB);
    }

    /**
     * `removeDead`: swap-removes every agent whose health is below one and
     * takes a ground one off its tile's counter. The death handler is not
     * part of this model.
     */
    method RemoveDead(agents: seq<Agent>) returns (survivors: seq<Agent>)
      requires collision.Length == CellCount && AllInMap(Bodies(agents))
      modifies collision
      ensures survivors == Cull(agents, old(Healths(agents)), 0)
      ensures AllInMap(Bodies(survivors))
      ensures Drained(collision[..], old(collision[..]), old(Bodies(agents)), Bodies(survivors))
    {
      ghost var g0, total, h0 := collision[..], Bodies(agents), Healths(agents);
      ghost var bodies, hs := total, h0;
      survivors := agents;
      var i := 0;
      while i < |survivors|
        invariant i <= |survivors| == |bodies| == |hs| && AllInMap(bodies)
        invariant forall j | 0 <= j < |survivors| :: bodies[j] == BodyOf(survivors[j]) && hs[j] == survivors[j].healthShifted
        invariant Cull(survivors, hs, i) == Cull(agents, h0, 0)
        invariant Drained(collision[..], g0, total, bodies)
        decreases |survivors| - i
      {
        if survivors[i].healthShifted < 1 {
          assert Cull(survivors, hs, i) == Cull(RemoveAt(survivors, i), RemoveAt(hs, i), i);
          survivors, bodies, hs := Bury(survivors, i, bodies, hs, g0, total);
        } else {
          assert Cull(survivors, hs, i) == Cull(survivors, hs, i + 1);
          i := i + 1;
        }
      }
      assert Bodies(survivors) == bodies;
    }

    /**
     * One removal of `removeDead`: the agent at `i` is swap-removed and taken
     * off the grid; `bs` and `hs` are the positions and healths of `s`.
     */
    method Bury(s: seq<Agent>, i: nat, ghost bs: seq<Body>, ghost hs: seq<int>, ghost g0: seq<Byte>,
                ghost total: seq<Body>)
      returns (r: seq<Agent>, ghost bs': seq<Body>, ghost hs': seq<int>)
      requires collision.Length == CellCount
      requires i < |s| == |bs| == |hs| && AllInMap(bs) && Drained(collision[..], g0, total, bs)
      requires forall j | 0 <= j < |s| :: bs[j] == BodyOf(s[j]) && hs[j] == s[j].healthShifted
      modifies collision
      ensures r == RemoveAt(s, i) && bs' == RemoveAt(bs, i) && hs' == RemoveAt(hs, i)
      ensures AllInMap(bs') && Drained(collision[..], g0, total, bs')
      ensures forall j | 0 <= j < |r| :: bs'[j] == BodyOf(r[j]) && hs'[j] == r[j].healthShifted
    {
      var agent := s[i];
      RemoveAtAligned(s, bs, hs, i);
      UnplaceKeepsDrained(collision[..], g0, total, bs, i);
      r := RemoveAt(s, i);
      bs', hs' := RemoveAt(bs, i), RemoveAt(hs, i);
      TakeOff(agent);
    }

    /** `if (!agent.isFlyer) collision[colindex(agent.x, agent.y)]--`. */
    method TakeOff(agent: Agent)
      requires collision.Length == CellCount && InMap(agent.x, agent.y)
      modifies collision
      ensures collision[..] == Unplace(old(collision[..]), BodyOf(agent))
    {
      if !agent.isFlyer {
        var ci := ColIndex(agent.x, agent.y);
        collision[ci] := Wrap8(collision[ci] as int - 1);
      }
    }

    /** `updatePosition`: one agent's move, as `Move` states it. */
    method UpdatePosition(agent: Agent)
      requires collision.Length == CellCount && InMap(agent.x, agent.y)
      modifies collision, agent`x, agent`y
      ensures (collision[..], BodyOf(agent)) == Move(old(collision[..]), old(BodyOf(agent)), old(VelocityOf(agent)))
    {
      ghost var g0, b0, v0 := collision[..], BodyOf(agent), VelocityOf(agent);
      MoveCases(g0, b0, v0);
      var tx := agent.x + agent.vx;
      var ty := agent.y + agent.vy;
      if tx < 0 || ty < 0 || tx >= MaxMapDimension || ty >= MaxMapDimension {
        return;
      }
      if !agent.isFlyer {
        var oldCI := ColIndex(agent.x, agent.y);
        var newCI := ColIndex(tx, ty);
        if oldCI != newCI {
          if collision[newCI] as int > TileCapacity {
            return;
          }
          collision[oldCI] := Wrap8(collision[oldCI] as int - 1);
          collision[newCI] := Wrap8(collision[newCI] as int + 1);
        }
      }
      agent.x, agent.y := tx, ty;
    }

    /** The body of `updateStats`' loop for the agent at index `i`; no other agent changes. */
    method UpdateAgent(agent: Agent)
      requires frameSkip >= 1 && collision.Length == CellCount && InMap(agent.x, agent.y)
      modifies collision, agent`x, agent`y, agent`vx, agent`vy, agent`healedThisFrame
      modifies agent`cooldown, agent`shieldsShifted, agent`healthShifted,
               agent`remainingStimFrames, agent`energyShifted
      ensures (collision[..], BodyOf(agent)) == Move(old(collision[..]), old(BodyOf(agent)), old(VelocityOf(agent)))
      ensures StatsOf(agent) == Refreshed(old(StatsOf(agent)), frameSkip)
    {
      UpdatePosition(agent);
      RefreshStats(agent);
    }

    /** The counter updates of `updateStats`' loop, in the order it makes them. */
    method RefreshStats(agent: Agent)
      requires frameSkip >= 1
      modifies agent`vx, agent`vy, agent`healedThisFrame
      modifies agent`cooldown, agent`shieldsShifted, agent`healthShifted,
               agent`remainingStimFrames, agent`energyShifted
      ensures StatsOf(agent) == Refreshed(old(StatsOf(agent)), frameSkip)
    {
      agent.vx := 0;
      agent.vy := 0;
      agent.healedThisFrame := false;
      agent.cooldown := agent.cooldown - frameSkip;
      agent.shieldsShifted := agent.shieldsShifted + 7 * frameSkip;
      var drain := Times(agent.plagueDamagePerFrameShifted, frameSkip);
      if drain < agent.healthShifted {
        agent.healthShifted := agent.healthShifted - drain;
      }
      agent.remainingStimFrames := agent.remainingStimFrames - frameSkip;
      if agent.regeneratesHealth {
        agent.healthShifted := agent.healthShifted + 4 * frameSkip;
      }
      agent.energyShifted := agent.energyShifted + 8 * frameSkip;
    }

    /**
     * One pass of `updateStats`' loop on `agents[i]`, stated over the ghost
     * snapshots `cur` (positions) and `sts` (counters) of all agents.
     */
    method UpdateAt(agents: seq<Agent>, i: nat, agent: Agent, ghost cur: seq<Body>, ghost sts: seq<Stats>)
      requires frameSkip >= 1 && collision.Length == CellCount && Distinct(agents)
      requires i < |agents| == |cur| == |sts| && agents[i] == agent && InMap(cur[i].x, cur[i].y)
      requires forall j {:trigger BodyOf(agents[j])} | 0 <= j < |agents| :: BodyOf(agents[j]) == cur[j]
      requires forall j {:trigger StatsOf(agents[j])} | 0 <= j < |agents| :: StatsOf(agents[j]) == sts[j]
      modifies collision, agent`x, agent`y, agent`vx, agent`vy, agent`healedThisFrame
      modifies agent`cooldown, agent`shieldsShifted, agent`healthShifted,
               agent`remainingStimFrames, agent`energyShifted
      ensures collision[..] == Move(old(collision[..]), cur[i], sts[i].velocity).0
      ensures forall j {:trigger BodyOf(agents[j])} | 0 <= j < |agents| ::
                BodyOf(agents[j]) == cur[i := Move(old(collision[..]), cur[i], sts[i].velocity).1][j]
      ensures forall j {:trigger StatsOf(agents[j])} | 0 <= j < |agents| ::
                StatsOf(agents[j]) == sts[i := Refreshed(sts[i], frameSkip)][j]
    {
      assert forall j | 0 <= j < |agents| && j != i :: agents[j] != agent;
      assert BodyOf(agent) == cur[i] && StatsOf(agent) == sts[i];
      UpdateAgent(agent);
    }

    /**
     * `updateStats`: from the last agent to the first, move it, clear its
     * velocity and healed marker, and apply one frame of regeneration.
     * The Java `assert` on health is a precondition here.
     */
    method UpdateStats(agents: seq<Agent>)
      requires frameSkip >= 1 && collision.Length == CellCount && Distinct(agents) && AllInMap(Bodies(agents))
      requires forall j | 0 <= j < |agents| :: agents[j].healthShifted >= 0
      modifies collision, agents`x, agents`y, agents`vx, agents`vy, agents`healedThisFrame
      modifies agents`cooldown, agents`shieldsShifted, agents`healthShifted, agents`remainingStimFrames,
               agents`energyShifted
      ensures collision[..] == MoveAll(old(collision[..]), old(Bodies(agents)), old(Velocities(agents))).0
      ensures forall j {:trigger BodyOf(agents[j])} | 0 <= j < |agents| ::
                BodyOf(agents[j]) == MoveAll(old(collision[..]), old(Bodies(agents)), old(Velocities(agents))).1[j]
      ensures forall j {:trigger StatsOf(agents[j])} | 0 <= j < |agents| ::
                StatsOf(agents[j]) == Refreshed(old(StatsOf(agents[j])), frameSkip)
    {
      ghost var g0, b0, v0, s0 := collision[..], Bodies(agents), Velocities(agents), AllStats(agents);
      assert forall j | 0 <= j < |agents| :: s0[j].velocity == v0[j];
      ghost var grid, cur, sts := g0, b0, s0;
      var i := |agents|;
      while i > 0
        invariant 0 <= i <= |agents| && |cur| == |sts| == |agents|
        invariant (grid, cur) == MoveFrom(g0, b0, v0, i)
        invariant forall j | 0 <= j < |agents| :: sts[j] == if j < i then s0[j] else Refreshed(s0[j], frameSkip)
        invariant collision[..] == grid
        invariant forall j {:trigger BodyOf(agents[j])} | 0 <= j < |agents| :: BodyOf(agents[j]) == cur[j]
        invariant forall j {:trigger StatsOf(agents[j])} | 0 <= j < |agents| :: StatsOf(agents[j]) == sts[j]
      {
        i := i - 1;
        MoveFromStep(g0, b0, v0, i);
        ghost var m := Move(grid, cur[i], v0[i]);
        UpdateAt(agents, i, agents[i], cur, sts);
        grid, cur, sts := m.0, cur[i := m.1], sts[i := Refreshed(sts[i], frameSkip)];
      }
      assert MoveAll(g0, b0, v0) == (grid, cur);
    }

    /**
     * The behaviour loop of `step` for one side: from the last agent to the
     * first, an agent that is locked down or stasised keeps the simulation
     * running without acting; any other is handed to `behavior`, whose
     * answer is recorded as a visit and joins `running`.
     */
    method ActAll(behavior: Behavior, allies: seq<Agent>, enemies: seq<Agent>)
      returns (running: bool, ghost nv: seq<Visit>)
      modifies this`actions, this`visits
      modifies allies`healthShifted, allies`shieldsShifted, allies`energyShifted, allies`cooldown,
               allies`vx, allies`vy, allies`remainingStimFrames, allies`healedThisFrame, allies`lastAlly
      modifies enemies`healthShifted, enemies`shieldsShifted, enemies`energyShifted, enemies`cooldown,
               enemies`vx, enemies`vy, enemies`remainingStimFrames, enemies`healedThisFrame, enemies`lastAlly
      ensures visits == old(visits) + nv
      ensures VisitedAgents(nv) == Scheduled(allies)
      ensures running <==> AnyImmobilised(allies) || AnyActive(nv)
      ensures actions == old(actions) + Traces(nv)
      ensures AllDispatched(behavior, nv)
    {
      ghost var v0, a0 := visits, actions;
      nv := [];
      running := false;
      var i := |allies|;
      while i > 0
        invariant 0 <= i <= |allies|
        invariant visits == v0 + nv
        invariant actions == a0 + Traces(nv)
        invariant Scanned(behavior, allies, i, nv, running)
      {
        i := i - 1;
        var agent := allies[i];
        if Immobilised(agent) {
          ScanSkip(behavior, allies, i, nv, running);
          running := true;
        } else {
          var active;
          ghost var v;
          active, v := Consult(behavior, agent, allies, enemies);
          ScanVisit(behavior, allies, i, nv, running, v);
          AppendAssoc(v0, nv, [v]);
          AppendAssoc(a0, Traces(nv), v.trace);
          visits, nv := visits + [v], nv + [v];
          running := running || active;
        }
      }
      assert allies[0..] == allies;
    }

    /** One behaviour run of `step`'s loop, together with the visit it logs. */
    method Consult(behavior: Behavior, agent: Agent, allies: seq<Agent>, enemies: seq<Agent>)
      returns (active: bool, ghost v: Visit)
      requires agent in allies
      modifies this`actions
      modifies allies`healthShifted, allies`shieldsShifted, allies`energyShifted, allies`cooldown,
               allies`vx, allies`vy, allies`remainingStimFrames, allies`healedThisFrame, allies`lastAlly
      modifies enemies`healthShifted, enemies`shieldsShifted, enemies`energyShifted, enemies`cooldown,
               enemies`vx, enemies`vy, enemies`remainingStimFrames, enemies`healedThisFrame, enemies`lastAlly
      ensures v.agent == agent && v.active == active && actions == old(actions) + v.trace
      ensures Dispatched(behavior, agent, v.trace, active)
    {
      ghost var before := actions;
      active := SimUnit(behavior, agent, allies, enemies);
      v := Visit(agent, active, actions[|before|..]);
      assert actions == before + v.trace;
    }

    /** The behaviour loop of `step` for group A, against group B. */
    method ActA() returns (running: bool, ghost n: seq<Visit>)
      modifies this`actions, this`visits
      modifies playerA`vx, playerA`vy, playerA`healedThisFrame, playerA`cooldown, playerA`shieldsShifted,
               playerA`healthShifted, playerA`remainingStimFrames, playerA`energyShifted, playerA`lastAlly
      modifies playerB`vx, playerB`vy, playerB`healedThisFrame, playerB`cooldown, playerB`shieldsShifted,
               playerB`healthShifted, playerB`remainingStimFrames, playerB`energyShifted, playerB`lastAlly
      ensures Bodies(playerA) == old(Bodies(playerA)) && Bodies(playerB) == old(Bodies(playerB))
      ensures visits == old(visits) + n
      ensures VisitedAgents(n) == Scheduled(playerA)
      ensures running <==> AnyImmobilised(playerA) || AnyActive(n)
      ensures actions == old(actions) + Traces(n)
      ensures AllDispatched(playerABehavior, n)
    {
      ghost var ba, bb := Bodies(playerA), Bodies(playerB);
      running, n := ActAll(playerABehavior, playerA, playerB);
      assert Bodies(playerA) == ba && Bodies(playerB) == bb;
    }

    /** The behaviour loop of `step` for group B, against group A. */
    method ActB() returns (running: bool, ghost n: seq<Visit>)
      modifies this`actions, this`visits
      modifies playerA`vx, playerA`vy, playerA`healedThisFrame, playerA`cooldown, playerA`shieldsShifted,
               playerA`healthShifted, playerA`remainingStimFrames, playerA`energyShifted, playerA`lastAlly
      modifies playerB`vx, playerB`vy, playerB`healedThisFrame, playerB`cooldown, playerB`shieldsShifted,
               playerB`healthShifted, playerB`remainingStimFrames, playerB`energyShifted, playerB`lastAlly
      ensures Bodies(playerA) == old(Bodies(playerA)) && Bodies(playerB) == old(Bodies(playerB))
      ensures visits == old(visits) + n
      ensures VisitedAgents(n) == Scheduled(playerB)
      ensures running <==> AnyImmobilised(playerB) || AnyActive(n)
      ensures actions == old(actions) + Traces(n)
      ensures AllDispatched(playerBBehavior, n)
    {
      ghost var ba, bb := Bodies(playerA), Bodies(playerB);
      running, n := ActAll(playerBBehavior, playerB, playerA);
      assert Bodies(playerA) == ba && Bodies(playerB) == bb;
    }

    /**
     * The two behaviour loops of `step`: group A against B, then group B
     * against A. The visits they log are `nA` and then `nB`.
     */
    method ActBoth() returns (running: bool, ghost nA: seq<Visit>, ghost nB: seq<Visit>)
      modifies this`actions, this`visits
      modifies playerA`vx, playerA`vy, playerA`healedThisFrame, playerA`cooldown, playerA`shieldsShifted,
               playerA`healthShifted, playerA`remainingStimFrames, playerA`energyShifted, playerA`lastAlly
      modifies playerB`vx, playerB`vy, playerB`healedThisFrame, playerB`cooldown, playerB`shieldsShifted,
               playerB`healthShifted, playerB`remainingStimFrames, playerB`energyShifted, playerB`lastAlly
      ensures Bodies(playerA) == old(Bodies(playerA)) && Bodies(playerB) == old(Bodies(playerB))
      ensures visits == old(visits) + nA + nB
      ensures Behaved(playerABehavior, playerBBehavior, playerA, playerB, nA, nB, running, old(actions), actions)
    {
      var runningA, runningB;
      runningA, nA := ActA();
      runningB, nB := ActB();
      running := runningA || runningB;
    }

    /**
     * The first half of `step`: both behaviour loops. The grid and the
     * bodies are left as they were; `ma` and `mb` are the groups' states
     * afterwards.
     */
    method Behave() returns (running: bool, ghost nA: seq<Visit>, ghost nB: seq<Visit>,
                             ghost ma: seq<AgentState>, ghost mb: seq<AgentState>)
      requires Valid()
      modifies this`playerA, this`playerB, collision, this`actions, this`visits
      modifies playerA, playerB
      ensures Valid() && playerA == old(playerA) && playerB == old(playerB)
      ensures visits == old(visits) + nA + nB
      ensures Behaved(playerABehavior, playerBBehavior, old(playerA), old(playerB), nA, nB, running, old(actions), actions)
      ensures ma == States(playerA) && mb == States(playerB)
      ensures |ma| == |old(playerA)| && StateBodies(ma) == old(Bodies(playerA))
      ensures |mb| == |old(playerB)| && StateBodies(mb) == old(Bodies(playerB))
      ensures StateHealths(ma) == Healths(playerA) && StateHealths(mb) == Healths(playerB)
    {
      ghost var g0, ba, bb := collision[..], Bodies(playerA), Bodies(playerB);
      running, nA, nB := ActBoth();
      assert Bodies(playerA) == ba && Bodies(playerB) == bb && collision[..] == g0;
      ma, mb := States(playerA), States(playerB);
      StatesProject(playerA);
      StatesProject(playerB);
    }

    /**
     * `step`: both behaviour loops, then `removeDead` and `updateStats` on
     * both groups. The answer is whether any agent was immobilised or any
     * behaviour reported activity, as `Behaved` says. `ma` and `mb` are the
     * groups' states once the behaviours have run (on the same bodies as
     * before); the survivors are what `Cull` keeps given the healths in
     * them, and the grid, bodies and counters after the step are what
     * `Updated` derives from them.
     */
    method Step() returns (running: bool, ghost nA: seq<Visit>, ghost nB: seq<Visit>,
                           ghost ma: seq<AgentState>, ghost mb: seq<AgentState>, ghost reaped: seq<Byte>)
      requires Valid()
      modifies this`playerA, this`playerB, collision, this`actions, this`visits
      modifies playerA, playerB
      ensures Valid() && Settled(playerA) && Settled(playerB)
      ensures visits == old(visits) + nA + nB
      ensures Behaved(playerABehavior, playerBBehavior, old(playerA), old(playerB), nA, nB, running, old(actions), actions)
      ensures |ma| == |old(playerA)| && StateBodies(ma) == old(Bodies(playerA))
      ensures |mb| == |old(playerB)| && StateBodies(mb) == old(Bodies(playerB))
      ensures playerA == Cull(old(playerA), StateHealths(ma), 0)
      ensures playerB == Cull(old(playerB), StateHealths(mb), 0)
      ensures Updated(ma, mb, reaped, frameSkip, collision[..], Bodies(playerA), Bodies(playerB),
                      AllStats(playerA), AllStats(playerB))
    {
      running, nA, nB, ma, mb := Behave();
      reaped := Conclude(ma, mb);
    }

    /**
     * What `simulate`'s loop keeps: the grid invariant, groups drawn from
     * `a0` and `b0`, and a visit log that extends `v0`.
     */
    ghost predicate Progress(a0: seq<Agent>, b0: seq<Agent>, v0: seq<Visit>)
      reads this`playerA, this`playerB, this`visits, collision
      reads playerA`x, playerA`y, playerB`x, playerB`y
    {
      && Valid()
      && (forall j | 0 <= j < |playerA| :: playerA[j] in a0)
      && (forall j | 0 <= j < |playerB| :: playerB[j] in b0)
      && |v0| <= |visits| && visits[..|v0|] == v0
    }

    /**
     * The `step` of one round of `simulate`'s loop: it keeps the grid exact,
     * leaves both groups drawn from `a0` and `b0`, and only extends the
     * visit log past `v0`; its answer and runs are those `Behaved` gives,
     * and its second half is `step`'s, from the post-behaviour states `ma`
     * and `mb`.
     */
    method Advance(ghost a0: seq<Agent>, ghost b0: seq<Agent>, ghost v0: seq<Visit>)
      returns (running: bool, ghost nA: seq<Visit>, ghost nB: seq<Visit>,
               ghost ma: seq<AgentState>, ghost mb: seq<AgentState>, ghost reaped: seq<Byte>)
      requires Progress(a0, b0, v0)
      modifies this`playerA, this`playerB, collision, this`actions, this`visits
      modifies a0, b0
      ensures Progress(a0, b0, v0) && Settled(playerA) && Settled(playerB)
      ensures visits == old(visits) + nA + nB
      ensures Behaved(playerABehavior, playerBBehavior, old(playerA), old(playerB), nA, nB, running, old(actions), actions)
      ensures |ma| == |old(playerA)| && StateBodies(ma) == old(Bodies(playerA))
      ensures |mb| == |old(playerB)| && StateBodies(mb) == old(Bodies(playerB))
      ensures playerA == Cull(old(playerA), StateHealths(ma), 0)
      ensures playerB == Cull(old(playerB), StateHealths(mb), 0)
      ensures Updated(ma, mb, reaped, frameSkip, collision[..], Bodies(playerA), Bodies(playerB),
                      AllStats(playerA), AllStats(playerB))
    {
      ghost var a1, b1, v1 := playerA, playerB, visits;
      running, nA, nB, ma, mb, reaped := Step();
      PrefixExtend(v0, v1, nA, nB);
      CullWithin(a1, StateHealths(ma), a0);
      CullWithin(b1, StateHealths(mb), b0);
    }

    /** `simulate()`: 96 frames, as `simulate(96)`. */
    method SimulateDefault(fuel: nat) returns (left: int, ghost steps: nat, ghost stalled: bool, ghost rounds: seq<Round>)
      requires Valid()
      modifies this`playerA, this`playerB, collision, this`actions, this`visits
      modifies playerA, playerB
      ensures Valid()
      ensures left == RoundUpFrames(96, frameSkip) - Times(frameSkip, steps) && left >= 0 && left % frameSkip == 0
      ensures left == 0 || playerA == [] || playerB == [] || stalled
      ensures Answered(playerABehavior, playerBBehavior, rounds, steps, stalled)
    {
      ghost var rest;
      left, steps, rest, stalled, rounds := Simulate(96, fuel);
      DefaultCountdown(frameSkip, left, steps, rest);
    }

    /**
     * `simulate(frames)`: a positive count is rounded up to a whole number of
     * frame skips; then, while frames remain and both groups have agents, one
     * step is taken per frame skip, stopping early after a step in which
     * nothing happened. Answers the frames left. A count that is not
     * positive never reaches zero, so at most `fuel` steps are taken for it.
     */
    method Simulate(frames: int, fuel: nat)
      returns (left: int, ghost steps: nat, ghost rest: nat, ghost stalled: bool, ghost rounds: seq<Round>)
      requires Valid()
      modifies this`playerA, this`playerB, collision, this`actions, this`visits
      modifies playerA, playerB
      ensures Valid()
      ensures |old(visits)| <= |visits| && visits[..|old(visits)|] == old(visits)
      ensures forall j | 0 <= j < |playerA| :: playerA[j] in old(playerA)
      ensures forall j | 0 <= j < |playerB| :: playerB[j] in old(playerB)
      ensures frames > 0 ==> frames <= left + Times(frameSkip, steps) < frames + frameSkip
      ensures frames > 0 ==> left == Times(frameSkip, rest)
      ensures frames <= 0 ==> left == frames - Times(frameSkip, steps) && steps <= fuel
      ensures left == 0 || playerA == [] || playerB == [] || stalled || (frames < 0 && steps == fuel)
      ensures frames == 0 ==> steps == 0 && left == 0
      ensures Answered(playerABehavior, playerBBehavior, rounds, steps, stalled)
    {
      var start := frames;
      ghost var whole: nat := 0;
      if start > 0 {
        start, whole := RoundUp(start, frameSkip);
      }
      left, steps, rest, stalled, rounds := CountDown(start, whole, fuel);
      if !stalled && |playerA| > 0 && |playerB| > 0 {
        CountdownDone(frames, start, left, steps, rest, fuel, frameSkip);
      }
    }

    /**
     * The loop of `simulate`, from `start` frames: one step per frame skip
     * while frames remain and both groups have agents, leaving the loop
     * after a step in which nothing happened. The group invariant and the
     * log are checked whole (`== true`), as one fact each, rather than
     * conjunct by conjunct.
     */
    method CountDown(start: int, ghost whole: nat, fuel: nat)
      returns (left: int, steps: nat, ghost rest: nat, ghost stalled: bool, ghost rounds: seq<Round>)
      requires Valid() && Countdown(start, start, 0, whole, fuel, frameSkip)
      modifies this`playerA, this`playerB, collision, this`actions, this`visits
      modifies playerA, playerB
      ensures Progress(old(playerA), old(playerB), old(visits)) == true
      ensures Countdown(start, left, steps, rest, fuel, frameSkip)
      ensures left == 0 || playerA == [] || playerB == [] || stalled || !(left > 0 || steps < fuel)
      ensures Answered(playerABehavior, playerBBehavior, rounds, steps, stalled) == true
    {
      ghost var a0, b0, v0 := playerA, playerB, visits;
      left, rest := start, whole;
      steps, stalled, rounds := 0, false, [];
      while left != 0 && |playerA| > 0 && |playerB| > 0 && (left > 0 || steps < fuel)
        invariant Progress(a0, b0, v0) == true
        invariant Countdown(start, left, steps, rest, fuel, frameSkip)
        invariant !stalled && |rounds| == steps
        invariant Streak(playerABehavior, playerBBehavior, rounds) == true
        decreases if start > 0 then rest else fuel - steps
      {
        var running;
        left, rest, running, rounds := Lap(a0, b0, v0, rounds, start, left, steps, rest, fuel);
        steps := steps + 1;
        if !running {
          stalled := true;
          break;
        }
      }
      if !stalled {
        StreakLast(playerABehavior, playerBBehavior, rounds);
      }
    }

    /**
     * One round of `simulate`'s loop: one frame skip less, then a `step`,
     * whose round is logged after the streak of true answers `w`: the
     * groups it began with, its visits, its answer and the runs it made.
     */
    method Tick(ghost a0: seq<Agent>, ghost b0: seq<Agent>, ghost v0: seq<Visit>, ghost w: seq<Round>,
                ghost start: int, left: int, ghost steps: nat, ghost rest: nat, fuel: nat)
      returns (left': int, ghost rest': nat, running: bool, ghost w': seq<Round>,
               ghost ma: seq<AgentState>, ghost mb: seq<AgentState>, ghost reaped: seq<Byte>)
      requires (Progress(a0, b0, v0) == true) && Countdown(start, left, steps, rest, fuel, frameSkip)
      requires (Streak(playerABehavior, playerBBehavior, w) == true) && |w| == steps
      requires left != 0 && (left > 0 || steps < fuel)
      modifies this`playerA, this`playerB, collision, this`actions, this`visits
      modifies a0, b0
      ensures Progress(a0, b0, v0) && Countdown(start, left', steps + 1, rest', fuel, frameSkip)
      ensures |w'| == |w| + 1 && w'[..|w|] == w
      ensures w'[|w|].running == running && w'[|w|].a == old(playerA) && w'[|w|].b == old(playerB)
      ensures w'[|w|].before == old(actions) && w'[|w|].after == actions
      ensures visits == old(visits) + w'[|w|].nA + w'[|w|].nB
      ensures Settled(playerA) && Settled(playerB)
      ensures |ma| == |old(playerA)| && StateBodies(ma) == old(Bodies(playerA))
      ensures |mb| == |old(playerB)| && StateBodies(mb) == old(Bodies(playerB))
      ensures playerA == Cull(old(playerA), StateHealths(ma), 0)
      ensures playerB == Cull(old(playerB), StateHealths(mb), 0)
      ensures Updated(ma, mb, reaped, frameSkip, collision[..], Bodies(playerA), Bodies(playerB),
                      AllStats(playerA), AllStats(playerB))
      ensures Answered(playerABehavior, playerBBehavior, w', steps + 1, !running)
      ensures running ==> Streak(playerABehavior, playerBBehavior, w')
      ensures left' == left - frameSkip && (start > 0 ==> rest' < rest)
    {
      CountdownStep(start, left, steps, rest, fuel, frameSkip);
      left' := left - frameSkip;
      rest' := if start > 0 then rest - 1 else rest;
      ghost var a1, b1, c1 := playerA, playerB, actions;
      ghost var nA, nB;
      running, nA, nB, ma, mb, reaped := Advance(a0, b0, v0);
      ghost var r := Round(a1, b1, nA, nB, running, c1, actions);
      LogAnswer(playerABehavior, playerBBehavior, w, r);
      w' := w + [r];
    }

    /**
     * `Tick` as the loop of `CountDown` uses it: the frame bookkeeping and
     * the round log, leaving out what the step's second half left.
     */
    method Lap(ghost a0: seq<Agent>, ghost b0: seq<Agent>, ghost v0: seq<Visit>, ghost w: seq<Round>,
               ghost start: int, left: int, ghost steps: nat, ghost rest: nat, fuel: nat)
      returns (left': int, ghost rest': nat, running: bool, ghost w': seq<Round>)
      requires (Progress(a0, b0, v0) == true) && Countdown(start, left, steps, rest, fuel, frameSkip)
      requires (Streak(playerABehavior, playerBBehavior, w) == true) && |w| == steps
      requires left != 0 && (left > 0 || steps < fuel)
      modifies this`playerA, this`playerB, collision, this`actions, this`visits
      modifies a0, b0
      ensures Progress(a0, b0, v0) && Countdown(start, left', steps + 1, rest', fuel, frameSkip)
      ensures |w'| == |w| + 1 && w'[..|w|] == w
      ensures w'[|w|].running == running && w'[|w|].a == old(playerA) && w'[|w|].b == old(playerB)
      ensures w'[|w|].before == old(actions) && w'[|w|].after == actions
      ensures visits == old(visits) + w'[|w|].nA + w'[|w|].nB
      ensures Answered(playerABehavior, playerBBehavior, w', steps + 1, !running)
      ensures running ==> Streak(playerABehavior, playerBBehavior, w')
      ensures left' == left - frameSkip && (start > 0 ==> rest' < rest)
    {
      ghost var ma, mb, reaped;
      left', rest', running, w', ma, mb, reaped := Tick(a0, b0, v0, w, start, left, steps, rest, fuel);
    }

    /** `ReapAndRefresh` within the frame of a whole `step`: the logs are left alone. */
    method Conclude(ghost ma: seq<AgentState>, ghost mb: seq<AgentState>) returns (ghost reaped: seq<Byte>)
      requires Valid() && ma == States(playerA) && mb == States(playerB)
      modifies this`playerA, this`playerB, collision, this`actions, this`visits
      modifies playerA, playerB
      ensures actions == old(actions) && visits == old(visits)
      ensures Valid() && Settled(playerA) && Settled(playerB)
      ensures playerA == Cull(old(playerA), StateHealths(ma), 0)
      ensures playerB == Cull(old(playerB), StateHealths(mb), 0)
      ensures Updated(ma, mb, reaped, frameSkip, collision[..], Bodies(playerA), Bodies(playerB),
                      AllStats(playerA), AllStats(playerB))
    {
      reaped := ReapAndRefresh(ma, mb);
    }

    /**
     * The second half of `step`: `removeDead` on both groups, then
     * `updateStats` on both, as `Updated` describes it; `reaped` is the grid
     * in between.
     */
    method ReapAndRefresh(ghost ma: seq<AgentState>, ghost mb: seq<AgentState>) returns (ghost reaped: seq<Byte>)
      requires Valid() && ma == States(playerA) && mb == States(playerB)
      modifies this`playerA, this`playerB, collision
      modifies playerA`x, playerA`y, playerA`vx, playerA`vy, playerA`healedThisFrame, playerA`cooldown,
               playerA`shieldsShifted, playerA`healthShifted, playerA`remainingStimFrames, playerA`energyShifted
      modifies playerB`x, playerB`y, playerB`vx, playerB`vy, playerB`healedThisFrame, playerB`cooldown,
               playerB`shieldsShifted, playerB`healthShifted, playerB`remainingStimFrames, playerB`energyShifted
      ensures Valid() && Settled(playerA) && Settled(playerB)
      ensures playerA == Cull(old(playerA), StateHealths(ma), 0)
      ensures playerB == Cull(old(playerB), StateHealths(mb), 0)
      ensures Updated(ma, mb, reaped, frameSkip, collision[..], Bodies(playerA), Bodies(playerB),
                      AllStats(playerA), AllStats(playerB))
    {
      ReapBoth(ma, mb);
      reaped := collision[..];
      Settle(ma, mb, reaped);
    }

    /**
     * `updateStats` on both groups once `removeDead` has left the survivors
     * of `ma` and `mb` on the grid `reaped`: together they make up `Updated`.
     */
    method Settle(ghost ma: seq<AgentState>, ghost mb: seq<AgentState>, ghost reaped: seq<Byte>)
      requires Valid() && Alive(playerA) && Alive(playerB) && reaped == collision[..]
      requires States(playerA) == Cull(ma, StateHealths(ma), 0)
      requires States(playerB) == Cull(mb, StateHealths(mb), 0)
      modifies collision
      modifies playerA`x, playerA`y, playerA`vx, playerA`vy, playerA`healedThisFrame, playerA`cooldown,
               playerA`shieldsShifted, playerA`healthShifted, playerA`remainingStimFrames, playerA`energyShifted
      modifies playerB`x, playerB`y, playerB`vx, playerB`vy, playerB`healedThisFrame, playerB`cooldown,
               playerB`shieldsShifted, playerB`healthShifted, playerB`remainingStimFrames, playerB`energyShifted
      ensures Valid() && Settled(playerA) && Settled(playerB)
      ensures playerA == old(playerA) && playerB == old(playerB)
      ensures Updated(ma, mb, reaped, frameSkip, collision[..], Bodies(playerA), Bodies(playerB),
                      AllStats(playerA), AllStats(playerB))
    {
      StatesProject(playerA);
      StatesProject(playerB);
      RefreshBoth();
    }

    /**
     * The two `removeDead` calls of `step`: each group loses exactly the
     * agents `Cull` drops, the grid stays exact and every survivor lives.
     */
    method ReapBoth(ghost ma: seq<AgentState>, ghost mb: seq<AgentState>)
      requires Valid() && ma == States(playerA) && mb == States(playerB)
      modifies this`playerA, this`playerB, collision
      ensures Valid() && Alive(playerA) && Alive(playerB)
      ensures playerA == Cull(old(playerA), StateHealths(ma), 0)
      ensures playerB == Cull(old(playerB), StateHealths(mb), 0)
      ensures forall j | 0 <= j < |playerA| :: playerA[j] in old(playerA)
      ensures forall j | 0 <= j < |playerB| :: playerB[j] in old(playerB)
      ensures States(playerA) == Cull(ma, StateHealths(ma), 0)
      ensures States(playerB) == Cull(mb, StateHealths(mb), 0)
    {
      ghost var a0, b0, ha, hb := playerA, playerB, Healths(playerA), Healths(playerB);
      StatesProject(a0);
      StatesProject(b0);
      CullDropsOnly(a0, ha);
      CullDropsOnly(b0, hb);
      label L0:
      ReapA();
      ReapB();
      StatesFrame@L0(a0);
      StatesFrame@L0(b0);
      CullStates(a0, ha, 0);
      CullStates(b0, hb, 0);
    }

    /** `removeDead(playerA)`. */
    method ReapA()
      requires Valid()
      modifies this`playerA, collision
      ensures Valid() && Alive(playerA)
      ensures playerA == Cull(old(playerA), old(Healths(playerA)), 0)
      ensures Healths(playerB) == old(Healths(playerB))
    {
      ghost var a0, g0 := playerA, collision[..];
      ghost var ha, ba, bb := Healths(a0), Bodies(a0), Bodies(playerB);
      var survivors := RemoveDead(playerA);
      ghost var g1, sa := collision[..], Bodies(survivors);
      CullFirstIsSound(a0, playerB, ha, ba, bb, sa, g0, g1);
      assert Alive(survivors) by {
        CullKeepsOnlyTheLiving(a0, ha, 0);
      }
      playerA := survivors;
      assert Bodies(playerA) == sa && Bodies(playerB) == bb && collision[..] == g1;
    }

    /** `removeDead(playerB)`. */
    method ReapB()
      requires Valid()
      modifies this`playerB, collision
      ensures Valid() && Alive(playerB)
      ensures playerB == Cull(old(playerB), old(Healths(playerB)), 0)
      ensures Alive(playerA) == old(Alive(playerA))
    {
      ghost var b0, g0 := playerB, collision[..];
      ghost var hb, ba, bb := Healths(b0), Bodies(playerA), Bodies(b0);
      var survivors := RemoveDead(playerB);
      ghost var g1, sb := collision[..], Bodies(survivors);
      CullSecondIsSound(playerA, b0, hb, ba, bb, sb, g0, g1);
      assert Alive(survivors) by {
        CullKeepsOnlyTheLiving(b0, hb, 0);
      }
      playerB := survivors;
      assert Bodies(playerA) == ba && Bodies(playerB) == sb && collision[..] == g1;
    }

    /** One loop of `reset`: from the last agent to the first, zero the counter of its tile. */
    method ClearTiles(agents: seq<Agent>)
      requires collision.Length == CellCount && AllInMap(Bodies(agents))
      modifies collision
      ensures collision[..] == Cleared(old(collision[..]), Bodies(agents), 0)
    {
      ghost var g0, bs := collision[..], Bodies(agents);
      var i := |agents|;
      while i > 0
        invariant 0 <= i <= |agents|
        invariant collision[..] == Cleared(g0, bs, i)
      {
        i := i - 1;
        var agent := agents[i];
        assert TileOf(bs[i]) == ColIndex(agent.x, agent.y);
        collision[ColIndex(agent.x, agent.y)] := 0;
      }
    }

    /** `reset`: zero the tiles of group A, then of group B, then empty both groups. */
    method Reset()
      requires Valid()
      modifies this`playerA, this`playerB, collision
      ensures Valid() && playerA == [] && playerB == []
      ensures forall c | 0 <= c < CellCount :: collision[c] == 0
    {
      ClearBoth();
      EmptySound(collision[..]);
      playerA, playerB := [], [];
    }

    /** The two loops of `reset`: zeroing both groups' tiles leaves the whole grid zero. */
    method ClearBoth()
      requires Valid()
      modifies collision
      ensures collision.Length == CellCount
      ensures forall c | 0 <= c < CellCount :: collision[c] == 0
    {
      ghost var g0, ba, bb := collision[..], Bodies(playerA), Bodies(playerB);
      ClearTiles(playerA);
      ClearTiles(playerB);
      ClearingBothEmpties(g0, ba, bb);
    }

    /**
     * The two `updateStats` calls of `step`, on groups of living agents:
     * the grid stays exact, and every agent regenerates, stays alive, stands
     * still and is no longer marked as healed.
     */
    method RefreshBoth()
      requires Valid() && Alive(playerA) && Alive(playerB)
      modifies collision
      modifies playerA`x, playerA`y, playerA`vx, playerA`vy, playerA`healedThisFrame, playerA`cooldown,
               playerA`shieldsShifted, playerA`healthShifted, playerA`remainingStimFrames, playerA`energyShifted
      modifies playerB`x, playerB`y, playerB`vx, playerB`vy, playerB`healedThisFrame, playerB`cooldown,
               playerB`shieldsShifted, playerB`healthShifted, playerB`remainingStimFrames, playerB`energyShifted
      ensures Valid() && Settled(playerA) && Settled(playerB)
      ensures AllStats(playerA) == Refreshes(old(AllStats(playerA)), frameSkip)
      ensures AllStats(playerB) == Refreshes(old(AllStats(playerB)), frameSkip)
      ensures Moved(old(collision[..]), old(States(playerA)), old(States(playerB)), frameSkip, collision[..],
                    Bodies(playerA), Bodies(playerB), AllStats(playerA), AllStats(playerB))
    {
      StatesProject(playerA);
      StatesProject(playerB);
      RefreshA();
      RefreshB();
    }

    /** `updateStats` on one group, stated over the whole group's snapshots. */
    method UpdateGroup(agents: seq<Agent>)
      requires frameSkip >= 1 && collision.Length == CellCount && Distinct(agents) && AllInMap(Bodies(agents))
      requires forall j | 0 <= j < |agents| :: agents[j].healthShifted >= 0
      modifies collision, agents`x, agents`y, agents`vx, agents`vy, agents`healedThisFrame
      modifies agents`cooldown, agents`shieldsShifted, agents`healthShifted, agents`remainingStimFrames,
               agents`energyShifted
      ensures (collision[..], Bodies(agents)) == MoveAll(old(collision[..]), old(Bodies(agents)), old(Velocities(agents)))
      ensures AllStats(agents) == Refreshes(old(AllStats(agents)), frameSkip)
    {
      ghost var m := MoveAll(collision[..], Bodies(agents), Velocities(agents));
      ghost var s0 := AllStats(agents);
      UpdateStats(agents);
      assert Bodies(agents) == m.1;
      assert AllStats(agents) == Refreshes(s0, frameSkip);
    }

    /** `updateStats(playerA)`: group A moves and regenerates; group B is untouched. */
    method RefreshA()
      requires Valid() && Alive(playerA) && Alive(playerB)
      modifies collision
      modifies playerA`x, playerA`y, playerA`vx, playerA`vy, playerA`healedThisFrame, playerA`cooldown,
               playerA`shieldsShifted, playerA`healthShifted, playerA`remainingStimFrames, playerA`energyShifted
      ensures Valid() && Settled(playerA) && Alive(playerB)
      ensures AllStats(playerA) == Refreshes(old(AllStats(playerA)), frameSkip)
      ensures AllStats(playerB) == old(AllStats(playerB))
      ensures (collision[..], Bodies(playerA)) == MoveAll(old(collision[..]), old(Bodies(playerA)), old(Velocities(playerA)))
      ensures Bodies(playerB) == old(Bodies(playerB)) && Velocities(playerB) == old(Velocities(playerB))
    {
      ghost var g0, ba, bb, va := collision[..], Bodies(playerA), Bodies(playerB), Velocities(playerA);
      ghost var sa, sb, vb := AllStats(playerA), AllStats(playerB), Velocities(playerB);
      ghost var ma := MoveAll(g0, ba, va);
      MoveFirstIsSound(playerA, playerB, ba, bb, g0, va);
      UpdateGroup(playerA);
      forall j | 0 <= j < |playerB|
        ensures BodyOf(playerB[j]) == bb[j] && StatsOf(playerB[j]) == sb[j] && VelocityOf(playerB[j]) == vb[j]
      {
        assert playerB[j] !in playerA;
      }
      assert Bodies(playerB) == bb && Velocities(playerB) == vb;
      RefreshSettles(sa, frameSkip);
    }

    /** `updateStats(playerB)`: group B moves and regenerates; group A is untouched. */
    method RefreshB()
      requires Valid() && Alive(playerB)
      modifies collision
      modifies playerB`x, playerB`y, playerB`vx, playerB`vy, playerB`healedThisFrame, playerB`cooldown,
               playerB`shieldsShifted, playerB`healthShifted, playerB`remainingStimFrames, playerB`energyShifted
      ensures Valid() && Settled(playerB)
      ensures AllStats(playerB) == Refreshes(old(AllStats(playerB)), frameSkip)
      ensures AllStats(playerA) == old(AllStats(playerA))
      ensures (collision[..], Bodies(playerB)) == MoveAll(old(collision[..]), old(Bodies(playerB)), old(Velocities(playerB)))
      ensures Bodies(playerA) == old(Bodies(playerA))
    {
      ghost var g0, ba, bb, vb := collision[..], Bodies(playerA), Bodies(playerB), Velocities(playerB);
      ghost var sa, sb := AllStats(playerA), AllStats(playerB);
      ghost var mb := MoveAll(g0, bb, vb);
      MoveSecondIsSound(playerA, playerB, ba, bb, g0, vb);
      UpdateGroup(playerB);
      forall j | 0 <= j < |playerA|
        ensures BodyOf(playerA[j]) == ba[j] && StatsOf(playerA[j]) == sa[j]
      {
        assert playerA[j] !in playerB;
      }
      assert Bodies(playerA) == ba;
      RefreshSettles(sb, frameSkip);
    }

    /**
     * One behaviour not part of this model. It may change the vitals,
     * cooldown, velocity, stim timer, healed marker and last-ally reference
     * of any agent of either group, and answers whether the agent is active.
     */
    method Act(action: Action, agent: Agent, allies: seq<Agent>, enemies: seq<Agent>) returns (active: bool)
      requires agent in allies
      modifies this`actions
      modifies allies`healthShifted, allies`shieldsShifted, allies`energyShifted, allies`cooldown,
               allies`vx, allies`vy, allies`remainingStimFrames, allies`healedThisFrame, allies`lastAlly
      modifies enemies`healthShifted, enemies`shieldsShifted, enemies`energyShifted, enemies`cooldown,
               enemies`vx, enemies`vy, enemies`remainingStimFrames, enemies`healedThisFrame, enemies`lastAlly
      ensures actions == old(actions) + [Invocation(agent, action, active)]
    {
      active := *;
      actions := actions + [Invocation(agent, action, active)];
    }

    /** `RoleBasedBehavior.simUnit`: suicider, then healer, then repairer if it acted, else attacker. */
    method RoleBasedSimUnit(agent: Agent, allies: seq<Agent>, enemies: seq<Agent>) returns (active: bool)
      requires agent in allies
      modifies this`actions
      modifies allies`healthShifted, allies`shieldsShifted, allies`energyShifted, allies`cooldown,
               allies`vx, allies`vy, allies`remainingStimFrames, allies`healedThisFrame, allies`lastAlly
      modifies enemies`healthShifted, enemies`shieldsShifted, enemies`energyShifted, enemies`cooldown,
               enemies`vx, enemies`vy, enemies`remainingStimFrames, enemies`healedThisFrame, enemies`lastAlly
      ensures |old(actions)| <= |actions| && actions[..|old(actions)|] == old(actions)
      ensures Routed(agent, actions[|old(actions)|..], active)
    {
      if agent.isSuicider {
        active := Act(RoleAction(Suicider), agent, allies, enemies);
        return;
      }
      if agent.isHealer {
        active := Act(RoleAction(Healer), agent, allies, enemies);
        return;
      }
      if agent.isRepairer {
        var repairing := Act(RoleAction(Repairer), agent, allies, enemies);
        if repairing {
          return true;
        }
      }
      active := Act(RoleAction(Attacker), agent, allies, enemies);
    }

    /** `Behavior.simUnit` for a side's behaviour. */
    method SimUnit(behavior: Behavior, agent: Agent, allies: seq<Agent>, enemies: seq<Agent>) returns (active: bool)
      requires agent in allies
      modifies this`actions
      modifies allies`healthShifted, allies`shieldsShifted, allies`energyShifted, allies`cooldown,
               allies`vx, allies`vy, allies`remainingStimFrames, allies`healedThisFrame, allies`lastAlly
      modifies enemies`healthShifted, enemies`shieldsShifted, enemies`energyShifted, enemies`cooldown,
               enemies`vx, enemies`vy, enemies`remainingStimFrames, enemies`healedThisFrame, enemies`lastAlly
      ensures |old(actions)| <= |actions| && actions[..|old(actions)|] == old(actions)
      ensures Dispatched(behavior, agent, actions[|old(actions)|..], active)
    {
      if behavior.RoleBased? {
        active := RoleBasedSimUnit(agent, allies, enemies);
      } else {
        active := Act(CustomAction(behavior.id), agent, allies, enemies);
      }
    }
  }
}
