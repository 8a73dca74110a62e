// The per-cell entities of the game: coffins, the crosses that attack them,
// the unsigned counters they use, and the random pick of the next attacker.

module Pieces {

  /** An unsigned 8-bit counter (`uint8_t`). */
  type Byte = x: int | 0 <= x < 256

  /** `x++` on a `uint8_t`: wraps from 255 to 0. */
  function Inc8(x: Byte): (r: Byte)
    ensures x < 255 ==> r == x + 1
    ensures x == 255 ==> r == 0
  {
    (x + 1) % 256
  }

  /** `x--` on a `uint8_t`: wraps from 0 to 255. */
  function Dec8(x: Byte): (r: Byte)
    ensures x > 0 ==> r == x - 1
    ensures x == 0 ==> r == 255
  {
    (x + 255) % 256
  }

  /** Number of cells in the 3x3 grid; each has one coffin and one cross. */
  const Cells: nat := 9

  /** Life slots per coffin (`lives.size()`). */
  const LifeSlots: nat := 3

  /** Lives at the start of a round: one per life slot of every coffin. */
  const TotalLives: nat := 27

  /** Distance a moving cross travels per update (the magnitude of `movingSpeed`). */
  const CrossStep: real := 0.025

  /** How far the target depth lies below the base depth. */
  const CrossReach: real := 6.2

  /** A grid cell's coffin. `isClosed` marks the covered (selected) coffin. */
  datatype Coffin = Coffin(isClosed: bool, hitTimes: Byte)

  /** A coffin as constructed: uncovered and never hit. */
  const FreshCoffin := Coffin(false, 0)

  /**
   * The cross paired with a coffin. `z` is the depth of its scene transform,
   * `baseZ` and `targetZ` the depths of its rest and strike positions.
   */
  datatype Cross = Cross(isMoving: bool, movingSpeed: real, z: real, baseZ: real, targetZ: real)

  /** A cross as set up from the scene: idle at its base, heading inwards. */
  function FreshCross(baseZ: real): (x: Cross)
    ensures CrossOk(x) && !x.isMoving && x.z == x.baseZ == baseZ
  {
    Cross(false, -CrossStep, baseZ, baseZ, baseZ - CrossReach)
  }

  /**
   * The reachable shapes of a cross: an idle cross rests at its base heading
   * inwards; a moving cross heading inwards lies between target and base; one
   * heading outwards may have overshot the target by at most one step.
   */
  predicate CrossOk(x: Cross)
  {
    && x.targetZ == x.baseZ - CrossReach
    && if !x.isMoving then x.z == x.baseZ && x.movingSpeed == -CrossStep
       else if x.movingSpeed < 0.0 then x.movingSpeed == -CrossStep && x.targetZ <= x.z <= x.baseZ
       else x.movingSpeed == CrossStep && x.targetZ - CrossStep <= x.z <= x.baseZ
  }

  /**
   * One update of a cross: a moving cross advances by its speed, reverses when it
   * has passed either bound, and stops, clamped to its base, once it has passed the base.
   */
  function StepCross(x: Cross): (r: Cross)
    ensures r.baseZ == x.baseZ && r.targetZ == x.targetZ
    ensures !x.isMoving ==> r == x
    ensures x.isMoving ==> r.z <= r.baseZ
    ensures (x.isMoving && (x.z + x.movingSpeed < x.targetZ || x.z + x.movingSpeed > x.baseZ))
            ==> r.movingSpeed == -x.movingSpeed
    ensures (x.isMoving && x.z + x.movingSpeed <= x.baseZ)
            ==> r.z == x.z + x.movingSpeed && r.isMoving
    ensures (x.isMoving && x.targetZ <= x.z + x.movingSpeed <= x.baseZ)
            ==> r.movingSpeed == x.movingSpeed
    ensures x.isMoving && x.z + x.movingSpeed > x.baseZ ==> !r.isMoving && r.z == r.baseZ
  {
    if !x.isMoving then x
    else
      var z := x.z + x.movingSpeed;
      var speed := if z < x.targetZ || z > x.baseZ then -x.movingSpeed else x.movingSpeed;
      if z > x.baseZ then x.(isMoving := false, movingSpeed := speed, z := x.baseZ)
      else x.(movingSpeed := speed, z := z)
  }

  /** A cross strikes its coffin when it is past the target, the coffin is uncovered and has a life left. */
  predicate Strikes(x: Cross, c: Coffin)
    ensures c.isClosed ==> !Strikes(x, c)
    ensures Strikes(x, c) ==> c.hitTimes + 1 <= LifeSlots
    ensures x.z >= x.targetZ ==> !Strikes(x, c)
  {
    x.z < x.targetZ && !c.isClosed && c.hitTimes < LifeSlots
  }

  /** The coffin after one strike: one more life slot lost. */
  function Struck(c: Coffin): (r: Coffin)
    requires c.hitTimes < LifeSlots
    ensures r.isClosed == c.isClosed && r.hitTimes == c.hitTimes + 1
  {
    c.(hitTimes := c.hitTimes + 1)
  }

  /** Every update keeps a cross in one of its reachable shapes; setting an idle one moving does too. */
  lemma StepCrossKeepsOk(x: Cross)
    requires CrossOk(x)
    ensures CrossOk(StepCross(x))
    ensures !x.isMoving ==> CrossOk(x.(isMoving := true))
  {
  }

  /** A cross can strike only on its way back out, right after reversing at the target. */
  lemma StrikesOnlyOutbound(x: Cross, c: Coffin)
    requires CrossOk(x) && Strikes(StepCross(x), c)
    ensures x.isMoving && StepCross(x).isMoving && StepCross(x).movingSpeed == CrossStep
    ensures StepCross(x).z >= x.targetZ - CrossStep
  {
  }

  /** A moving cross never stands still: every update changes it. */
  lemma MovingCrossChanges(x: Cross)
    requires CrossOk(x) && x.isMoving
    ensures StepCross(x) != x
  {
  }

  // ---- The random choice of the next attacker ----
  //
  // The source draws from a uniform distribution over 0..crosses.size()
  // (inclusive, so 9 can come out) and redraws while the cross drawn is
  // already moving. The generator is not modelled: `draws` is the sequence of
  // values it yields.

  /** Every draw lies in the distribution's range 0..n, n the table size. */
  predicate InDistribution(draws: seq<int>, n: nat)
  {
    forall j :: 0 <= j < |draws| ==> 0 <= draws[j] <= n
  }

  /**
   * Whether the redraw loop leaves on draw `d`: the cross it names is idle, or
   * `d` names no cross at all (the table read is then out of bounds).
   */
  predicate Leaves(xs: seq<Cross>, d: int)
  {
    !(0 <= d < |xs|) || !xs[d].isMoving
  }

  /** The position in `draws` of the draw on which the redraw loop leaves (|draws| if none does). */
  function FirstStop(xs: seq<Cross>, draws: seq<int>): (n: nat)
    ensures n <= |draws|
    ensures forall j :: 0 <= j < n ==> !Leaves(xs, draws[j])
    ensures n < |draws| ==> Leaves(xs, draws[n])
    decreases |draws|
  {
    if draws == [] then 0
    else if Leaves(xs, draws[0]) then 0
    else 1 + FirstStop(xs, draws[1..])
  }

  /**
   * The redraw loop ends within `draws`, on an index of the table: it neither
   * runs past the draws given nor reads outside the table.
   */
  predicate DrawsSettle(xs: seq<Cross>, draws: seq<int>)
  {
    var n := FirstStop(xs, draws);
    n < |draws| && 0 <= draws[n] < |xs|
  }

  /** The cross the redraw loop settles on. */
  function Picked(xs: seq<Cross>, draws: seq<int>): (i: nat)
    requires DrawsSettle(xs, draws)
    ensures i < |xs| && !xs[i].isMoving
  {
    draws[FirstStop(xs, draws)]
  }

  /**
   * The do-while redraw loop: draw until the cross drawn is idle. It returns the
   * first draw naming an idle cross, every earlier draw having named a moving one.
   */
  method DrawIdle(xs: seq<Cross>, draws: seq<int>) returns (index: int, used: nat)
    requires DrawsSettle(xs, draws)
    ensures 0 <= index < |xs| && !xs[index].isMoving && index == Picked(xs, draws)
    ensures 0 < used <= |draws| && index == draws[used - 1]
    ensures forall j :: 0 <= j < used - 1 ==> 0 <= draws[j] < |xs| && xs[draws[j]].isMoving
  {
    ghost var stop := FirstStop(xs, draws);
    used := 0;
    index := draws[used];
    used := used + 1;
    while xs[index].isMoving
      invariant 1 <= used <= stop + 1
      invariant index == draws[used - 1]
      decreases stop + 1 - used
    {
      index := draws[used];
      used := used + 1;
    }
  }

  /** When all crosses are moving, no finite run of draws ends the redraw loop inside the table. */
  lemma AllMovingNeverSettles(xs: seq<Cross>, draws: seq<int>)
    requires forall i :: 0 <= i < |xs| ==> xs[i].isMoving
    ensures !DrawsSettle(xs, draws)
  {
  }

  /** A draw equal to the table size ends the redraw loop outside the table, unless an earlier draw found an idle cross. */
  lemma SizeDrawLeavesTable(xs: seq<Cross>, draws: seq<int>, k: nat)
    requires k < |draws| && draws[k] == |xs|
    requires forall j :: 0 <= j < k ==> 0 <= draws[j] < |xs| && xs[draws[j]].isMoving
    ensures !DrawsSettle(xs, draws)
  {
  }

  /** A first draw naming an idle cross settles the loop on that cross. */
  lemma IdleDrawSettles(xs: seq<Cross>, draws: seq<int>)
    requires |draws| > 0 && 0 <= draws[0] < |xs| && !xs[draws[0]].isMoving
    ensures DrawsSettle(xs, draws) && Picked(xs, draws) == draws[0]
  {
  }
}
