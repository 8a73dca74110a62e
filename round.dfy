// The game state of one round as a value, and one frame's update of it,
// phase by phase: intro, countdown, end of round, selection change, attack
// spawn, and cross motion with collisions.

module Round {
  import opened Pieces

  /** Round length in seconds (`originalTime`). */
  const OriginalTime: real := 90.0

  /** Below this many seconds left, the attack interval starts to shrink. */
  const RampStart: real := 60.0

  /** The attack interval at the start of a round. */
  const StartInterval: real := 3.0

  /** The interval stops shrinking once it is at or below this. */
  const RampFloor: real := 1.5

  /** Length of the intro, during which the covers swing shut. */
  const IntroTime: real := 3.0

  /** The cell selected (covered) at the start of a round: the centre. */
  const StartCell: Byte := 4

  /** Every game-state field of a round, the two tables included. */
  datatype Game = Game(
    currentCoffin: Byte,
    nextCoffin: Byte,
    triggerCrossInterval: real,
    currentInterval: real,
    remainTime: real,
    remainLives: Byte,
    remainCoffins: Byte,
    score: nat,
    isEnd: bool,
    isSetting: real,
    coffins: seq<Coffin>,
    crosses: seq<Cross>)

  /** The shape every operation needs: nine coffins, nine crosses, selections inside the grid. */
  predicate WellFormed(g: Game)
  {
    |g.coffins| == Cells && |g.crosses| == Cells && g.currentCoffin < Cells && g.nextCoffin < Cells
  }

  /** The state at the start of a round, given each cross's base depth from the scene. */
  function Initial(baseZ: seq<real>): (g: Game)
    requires |baseZ| == Cells
    ensures WellFormed(g)
  {
    Game(StartCell, StartCell, StartInterval, StartInterval, OriginalTime, TotalLives as Byte, 0, 0, false, IntroTime,
         seq(Cells, i => FreshCoffin)[StartCell := FreshCoffin.(isClosed := true)],
         seq(Cells, i requires 0 <= i < Cells => FreshCross(baseZ[i])))
  }

  // ---- Counting over the coffin table ----

  /** Total hits taken by the coffins. */
  function SumHits(cs: seq<Coffin>): (n: nat)
  {
    if cs == [] then 0 else SumHits(cs[..|cs| - 1]) + cs[|cs| - 1].hitTimes
  }

  /** Number of coffins that still have a life left (`hitTimes != 3`). */
  function Survivors(cs: seq<Coffin>): (n: nat)
    ensures n <= |cs|
  {
    if cs == [] then 0
    else Survivors(cs[..|cs| - 1]) + (if cs[|cs| - 1].hitTimes != LifeSlots then 1 else 0)
  }

  /**
   * The end-of-round counting loop over the first `k` coffins: starting from
   * `start`, a `uint8_t` increment for each coffin with a life left.
   */
  function Tally(cs: seq<Coffin>, k: nat, start: Byte): (t: Byte)
    requires k <= |cs|
    ensures start + k < 256 ==> start <= t <= start + k
  {
    if k == 0 then start
    else
      var t := Tally(cs, k - 1, start);
      if cs[k - 1].hitTimes == LifeSlots then t else Inc8(t)
  }

  // ---- The phases of one update ----

  /** The intro: the covers swing shut while the intro timer and the spawn countdown run down. */
  function Intro(g: Game, elapsed: real): (r: Game)
    ensures r.isSetting == g.isSetting - elapsed && r.currentInterval == g.currentInterval - elapsed
    ensures elapsed > 0.0 ==> r.isSetting < g.isSetting
    ensures r == g.(isSetting := r.isSetting, currentInterval := r.currentInterval)
  {
    g.(isSetting := g.isSetting - elapsed, currentInterval := g.currentInterval - elapsed)
  }

  /**
   * The clock runs down; below 60 seconds left, the attack interval is reset to
   * the same fraction of 3 seconds as the fraction of a minute left, for as long
   * as it is still above 1.5.
   */
  function Countdown(g: Game, elapsed: real): (r: Game)
    ensures r.remainTime == g.remainTime - elapsed
    ensures r.triggerCrossInterval != g.triggerCrossInterval
            ==> r.remainTime < RampStart && g.triggerCrossInterval > RampFloor
                && r.triggerCrossInterval == StartInterval * (r.remainTime / RampStart)
    ensures r.remainTime < RampStart && g.triggerCrossInterval > RampFloor
            ==> r.triggerCrossInterval == StartInterval * (r.remainTime / RampStart)
    ensures r == g.(remainTime := r.remainTime, triggerCrossInterval := r.triggerCrossInterval)
  {
    var t := g.remainTime - elapsed;
    g.(remainTime := t,
       triggerCrossInterval := if t < RampStart && g.triggerCrossInterval > RampFloor
                               then StartInterval * (t / RampStart)
                               else g.triggerCrossInterval)
  }

  /**
   * The end of the round: the selected coffin is uncovered, the coffins that
   * still have a life left are counted, and the score is computed.
   */
  function EndRound(g: Game): (r: Game)
    requires WellFormed(g)
    ensures WellFormed(r) && r.isEnd && r.remainTime == 0.0
    ensures forall i :: 0 <= i < Cells ==> !r.coffins[i].isClosed || (i != g.currentCoffin && g.coffins[i].isClosed)
    ensures forall i :: 0 <= i < Cells ==> r.coffins[i].hitTimes == g.coffins[i].hitTimes
    ensures r.score == 100 * g.remainLives + 300 * r.remainCoffins
    ensures r.crosses == g.crosses && r.remainLives == g.remainLives && r.currentCoffin == g.currentCoffin
    ensures r.coffins[g.currentCoffin] == g.coffins[g.currentCoffin].(isClosed := false)
    ensures forall i :: 0 <= i < Cells && i != g.currentCoffin ==> r.coffins[i] == g.coffins[i]
    ensures r == g.(isEnd := true, remainTime := 0.0, coffins := r.coffins, remainCoffins := r.remainCoffins, score := r.score)
  {
    var cs := g.coffins[g.currentCoffin := g.coffins[g.currentCoffin].(isClosed := false)];
    var saved := Tally(cs, |cs|, g.remainCoffins);
    g.(isEnd := true, remainTime := 0.0, coffins := cs, remainCoffins := saved,
       score := 100 * g.remainLives + 300 * saved)
  }

  /** A pending selection takes effect: the new cell is covered, the old one uncovered. */
  function Select(g: Game): (r: Game)
    requires WellFormed(g)
    ensures WellFormed(r) && r.currentCoffin == g.nextCoffin && r.nextCoffin == g.nextCoffin
    ensures forall i :: 0 <= i < Cells ==> r.coffins[i].hitTimes == g.coffins[i].hitTimes
    ensures g.nextCoffin == g.currentCoffin ==> r == g
    ensures g.nextCoffin != g.currentCoffin ==> forall i :: 0 <= i < Cells ==>
              r.coffins[i].isClosed == (if i == g.nextCoffin then true
                                        else if i == g.currentCoffin then false
                                        else g.coffins[i].isClosed)
    ensures r == g.(currentCoffin := r.currentCoffin, coffins := r.coffins)
  {
    if g.nextCoffin != g.currentCoffin then
      var cs := g.coffins[g.nextCoffin := g.coffins[g.nextCoffin].(isClosed := true)];
      g.(coffins := cs[g.currentCoffin := cs[g.currentCoffin].(isClosed := false)],
         currentCoffin := g.nextCoffin)
    else g
  }

  /**
   * The spawn countdown runs down by `elapsed`; once below zero, an idle cross
   * chosen by the draws is set moving and the countdown restarts at the attack interval.
   */
  function Spawn(g: Game, elapsed: real, draws: seq<int>): (r: Game)
    requires WellFormed(g)
    requires g.currentInterval - elapsed < 0.0 ==> DrawsSettle(g.crosses, draws)
    ensures WellFormed(r) && r == g.(crosses := r.crosses, currentInterval := r.currentInterval)
    ensures g.currentInterval - elapsed >= 0.0 ==> r.crosses == g.crosses && r.currentInterval == g.currentInterval - elapsed
    ensures g.currentInterval - elapsed < 0.0 ==>
              var i := Picked(g.crosses, draws);
              !g.crosses[i].isMoving && r.crosses == g.crosses[i := g.crosses[i].(isMoving := true)]
              && r.currentInterval == g.triggerCrossInterval
  {
    var left := g.currentInterval - elapsed;
    if left < 0.0 then
      var i := Picked(g.crosses, draws);
      g.(crosses := g.crosses[i := g.crosses[i].(isMoving := true)], currentInterval := g.triggerCrossInterval)
    else
      g.(currentInterval := left)
  }

  /** Cross `i` moves one step, then strikes coffin `i` if it can. */
  function Visit(g: Game, i: nat): (r: Game)
    requires i < |g.crosses| && i < |g.coffins|
    ensures r == g.(crosses := r.crosses, coffins := r.coffins, remainLives := r.remainLives)
    ensures r.crosses == g.crosses[i := StepCross(g.crosses[i])]
    ensures |r.coffins| == |g.coffins| && forall j :: 0 <= j < |g.coffins| && j != i ==> r.coffins[j] == g.coffins[j]
    ensures r.coffins[i].isClosed == g.coffins[i].isClosed
    ensures Strikes(StepCross(g.crosses[i]), g.coffins[i]) ==>
              r.coffins[i].hitTimes == g.coffins[i].hitTimes + 1 && r.remainLives == Dec8(g.remainLives)
    ensures !Strikes(StepCross(g.crosses[i]), g.coffins[i]) ==>
              r.coffins[i] == g.coffins[i] && r.remainLives == g.remainLives
  {
    var x := StepCross(g.crosses[i]);
    if Strikes(x, g.coffins[i]) then
      g.(crosses := g.crosses[i := x],
         coffins := g.coffins[i := Struck(g.coffins[i])],
         remainLives := Dec8(g.remainLives))
    else
      g.(crosses := g.crosses[i := x])
  }

  /** The loop over the crosses, after its first `k` iterations. */
  function Sweep(g: Game, k: nat): (r: Game)
    requires k <= |g.crosses| && |g.crosses| <= |g.coffins|
    ensures |r.coffins| == |g.coffins| && |r.crosses| == |g.crosses|
    ensures r == g.(coffins := r.coffins, crosses := r.crosses, remainLives := r.remainLives)
    ensures forall j :: k <= j < |g.crosses| ==> r.crosses[j] == g.crosses[j]
    ensures forall j :: k <= j < |g.coffins| ==> r.coffins[j] == g.coffins[j]
    ensures forall j :: 0 <= j < k ==> r.crosses[j] == StepCross(g.crosses[j])
    ensures forall j :: 0 <= j < k ==>
              r.coffins[j] == if Strikes(StepCross(g.crosses[j]), g.coffins[j]) then Struck(g.coffins[j]) else g.coffins[j]
    decreases k
  {
    if k == 0 then g else Visit(Sweep(g, k - 1), k - 1)
  }

  /** The part of an update after the countdown: selection, spawn, then motion and collisions. */
  function Play(g: Game, elapsed: real, draws: seq<int>): (r: Game)
    requires WellFormed(g)
    requires g.currentInterval - elapsed < 0.0 ==> DrawsSettle(g.crosses, draws)
    ensures WellFormed(r)
  {
    var s := Spawn(Select(g), elapsed, draws);
    Sweep(s, |s.crosses|)
  }

  /** A spawn is due on this update: the round is running and the spawn countdown drops below zero. */
  predicate SpawnDue(g: Game, elapsed: real)
  {
    !g.isEnd && g.isSetting <= 0.0 && g.remainTime > 0.0 && g.currentInterval - elapsed < 0.0
  }

  /**
   * What an update needs of its inputs: a well-formed state, draws from the
   * distribution's range 0..9, and, when a spawn is due, draws on which the
   * redraw loop ends inside the table.
   */
  predicate Allowed(g: Game, elapsed: real, draws: seq<int>)
  {
    WellFormed(g) && InDistribution(draws, |g.crosses|) && (SpawnDue(g, elapsed) ==> DrawsSettle(g.crosses, draws))
  }

  /** One frame's update of the round. */
  function Update(g: Game, elapsed: real, draws: seq<int>): (r: Game)
    requires Allowed(g, elapsed, draws)
    ensures WellFormed(r)
  {
    if g.isEnd then g
    else if g.isSetting > 0.0 then Intro(g, elapsed)
    else if g.remainTime > 0.0 then Play(Countdown(g, elapsed), elapsed, draws)
    else EndRound(g)
  }

  // ---- What every reachable state satisfies ----

  /** Exactly the selected coffin is covered while the round runs; none once it has ended. */
  predicate Covered(g: Game)
  {
    forall i :: 0 <= i < |g.coffins| ==> (g.coffins[i].isClosed <==> !g.isEnd && i == g.currentCoffin)
  }

  /** No coffin has taken more hits than it has life slots, and every hit cost exactly one life. */
  predicate Ledger(g: Game)
  {
    && (forall i :: 0 <= i < |g.coffins| ==> g.coffins[i].hitTimes <= LifeSlots)
    && g.remainLives + SumHits(g.coffins) == TotalLives
  }

  /** Every cross is in one of its reachable shapes. */
  predicate CrossesOk(g: Game)
  {
    forall i :: 0 <= i < |g.crosses| ==> CrossOk(g.crosses[i])
  }

  /** Before the end nothing is scored; after it the score is that of the coffins and lives left. */
  predicate Outcome(g: Game)
  {
    if g.isEnd then
      && g.isSetting <= 0.0 && g.remainTime == 0.0
      && g.remainCoffins == Survivors(g.coffins)
      && g.score == 100 * g.remainLives + 300 * g.remainCoffins
    else
      g.remainCoffins == 0 && g.score == 0
  }

  /** The invariant of the round, kept by every update whatever the elapsed time. */
  predicate Invariant(g: Game)
  {
    WellFormed(g) && Covered(g) && Ledger(g) && CrossesOk(g) && Outcome(g)
  }

  /** The lesser of two reals. */
  function Min(a: real, b: real): (m: real)
    ensures m <= a && m <= b && (m == a || m == b)
  {
    if a <= b then a else b
  }

  /** The greater of two reals. */
  function Max(a: real, b: real): (m: real)
    ensures m >= a && m >= b && (m == a || m == b)
  {
    if a >= b then a else b
  }

  /**
   * The attack interval while the round runs: 3 seconds while at least a
   * minute is left, and never below 3 seconds times the fraction of a minute
   * left; below a minute it is at most that fraction of 3 seconds, or 1.5 s
   * once it has reached the floor.
   */
  predicate Ramp(g: Game)
  {
    !g.isEnd ==>
      && g.triggerCrossInterval <= StartInterval
      && StartInterval * (Min(g.remainTime, RampStart) / RampStart) <= g.triggerCrossInterval
      && (g.remainTime >= RampStart ==> g.triggerCrossInterval == StartInterval)
      && (g.remainTime < RampStart ==> g.triggerCrossInterval <= Max(RampFloor, StartInterval * (g.remainTime / RampStart)))
  }
}
