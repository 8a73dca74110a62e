// What the update of a round guarantees: the invariant it keeps, the
// bookkeeping of hits and lives, the attack-interval ramp, the end of the
// round and its score, and that every round ends.

module RoundFacts {
  import opened Pieces
  import opened Round

  // ---- Counting lemmas ----

  /** Replacing one coffin changes the hit total by the difference in its hits. */
  lemma {:induction false} SumHitsUpdate(cs: seq<Coffin>, i: nat, c: Coffin)
    requires i < |cs|
    ensures SumHits(cs[i := c]) == SumHits(cs) - cs[i].hitTimes + c.hitTimes
    decreases |cs|
  {
    var n := |cs| - 1;
    if i == n {
      assert cs[i := c][..n] == cs[..n];
    } else {
      assert cs[i := c][..n] == cs[..n][i := c];
      SumHitsUpdate(cs[..n], i, c);
    }
  }

  /** The hit total and the survivor count depend on the hit counts alone, not on the covers. */
  lemma {:induction false} SameHits(a: seq<Coffin>, b: seq<Coffin>)
    requires |a| == |b|
    requires forall i :: 0 <= i < |a| ==> a[i].hitTimes == b[i].hitTimes
    ensures SumHits(a) == SumHits(b) && Survivors(a) == Survivors(b)
    decreases |a|
  {
    if a != [] {
      SameHits(a[..|a| - 1], b[..|b| - 1]);
    }
  }

  /** With at most three hits each, the coffins hold at most three hits apiece in total. */
  lemma {:induction false} SumHitsCap(cs: seq<Coffin>)
    requires forall i :: 0 <= i < |cs| ==> cs[i].hitTimes <= LifeSlots
    ensures SumHits(cs) <= LifeSlots * |cs|
    decreases |cs|
  {
    if cs != [] {
      SumHitsCap(cs[..|cs| - 1]);
    }
  }

  /** A coffin with a life left leaves room in the hit total: the others hold at most three each. */
  lemma {:induction false} SumHitsRoom(cs: seq<Coffin>, i: nat)
    requires i < |cs|
    requires forall j :: 0 <= j < |cs| ==> cs[j].hitTimes <= LifeSlots
    ensures SumHits(cs) <= LifeSlots * (|cs| - 1) + cs[i].hitTimes
    decreases |cs|
  {
    var n := |cs| - 1;
    if i == n {
      SumHitsCap(cs[..n]);
    } else {
      SumHitsRoom(cs[..n], i);
    }
  }

  /** Coffins that were never hit add up to no hits. */
  lemma {:induction false} SumHitsUnhit(cs: seq<Coffin>)
    requires forall i :: 0 <= i < |cs| ==> cs[i].hitTimes == 0
    ensures SumHits(cs) == 0 && Survivors(cs) == |cs|
    decreases |cs|
  {
    if cs != [] {
      SumHitsUnhit(cs[..|cs| - 1]);
    }
  }

  /** The end-of-round counting loop counts the coffins with a life left, as long as the count fits in a byte. */
  lemma {:induction false} TallyCounts(cs: seq<Coffin>, k: nat, start: Byte)
    requires k <= |cs| && start + k < 256
    ensures Tally(cs, k, start) == start + Survivors(cs[..k])
  {
    if k > 0 {
      TallyCounts(cs, k - 1, start);
      assert cs[..k][..k - 1] == cs[..k - 1];
    }
  }

  // ---- The start of a round ----

  /**
   * A round starts with the centre cell selected and covered, 90 seconds on
   * the clock, a 3-second attack interval and intro, 27 lives, nothing hit,
   * every cross idle at its base, and the invariants in force.
   */
  lemma InitialOk(baseZ: seq<real>)
    requires |baseZ| == Cells
    ensures var g := Initial(baseZ);
      && Invariant(g) && Ramp(g)
      && g.currentCoffin == g.nextCoffin == 4
      && g.remainTime == 90.0 && g.triggerCrossInterval == g.currentInterval == 3.0 && g.isSetting == 3.0
      && g.remainLives == Cells * LifeSlots && g.remainCoffins == 0 && g.score == 0 && !g.isEnd
      && (forall i :: 0 <= i < Cells ==> g.coffins[i].hitTimes == 0 && (g.coffins[i].isClosed <==> i == 4))
      && (forall i :: 0 <= i < Cells ==> !g.crosses[i].isMoving && g.crosses[i].z == g.crosses[i].baseZ == baseZ[i])
  {
    var g := Initial(baseZ);
    SumHitsUnhit(g.coffins);
  }

  // ---- The invariant ----

  /** One iteration of the cross loop keeps the ledger and the cross shapes, and touches no cover. */
  lemma VisitKeeps(g: Game, i: nat)
    requires |g.coffins| == |g.crosses| == Cells && i < Cells
    requires Ledger(g) && CrossesOk(g)
    ensures var r := Visit(g, i); Ledger(r) && CrossesOk(r)
  {
    var x := StepCross(g.crosses[i]);
    StepCrossKeepsOk(g.crosses[i]);
    if Strikes(x, g.coffins[i]) {
      SumHitsUpdate(g.coffins, i, Struck(g.coffins[i]));
      SumHitsRoom(g.coffins, i);
    }
  }

  /** The whole cross loop keeps the ledger and the cross shapes. */
  lemma {:induction false} SweepKeeps(g: Game, k: nat)
    requires |g.coffins| == |g.crosses| == Cells && k <= Cells
    requires Ledger(g) && CrossesOk(g)
    ensures var r := Sweep(g, k); Ledger(r) && CrossesOk(r)
  {
    if k > 0 {
      SweepKeeps(g, k - 1);
      VisitKeeps(Sweep(g, k - 1), k - 1);
    }
  }

  /** A selection change moves the cover with the selection and changes no hit count. */
  lemma SelectKeeps(g: Game)
    requires Invariant(g) && !g.isEnd
    ensures Invariant(Select(g))
  {
    SameHits(g.coffins, Select(g).coffins);
  }

  /** Setting an idle cross moving keeps every cross in a reachable shape. */
  lemma SpawnKeeps(g: Game, elapsed: real, draws: seq<int>)
    requires Invariant(g)
    requires g.currentInterval - elapsed < 0.0 ==> DrawsSettle(g.crosses, draws)
    ensures Invariant(Spawn(g, elapsed, draws))
  {
    if g.currentInterval - elapsed < 0.0 {
      var i := Picked(g.crosses, draws);
      StepCrossKeepsOk(g.crosses[i]);
      var r := Spawn(g, elapsed, draws);
      forall j | 0 <= j < Cells
        ensures CrossOk(r.crosses[j])
      {
        if j != i {
          assert r.crosses[j] == g.crosses[j];
        }
      }
    }
  }

  /** The cross loop of a running round keeps the invariant: strikes change hit counts, never covers. */
  lemma SweepKeepsInvariant(g: Game)
    requires Invariant(g) && !g.isEnd
    ensures Invariant(Sweep(g, Cells))
  {
    SweepKeeps(g, Cells);
    var r := Sweep(g, Cells);
    assert forall j :: 0 <= j < Cells ==> r.coffins[j].isClosed == g.coffins[j].isClosed;
  }

  /** The part of an update after the countdown keeps the invariant of a running round. */
  lemma PlayKeeps(g: Game, elapsed: real, draws: seq<int>)
    requires Invariant(g) && !g.isEnd
    requires g.currentInterval - elapsed < 0.0 ==> DrawsSettle(g.crosses, draws)
    ensures Invariant(Play(g, elapsed, draws))
  {
    var sel := Select(g);
    SelectKeeps(g);
    SpawnKeeps(sel, elapsed, draws);
    SweepKeepsInvariant(Spawn(sel, elapsed, draws));
  }

  /** Every update keeps the invariant, whatever the elapsed time. */
  lemma UpdateKeepsInvariant(g: Game, elapsed: real, draws: seq<int>)
    requires Invariant(g) && Allowed(g, elapsed, draws)
    ensures Invariant(Update(g, elapsed, draws))
  {
    if g.isEnd {
    } else if g.isSetting > 0.0 {
    } else if g.remainTime > 0.0 {
      PlayKeeps(Countdown(g, elapsed), elapsed, draws);
    } else {
      EndRoundKeeps(g);
    }
  }

  /** The end of the round keeps the invariant: nothing covered, the count and the score as promised. */
  lemma EndRoundKeeps(g: Game)
    requires Invariant(g) && !g.isEnd && g.isSetting <= 0.0
    ensures Invariant(EndRound(g))
  {
    var r := EndRound(g);
    SameHits(g.coffins, r.coffins);
    TallyCounts(r.coffins, Cells, 0);
    assert r.coffins[..Cells] == r.coffins;
  }

  // ---- Phase by phase ----

  /** Once the round has ended, an update changes nothing. */
  lemma EndedIsFinal(g: Game, elapsed: real, draws: seq<int>)
    requires Allowed(g, elapsed, draws) && g.isEnd
    ensures Update(g, elapsed, draws) == g
  {
  }

  /**
   * During the intro an update only runs down the intro timer and the spawn
   * countdown: clock, selection, crosses, hits and lives stay as they are.
   */
  lemma IntroOnlyTimers(g: Game, elapsed: real, draws: seq<int>)
    requires Allowed(g, elapsed, draws) && !g.isEnd && g.isSetting > 0.0
    ensures var r := Update(g, elapsed, draws);
      && r.isSetting == g.isSetting - elapsed && r.currentInterval == g.currentInterval - elapsed
      && r.remainTime == g.remainTime && r.triggerCrossInterval == g.triggerCrossInterval
      && r.currentCoffin == g.currentCoffin && r.nextCoffin == g.nextCoffin
      && r.coffins == g.coffins && r.crosses == g.crosses
      && r.remainLives == g.remainLives && !r.isEnd
  {
  }

  /**
   * The tick after the clock has run out ends the round: nothing is covered any
   * more, hits, lives and crosses stay, and the score is 100 per life left plus
   * 300 per coffin with a life left.
   */
  lemma EndTick(g: Game, elapsed: real, draws: seq<int>)
    requires Invariant(g) && Allowed(g, elapsed, draws)
    requires !g.isEnd && g.isSetting <= 0.0 && g.remainTime <= 0.0
    ensures var r := Update(g, elapsed, draws);
      && r.isEnd && r.remainTime == 0.0
      && (forall i :: 0 <= i < Cells ==> !r.coffins[i].isClosed && r.coffins[i].hitTimes == g.coffins[i].hitTimes)
      && r.crosses == g.crosses && r.remainLives == g.remainLives
      && r.remainCoffins == Survivors(g.coffins)
      && r.score == 100 * g.remainLives + 300 * Survivors(g.coffins)
      && (forall i :: 0 <= i < Cells && i != g.currentCoffin ==> r.coffins[i] == g.coffins[i])
      && r == g.(isEnd := true, remainTime := 0.0, coffins := r.coffins, remainCoffins := r.remainCoffins, score := r.score)
  {
    UpdateKeepsInvariant(g, elapsed, draws);
    SameHits(g.coffins, Update(g, elapsed, draws).coffins);
  }

  /** The round ends only through its end tick: an update that ends it finds the clock run out. */
  lemma EndOnlyWhenTimeIsUp(g: Game, elapsed: real, draws: seq<int>)
    requires Allowed(g, elapsed, draws) && !g.isEnd && Update(g, elapsed, draws).isEnd
    ensures g.isSetting <= 0.0 && g.remainTime <= 0.0
  {
  }

  /**
   * A tick of a running round, after the intro and before time is up: the
   * pending selection takes effect, then each cross moves one step (the one just
   * set moving included) and strikes its coffin if it can, costing one life per
   * strike. The clock is run down by `elapsed`.
   */
  lemma PlayTick(g: Game, elapsed: real, draws: seq<int>)
    requires Invariant(g) && Allowed(g, elapsed, draws)
    requires !g.isEnd && g.isSetting <= 0.0 && g.remainTime > 0.0
    ensures var r := Update(g, elapsed, draws);
      && !r.isEnd && r.remainTime == g.remainTime - elapsed
      && r.currentCoffin == g.nextCoffin && r.coffins[r.currentCoffin].isClosed
      && (forall i :: 0 <= i < Cells && i != r.currentCoffin ==> !r.coffins[i].isClosed)
      && (forall i :: 0 <= i < Cells ==>
            var x := if SpawnDue(g, elapsed) && i == Picked(g.crosses, draws)
                     then g.crosses[i].(isMoving := true) else g.crosses[i];
            && r.crosses[i] == StepCross(x)
            && r.coffins[i].hitTimes == g.coffins[i].hitTimes + (if Strikes(StepCross(x), Select(g).coffins[i]) then 1 else 0))
      && r.remainLives + SumHits(r.coffins) == TotalLives
      && r.coffins[r.currentCoffin].hitTimes == g.coffins[r.currentCoffin].hitTimes
  {
    UpdateKeepsInvariant(g, elapsed, draws);
    var c := Countdown(g, elapsed);
    var sel := Select(c);
    var sp := Spawn(sel, elapsed, draws);
    assert forall i :: 0 <= i < Cells ==> sp.coffins[i] == sel.coffins[i];
    assert SpawnDue(g, elapsed) <==> c.currentInterval - elapsed < 0.0;
  }

  /**
   * Spawning: on a tick where the spawn countdown drops below zero the cross set
   * moving was idle and the countdown restarts at the attack interval; on any
   * other tick no idle cross starts to move.
   */
  lemma SpawnTick(g: Game, elapsed: real, draws: seq<int>)
    requires Invariant(g) && Allowed(g, elapsed, draws)
    requires !g.isEnd && g.isSetting <= 0.0 && g.remainTime > 0.0
    ensures var r := Update(g, elapsed, draws);
      && (SpawnDue(g, elapsed) ==>
            !g.crosses[Picked(g.crosses, draws)].isMoving && r.crosses[Picked(g.crosses, draws)].isMoving
            && r.currentInterval == Countdown(g, elapsed).triggerCrossInterval)
      && (!SpawnDue(g, elapsed) ==>
            r.currentInterval == g.currentInterval - elapsed
            && forall i :: 0 <= i < Cells && !g.crosses[i].isMoving ==> r.crosses[i] == g.crosses[i])
  {
    PlayTick(g, elapsed, draws);
  }

  /** Contrary to what one might expect, an update with no time elapsed still moves every moving cross. */
  lemma ZeroElapsedNotIdle(g: Game, draws: seq<int>, i: nat)
    requires Invariant(g) && Allowed(g, 0.0, draws)
    requires !g.isEnd && g.isSetting <= 0.0 && g.remainTime > 0.0
    requires i < Cells && g.crosses[i].isMoving
    ensures Update(g, 0.0, draws).crosses[i] != g.crosses[i]
    ensures Update(g, 0.0, draws) != g
  {
    PlayTick(g, 0.0, draws);
    MovingCrossChanges(g.crosses[i]);
  }

  // ---- The attack interval ----

  /**
   * With time running forwards, the attack interval never grows: it stays at 3
   * seconds while a minute or more is left, and afterwards is only ever lowered.
   */
  lemma RampKeeps(g: Game, elapsed: real, draws: seq<int>)
    requires Allowed(g, elapsed, draws) && Ramp(g) && elapsed >= 0.0
    ensures var r := Update(g, elapsed, draws);
      Ramp(r) && r.triggerCrossInterval <= g.triggerCrossInterval
  {
    if !g.isEnd && g.isSetting <= 0.0 && g.remainTime > 0.0 {
      var c := Countdown(g, elapsed);
      assert Min(c.remainTime, RampStart) <= Min(g.remainTime, RampStart);
      var r := Update(g, elapsed, draws);
      assert r.triggerCrossInterval == c.triggerCrossInterval && r.remainTime == c.remainTime;
    }
  }

  /** With half a minute or less left, the attack interval is at its floor of 1.5 s or below. */
  lemma RampFloorReached(g: Game)
    requires Ramp(g) && !g.isEnd && g.remainTime <= RampStart / 2.0
    ensures g.triggerCrossInterval <= RampFloor
  {
  }

  // ---- Every round ends ----

  /**
   * A bound on the updates left in a round when each update takes at least
   * `delta` seconds: one for the intro, one for the clock, one for the end tick,
   * plus the time left on both timers.
   */
  function Rank(g: Game, delta: real): (r: real)
    requires delta > 0.0
    ensures g.isEnd <==> r == 0.0
    ensures !g.isEnd ==> r >= delta
  {
    if g.isEnd then 0.0
    else delta + (if g.isSetting > 0.0 then g.isSetting + delta else 0.0)
               + (if g.remainTime > 0.0 then g.remainTime + delta else 0.0)
  }

  /** Each update that takes at least `delta` seconds brings a running round `delta` closer to its end. */
  lemma RankDecreases(g: Game, elapsed: real, draws: seq<int>, delta: real)
    requires Allowed(g, elapsed, draws) && !g.isEnd && delta > 0.0 && elapsed >= delta
    ensures Rank(Update(g, elapsed, draws), delta) <= Rank(g, delta) - delta
  {
    if g.isSetting <= 0.0 && g.remainTime > 0.0 {
      var c := Countdown(g, elapsed);
      var r := Update(g, elapsed, draws);
      assert r.isEnd == c.isEnd && r.isSetting == c.isSetting && r.remainTime == c.remainTime;
    }
  }

  /** A run of updates: `trace[k + 1]` is the update of `trace[k]` by `elapsed[k]` and `draws[k]`. */
  predicate Follows(trace: seq<Game>, elapsed: seq<real>, draws: seq<seq<int>>)
  {
    && |trace| == |elapsed| + 1 && |draws| == |elapsed|
    && forall k :: 0 <= k < |elapsed| ==>
         Allowed(trace[k], elapsed[k], draws[k]) && trace[k + 1] == Update(trace[k], elapsed[k], draws[k])
  }

  /** Every state of a run from a state satisfying the invariant satisfies it. */
  lemma {:induction false} TraceKeepsInvariant(trace: seq<Game>, elapsed: seq<real>, draws: seq<seq<int>>, k: nat)
    requires Follows(trace, elapsed, draws) && Invariant(trace[0]) && k < |trace|
    ensures Invariant(trace[k])
  {
    if k > 0 {
      TraceKeepsInvariant(trace, elapsed, draws, k - 1);
      UpdateKeepsInvariant(trace[k - 1], elapsed[k - 1], draws[k - 1]);
    }
  }

  /** Once a run reaches the end of the round, it stays in that state. */
  lemma {:induction false} EndStays(trace: seq<Game>, elapsed: seq<real>, draws: seq<seq<int>>, j: nat, k: nat)
    requires Follows(trace, elapsed, draws) && j <= k < |trace| && trace[j].isEnd
    ensures trace[k] == trace[j]
  {
    if k > j {
      EndStays(trace, elapsed, draws, j, k - 1);
    }
  }

  /** One update of at least `delta` seconds: the end stays, anything else loses `delta` of rank. */
  lemma StepRank(a: Game, b: Game, elapsed: real, draws: seq<int>, delta: real)
    requires Allowed(a, elapsed, draws) && b == Update(a, elapsed, draws) && delta > 0.0 && elapsed >= delta
    ensures a.isEnd ==> b.isEnd
    ensures !a.isEnd ==> Rank(b, delta) <= Rank(a, delta) - delta
  {
    if !a.isEnd {
      RankDecreases(a, elapsed, draws, delta);
    }
  }

  /** `delta` added up k times. */
  function Spent(k: nat, delta: real): real
  {
    if k == 0 then 0.0 else Spent(k - 1, delta) + delta
  }

  /** `delta` added up k times is k times `delta`. */
  lemma {:induction false} SpentIsProduct(k: nat, delta: real)
    ensures Spent(k, delta) == (k as real) * delta
  {
    if k > 0 {
      SpentIsProduct(k - 1, delta);
    }
  }

  /** After k updates of at least `delta` seconds, the round has ended or its rank has dropped by k times `delta`. */
  lemma {:induction false} RankAlongTrace(trace: seq<Game>, elapsed: seq<real>, draws: seq<seq<int>>, delta: real, k: nat)
    requires Follows(trace, elapsed, draws) && delta > 0.0 && k < |trace|
    requires forall j :: 0 <= j < |elapsed| ==> elapsed[j] >= delta
    ensures trace[k].isEnd || Rank(trace[k], delta) + Spent(k, delta) <= Rank(trace[0], delta)
  {
    if k > 0 {
      RankAlongTrace(trace, elapsed, draws, delta, k - 1);
      StepRank(trace[k - 1], trace[k], elapsed[k - 1], draws[k - 1], delta);
    }
  }

  /** Every round ends: updates of at least `delta` seconds end it within Rank/delta of them. */
  lemma RoundEnds(trace: seq<Game>, elapsed: seq<real>, draws: seq<seq<int>>, delta: real)
    requires Follows(trace, elapsed, draws) && delta > 0.0
    requires forall j :: 0 <= j < |elapsed| ==> elapsed[j] >= delta
    requires (|elapsed| as real) * delta >= Rank(trace[0], delta)
    ensures trace[|elapsed|].isEnd
  {
    RankAlongTrace(trace, elapsed, draws, delta, |elapsed|);
    SpentIsProduct(|elapsed|, delta);
  }

  /**
   * A round played from its start with updates of at least `delta` seconds has
   * ended after (93 + 3 * delta) / delta updates, with the score of the lives
   * and coffins left, every lost life accounted for by a hit.
   */
  lemma RoundFromStart(baseZ: seq<real>, trace: seq<Game>, elapsed: seq<real>, draws: seq<seq<int>>, delta: real)
    requires |baseZ| == Cells && trace != [] && trace[0] == Initial(baseZ)
    requires Follows(trace, elapsed, draws) && delta > 0.0
    requires forall j :: 0 <= j < |elapsed| ==> elapsed[j] >= delta
    requires (|elapsed| as real) * delta >= 93.0 + 3.0 * delta
    ensures var last := trace[|elapsed|];
      && last.isEnd && WellFormed(last)
      && last.score == 100 * last.remainLives + 300 * Survivors(last.coffins)
      && last.remainLives + SumHits(last.coffins) == TotalLives
      && forall i :: 0 <= i < Cells ==> !last.coffins[i].isClosed && last.coffins[i].hitTimes <= LifeSlots
  {
    InitialOk(baseZ);
    RoundEnds(trace, elapsed, draws, delta);
    TraceKeepsInvariant(trace, elapsed, draws, |elapsed|);
  }
}
