// The game mode object: its state fields, the two tables of coffins and
// crosses it updates in place, key handling, and the per-frame update.
// Each method is proved to change the state exactly as the matching function
// of module Round says; the properties of those functions are in RoundFacts.

module Play {
  import opened Pieces
  import opened Grid
  import opened Round
  import RoundFacts

  class PlayMode {
    var currentCoffin: Byte
    var nextCoffin: Byte
    var triggerCrossInterval: real
    var currentInterval: real
    const originalTime: real
    var remainTime: real
    var remainLives: Byte
    var remainCoffins: Byte
    var score: nat
    var isEnd: bool
    var isSetting: real
    const coffins: array<Coffin>
    const crosses: array<Cross>

    /** The game state as a value. */
    ghost function Model(): Game
      reads this, coffins, crosses
    {
      Game(currentCoffin, nextCoffin, triggerCrossInterval, currentInterval, remainTime,
           remainLives, remainCoffins, score, isEnd, isSetting, coffins[..], crosses[..])
    }

    /** Nine coffins, nine crosses, and both selections inside the grid. */
    ghost predicate Shape()
      reads this
    {
      coffins.Length == Cells && crosses.Length == Cells && currentCoffin < Cells && nextCoffin < Cells
    }

    /** The object invariant: the invariant of the round holds of the state. */
    ghost predicate Valid()
      reads this, coffins, crosses
    {
      Shape() && Invariant(Model())
    }

    /**
     * The state at the start of a round: the field defaults, nine fresh coffins,
     * nine idle crosses at their base depths, and the centre coffin covered.
     */
    constructor (baseZ: seq<real>)
      requires |baseZ| == Cells
      ensures Valid() && Ramp(Model()) && Model() == Initial(baseZ)
      ensures fresh(coffins) && fresh(crosses) && originalTime == OriginalTime
    {
      currentCoffin, nextCoffin := StartCell, StartCell;
      triggerCrossInterval, currentInterval := StartInterval, StartInterval;
      originalTime := OriginalTime;
      remainTime := OriginalTime;
      remainLives, remainCoffins, score := TotalLives as Byte, 0, 0;
      isEnd, isSetting := false, IntroTime;
      coffins := new Coffin[Cells](_ => FreshCoffin);
      crosses := new Cross[Cells](i requires 0 <= i < Cells => FreshCross(baseZ[i]));
      new;
      coffins[nextCoffin] := coffins[nextCoffin].(isClosed := true);
      assert coffins[..] == Initial(baseZ).coffins;
      assert crosses[..] == Initial(baseZ).crosses;
      RoundFacts.InitialOk(baseZ);
    }

    /**
     * A key press sets the pending selection to the cell the key leads to from
     * the current one (WASD move, other keys keep it); only key presses are handled.
     */
    method HandleEvent(evt: Event) returns (handled: bool)
      requires Valid()
      modifies this`nextCoffin
      ensures Valid()
      ensures handled <==> evt.KeyDown?
      ensures evt.KeyDown? ==> nextCoffin == Navigate(currentCoffin, evt.key)
      ensures !evt.KeyDown? ==> nextCoffin == old(nextCoffin)
    {
      if evt.KeyDown? {
        nextCoffin := Navigate(currentCoffin, evt.key);
        return true;
      }
      return false;
    }

    /**
     * One frame's update. The state changes as `Round.Update` says, which keeps
     * the invariant; with time running forwards the attack interval never grows.
     */
    method Update(elapsed: real, draws: seq<int>)
      requires Valid() && Allowed(Model(), elapsed, draws)
      modifies this, coffins, crosses
      ensures Valid()
      ensures Model() == Round.Update(old(Model()), elapsed, draws)
      ensures elapsed >= 0.0 && old(Ramp(Model())) ==> Ramp(Model()) && triggerCrossInterval <= old(triggerCrossInterval)
    {
      ghost var g := Model();
      Step(elapsed, draws);
      RoundFacts.UpdateKeepsInvariant(g, elapsed, draws);
      if elapsed >= 0.0 && Ramp(g) {
        RoundFacts.RampKeeps(g, elapsed, draws);
      }
    }

    /** The branches of the update: nothing once ended, the intro, a running frame, or the end of the round. */
    method Step(elapsed: real, draws: seq<int>)
      requires Shape() && Allowed(Model(), elapsed, draws)
      modifies this, coffins, crosses
      ensures Shape() && Model() == Round.Update(old(Model()), elapsed, draws)
    {
      if isEnd {
        // nothing changes once the round has ended
      } else if isSetting > 0.0 {
        isSetting := isSetting - elapsed;
        currentInterval := currentInterval - elapsed;
      } else if remainTime > 0.0 {
        Tick(elapsed, draws);
      } else {
        FinishRound();
      }
    }

    /** A running frame: the clock and the attack interval count down, then play goes on. */
    method Tick(elapsed: real, draws: seq<int>)
      requires Shape() && Allowed(Model(), elapsed, draws)
      requires !isEnd && isSetting <= 0.0 && remainTime > 0.0
      modifies this, coffins, crosses
      ensures Shape() && Model() == Play(Countdown(old(Model()), elapsed), elapsed, draws)
    {
      ghost var g := Model();
      RunClock(elapsed);
      assert Model() == Countdown(g, elapsed);
      PlayOn(elapsed, draws);
    }

    /** The clock runs down; below a minute left the attack interval shrinks with it, down to its floor. */
    method RunClock(elapsed: real)
      modifies this`remainTime, this`triggerCrossInterval
      ensures remainTime == old(remainTime) - elapsed
      ensures triggerCrossInterval == Countdown(old(Model()), elapsed).triggerCrossInterval
    {
      remainTime := remainTime - elapsed;
      if remainTime < RampStart && triggerCrossInterval > RampFloor {
        triggerCrossInterval := StartInterval * (remainTime / RampStart);
      }
    }

    /** The rest of a running frame: selection change, spawn, then cross motion and strikes. */
    method PlayOn(elapsed: real, draws: seq<int>)
      requires Shape()
      requires currentInterval - elapsed < 0.0 ==> DrawsSettle(crosses[..], draws)
      modifies this, coffins, crosses
      ensures Shape() && Model() == Play(old(Model()), elapsed, draws)
    {
      ApplySelection();
      LaunchCross(elapsed, draws);
      MoveCrosses();
    }

    /** The end of the round: uncover the selected coffin, count the coffins with a life left, and score. */
    method FinishRound()
      requires Shape()
      modifies this, coffins
      ensures Shape() && Model() == Round.EndRound(old(Model()))
    {
      isEnd := true;
      remainTime := 0.0;
      coffins[currentCoffin] := coffins[currentCoffin].(isClosed := false);
      ghost var start := Model();
      var i := 0;
      while i < Cells
        invariant 0 <= i <= Cells
        invariant Model() == start.(remainCoffins := remainCoffins)
        invariant remainCoffins == Tally(start.coffins, i, start.remainCoffins)
      {
        if coffins[i].hitTimes != LifeSlots {
          remainCoffins := Inc8(remainCoffins);
        }
        i := i + 1;
      }
      score := 100 * remainLives + 300 * remainCoffins;
    }

    /** A pending selection takes effect: the new coffin is covered, the old one uncovered. */
    method ApplySelection()
      requires Shape()
      modifies this`currentCoffin, coffins
      ensures Shape() && Model() == Select(old(Model()))
    {
      if nextCoffin != currentCoffin {
        coffins[nextCoffin] := coffins[nextCoffin].(isClosed := true);
        coffins[currentCoffin] := coffins[currentCoffin].(isClosed := false);
        currentCoffin := nextCoffin;
      }
    }

    /** The spawn countdown runs down; once below zero an idle cross is drawn and set moving. */
    method LaunchCross(elapsed: real, draws: seq<int>)
      requires Shape()
      requires currentInterval - elapsed < 0.0 ==> DrawsSettle(crosses[..], draws)
      modifies this`currentInterval, crosses
      ensures Shape() && Model() == Spawn(old(Model()), elapsed, draws)
    {
      currentInterval := currentInterval - elapsed;
      if currentInterval < 0.0 {
        var index, _ := DrawIdle(crosses[..], draws);
        crosses[index] := crosses[index].(isMoving := true);
        currentInterval := triggerCrossInterval;
      }
    }

    /** Each cross in turn moves one step and then strikes its coffin if it can. */
    method MoveCrosses()
      requires Shape()
      modifies this`remainLives, coffins, crosses
      ensures Shape() && Model() == Sweep(old(Model()), Cells)
    {
      ghost var start := Model();
      var i := 0;
      while i < Cells
        invariant 0 <= i <= Cells && Shape()
        invariant Model() == Sweep(start, i)
      {
        VisitCross(i);
        i := i + 1;
      }
    }

    /** Cross `i` moves one step: it reverses past either bound and stops, clamped, past its base; then it may strike. */
    method VisitCross(i: nat)
      requires Shape() && i < Cells
      modifies this`remainLives, coffins, crosses
      ensures Shape() && Model() == Visit(old(Model()), i)
    {
      var x := crosses[i];
      if x.isMoving {
        x := x.(z := x.z + x.movingSpeed);
        if x.z < x.targetZ || x.z > x.baseZ {
          x := x.(movingSpeed := -x.movingSpeed);
        }
        if x.z > x.baseZ {
          x := x.(isMoving := false, z := x.baseZ);
        }
      }
      assert x == StepCross(old(crosses[i]));
      crosses[i] := x;
      var c := coffins[i];
      if x.z < x.targetZ && !c.isClosed && c.hitTimes < LifeSlots {
        coffins[i] := c.(hitTimes := c.hitTimes + 1);
        remainLives := Dec8(remainLives);
      }
    }
  }
}
