// The text drawn over the scene: the clock as MM:SS while the round runs,
// the score once it has ended, a title, and a line of explanation.

module Hud {
  import opened Pieces

  /** Conversion of a real to an integer, truncating towards zero as a C++ cast does. */
  function Trunc(x: real): (n: int)
    ensures x >= 0.0 ==> n as real <= x < n as real + 1.0
    ensures x < 0.0 ==> n as real - 1.0 < x <= n as real
  {
    if x >= 0.0 then x.Floor else -((-x).Floor)
  }

  /** The character of a decimal digit. */
  function DigitChar(d: nat): (c: char)
    requires d < 10
    ensures '0' <= c <= '9' && c as int - '0' as int == d
  {
    ('0' as int + d) as char
  }

  /** The decimal digits of `n`, most significant first, without leading zeros (`std::to_string`). */
  function Decimal(n: nat): (s: string)
    ensures 1 <= |s| && forall i :: 0 <= i < |s| ==> '0' <= s[i] <= '9'
    ensures |s| == 1 <==> n < 10
    ensures n > 0 ==> s[0] != '0'
    decreases n
  {
    if n < 10 then [DigitChar(n)] else Decimal(n / 10) + [DigitChar(n % 10)]
  }

  /** The number a string of decimal digits denotes. */
  function ValueOf(s: string): int
  {
    if s == [] then 0 else 10 * ValueOf(s[..|s| - 1]) + (s[|s| - 1] as int - '0' as int)
  }

  /** Reading the digits of `n` back gives `n`. */
  lemma {:induction false} DecimalReadsBack(n: nat)
    ensures ValueOf(Decimal(n)) == n
    decreases n
  {
    if n >= 10 {
      DecimalReadsBack(n / 10);
      var s := Decimal(n);
      assert s[..|s| - 1] == Decimal(n / 10);
    }
  }

  /** Numbers from 10 to 99 have two digits. */
  lemma DecimalOfTwoDigits(n: nat)
    ensures 10 <= n < 100 ==> |Decimal(n)| == 2
  {
  }

  /** A number below 100 written with two digits, a leading zero added below 10. */
  function TwoDigits(n: nat): (s: string)
    ensures |s| >= 1 && (n < 10 ==> s[0] == '0')
    ensures forall i :: 0 <= i < |s| ==> '0' <= s[i] <= '9'
    ensures n < 100 ==> |s| == 2 && ValueOf(s) == n && '0' <= s[0] <= '9' && '0' <= s[1] <= '9'
  {
    DecimalReadsBack(n);
    if n < 10 then
      assert ("0" + Decimal(n))[..1] == "0";
      "0" + Decimal(n)
    else
      DecimalOfTwoDigits(n);
      Decimal(n)
  }

  /** Both conversions to `uint8_t` in the clock are defined: minutes 0..255, the seconds then 0..59. */
  predicate Displayable(t: real)
  {
    -1.0 < t < 15360.0
  }

  /** Whole minutes left (`uint8_t minute = remain_time / 60`). */
  function Minute(t: real): (m: Byte)
    requires Displayable(t)
    ensures t >= 0.0 ==> (m * 60) as real <= t < (m * 60 + 60) as real
    ensures t < 0.0 ==> m == 0
  {
    Trunc(t / 60.0)
  }

  /** Whole seconds left over (`uint8_t second = remain_time - minute * 60`). */
  function Second(t: real): (s: Byte)
    requires Displayable(t)
    ensures s < 60
    ensures t >= 0.0 ==> Minute(t) * 60 + s == t.Floor
    ensures t < 0.0 ==> s == 0
  {
    Trunc(t - (Minute(t) * 60) as real)
  }

  /** The clock: minutes and seconds, each with two digits while below 100, joined by a colon. */
  function Clock(t: real): (c: string)
    requires Displayable(t)
    ensures t < 6000.0 ==> |c| == 5 && c[2] == ':' && forall i :: 0 <= i < 5 && i != 2 ==> '0' <= c[i] <= '9'
  {
    TwoDigits(Minute(t)) + ":" + TwoDigits(Second(t))
  }

  /** Under 100 minutes the clock reads MM:SS, and reading it back gives the whole seconds left. */
  lemma ClockReadsBack(t: real)
    requires 0.0 <= t < 6000.0
    ensures var c := Clock(t);
      && |c| == 5 && c[2] == ':'
      && (forall i :: 0 <= i < 5 && i != 2 ==> '0' <= c[i] <= '9')
      && ValueOf(c[..2]) < 100 && ValueOf(c[3..]) < 60
      && 60 * ValueOf(c[..2]) + ValueOf(c[3..]) == t.Floor
  {
    var c := Clock(t);
    assert c[..2] == TwoDigits(Minute(t));
    assert c[3..] == TwoDigits(Second(t));
  }

  /** In the last second before the end tick the clock may run below zero; it then reads 00:00. */
  lemma ClockBelowZero(t: real)
    requires -1.0 < t < 0.0
    ensures Clock(t) == "00:00"
  {
  }

  /** The three lines of text: the main line, its title, and the explanation. */
  datatype Overlay = Overlay(infor: string, title: string, explain: string)

  /**
   * The overlay for a state: the clock while the round runs and the score once it
   * has ended, titled "Score" only then; the explanation is the controls during
   * play, the lives and coffins left at the end, and nothing during the intro.
   */
  function Compose(isEnd: bool, isSetting: real, remainTime: real, score: nat, lives: Byte, saved: Byte): (o: Overlay)
    requires Displayable(remainTime)
    ensures o.title == "Score" <==> isEnd
    ensures o.title == "" <==> !isEnd
    ensures o.explain == "" <==> isSetting > 0.0
    ensures isEnd ==> ValueOf(o.infor) == score && forall i :: 0 <= i < |o.infor| ==> '0' <= o.infor[i] <= '9'
    ensures isEnd ==> o.infor == Decimal(score) && (score > 0 ==> o.infor[0] != '0')
    ensures !isEnd ==> o.infor == Clock(remainTime)
    ensures isEnd && isSetting <= 0.0 ==> o.explain == Decimal(lives) + " skulls left, resurrect " + Decimal(saved) + " vampires"
    ensures !isEnd && isSetting <= 0.0 ==> o.explain == "Use WASD to cover the coffins"
  {
    DecimalReadsBack(score);
    var infor := if isEnd then Decimal(score) else Clock(remainTime);
    var title := if isEnd then "Score" else "";
    var explain := if isEnd then Decimal(lives) + " skulls left, resurrect " + Decimal(saved) + " vampires"
                   else "Use WASD to cover the coffins";
    Overlay(infor, title, if isSetting > 0.0 then "" else explain)
  }
}
