/**
 The axis tick lists of two plots.

 The log-transformed read-length histogram labels its axis with the powers
 of ten 10^0..10^9 that do not exceed ten times the longest read (in bases).

 The time plots label their run-time axis in hours: every 4 hours for a run
 shorter than 72 hours, every 8 hours otherwise, from hour 0 up to hour 167
 but not past the latest read's start time; each tick sits at its hour
 times 3600 seconds.

 Times are whole seconds. The source compares an hour with the latest start
 time divided by 3600 as a real number; for a whole hour that comparison
 agrees with the comparison against the floor of the quotient, which is
 what integer division computes here.
 */
module Ticks {
  import opened Sequences

  const SecondsPerHour: int := 3600

  function Pow10(i: nat): (p: nat)
    ensures p >= 1
  {
    if i == 0 then 1 else 10 * Pow10(i - 1)
  }

  lemma {:induction false} Pow10Increasing(i: nat, j: nat)
    requires i < j
    ensures Pow10(i) < Pow10(j)
  {
    if i + 1 < j {
      Pow10Increasing(i, j - 1);
    }
  }

  /** The candidate ticks 10^0, ..., 10^9. */
  function Powers(): (s: seq<int>)
    ensures |s| == 10 && Increasing(s)
    ensures forall i :: 0 <= i < 10 ==> s[i] == Pow10(i)
  {
    var s := seq(10, i requires 0 <= i < 10 => Pow10(i));
    forall i, j | 0 <= i < j < |s| ensures s[i] < s[j] {
      Pow10Increasing(i, j);
    }
    s
  }

  /** The length-histogram ticks for a longest read of maxLength bases. */
  function LengthTicks(maxLength: int): (ticks: seq<int>)
    ensures |ticks| <= 10 && Increasing(ticks)
    ensures forall x :: x in ticks ==> 1 <= x <= 10 * maxLength
  {
    Filter(Powers(), AtMost(10 * maxLength))
  }

  /**
   The length ticks are an ascending prefix of 1, 10, ..., 10^9 that stops
   exactly before the first power beyond ten times the longest read.
   */
  lemma LengthTicksArePrefix(maxLength: int)
    ensures var t := LengthTicks(maxLength);
            && t == Powers()[..|t|]
            && Increasing(t)
            && (forall x :: x in t ==> x <= 10 * maxLength)
            && (|t| < 10 ==> Pow10(|t|) > 10 * maxLength)
  {
    var p := Powers();
    forall i, j | 0 <= i < j < |p| ensures p[i] < p[j] {
      Pow10Increasing(i, j);
    }
    FilterAtMostIsPrefix(p, 10 * maxLength);
  }

  /** A tick is a length tick exactly when it is some 10^i, i < 10, not above ten times the longest read. */
  lemma LengthTicksMembers(maxLength: int, x: int)
    ensures x in LengthTicks(maxLength) <==> exists i :: 0 <= i < 10 && x == Pow10(i) && Pow10(i) <= 10 * maxLength
  {
    if x in LengthTicks(maxLength) {
      LengthTickIsPower(maxLength, x);
    }
    if exists i :: 0 <= i < 10 && x == Pow10(i) && Pow10(i) <= 10 * maxLength {
      var i :| 0 <= i < 10 && x == Pow10(i) && Pow10(i) <= 10 * maxLength;
      PowerIsLengthTick(maxLength, i);
    }
  }

  lemma LengthTickIsPower(maxLength: int, x: int)
    requires x in LengthTicks(maxLength)
    ensures exists i :: 0 <= i < 10 && x == Pow10(i) && Pow10(i) <= 10 * maxLength
  {
    var p := Powers();
    assert x in p;
    var i :| 0 <= i < 10 && p[i] == x;
    assert x == Pow10(i) && Pow10(i) <= 10 * maxLength;
  }

  lemma PowerIsLengthTick(maxLength: int, i: int)
    requires 0 <= i < 10 && Pow10(i) <= 10 * maxLength
    ensures Pow10(i) in LengthTicks(maxLength)
  {
    var p := Powers();
    assert p[i] == Pow10(i) && AtMost(10 * maxLength)(Pow10(i));
  }

  /** Hours between ticks: 4 for a run shorter than 72 hours, 8 otherwise. */
  function TimeStep(maxTime: int): (step: int)
    ensures step == 4 || step == 8
    ensures step == 4 <==> maxTime < 72 * 3600
  {
    if maxTime < 72 * SecondsPerHour then 4 else 8
  }

  /** The run-time ticks, in hours, for a latest read start of maxTime seconds. */
  function TimeTicks(maxTime: int): (ticks: seq<int>)
    ensures Increasing(ticks)
    ensures forall x :: x in ticks ==> 0 <= x < 168 && x * 3600 <= maxTime
  {
    FilterAtMostRange(0, 168, TimeStep(maxTime), maxTime / SecondsPerHour);
    Filter(Range(0, 168, TimeStep(maxTime)), AtMost(maxTime / SecondsPerHour))
  }

  /** Where each tick sits on the time axis, in seconds. */
  function TickPositions(ticks: seq<int>): (pos: seq<int>)
    ensures |pos| == |ticks|
    ensures forall j :: 0 <= j < |ticks| ==> pos[j] == ticks[j] * 3600
    ensures Increasing(ticks) ==> Increasing(pos)
  {
    seq(|ticks|, j requires 0 <= j < |ticks| => ticks[j] * SecondsPerHour)
  }

  lemma HourNotAfter(x: int, maxTime: int)
    ensures AtMost(maxTime / SecondsPerHour)(x) <==> x * SecondsPerHour <= maxTime
  {
  }

  /** The progression 0, step, 2*step, ... below 168 has 168 / step elements. */
  lemma HourRangeLength(step: int)
    requires step == 4 || step == 8
    ensures |Range(0, 168, step)| == 168 / step
  {
    var r := Range(0, 168, step);
    if |r| > 0 {
      assert r[|r| - 1] == (|r| - 1) * step < 168;
    }
  }

  lemma MultipleHasNoRemainder(k: int, step: int)
    requires step == 4 || step == 8
    ensures (k * step) % step == 0
  {
    if step == 4 { assert k * step == 4 * k; } else { assert k * step == 8 * k; }
  }

  /** The members of the progression 0, step, 2*step, ... below 168 for a step of 4 or 8. */
  lemma HourRange(step: int, x: int)
    requires step == 4 || step == 8
    ensures x in Range(0, 168, step) <==> 0 <= x < 168 && x % step == 0
  {
    if x in Range(0, 168, step) {
      HourRangeMember(step, x);
    }
    if 0 <= x < 168 && x % step == 0 {
      HourRangeComplete(step, x);
    }
  }

  lemma HourRangeMember(step: int, x: int)
    requires step == 4 || step == 8
    requires x in Range(0, 168, step)
    ensures 0 <= x < 168 && x % step == 0
  {
    var r := Range(0, 168, step);
    var k :| 0 <= k < |r| && r[k] == x;
    assert x == k * step;
    MultipleHasNoRemainder(k, step);
  }

  lemma HourRangeComplete(step: int, x: int)
    requires step == 4 || step == 8
    requires 0 <= x < 168 && x % step == 0
    ensures x in Range(0, 168, step)
  {
    var r := Range(0, 168, step);
    HourRangeLength(step);
    var k := x / step;
    assert x == k * step;
    assert r[k] == x;
  }

  /**
   An hour is a time tick exactly when it is a multiple of the step in
   [0, 168) whose position in seconds is not after the latest read start.
   */
  lemma TimeTicksMembers(maxTime: int, x: int)
    ensures x in TimeTicks(maxTime) <==>
              && 0 <= x < 168
              && x % (if maxTime < 72 * 3600 then 4 else 8) == 0
              && x * 3600 <= maxTime
  {
    HourRange(TimeStep(maxTime), x);
    HourNotAfter(x, maxTime);
  }

  /**
   The time ticks are 0, step, 2*step, ... in ascending order, and stop
   exactly before the first multiple of the step that lies past the latest
   read start or reaches hour 168.
   */
  lemma TimeTicksProgression(maxTime: int)
    ensures var t, step := TimeTicks(maxTime), if maxTime < 72 * 3600 then 4 else 8;
            && Increasing(t)
            && (forall j :: 0 <= j < |t| ==> t[j] == j * step)
            && (|t| * step < 168 ==> |t| * step * 3600 > maxTime)
  {
    var t := TimeTicks(maxTime);
    forall j | 0 <= j < |t| ensures t[j] == j * TimeStep(maxTime) {
      TimeTickAt(maxTime, j);
    }
    TimeTicksStop(maxTime);
  }

  /** The j-th time tick is j steps. */
  lemma TimeTickAt(maxTime: int, j: int)
    requires 0 <= j < |TimeTicks(maxTime)|
    ensures TimeTicks(maxTime)[j] == j * TimeStep(maxTime)
  {
    var step, bound := TimeStep(maxTime), maxTime / SecondsPerHour;
    FilterAtMostRange(0, 168, step, bound);
    var f := Filter(Range(0, 168, step), AtMost(bound));
    assert TimeTicks(maxTime) == f;
    assert f[j] == 0 + j * step;
  }

  /** The first multiple of the step that is not a tick lies past the latest read start or reaches hour 168. */
  lemma TimeTicksStop(maxTime: int)
    ensures var t, step := TimeTicks(maxTime), TimeStep(maxTime);
            |t| * step < 168 ==> |t| * step * 3600 > maxTime
  {
    var step := TimeStep(maxTime);
    var r := Range(0, 168, step);
    var t := TimeTicks(maxTime);
    FilterAtMostRange(0, 168, step, maxTime / SecondsPerHour);
    FilterAtMostIsPrefix(r, maxTime / SecondsPerHour);
    if |t| * step < 168 {
      HourRangeLength(step);
      if step == 4 { assert |t| < |r|; } else { assert |t| < |r|; }
      assert r[|t|] == |t| * step;
      HourNotAfter(|t| * step, maxTime);
    }
  }

  /** Every tick position lies within the run, from 0 to the latest read start, in ascending order. */
  lemma TimeTickPositionsWithinRun(maxTime: int)
    ensures var pos := TickPositions(TimeTicks(maxTime));
            && Increasing(pos)
            && forall p :: p in pos ==> 0 <= p <= maxTime
  {
    var t := TimeTicks(maxTime);
    var pos := TickPositions(t);
    TimeTicksProgression(maxTime);
    forall p | p in pos ensures 0 <= p <= maxTime {
      var j :| 0 <= j < |pos| && pos[j] == p;
      TimeTicksMembers(maxTime, t[j]);
    }
  }
}
