/** VSyncWorker: the phase arithmetic of synthetic vertical blanks, and the timestamps of a run. */
module VSync {
  import opened Words

  const ONE_SECOND_NS: int := 1_000_000_000

  /** C++ division: rounds towards zero. */
  function Quotient(a: int, b: int): int
    requires b > 0
  {
    if a >= 0 then a / b else -(-a / b)
  }

  predicate InPhase(frame: int, base: int, t: int)
    requires frame > 0
  {
    (t - base) % frame == 0
  }

  /** t is the first instant in phase with base that is later than current. */
  ghost predicate IsNext(frame: int, base: int, current: int, t: int)
    requires frame > 0
  {
    t > current && InPhase(frame, base, t) && forall u :: u > current && InPhase(frame, base, u) ==> t <= u
  }

  /** getPhasedVSync */
  function Phased(frame: int, last: int, current: int): int
    requires frame > 0
  {
    if last < 0 then current + frame
    else frame * (Quotient(current - last, frame) + 1) + last
  }

  lemma AtLeastOnce(k: int, f: int)
    requires f > 0
    ensures k >= 1 ==> k * f >= f
    ensures k <= -1 ==> k * f <= -f
  {
  }

  lemma Multiple(k: int, f: int)
    requires f > 0
    ensures (k * f) % f == 0
  {
    var q, r := (k * f) / f, (k * f) % f;
    assert (k - q) * f == r by {
      assert k * f == q * f + r;
    }
    AtLeastOnce(k - q, f);
  }

  lemma SmallMultiple(d: int, f: int)
    requires f > 0 && d % f == 0 && d > -f
    ensures d >= 0
  {
    AtLeastOnce(d / f, f);
  }

  lemma DifferenceInPhase(f: int, base: int, t: int, u: int)
    requires f > 0 && InPhase(f, base, t)
    ensures InPhase(f, base, u) <==> (u - t) % f == 0
  {
    var q := (t - base) / f;
    assert t - base == q * f;
    if InPhase(f, base, u) {
      var p := (u - base) / f;
      assert u - base == p * f;
      assert u - t == (p - q) * f;
      Multiple(p - q, f);
    }
    if (u - t) % f == 0 {
      var p := (u - t) / f;
      assert u - t == p * f;
      assert u - base == (p + q) * f;
      Multiple(p + q, f);
    }
  }

  /** An instant in phase is the next one exactly when it is within a frame. */
  lemma WithinAFrame(f: int, base: int, current: int, t: int)
    requires f > 0 && InPhase(f, base, t)
    ensures IsNext(f, base, current, t) <==> current < t <= current + f
  {
    if current < t <= current + f {
      forall u | u > current && InPhase(f, base, u) ensures t <= u {
        DifferenceInPhase(f, base, t, u);
        SmallMultiple(u - t, f);
      }
    }
    if t > current + f {
      DifferenceInPhase(f, base, t, t - f);
      Multiple(-1, f);
      assert t - f > current && InPhase(f, base, t - f);
    }
  }

  /** The phased timestamp is the next one in phase exactly when the clock has reached the last timestamp,
      or is short of it by whole frames: rounding towards zero otherwise skips a frame. */
  lemma PhasedIsNext(frame: int, last: int, current: int)
    requires frame > 0 && last >= 0
    ensures InPhase(frame, last, Phased(frame, last, current))
    ensures IsNext(frame, last, current, Phased(frame, last, current)) <==>
            current >= last || (last - current) % frame == 0
  {
    var d := current - last;
    var q := Quotient(d, frame);
    var t := Phased(frame, last, current);
    assert t - last == (q + 1) * frame;
    Multiple(q + 1, frame);
    WithinAFrame(frame, last, current, t);
    if d >= 0 {
      assert d == q * frame + d % frame;
      assert t == current - d % frame + frame;
    } else {
      assert -d == -q * frame + -d % frame;
      assert t == current + -d % frame + frame;
    }
  }

  /** Concretely: 17 ns before the last timestamp that one is next, but the frame after it is taken. */
  lemma EarlyClockSkipsAFrame()
    ensures IsNext(50, 137, 120, 137)
    ensures Phased(50, 137, 120) == 187 && !IsNext(50, 137, 120, 187)
  {
    WithinAFrame(50, 137, 120, 137);
    assert InPhase(50, 137, 137);
  }

  datatype Timespec = Timespec(sec: int, nsec: int)

  function Nanoseconds(t: Timespec): int {
    t.sec * ONE_SECOND_NS + t.nsec
  }

  function Split(t: int): Timespec {
    var sec := Quotient(t, ONE_SECOND_NS);
    Timespec(sec, t - sec * ONE_SECOND_NS)
  }

  /** The split recombines, and is what clock_nanosleep accepts exactly when it starts from no negative
      time, or from whole seconds. */
  lemma SplitRecombines(t: int)
    ensures Split(t).sec * 1_000_000_000 + Split(t).nsec == t == Nanoseconds(Split(t))
    ensures 0 <= Split(t).nsec < 1_000_000_000 <==> t >= 0 || t % 1_000_000_000 == 0
  {
  }

  /** One call of syntheticWaitVBlank: what the clock read, and what clock_nanosleep returned (0 or an
      error number, never -1). */
  datatype Tick = Tick(clock: Timespec, error: nat)

  /** The clock is valid, never goes back, and has passed every timestamp slept for. */
  ghost predicate ClockRuns(ticks: seq<Tick>, frame: int, last: int)
    requires frame > 0
    decreases |ticks|
  {
    ticks == [] ||
    var now := Nanoseconds(ticks[0].clock);
    var after := if ticks[0].error == 0 then Phased(frame, last, now) else last;
    && now >= 0 && now >= last
    && (forall k :: 0 <= k < |ticks| ==> Nanoseconds(ticks[k].clock) >= now)
    && ClockRuns(ticks[1..], frame, after)
  }

  /** The timestamps a run of synthetic blanks reports; a failed sleep reports none. */
  function Stamps(ticks: seq<Tick>, frame: int, last: int): seq<int>
    requires frame > 0
    decreases |ticks|
  {
    if ticks == [] then []
    else if ticks[0].error != 0 then Stamps(ticks[1..], frame, last)
    else
      var t := Phased(frame, last, Nanoseconds(ticks[0].clock));
      [t] + Stamps(ticks[1..], frame, t)
  }

  lemma PhasedAdvances(frame: int, last: int, now: int)
    requires frame > 0 && now >= 0 && now >= last
    ensures now < Phased(frame, last, now) <= now + frame
    ensures last >= 0 ==> InPhase(frame, last, Phased(frame, last, now))
  {
    if last >= 0 {
      PhasedIsNext(frame, last, now);
      WithinAFrame(frame, last, now, Phased(frame, last, now));
    }
  }

  /** Strictly increasing, later than the last one, and in phase with it and with each other. */
  ghost predicate KeepPhase(stamps: seq<int>, frame: int, last: int)
    requires frame > 0
  {
    && (forall i :: 0 <= i < |stamps| ==> stamps[i] > last && stamps[i] >= 0)
    && (forall i, j :: 0 <= i < j < |stamps| ==> stamps[i] < stamps[j])
    && (last >= 0 ==> forall i :: 0 <= i < |stamps| ==> InPhase(frame, last, stamps[i]))
    && (forall i :: 0 <= i < |stamps| ==> InPhase(frame, stamps[0], stamps[i]))
  }

  lemma OneMore(stamps: seq<int>, frame: int, last: int, t: int)
    requires frame > 0 && t > last && t >= 0 && (last >= 0 ==> InPhase(frame, last, t))
    requires KeepPhase(stamps, frame, t)
    ensures KeepPhase([t] + stamps, frame, last)
  {
    forall i | 0 <= i < |stamps| && last >= 0 ensures InPhase(frame, last, stamps[i]) {
      DifferenceInPhase(frame, last, t, stamps[i]);
    }
    assert InPhase(frame, t, t);
  }

  /** Over any run the timestamps keep their phase. */
  lemma {:induction false} StampsKeepPhase(ticks: seq<Tick>, frame: int, last: int)
    requires frame > 0 && ClockRuns(ticks, frame, last)
    ensures KeepPhase(Stamps(ticks, frame, last), frame, last)
    decreases |ticks|
  {
    if ticks != [] {
      var now := Nanoseconds(ticks[0].clock);
      if ticks[0].error != 0 {
        StampsKeepPhase(ticks[1..], frame, last);
      } else {
        var t := Phased(frame, last, now);
        PhasedAdvances(frame, last, now);
        StampsKeepPhase(ticks[1..], frame, t);
        OneMore(Stamps(ticks[1..], frame, t), frame, last, t);
      }
    }
  }

  /** What the clock read before each sleep that worked. */
  function Clocks(ticks: seq<Tick>): seq<int> {
    if ticks == [] then []
    else (if ticks[0].error == 0 then [Nanoseconds(ticks[0].clock)] else []) + Clocks(ticks[1..])
  }

  lemma {:induction false} StampsWithinAFrame(ticks: seq<Tick>, frame: int, last: int)
    requires frame > 0 && ClockRuns(ticks, frame, last)
    ensures |Stamps(ticks, frame, last)| == |Clocks(ticks)|
    ensures forall i :: 0 <= i < |Clocks(ticks)| ==>
              Clocks(ticks)[i] < Stamps(ticks, frame, last)[i] <= Clocks(ticks)[i] + frame
    decreases |ticks|
  {
    hide Phased;
    if ticks != [] {
      if ticks[0].error != 0 {
        StampsWithinAFrame(ticks[1..], frame, last);
      } else {
        var now := Nanoseconds(ticks[0].clock);
        PhasedAdvances(frame, last, now);
        StampsWithinAFrame(ticks[1..], frame, Phased(frame, last, now));
      }
    }
  }

  /** Each timestamp of a run is the first instant in the run's phase after its own reading of the clock. */
  lemma StampsAreNext(ticks: seq<Tick>, frame: int, last: int)
    requires frame > 0 && ClockRuns(ticks, frame, last)
    ensures var stamps := Stamps(ticks, frame, last);
            && |stamps| == |Clocks(ticks)|
            && forall i :: 0 <= i < |stamps| ==> IsNext(frame, stamps[0], Clocks(ticks)[i], stamps[i])
                                                 && (last >= 0 ==> IsNext(frame, last, Clocks(ticks)[i], stamps[i]))
  {
    hide Stamps, ClockRuns, Clocks, IsNext, InPhase;
    var stamps := Stamps(ticks, frame, last);
    StampsWithinAFrame(ticks, frame, last);
    StampsKeepPhase(ticks, frame, last);
    forall i | 0 <= i < |stamps|
      ensures IsNext(frame, stamps[0], Clocks(ticks)[i], stamps[i])
      ensures last >= 0 ==> IsNext(frame, last, Clocks(ticks)[i], stamps[i])
    {
      WithinAFrame(frame, stamps[0], Clocks(ticks)[i], stamps[i]);
      if last >= 0 {
        WithinAFrame(frame, last, Clocks(ticks)[i], stamps[i]);
      }
    }
  }

  /** Neighbouring timestamps are one frame apart exactly when the clock is read within a frame of the
      first of them. */
  lemma NeighboursAreAFrameApart(ticks: seq<Tick>, frame: int, last: int, i: nat)
    requires frame > 0 && ClockRuns(ticks, frame, last) && i + 1 < |Clocks(ticks)|
    ensures var stamps := Stamps(ticks, frame, last);
            && |stamps| == |Clocks(ticks)| && stamps[i] <= Clocks(ticks)[i + 1]
            && (stamps[i + 1] - stamps[i] == frame <==> Clocks(ticks)[i + 1] < stamps[i] + frame)
  {
    hide Stamps, ClockRuns, Clocks, IsNext, InPhase;
    var stamps := Stamps(ticks, frame, last);
    StampsWithinAFrame(ticks, frame, last);
    StampsKeepPhase(ticks, frame, last);
    ClockPassesStamps(ticks, frame, last, i);
    DifferenceInPhase(frame, stamps[0], stamps[i], stamps[i + 1]);
    var gap := stamps[i + 1] - stamps[i];
    Multiple(1, frame);
    AtLeastOnce(gap / frame, frame);
    AtLeastOnce(gap / frame - 1, frame);
    assert gap == gap / frame * frame;
  }

  /** A frame from one timestamp to the next wherever the clock keeps up. */
  ghost predicate Steady(stamps: seq<int>, clocks: seq<int>, frame: int) {
    && |stamps| == |clocks|
    && forall i :: 0 <= i < |stamps| - 1 ==>
         (stamps[i + 1] - stamps[i] == frame <==> clocks[i + 1] < stamps[i] + frame)
  }

  lemma StampsAreSteady(ticks: seq<Tick>, frame: int, last: int)
    requires frame > 0 && ClockRuns(ticks, frame, last)
    ensures Steady(Stamps(ticks, frame, last), Clocks(ticks), frame)
  {
    hide Stamps, ClockRuns, Clocks;
    AsManyStamps(ticks, frame, last);
    forall i | 0 <= i < |Clocks(ticks)| - 1 {
      NeighboursAreAFrameApart(ticks, frame, last, i);
    }
  }

  /** Each reading of the clock has passed the timestamps before it. */
  lemma {:induction false} ClockPassesStamps(ticks: seq<Tick>, frame: int, last: int, i: nat)
    requires frame > 0 && ClockRuns(ticks, frame, last) && i + 1 < |Clocks(ticks)|
    ensures |Stamps(ticks, frame, last)| == |Clocks(ticks)| && Stamps(ticks, frame, last)[i] <= Clocks(ticks)[i + 1]
    decreases |ticks|
  {
    hide Phased;
    AsManyStamps(ticks, frame, last);
    if ticks[0].error != 0 {
      ClockPassesStamps(ticks[1..], frame, last, i);
    } else {
      var t := Phased(frame, last, Nanoseconds(ticks[0].clock));
      if i > 0 {
        ClockPassesStamps(ticks[1..], frame, t, i - 1);
      } else {
        FirstClock(ticks[1..], frame, t);
      }
    }
  }

  lemma {:induction false} FirstClock(ticks: seq<Tick>, frame: int, last: int)
    requires frame > 0 && ClockRuns(ticks, frame, last) && Clocks(ticks) != []
    ensures last <= Clocks(ticks)[0]
    decreases |ticks|
  {
    hide Phased;
    if ticks[0].error != 0 {
      FirstClock(ticks[1..], frame, last);
    }
  }

  lemma {:induction false} AsManyStamps(ticks: seq<Tick>, frame: int, last: int)
    requires frame > 0
    ensures |Stamps(ticks, frame, last)| == |Clocks(ticks)|
    decreases |ticks|
  {
    hide Phased;
    if ticks != [] {
      AsManyStamps(ticks[1..], frame,
                   if ticks[0].error != 0 then last else Phased(frame, last, Nanoseconds(ticks[0].clock)));
    }
  }

  /** After a controlVSync the phase starts anew, a frame behind the clock of the first sleep that works. */
  lemma {:induction false} PhaseRestarts(ticks: seq<Tick>, frame: int)
    requires frame > 0 && Clocks(ticks) != []
    ensures Stamps(ticks, frame, -1) != [] && Stamps(ticks, frame, -1)[0] == Clocks(ticks)[0] + frame
    decreases |ticks|
  {
    AsManyStamps(ticks, frame, -1);
    if ticks[0].error != 0 {
      PhaseRestarts(ticks[1..], frame);
    }
  }

  datatype VBlank = Interrupted | Failed | Replied(sec: nat, usec: nat)

  class VSyncWorker {
    var enabled: bool
    var lastTimestamp: int
    var refreshRate: nat
    var callback: bool     // whether one is registered

    constructor ()
      ensures Valid() && !enabled && lastTimestamp == -1 && refreshRate == 60 && !callback
    {
      enabled, lastTimestamp, refreshRate, callback := false, -1, 60, false;
    }

    /** The frame time is positive: above 10^9 Hz it is 0, and getPhasedVSync divides by it. */
    predicate Valid()
      reads this
    {
      0 < refreshRate <= ONE_SECOND_NS
    }

    function Frame(): (f: int)
      requires Valid()
      reads this
      ensures f > 0
    {
      ONE_SECOND_NS / refreshRate
    }

    /** As many frames as the refresh rate says fill a second, but for the fraction of a nanosecond that each
        one loses. */
    lemma FrameMeans()
      requires Valid()
      ensures refreshRate * Frame() <= 1_000_000_000 < refreshRate * (Frame() + 1)
    {
    }

    method Init(refresh: nat)
      requires Valid() && refresh <= ONE_SECOND_NS
      modifies this`refreshRate
      ensures Valid() && refreshRate == if refresh == 0 then old(refreshRate) else refresh
    {
      if refresh != 0 {
        refreshRate := refresh;
      }
    }

    method ControlVSync(enable: bool)
      modifies this`enabled, this`lastTimestamp
      ensures enabled == enable && lastTimestamp == -1
    {
      enabled, lastTimestamp := enable, -1;
    }

    method GetPhasedVSync(frame: int, current: int) returns (t: int)
      requires frame > 0
      ensures t == Phased(frame, lastTimestamp, current)
      ensures lastTimestamp >= 0 && current >= lastTimestamp ==> IsNext(frame, lastTimestamp, current, t)
    {
      if lastTimestamp < 0 {
        return current + frame;
      }
      PhasedIsNext(frame, lastTimestamp, current);
      t := frame * (Quotient(current - lastTimestamp, frame) + 1) + lastTimestamp;
    }

    method SyntheticWaitVBlank(tick: Tick) returns (ret: nat, timestamp: int, wake: Timespec)
      requires Valid()
      ensures ret == tick.error
      ensures wake == Split(Phased(Frame(), lastTimestamp, Nanoseconds(tick.clock)))
      ensures ret == 0 ==> timestamp == Phased(Frame(), lastTimestamp, Nanoseconds(tick.clock))
    {
      timestamp := -1;
      var phased := GetPhasedVSync(ONE_SECOND_NS / refreshRate, tick.clock.sec * ONE_SECOND_NS + tick.clock.nsec);
      var sec := Quotient(phased, ONE_SECOND_NS);
      wake := Timespec(sec, phased - sec * ONE_SECOND_NS);
      ret := tick.error;
      if ret != 0 {
        return;
      }
      timestamp := wake.sec * ONE_SECOND_NS + wake.nsec;
    }

    /** The part of routine after the wait, with what mEnabled says when the blank has come. */
    method Routine(vblank: VBlank, tick: Tick, stillEnabled: bool) returns (reported: Option<int>)
      requires Valid()
      modifies this`lastTimestamp
      ensures var stamp := match vblank
                case Interrupted => None
                case Failed => if tick.error != 0 then None
                               else Some(Phased(Frame(), old(lastTimestamp), Nanoseconds(tick.clock)))
                case Replied(sec, usec) => Some(sec * ONE_SECOND_NS + usec * 1000);
              if !enabled || stamp.None? then reported.None? && lastTimestamp == old(lastTimestamp)
              else lastTimestamp == stamp.value && reported == if callback && stillEnabled then stamp else None
    {
      reported := None;
      if !enabled || vblank.Interrupted? {
        return;
      }
      var timestamp;
      if vblank.Failed? {
        var ret, synthetic, _ := SyntheticWaitVBlank(tick);
        if ret != 0 {
          return;
        }
        timestamp := synthetic;
      } else {
        timestamp := vblank.sec * ONE_SECOND_NS + vblank.usec * 1000;
      }
      if callback && stillEnabled {
        reported := Some(timestamp);
      }
      lastTimestamp := timestamp;
    }

    /** A run without hardware blanks reports the stamps above. */
    method RunSynthetic(ticks: seq<Tick>) returns (stamps: seq<int>)
      requires Valid() && enabled && callback && ClockRuns(ticks, Frame(), lastTimestamp)
      modifies this`lastTimestamp
      ensures stamps == Stamps(ticks, Frame(), old(lastTimestamp))
      ensures lastTimestamp == if stamps == [] then old(lastTimestamp) else stamps[|stamps| - 1]
      ensures Steady(stamps, Clocks(ticks), Frame())
    {
      hide Steady, ClockRuns, Phased;
      stamps := [];
      StampsAreSteady(ticks, Frame(), lastTimestamp);
      for k := 0 to |ticks|
        invariant stamps + Stamps(ticks[k..], Frame(), lastTimestamp) == Stamps(ticks, Frame(), old(lastTimestamp))
        invariant lastTimestamp == if stamps == [] then old(lastTimestamp) else stamps[|stamps| - 1]
      {
        var stamp := Routine(Failed, ticks[k], true);
        assert ticks[k..][1..] == ticks[k + 1..];
        if stamp.Some? {
          stamps := stamps + [stamp.value];
        }
      }
    }

    /** controlVSync(true) and a run of synthetic blanks after it: the phase is a new one, that of a frame
        after the first reading of the clock, and every timestamp is the first in it after its own. */
    method Restart(ticks: seq<Tick>) returns (stamps: seq<int>)
      requires Valid() && callback && ClockRuns(ticks, Frame(), -1)
      modifies this`enabled, this`lastTimestamp
      ensures enabled && |stamps| == |Clocks(ticks)|
      ensures forall i :: 0 <= i < |stamps| ==>
                IsNext(Frame(), Clocks(ticks)[0] + Frame(), Clocks(ticks)[i], stamps[i])
      ensures lastTimestamp == if stamps == [] then -1 else stamps[|stamps| - 1]
      ensures Steady(stamps, Clocks(ticks), Frame())
    {
      hide Stamps, ClockRuns, Clocks, IsNext, Steady;
      ControlVSync(true);
      stamps := RunSynthetic(ticks);
      StampsAreNext(ticks, Frame(), -1);
      if stamps != [] {
        PhaseRestarts(ticks, Frame());
      }
    }
  }
}
