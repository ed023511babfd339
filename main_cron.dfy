/** The application loop of Core/Src/main.c: the tick-driven cron cascade
    of Cron_Handler, the event flags it raises and Flags_Handler, which
    drains them and reads the sensor once per `seconds` event. The SysTick
    COUNTFLAG that Cron_Handler samples is an input: one boolean per pass
    of the cascade. */
module Firmware {
  import opened Bmx280
  import opened Calibration
  import opened Compensation
  import opened Bmp280

  /** The bits of `_EREG_` the firmware names; their positions are defined
      in main.h, which is not part of this model, so every other bit is
      told apart by its number. */
  datatype EventFlag = U1RxF | SecF | DelayF | OtherFlag(bit: nat)

  datatype Option<T> = None | Some(value: T)

  /** What Flags_Handler prints after a sensor read. */
  datatype Reading = Reading(temperature: Int32, pressure: Uint32)

  /** The counters and thresholds one pass of the cascade reads and writes
      (Core/Src/main.c:15-26), with the event register. */
  datatype Cron = Cron(
    sysQuantum: Uint32, millis: Uint32, seconds: Uint32, minutes: Uint32,
    millisTmp: Uint32, secondsTmp: Uint32, minutesTmp: Uint32,
    flags: set<EventFlag>)

  /** The values the globals hold at reset. */
  const Boot: Cron := Cron(0, 0, 0, 0, 100, 1000, 60, {})

  /** uint32 addition. */
  function AddU32(a: Uint32, b: nat): Uint32 {
    (a + b) % 0x1_0000_0000
  }

  /** The first step of a pass (Core/Src/main.c:77-80): count the tick. */
  function TickStage(s: Cron, tick: bool): Cron {
    if tick then s.(sysQuantum := AddU32(s.sysQuantum, 1)) else s
  }

  /** The millisecond step (Core/Src/main.c:82-86): the next threshold is
      100 quanta after the current sysQuantum. */
  function MillisStage(s: Cron): Cron {
    if s.sysQuantum >= s.millisTmp
    then s.(millis := AddU32(s.millis, 1), millisTmp := AddU32(s.sysQuantum, 100))
    else s
  }

  /** The seconds step (Core/Src/main.c:88-92), which raises SecF as
      CronSeconds_Handler does (Core/Src/main.c:127-131). */
  function SecondsStage(s: Cron): Cron {
    if s.millis >= s.secondsTmp
    then s.(seconds := AddU32(s.seconds, 1), secondsTmp := AddU32(s.secondsTmp, 1000),
            flags := s.flags + {SecF})
    else s
  }

  /** The minutes step (Core/Src/main.c:94-98). */
  function MinutesStage(s: Cron): Cron {
    if s.seconds >= s.minutesTmp
    then s.(minutes := AddU32(s.minutes, 1), minutesTmp := AddU32(s.minutesTmp, 60))
    else s
  }

  /** One pass of Cron_Handler's body (Core/Src/main.c:76-98) with the tick
      flag `tick`: each stage sees what the previous one wrote. Every
      counter either stays or advances by one (modulo 2^32), and the only
      flag a pass can raise is SecF. */
  function Step(s: Cron, tick: bool): (r: Cron)
    ensures r.sysQuantum == AddU32(s.sysQuantum, if tick then 1 else 0)
    ensures r.millis == s.millis || r.millis == AddU32(s.millis, 1)
    ensures r.seconds == s.seconds || r.seconds == AddU32(s.seconds, 1)
    ensures r.minutes == s.minutes || r.minutes == AddU32(s.minutes, 1)
    ensures s.flags <= r.flags <= s.flags + {SecF}
  {
    MinutesStage(SecondsStage(MillisStage(TickStage(s, tick))))
  }

  /** The passes of the cascade over the tick flags `ticks`, in order.
      Flags only accumulate over a run: SecF, once raised, stays, and no
      other flag is raised. */
  function Run(s: Cron, ticks: seq<bool>): (r: Cron)
    ensures s.flags <= r.flags <= s.flags + {SecF}
    decreases |ticks|
  {
    if |ticks| == 0 then s
    else Step(Run(s, ticks[..|ticks| - 1]), ticks[|ticks| - 1])
  }

  /** The run over the first n + 1 tick flags is one more pass after the
      run over the first n. */
  lemma RunSnoc(s: Cron, ticks: seq<bool>, n: nat)
    requires n < |ticks|
    ensures Run(s, ticks[..n + 1]) == Step(Run(s, ticks[..n]), ticks[n])
  {
    assert ticks[..n + 1][..n] == ticks[..n];
  }

  /** Every run over the first k tick flags, 1 <= k < n, ends with
      sysQuantum below d. */
  ghost predicate SpinsBelow(s: Cron, ticks: seq<bool>, d: int, n: nat)
    requires n <= |ticks|
  {
    forall k :: 1 <= k < n ==> Run(s, ticks[..k]).sysQuantum < d
  }

  lemma SpinsBelowExtend(s: Cron, ticks: seq<bool>, d: int, n: nat)
    requires n < |ticks| && SpinsBelow(s, ticks, d, n)
    requires Run(s, ticks[..n]).sysQuantum < d
    ensures SpinsBelow(s, ticks, d, n + 1)
  {
  }

  /** Number of passes that saw the tick flag set. */
  function CountTicks(ticks: seq<bool>): (n: nat)
    ensures n <= |ticks|
    decreases |ticks|
  {
    if |ticks| == 0 then 0
    else CountTicks(ticks[..|ticks| - 1]) + (if ticks[|ticks| - 1] then 1 else 0)
  }

  /** Each counter is the quotient of the one below it, and each threshold
      is the next multiple at which the counter above will move. */
  predicate MillisLevel(s: Cron) {
    s.millis == s.sysQuantum / 100 && s.millisTmp == 100 * (s.millis + 1)
  }

  predicate SecondsLevel(s: Cron) {
    s.seconds == s.millis / 1000 && s.secondsTmp == 1000 * (s.seconds + 1)
  }

  predicate MinutesLevel(s: Cron) {
    s.minutes == s.seconds / 60 && s.minutesTmp == 60 * (s.minutes + 1)
  }

  predicate Cascade(s: Cron) {
    MillisLevel(s) && SecondsLevel(s) && MinutesLevel(s)
  }

  /** Below this value of sysQuantum no uint32 in the cascade wraps. */
  const NoWrapBound: nat := 0xFFFF_FF00

  lemma BootCascade()
    ensures Cascade(Boot)
  {
  }

  /** One pass moves sysQuantum by exactly one when the tick flag is set
      and leaves it alone otherwise. */
  lemma StepTicks(s: Cron, tick: bool)
    requires s.sysQuantum < 0xFFFF_FFFF
    ensures Step(s, tick).sysQuantum == s.sysQuantum + (if tick then 1 else 0)
  {
  }

  /** Near the end of sysQuantum's range the millisecond threshold
      `sysQuantum + 100` (Core/Src/main.c:84) wraps to a small value. From
      then until sysQuantum itself wraps, every pass counts a millisecond,
      ticked or not, and the threshold stays wrapped. */
  lemma WrappedThresholdCountsEveryPass(s: Cron, tick: bool)
    requires 0xFFFF_FF9C <= s.sysQuantum && s.millisTmp < 100
    requires tick ==> s.sysQuantum < 0xFFFF_FFFF
    ensures Step(s, tick).millis == AddU32(s.millis, 1)
    ensures 0xFFFF_FF9C <= Step(s, tick).sysQuantum
    ensures Step(s, tick).millisTmp < 100
  {
    var t := TickStage(s, tick);
    assert t.sysQuantum >= s.millisTmp;
    var m := MillisStage(t);
    assert m.millis == AddU32(s.millis, 1) && m.millisTmp < 100;
  }

  /** The threshold wraps on the pass that counts a millisecond at
      sysQuantum 4294967200: it becomes 4. */
  lemma ThresholdWrapsAtEnd(s: Cron)
    requires s.sysQuantum == 4294967199 && s.millisTmp == 4294967200
    ensures Step(s, true).millisTmp == 4
    ensures Step(s, true).millis == AddU32(s.millis, 1)
  {
  }

  /** The quotient of a counter that grew by at most one by k either stays
      or grows by one, exactly when the counter reaches the next multiple
      of k. */
  lemma {:induction false} NextQuotient(x: nat, x': nat, q: nat, k: nat)
    requires k > 0 && q == x / k && (x' == x || x' == x + 1)
    ensures k * q <= x
    ensures x' >= k * (q + 1) ==> x' == k * (q + 1) && x' / k == q + 1
    ensures x' < k * (q + 1) ==> x' / k == q
  {
    var r := x - k * q;
    assert x == k * q + x % k;
    assert 0 <= r < k;
    if x' >= k * (q + 1) {
      DivUnique(x', k, q + 1, 0);
    } else {
      DivUnique(x', k, q, x' - k * q);
    }
  }

  /** The millisecond stage after sysQuantum moved from x0 by at most one:
      millis follows sysQuantum / 100 and moves by at most one. */
  lemma MillisStageStep(t: Cron, x0: nat)
    requires t.sysQuantum <= NoWrapBound && (t.sysQuantum == x0 || t.sysQuantum == x0 + 1)
    requires t.millis == x0 / 100 && t.millisTmp == 100 * (t.millis + 1)
    ensures var u := MillisStage(t);
      MillisLevel(u) && (u.millis == t.millis || u.millis == t.millis + 1)
      && u.millis <= NoWrapBound / 100
  {
    NextQuotient(x0, t.sysQuantum, t.millis, 100);
  }

  /** The seconds stage after millis moved from x0 by at most one. */
  lemma SecondsStageStep(t: Cron, x0: nat)
    requires t.millis <= NoWrapBound / 100 && (t.millis == x0 || t.millis == x0 + 1)
    requires t.seconds == x0 / 1000 && t.secondsTmp == 1000 * (t.seconds + 1)
    ensures SecondsLevel(SecondsStage(t))
    ensures SecondsStage(t).seconds == t.seconds || SecondsStage(t).seconds == t.seconds + 1
    ensures SecondsStage(t).seconds <= NoWrapBound / 100
  {
    NextQuotient(x0, t.millis, t.seconds, 1000);
  }

  /** The minutes stage after seconds moved from x0 by at most one. */
  lemma MinutesStageStep(t: Cron, x0: nat)
    requires t.seconds <= NoWrapBound / 100 && (t.seconds == x0 || t.seconds == x0 + 1)
    requires t.minutes == x0 / 60 && t.minutesTmp == 60 * (t.minutes + 1)
    ensures var u := MinutesStage(t);
      MinutesLevel(u) && (u.minutes == t.minutes || u.minutes == t.minutes + 1)
  {
    NextQuotient(x0, t.seconds, t.minutes, 60);
  }

  /** The three stages of a pass, each moving its counter by at most one and
      keeping its level of the cascade. */
  lemma {:induction false} StagesStep(s: Cron, tick: bool)
    requires Cascade(s) && s.sysQuantum < NoWrapBound
    ensures var t0 := TickStage(s, tick);
      var t1 := MillisStage(t0);
      var t2 := SecondsStage(t1);
      var t3 := MinutesStage(t2);
      && t0.sysQuantum == s.sysQuantum + (if tick then 1 else 0)
      && MillisLevel(t1) && (t1.millis == s.millis || t1.millis == s.millis + 1)
      && SecondsLevel(t2) && (t2.seconds == s.seconds || t2.seconds == s.seconds + 1)
      && MinutesLevel(t3) && (t3.minutes == s.minutes || t3.minutes == s.minutes + 1)
  {
    var t0 := TickStage(s, tick);
    MillisStageStep(t0, s.sysQuantum);
    var t1 := MillisStage(t0);
    SecondsStageStep(t1, s.millis);
    var t2 := SecondsStage(t1);
    MinutesStageStep(t2, s.seconds);
  }

  /** Every pass keeps the quotient relations of the cascade, as long as
      sysQuantum has not reached the wrap-around region. */
  lemma {:induction false} StepPreservesCascade(s: Cron, tick: bool)
    requires Cascade(s) && s.sysQuantum < NoWrapBound
    ensures Cascade(Step(s, tick))
  {
    StagesStep(s, tick);
  }

  /** All four counters are non-decreasing and move by at most one per
      pass, and SecF is raised exactly on the passes that move `seconds`;
      no other flag changes. */
  lemma {:induction false} StepMonotone(s: Cron, tick: bool)
    requires Cascade(s) && s.sysQuantum < NoWrapBound
    ensures var r := Step(s, tick);
      && (r.sysQuantum == s.sysQuantum || r.sysQuantum == s.sysQuantum + 1)
      && (r.millis == s.millis || r.millis == s.millis + 1)
      && (r.seconds == s.seconds || r.seconds == s.seconds + 1)
      && (r.minutes == s.minutes || r.minutes == s.minutes + 1)
      && (r.seconds != s.seconds ==> r.flags == s.flags + {SecF})
      && (r.seconds == s.seconds ==> r.flags == s.flags)
  {
    StagesStep(s, tick);
  }

  lemma {:induction false} NestedQuotient(x: nat, a: nat, b: nat)
    requires a > 0 && b > 0
    ensures (x / a) / b == x / (a * b)
  {
    var q, r := x / a, x % a;
    var q2, r2 := q / b, q % b;
    assert x == a * q + r;
    assert q == b * q2 + r2;
    assert a * q == a * (b * q2) + a * r2;
    assert a * (b * q2) == (a * b) * q2;
    assert a * r2 + r < a * b by {
      MulMono(a, r2, b - 1);
      assert a * (b - 1) == a * b - a;
    }
    DivUnique(x, a * b, q2, a * r2 + r);
  }

  lemma MulMono(a: nat, x: nat, y: nat)
    requires x <= y
    ensures a * x <= a * y
  {
    assert a * y == a * x + a * (y - x);
  }

  /** From reset, after any run of passes that does not reach the
      wrap-around region, sysQuantum counts the ticks and the cascade holds:
      millis, seconds and minutes are the tick count divided by 100,
      100000 and 6000000. */
  lemma {:induction false} RunFromBoot(ticks: seq<bool>)
    requires |ticks| <= NoWrapBound
    ensures var r := Run(Boot, ticks);
      && r.sysQuantum == CountTicks(ticks) && Cascade(r)
      && r.seconds == CountTicks(ticks) / 100_000
      && r.minutes == CountTicks(ticks) / 6_000_000
    decreases |ticks|
  {
    if |ticks| != 0 {
      var init := ticks[..|ticks| - 1];
      RunFromBoot(init);
      StepTicks(Run(Boot, init), ticks[|ticks| - 1]);
      StepPreservesCascade(Run(Boot, init), ticks[|ticks| - 1]);
    }
    var r := Run(Boot, ticks);
    NestedQuotient(r.sysQuantum, 100, 1000);
    NestedQuotient(r.sysQuantum, 100_000, 60);
  }

  /** Passes with the tick flag always set. */
  lemma {:induction false} CountAllTicks(ticks: seq<bool>)
    requires forall i :: 0 <= i < |ticks| ==> ticks[i]
    ensures CountTicks(ticks) == |ticks|
    decreases |ticks|
  {
    if |ticks| != 0 {
      CountAllTicks(ticks[..|ticks| - 1]);
    }
  }

  /** 100 ticked passes from reset give the first `millis`; 100000 give
      millis 1000 and the first `seconds`, with SecF raised, and still no
      `minutes`. */
  lemma CadenceFromBoot()
    ensures Run(Boot, seq(100, _ => true)).millis == 1
    ensures var r := Run(Boot, seq(100_000, _ => true));
      r.millis == 1000 && r.seconds == 1 && r.minutes == 0
    ensures Run(Boot, seq(99_999, _ => true)).seconds == 0
  {
    CountAllTicks(seq(100, _ => true));
    RunFromBoot(seq(100, _ => true));
    CountAllTicks(seq(100_000, _ => true));
    RunFromBoot(seq(100_000, _ => true));
    CountAllTicks(seq(99_999, _ => true));
    RunFromBoot(seq(99_999, _ => true));
  }

  /** Without wrap-around, sysQuantum grows by the number of ticked passes. */
  lemma {:induction false} RunCountsTicks(s: Cron, ticks: seq<bool>)
    requires s.sysQuantum + |ticks| < 0x1_0000_0000
    ensures Run(s, ticks).sysQuantum == s.sysQuantum + CountTicks(ticks)
    decreases |ticks|
  {
    if |ticks| != 0 {
      var init := ticks[..|ticks| - 1];
      RunCountsTicks(s, init);
      StepTicks(Run(s, init), ticks[|ticks| - 1]);
    }
  }

  /** With every tick present, the spin of Cron_Handler towards a delay
      target d ends on the first pass k >= 1 with sysQuantum + k >= d, so a
      delay takes max(1, d - sysQuantum) passes. */
  lemma DelaySpinLength(s: Cron, ticks: seq<bool>, d: int)
    requires forall i :: 0 <= i < |ticks| ==> ticks[i]
    requires s.sysQuantum + |ticks| < 0x1_0000_0000
    ensures forall k :: 1 <= k <= |ticks| ==>
      (Run(s, ticks[..k]).sysQuantum >= d <==> k >= d - s.sysQuantum)
  {
    forall k | 1 <= k <= |ticks|
      ensures Run(s, ticks[..k]).sysQuantum == s.sysQuantum + k
    {
      RunCountsTicks(s, ticks[..k]);
      CountAllTicks(ticks[..k]);
    }
  }

  /** The globals of Core/Src/main.c:15-28 and the sensor driver they
      drive. */
  class Firmware {
    var sysQuantum: Uint32
    var millis: Uint32
    var seconds: Uint32
    var minutes: Uint32
    var eventFlags: set<EventFlag>
    var delayTmp: Uint32
    var millisTmp: Uint32
    var secondsTmp: Uint32
    var minutesTmp: Uint32
    var bmp280Status: bool
    const sensor: Driver

    function State(): Cron
      reads this
    {
      Cron(sysQuantum, millis, seconds, minutes, millisTmp, secondsTmp, minutesTmp, eventFlags)
    }

    /** The reset values of the globals. */
    constructor (sensor: Driver)
      ensures State() == Boot && delayTmp == 0 && !bmp280Status && this.sensor == sensor
    {
      sysQuantum, millis, seconds, minutes := 0, 0, 0, 0;
      eventFlags := {};
      delayTmp := 0;
      millisTmp, secondsTmp, minutesTmp := 100, 1000, 60;
      bmp280Status := false;
      this.sensor := sensor;
    }

    /** main's sensor start-up (Core/Src/main.c:55-57): the status is set
        when BMP280_Init recognises the sensor. */
    method StartSensor(idReply: bv8, calibReply: seq<bv8>)
      requires sensor.Valid() && |calibReply| == CalibReadLength
      modifies this`bmp280Status, sensor
      ensures sensor.Valid() && sensor.dataBuf == old(sensor.dataBuf)
      ensures bmp280Status <==> old(bmp280Status) || IsSupportedId(idReply)
      ensures sensor.calib == if IsSupportedId(idReply)
        then Decode(calibReply[..CalibLength]) else old(sensor.calib)
      ensures sensor.id == idReply && !sensor.lock
      ensures sensor.trace == old(sensor.trace) + InitEvents(idReply)
      ensures sensor.tFine == old(sensor.tFine) && sensor.temperature == old(sensor.temperature)
      ensures sensor.pressure == old(sensor.pressure)
      ensures sensor.dataBuf[..] == old(sensor.dataBuf[..])
    {
      var ok := sensor.Init(idReply, calibReply);
      if ok {
        bmp280Status := true;
      }
    }

    /** CronSeconds_Handler (Core/Src/main.c:127-131): raises SecF; the
        watchdog reload is not modelled. */
    method CronSecondsHandler()
      modifies this`eventFlags
      ensures eventFlags == old(eventFlags) + {SecF}
    {
      eventFlags := eventFlags + {SecF};
    }

    /** One pass of the cascade, updating the globals in place. */
    method CronPass(tick: bool)
      modifies this`sysQuantum, this`millis, this`seconds, this`minutes
      modifies this`millisTmp, this`secondsTmp, this`minutesTmp, this`eventFlags
      ensures State() == Step(old(State()), tick)
    {
      ghost var s0 := State();
      if tick {
        sysQuantum := AddU32(sysQuantum, 1);
      }
      assert State() == TickStage(s0, tick);
      if sysQuantum >= millisTmp {
        millis := AddU32(millis, 1);
        millisTmp := AddU32(sysQuantum, 100);
      }
      assert State() == MillisStage(TickStage(s0, tick));
      if millis >= secondsTmp {
        seconds := AddU32(seconds, 1);
        secondsTmp := AddU32(secondsTmp, 1000);
        CronSecondsHandler();
      }
      assert State() == SecondsStage(MillisStage(TickStage(s0, tick)));
      if seconds >= minutesTmp {
        minutes := AddU32(minutes, 1);
        minutesTmp := AddU32(minutesTmp, 60);
      }
    }

    /** Cron_Handler (Core/Src/main.c:75-106): passes of the cascade, one
        per element of `ticks`, until a pass ends with sysQuantum at or
        past delay_tmp; then delay_tmp and DelayF are cleared whatever was
        requested. Returns the number of passes. The caller guarantees
        that the ticks it supplies are enough for the spin to end. */
    method CronHandler(ticks: seq<bool>) returns (passes: nat)
      requires exists k :: 1 <= k <= |ticks| && Run(State(), ticks[..k]).sysQuantum >= delayTmp
      modifies this`sysQuantum, this`millis, this`seconds, this`minutes
      modifies this`millisTmp, this`secondsTmp, this`minutesTmp, this`eventFlags, this`delayTmp
      ensures 1 <= passes <= |ticks|
      ensures Run(old(State()), ticks[..passes]).sysQuantum >= old(delayTmp)
      ensures forall k :: 1 <= k < passes ==> Run(old(State()), ticks[..k]).sysQuantum < old(delayTmp)
      ensures var r := Run(old(State()), ticks[..passes]);
        State() == r.(flags := r.flags - {DelayF})
      ensures delayTmp == 0 && DelayF !in eventFlags
    {
      ghost var s0 := State();
      ghost var d0 := delayTmp;
      ghost var k0 :| 1 <= k0 <= |ticks| && Run(s0, ticks[..k0]).sysQuantum >= d0;
      RunSnoc(s0, ticks, 0);
      CronPass(ticks[0]);
      passes := 1;
      while sysQuantum < delayTmp
        invariant 1 <= passes <= k0
        invariant State() == Run(s0, ticks[..passes])
        invariant delayTmp == d0
        invariant SpinsBelow(s0, ticks, d0, passes)
        decreases k0 - passes
      {
        assert Run(s0, ticks[..passes]).sysQuantum < d0;
        assert passes < k0;
        SpinsBelowExtend(s0, ticks, d0, passes);
        RunSnoc(s0, ticks, passes);
        ghost var next := Run(s0, ticks[..passes + 1]);
        assert next == Step(State(), ticks[passes]);
        CronPass(ticks[passes]);
        assert State() == next;
        passes := passes + 1;
      }
      delayTmp := 0;
      eventFlags := eventFlags - {DelayF};
    }

    /** The measurement of Flags_Handler (Core/Src/main.c:156-157):
        BMP280_ReadT, which takes a fresh measurement, then BMP280_ReadP on
        the same burst. */
    method Sample(status: seq<bv8>, burst: seq<bv8>) returns (reading: Reading)
      requires sensor.Valid() && SensorCompletes(status) && |burst| == 6
      modifies sensor, sensor.dataBuf
      ensures sensor.Valid() && sensor.dataBuf == old(sensor.dataBuf)
      ensures sensor.State() == AfterSample(old(sensor.State()), burst)
      ensures sensor.trace == old(sensor.trace) + ReadEvents(status)
      ensures reading == Reading(sensor.temperature, sensor.pressure)
    {
      var t := sensor.ReadT(status, burst);
      var p := sensor.ReadP();
      reading := Reading(t, p);
    }

    /** The seconds-event block of Flags_Handler (Core/Src/main.c:153-162):
        on SecF with a recognised sensor, sample it; clear SecF. */
    method SecondsEvent(status: seq<bv8>, burst: seq<bv8>) returns (reading: Option<Reading>)
      requires sensor.Valid() && SensorCompletes(status) && |burst| == 6
      modifies this`eventFlags, sensor, sensor.dataBuf
      ensures eventFlags == old(eventFlags) - {SecF}
      ensures sensor.Valid() && sensor.dataBuf == old(sensor.dataBuf)
      ensures reading.Some? <==> SecF in old(eventFlags) && bmp280Status
      ensures reading.None? ==> unchanged(sensor) && unchanged(sensor.dataBuf)
      ensures reading.Some? ==>
        && sensor.State() == AfterSample(old(sensor.State()), burst)
        && sensor.trace == old(sensor.trace) + ReadEvents(status)
        && reading.value == Reading(sensor.temperature, sensor.pressure)
    {
      reading := None;
      if SecF in eventFlags {
        if bmp280Status {
          var sample := Sample(status, burst);
          reading := Some(sample);
        }
        eventFlags := eventFlags - {SecF};
      }
    }

    /** Flags_Handler (Core/Src/main.c:147-163): drains U1RxF (the USART
        handler is not modelled) and then handles the seconds event; it
        returns what it prints. Other flags stay. */
    method FlagsHandler(status: seq<bv8>, burst: seq<bv8>) returns (reading: Option<Reading>)
      requires sensor.Valid() && SensorCompletes(status) && |burst| == 6
      modifies this`eventFlags, sensor, sensor.dataBuf
      ensures eventFlags == old(eventFlags) - {U1RxF, SecF}
      ensures sensor.Valid() && sensor.dataBuf == old(sensor.dataBuf)
      ensures reading.Some? <==> SecF in old(eventFlags) && bmp280Status
      ensures reading.None? ==> unchanged(sensor) && unchanged(sensor.dataBuf)
      ensures reading.Some? ==>
        && sensor.State() == AfterSample(old(sensor.State()), burst)
        && sensor.trace == old(sensor.trace) + ReadEvents(status)
        && reading.value == Reading(sensor.temperature, sensor.pressure)
    {
      if U1RxF in eventFlags {
        eventFlags := eventFlags - {U1RxF};
      }
      reading := SecondsEvent(status, burst);
    }
  }
}
