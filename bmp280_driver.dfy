/** The BMP280/BME280 driver of Core/Src/bmp280.c: its module state (the
    shared transfer buffer, the last fine temperature, the last readings
    and the `bmx280` descriptor with its bus lock) and the operations that
    talk to the sensor. The sensor itself is an oracle: what it answers on
    the bus is passed in as arguments. Each bus transaction and each change
    of the lock is appended to a ghost trace, so that the order of events
    can be stated. */
module Bmp280 {
  import opened Bmx280
  import opened Calibration
  import opened Compensation
  import Transport

  /** One observable step of the driver: the lock taken or released, a read
      transaction from a register address, or a frame written. */
  datatype BusEvent =
    | Lock(held: bool)
    | ReadTx(addr: bv8, count: nat)
    | WriteTx(frame: seq<bv8>)

  /** The 20-bit raw reading packed in the three bytes msb, lsb, xlsb
      (Core/Src/bmp280.c:180, 200): the low nibble of xlsb is dropped. */
  function RawAdc(msb: bv8, lsb: bv8, xlsb: bv8): (r: Int32)
    ensures 0 <= r < 0x10_0000
    ensures r == (msb as int * 0x1_0000 + lsb as int * 0x100 + xlsb as int) / 16
  {
    ((((msb as bv32) << 16) | ((lsb as bv32) << 8) | (xlsb as bv32)) >> 4) as int
  }

  /** The four low bits of xlsb never reach the reading. */
  lemma RawAdcIgnoresLowNibble(msb: bv8, lsb: bv8, xlsb: bv8)
    ensures RawAdc(msb, lsb, xlsb) == RawAdc(msb, lsb, xlsb & 0xF0)
    ensures RawAdc(msb, lsb, xlsb) % 16 == (xlsb >> 4) as int
  {
  }

  /** Number of status reads that still answer `Measuring` before the
      first one that ends the polling loop of BMP280_Read
      (Core/Src/bmp280.c:132-136). The loop compares the whole status byte
      with 0x08, so any other byte ends it. */
  function PollsUntilDone(status: seq<bv8>): (n: nat)
    ensures n <= |status|
    ensures forall j :: 0 <= j < n ==> status[j] == Measuring
    ensures n < |status| ==> status[n] != Measuring
  {
    if |status| == 0 || status[0] != Measuring then 0
    else 1 + PollsUntilDone(status[1..])
  }

  /** The sensor answers something other than `Measuring` within the
      status bytes it is given. */
  predicate SensorCompletes(status: seq<bv8>) {
    PollsUntilDone(status) < |status|
  }

  /** The k-th status read, for k up to the last one, answers `Measuring`
      exactly when another read follows. */
  lemma PollStep(status: seq<bv8>, k: nat)
    requires k <= PollsUntilDone(status) < |status|
    ensures status[k] == Measuring <==> k < PollsUntilDone(status)
  {
  }

  /** A status byte with the measuring bit set and another bit set as well
      still ends the polling loop. */
  lemma PollEndsOnAnyOtherByte()
    ensures PollsUntilDone([0x09]) == 0
    ensures PollsUntilDone([Measuring, Measuring, 0x00]) == 2
  {
    assert [Measuring, Measuring, 0x00][1..] == [Measuring, 0x00];
    assert [Measuring, 0x00][1..] == [0x00];
    assert PollsUntilDone([0x00]) == 0;
    assert PollsUntilDone([Measuring, 0x00]) == 1;
  }

  /** The status reads of `n` polling passes. */
  function PollEvents(n: nat): (ev: seq<BusEvent>)
    ensures |ev| == n
    ensures forall i :: 0 <= i < n ==> ev[i] == ReadTx(StatusSensor, 1)
  {
    if n == 0 then [] else PollEvents(n - 1) + [ReadTx(StatusSensor, 1)]
  }

  /** The events of BMP280_Write (Core/Src/bmp280.c:154-164). */
  function WriteEvents(cmd: bv8, data: bv8): seq<BusEvent> {
    [Lock(true), WriteTx([WriteCommand(cmd), data]), Lock(false)]
  }

  /** The events of BMP280_Read (Core/Src/bmp280.c:127-143) when the sensor
      answers the status reads with `status`: the lock, the nested write's
      three events, one status read per `Measuring` answer and one more,
      the data burst and the release. */
  function ReadEvents(status: seq<bv8>): (ev: seq<BusEvent>)
    ensures |ev| == PollsUntilDone(status) + 7
    ensures ev[0] == Lock(true) && ev[|ev| - 1] == Lock(false)
    ensures ev[|ev| - 2] == ReadTx(CollectData, 6)
    ensures forall i :: 4 <= i < |ev| - 2 ==> ev[i] == ReadTx(StatusSensor, 1)
  {
    [Lock(true)] + WriteEvents(CtrlMeasure, ForcedCtrlMeas)
    + PollEvents(PollsUntilDone(status) + 1)
    + [ReadTx(CollectData, 6), Lock(false)]
  }

  /** The events of BMP280_Init (Core/Src/bmp280.c:51-111) when the sensor
      answers the ID read with `idReply`: the calibration block is read
      only from a recognised sensor. */
  function InitEvents(idReply: bv8): seq<BusEvent> {
    [Lock(true), ReadTx(SensorID, 1)]
    + (if IsSupportedId(idReply) then [ReadTx(Calib1, CalibReadLength)] else [])
    + [Lock(false)]
  }

  /** The lock's value after `events`, starting from `held`. */
  function LockAfter(held: bool, events: seq<BusEvent>): bool
    decreases |events|
  {
    if |events| == 0 then held
    else LockAfter(if events[0].Lock? then events[0].held else held, events[1..])
  }

  lemma LockAfterOne(held: bool, e: BusEvent)
    ensures LockAfter(held, [e]) == if e.Lock? then e.held else held
  {
    assert [e][1..] == [];
  }

  lemma {:induction false} LockAfterAppend(held: bool, a: seq<BusEvent>, b: seq<BusEvent>)
    ensures LockAfter(held, a + b) == LockAfter(LockAfter(held, a), b)
    decreases |a|
  {
    if |a| == 0 {
      assert a + b == b;
    } else {
      assert (a + b)[0] == a[0];
      assert (a + b)[1..] == a[1..] + b;
      LockAfterAppend(if a[0].Lock? then a[0].held else held, a[1..], b);
    }
  }

  /** Status reads leave the lock as it was. */
  lemma {:induction false} PollsKeepLock(held: bool, n: nat)
    ensures LockAfter(held, PollEvents(n)) == held
  {
    if n != 0 {
      PollsKeepLock(held, n - 1);
      LockAfterAppend(held, PollEvents(n - 1), [ReadTx(StatusSensor, 1)]);
      LockAfterOne(held, ReadTx(StatusSensor, 1));
    }
  }

  lemma {:induction false} PrefixOfPolls(n: nat, k: nat)
    requires k <= n
    ensures PollEvents(n)[..k] == PollEvents(k)
  {
    if k < n {
      PrefixOfPolls(n - 1, k);
      assert PollEvents(n)[..k] == PollEvents(n - 1)[..k];
    } else {
      assert PollEvents(n)[..k] == PollEvents(n);
    }
  }

  /** The first four events of BMP280_Read: its own lock, then the events
      of the nested BMP280_Write. */
  const ReadHead: seq<BusEvent> :=
    [Lock(true), Lock(true), WriteTx([WriteCommand(CtrlMeasure), ForcedCtrlMeas]), Lock(false)]

  lemma ReadEventsShape(status: seq<bv8>)
    ensures ReadEvents(status)
      == ReadHead + PollEvents(PollsUntilDone(status) + 1) + [ReadTx(CollectData, 6), Lock(false)]
  {
  }

  lemma HeadReleases()
    ensures LockAfter(false, ReadHead[..2]) && !LockAfter(false, ReadHead)
  {
    assert ReadHead[..2] == [Lock(true)] + [Lock(true)];
    LockAfterAppend(false, [Lock(true)], [Lock(true)]);
    LockAfterOne(false, Lock(true));
    LockAfterOne(true, Lock(true));
    assert ReadHead == ReadHead[..3] + [Lock(false)];
    LockAfterAppend(false, ReadHead[..3], [Lock(false)]);
    LockAfterOne(LockAfter(false, ReadHead[..3]), Lock(false));
  }

  lemma ReleasedAfterPolls(k: nat)
    ensures !LockAfter(false, ReadHead + PollEvents(k))
  {
    HeadReleases();
    LockAfterAppend(false, ReadHead, PollEvents(k));
    PollsKeepLock(false, k);
  }

  /** Before each read transaction of BMP280_Read the lock is released. */
  lemma {:induction false} UnlockedBeforeRead(status: seq<bv8>, i: nat)
    requires i < |ReadEvents(status)| && ReadEvents(status)[i].ReadTx?
    ensures !LockAfter(false, ReadEvents(status)[..i])
  {
    var n := PollsUntilDone(status) + 1;
    var ev := ReadEvents(status);
    var front := ReadHead + PollEvents(n);
    ReadEventsShape(status);
    assert ev == front + [ReadTx(CollectData, 6), Lock(false)];
    assert ev[..|front|] == front;
    assert ev[|ev| - 1] == Lock(false);
    assert ev[0] == ReadHead[0] && ev[1] == ReadHead[1];
    assert ev[2] == ReadHead[2] && ev[3] == ReadHead[3];
    assert ev[..i] == front[..i];
    PrefixOfAppend(ReadHead, PollEvents(n), i);
    if i < 4 + n {
      PrefixOfPolls(n, i - 4);
      ReleasedAfterPolls(i - 4);
    } else {
      ReleasedAfterPolls(n);
    }
  }

  lemma PrefixOfAppend<T>(a: seq<T>, b: seq<T>, k: nat)
    requires |a| <= k <= |a| + |b|
    ensures (a + b)[..k] == a + b[..k - |a|]
  {
  }

  /** BMP280_Read takes the lock, but the nested BMP280_Write releases it
      (Core/Src/bmp280.c:128, 130, 163): the configuration frame goes out
      with the lock held, while every status read and the burst read of the
      measurement happen with it released, and the lock is free at the
      end. */
  lemma {:induction false} ReadTrafficUnlocked(status: seq<bv8>)
    ensures var ev := ReadEvents(status);
      ev[2].WriteTx? && LockAfter(false, ev[..2])
      && (forall i :: 0 <= i < |ev| && ev[i].ReadTx? ==> !LockAfter(false, ev[..i]))
      && !LockAfter(false, ev)
  {
    var ev := ReadEvents(status);
    var n := PollsUntilDone(status) + 1;
    ReadEventsShape(status);
    HeadReleases();
    assert ev[..2] == ReadHead[..2];
    forall i | 0 <= i < |ev| && ev[i].ReadTx?
      ensures !LockAfter(false, ev[..i])
    {
      UnlockedBeforeRead(status, i);
    }
    var body := ReadHead + PollEvents(n) + [ReadTx(CollectData, 6)];
    assert ev == body + [Lock(false)];
    LockAfterAppend(false, body, [Lock(false)]);
    LockAfterOne(LockAfter(false, body), Lock(false));
  }

  /** The driver's state as a value: every field but the ghost trace, with
      the contents of dataBuf. */
  datatype DriverState = DriverState(
    lock: bool, id: bv8, calib: Calib, buf: seq<bv8>,
    tFine: Int32, temperature: Int32, pressure: Uint32)

  /** The state after BMP280_ReadT when the sensor delivers `burst`: the
      burst lands in the first six bytes of dataBuf, the lock is free, and
      temperature and t_fine are compensated from the temperature bytes. */
  function AfterReadT(s: DriverState, burst: seq<bv8>): DriverState
    requires |burst| == 6 && |s.buf| == 8
  {
    var r := CompensateT(RawAdc(burst[3], burst[4], burst[5]), s.calib);
    s.(lock := false, buf := burst + s.buf[6..], tFine := r.tFine, temperature := r.t)
  }

  /** The state after BMP280_ReadP: while t_fine is non-zero the pressure
      is compensated from the pressure bytes of dataBuf; a zero t_fine
      keeps the previous pressure. */
  function AfterReadP(s: DriverState): DriverState
    requires |s.buf| >= 3
  {
    if s.tFine != 0
    then s.(pressure := CompensateP(RawAdc(s.buf[0], s.buf[1], s.buf[2]), s.tFine, s.calib))
    else s
  }

  /** The state after BMP280_ReadT and then BMP280_ReadP. */
  function AfterSample(s: DriverState, burst: seq<bv8>): DriverState
    requires |burst| == 6 && |s.buf| == 8
  {
    AfterReadP(AfterReadT(s, burst))
  }

  /** The t_fine gate of BMP280_ReadP (Core/Src/bmp280.c:199) also fires
      on a genuine reading: with the datasheet trimming values a burst whose
      temperature is 0.00 degC leaves t_fine == 0, so the sample keeps the
      previous pressure instead of compensating the new pressure bytes. */
  lemma FreezingKeepsPressure(s: DriverState, burst: seq<bv8>)
    requires |burst| == 6 && |s.buf| == 8 && s.calib == DatasheetCalib
    requires 440064 <= RawAdc(burst[3], burst[4], burst[5]) < 440072
    ensures AfterSample(s, burst).temperature == 0
    ensures AfterSample(s, burst).tFine == 0
    ensures AfterSample(s, burst).pressure == s.pressure
    ensures AfterSample(s, burst).buf[..6] == burst
  {
    DatasheetZeroTFine(RawAdc(burst[3], burst[4], burst[5]));
  }

  /** The driver's module state (Core/Src/bmp280.c:16-23) together with the
      `bmx280` descriptor of Core/Inc/bmx280.h. */
  class Driver {
    var lock: bool
    var id: bv8
    var calib: Calib
    var dataBuf: array<bv8>
    var tFine: Int32
    var temperature: Int32
    var pressure: Uint32
    ghost var trace: seq<BusEvent>

    ghost predicate Valid()
      reads this
    {
      dataBuf.Length == 8 && ValidCalib(calib)
    }

    function State(): DriverState
      reads this, dataBuf
    {
      DriverState(lock, id, calib, dataBuf[..], tFine, temperature, pressure)
    }

    /** The zero-initialised statics at power-up. */
    constructor ()
      ensures Valid() && fresh(dataBuf)
      ensures dataBuf[..] == [0, 0, 0, 0, 0, 0, 0, 0]
      ensures !lock && id == 0 && calib == ZeroCalib
      ensures tFine == 0 && temperature == 0 && pressure == 0 && trace == []
    {
      lock := false;
      id := 0;
      calib := ZeroCalib;
      dataBuf := new bv8[8](_ => 0);
      tFine := 0;
      temperature := 0;
      pressure := 0;
      trace := [];
      assert forall i :: 0 <= i < 12 ==> Field(ZeroCalib, i) == 0;
    }

    method SetLock(held: bool)
      modifies this`lock, this`trace
      ensures lock == held && trace == old(trace) + [Lock(held)]
    {
      lock := held;
      trace := trace + [Lock(held)];
    }

    /** SPI_Read(buf, cnt): a read transaction from the address in buf[0]
      that stores the `cnt` reply bytes from buf[0] on. */
    method BusRead(buf: array<bv8>, cnt: nat, reply: seq<bv8>)
      requires 1 <= cnt <= buf.Length && |reply| == cnt
      modifies buf, this`trace
      ensures buf[..cnt] == reply && buf[cnt..] == old(buf[cnt..])
      ensures trace == old(trace) + [ReadTx(old(buf[0]), cnt)]
    {
      trace := trace + [ReadTx(buf[0], cnt)];
      Transport.SpiRead(buf, cnt, reply);
    }

    /** BMP280_Init (Core/Src/bmp280.c:48-111): reads the family ID and,
        only for a BMP280 or BME280, the 26 calibration bytes, of which
        the first 24 are decoded. The result says whether the sensor was
        recognised. */
    method Init(idReply: bv8, calibReply: seq<bv8>) returns (status: bool)
      requires Valid() && |calibReply| == CalibReadLength
      modifies this`lock, this`trace, this`id, this`calib
      ensures Valid()
      ensures status <==> IsSupportedId(idReply)
      ensures id == idReply && !lock
      ensures calib == if status then Decode(calibReply[..CalibLength]) else old(calib)
      ensures trace == old(trace) + InitEvents(idReply)
    {
      SetLock(true);
      id := ReadId(idReply);
      if !IsSupportedId(id) {
        SetLock(false);
        return false;
      }
      ReadCalib(calibReply);
      status := true;
      SetLock(false);
    }

    /** The one-byte read of the family ID register (Core/Src/bmp280.c:56-58). */
    method ReadId(reply: bv8) returns (r: bv8)
      modifies this`trace
      ensures r == reply && trace == old(trace) + [ReadTx(SensorID, 1)]
    {
      var cmd := new bv8[1];
      cmd[0] := SensorID;
      BusRead(cmd, 1, [reply]);
      r := cmd[0];
    }

    /** The read of the calibration block into a local 28-byte buffer and
        its decoding (Core/Src/bmp280.c:74-106). */
    method ReadCalib(reply: seq<bv8>)
      requires |reply| == CalibReadLength
      modifies this`trace, this`calib
      ensures calib == Decode(reply[..CalibLength]) && ValidCalib(calib)
      ensures trace == old(trace) + [ReadTx(Calib1, CalibReadLength)]
    {
      var block := new bv8[28];
      block[0] := Calib1;
      BusRead(block, CalibReadLength, reply);
      assert block[..CalibLength] == reply[..CalibLength];
      calib := Decode(block[..CalibLength]);
    }

    /** BMP280_Write (Core/Src/bmp280.c:154-164): a two-byte register write
        with the read/write bit of the address cleared, under the lock. */
    method Write(cmd: bv8, data: bv8)
      requires Valid()
      modifies this`lock, this`trace, dataBuf
      ensures dataBuf[..2] == [WriteCommand(cmd), data]
      ensures dataBuf[2..] == old(dataBuf[2..])
      ensures !lock && trace == old(trace) + WriteEvents(cmd, data)
    {
      SetLock(true);
      dataBuf[0] := WriteCommand(cmd);
      dataBuf[1] := data;
      // SPI_Write(dataBuf, 2)
      trace := trace + [WriteTx(dataBuf[..2])];
      SetLock(false);
    }

    /** BMP280_Read (Core/Src/bmp280.c:127-143): starts a forced conversion,
        polls the status register until it stops answering `Measuring`,
        then burst-reads the six data bytes (pressure msb, lsb, xlsb,
        temperature msb, lsb, xlsb) into dataBuf. Returns the number of
        status reads. */
    method Read(status: seq<bv8>, burst: seq<bv8>) returns (polls: nat)
      requires Valid() && SensorCompletes(status) && |burst| == 6
      modifies this`lock, this`trace, dataBuf
      ensures dataBuf[..6] == burst && dataBuf[6..] == old(dataBuf[6..])
      ensures polls == PollsUntilDone(status) + 1
      ensures !lock && trace == old(trace) + ReadEvents(status)
    {
      SetLock(true);
      Write(CtrlMeasure, ForcedCtrlMeas);
      polls := Poll(status);
      dataBuf[0] := CollectData;
      BusRead(dataBuf, 6, burst);
      SetLock(false);
    }

    /** The polling loop of BMP280_Read (Core/Src/bmp280.c:132-136): reads
        the status register while it answers `Measuring`; every read lands
        in dataBuf[0]. */
    method Poll(status: seq<bv8>) returns (polls: nat)
      requires Valid() && SensorCompletes(status)
      modifies this`trace, dataBuf
      ensures polls == PollsUntilDone(status) + 1
      ensures dataBuf[0] == status[polls - 1] && dataBuf[0] != Measuring
      ensures dataBuf[1..] == old(dataBuf[1..])
      ensures trace == old(trace) + PollEvents(polls)
    {
      dataBuf[0] := Measuring;
      polls := 0;
      while dataBuf[0] == Measuring
        invariant polls <= PollsUntilDone(status) + 1
        invariant dataBuf[0] == Measuring <==> polls <= PollsUntilDone(status)
        invariant 0 < polls ==> dataBuf[0] == status[polls - 1]
        invariant dataBuf[1..] == old(dataBuf[1..])
        invariant trace == old(trace) + PollEvents(polls)
        decreases |status| - polls
      {
        PollStep(status, polls);
        dataBuf[0] := StatusSensor;
        BusRead(dataBuf, 1, [status[polls]]);
        polls := polls + 1;
      }
    }

    /** BMP280_ReadT (Core/Src/bmp280.c:176-185): a fresh measurement,
        compensated from the temperature bytes; also updates the fine
        temperature. */
    method ReadT(status: seq<bv8>, burst: seq<bv8>) returns (t: Int32)
      requires Valid() && SensorCompletes(status) && |burst| == 6
      modifies this`lock, this`trace, this`tFine, this`temperature, dataBuf
      ensures Valid()
      ensures dataBuf[..6] == burst && dataBuf[6..] == old(dataBuf[6..])
      ensures var r := CompensateT(RawAdc(burst[3], burst[4], burst[5]), calib);
        t == r.t && temperature == r.t && tFine == r.tFine
      ensures !lock && trace == old(trace) + ReadEvents(status)
      ensures State() == AfterReadT(old(State()), burst)
    {
      ghost var s0 := State();
      var _ := Read(status, burst);
      var adcT := RawAdc(dataBuf[3], dataBuf[4], dataBuf[5]);
      var r := CompensateT(adcT, calib);
      tFine := r.tFine;
      temperature := r.t;
      t := temperature;
      assert dataBuf[..] == burst + s0.buf[6..] by {
        assert dataBuf[..] == dataBuf[..6] + dataBuf[6..];
      }
    }

    /** BMP280_ReadP (Core/Src/bmp280.c:196-205): compensates the pressure
        bytes left in dataBuf by the last measurement, but only while the
        fine temperature is non-zero; otherwise the previous pressure
        stands. */
    method ReadP() returns (p: Uint32)
      requires Valid()
      modifies this`pressure
      ensures tFine == 0 ==> pressure == old(pressure)
      ensures tFine != 0 ==>
        pressure == CompensateP(RawAdc(dataBuf[0], dataBuf[1], dataBuf[2]), tFine, calib)
      ensures p == pressure
      ensures State() == AfterReadP(old(State()))
    {
      if tFine != 0 {
        var adcP := RawAdc(dataBuf[0], dataBuf[1], dataBuf[2]);
        pressure := CompensateP(adcP, tFine, calib);
      }
      p := pressure;
    }
  }
}
