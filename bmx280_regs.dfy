/** Register map, bit fields and integer types of the BMx280 driver header
    (Core/Inc/bmx280.h). Every byte on the bus is a `bv8`; the two integer
    types the Bosch compensation code is written against are subset types
    of `int`, so that a 32-bit wrap-around has to be written out wherever
    it happens. */
module Bmx280 {

  // ---- Register addresses (bmx280.h:34-42) ----
  const SensorID: bv8 := 0xD0
  const Calib1: bv8 := 0x88
  const Calib2: bv8 := 0xE1
  const CollectData: bv8 := 0xF7
  const ConfigSensor: bv8 := 0xF5
  const CtrlMeasure: bv8 := 0xF4
  const StatusSensor: bv8 := 0xF3
  const CtrlHumidity: bv8 := 0xF2
  const ResetSensor: bv8 := 0xE0

  // ---- Status register (bmx280.h:44-47) ----
  const Measuring: bv8 := 0x08
  const MeasuringPos: nat := 3
  const ImUpdate: bv8 := 0x00
  const ImUpdatePos: nat := 0

  // ---- ctrl_meas register fields (bmx280.h:49-57) ----
  const TemperatureOvsMask: bv8 := 0xE0
  const TemperatureOvsPos: nat := 5
  const PressureOvsMask: bv8 := 0x1C
  const PressureOvsPos: nat := 2
  const ModeMask: bv8 := 0x03
  const ModePos: nat := 0
  const SleepMode: bv8 := 0x00
  const ForceMode: bv8 := 0x01
  const NormalMode: bv8 := 0x03

  // ---- Other definitions (bmx280.h:59-62) ----
  const WriteMask: bv8 := 0x7F
  const ResetValue: bv8 := 0xB6
  const BMP280_ID: bv8 := 0x58
  const BME280_ID: bv8 := 0x60

  // ---- Types demanded by the datasheet (bmx280.h:64-65) ----
  /** BMP280_S32_t */
  type Int32 = x: int | -0x8000_0000 <= x < 0x8000_0000
  /** BMP280_U32_t */
  type Uint32 = x: int | 0 <= x < 0x1_0000_0000

  /** The identification codes the driver accepts: a BMP280 or a BME280. */
  predicate IsSupportedId(id: bv8) {
    id == BMP280_ID || id == BME280_ID
  }

  /** The command byte of a register write: the register address with the
      read/write bit (bit 7) cleared. */
  function WriteCommand(cmd: bv8): (r: bv8)
    ensures r & 0x80 == 0
    ensures r & 0x7F == cmd & 0x7F
  {
    cmd & WriteMask
  }

  /** The ctrl_meas byte built from a temperature oversampling code, a
      pressure oversampling code and a power mode, each shifted to the
      position its mask covers. Reading each field back through its mask
      gives the code that was put in. */
  function CtrlMeas(osrsT: bv8, osrsP: bv8, mode: bv8): (r: bv8)
    requires osrsT < 8 && osrsP < 8 && mode < 4
    ensures (r & TemperatureOvsMask) >> TemperatureOvsPos == osrsT
    ensures (r & PressureOvsMask) >> PressureOvsPos == osrsP
    ensures (r & ModeMask) >> ModePos == mode
    ensures r & !(TemperatureOvsMask | PressureOvsMask | ModeMask) == 0
  {
    (osrsT << TemperatureOvsPos) | (osrsP << PressureOvsPos) | (mode << ModePos)
  }

  /** The control byte the driver writes before every measurement: x1
      oversampling of temperature and of pressure, forced mode. */
  const ForcedCtrlMeas: bv8 := CtrlMeas(1, 1, ForceMode)

  lemma ForcedCtrlMeasValue()
    ensures ForcedCtrlMeas == 0x25
    ensures ForcedCtrlMeas & ModeMask == ForceMode
  {
  }

  /** The two accepted identification codes are distinct, and no other
      byte is accepted. */
  lemma SupportedIds(id: bv8)
    ensures BMP280_ID != BME280_ID
    ensures IsSupportedId(id) <==> id in {0x58, 0x60}
  {
  }

  /** The three ctrl_meas masks are pairwise disjoint, cover the whole byte
      and are the field widths shifted to their positions. */
  lemma CtrlMeasMasks()
    ensures TemperatureOvsMask & PressureOvsMask == 0
    ensures TemperatureOvsMask & ModeMask == 0
    ensures PressureOvsMask & ModeMask == 0
    ensures TemperatureOvsMask | PressureOvsMask | ModeMask == 0xFF
    ensures TemperatureOvsMask == 7 << TemperatureOvsPos
    ensures PressureOvsMask == 7 << PressureOvsPos
    ensures ModeMask == 3 << ModePos
  {
  }

  /** Every power mode code fits inside the mode field. */
  lemma ModesFitModeMask()
    ensures SleepMode & !ModeMask == 0 && SleepMode & ModeMask == SleepMode
    ensures ForceMode & !ModeMask == 0 && ForceMode & ModeMask == ForceMode
    ensures NormalMode & !ModeMask == 0 && NormalMode & ModeMask == NormalMode
  {
  }

  /** The "measuring" status value is the single bit at its position. The
      im_update value is not: Core/Inc/bmx280.h:46 defines it as 0x00,
      although im_update is bit 0 (0x01), so it cannot serve as a mask. */
  lemma MeasuringIsItsBit()
    ensures Measuring == 1 << MeasuringPos
    ensures ImUpdate != 1 << ImUpdatePos
  {
  }
}
