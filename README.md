# BMP280 over SPI on an STM32F030: a Dafny model

This project models the firmware core of an STM32F030F4 board that reads a
Bosch BMP280 (or BME280) pressure and temperature sensor over SPI and
reports it once a second:

- `Core/Inc/bmx280.h`: the register map, the status and ctrl_meas bit
  fields, and the accepted chip IDs. Modelled in `bmx280_regs.dfy`
  (module `Bmx280`).
- `Core/Src/bmp280.c`: the driver.
  - `BMP280_Init` reads the chip ID. For a BMP280 or BME280 it then reads
    and decodes the 24-byte calibration block (`bmp280_calib.dfy`, module
    `Calibration`).
  - `BMP280_Read` starts a forced conversion, polls the status register
    and burst-reads the six data bytes.
  - `BMP280_ReadT` and `BMP280_ReadP` apply Bosch's 32-bit fixed-point
    compensation (`bmp280_compensate.dfy`, module `Compensation`).
  - The driver state is a class `Bmp280.Driver` (`bmp280_driver.dfy`). Its
    fields are the bus lock, the ID, the coefficients, the 8-byte
    `dataBuf`, `t_fine` and the last readings. A ghost trace records every
    lock change and every bus transaction.
- `Core/Src/main.c`: the super-loop (`main_cron.dfy`, module `Firmware`).
  - `Cron_Handler` advances the sysQuantum/millis/seconds/minutes cascade
    and spins until `delay_tmp` is reached.
  - `CronSeconds_Handler` raises the seconds flag.
  - `Flags_Handler` drains the flags and reads the sensor on each seconds
    event.
  - The cascade is a pure step function `Step` over a `Cron` value, folded
    over a sequence of SysTick COUNTFLAG samples by `Run`.
  - The class `Firmware.Firmware` holds the globals. Its methods are proved
    to follow `Step` and `Run`.
- `Core/Src/spi.c`: only the register transport the driver calls
  (`spi_transport.dfy`, module `Transport`).

The sensor is an oracle. The ID byte, the calibration bytes, the status
bytes and the data burst it answers are method parameters.

C semantics are written out.
- `BMP280_S32_t` and `BMP280_U32_t` are the subset types `Int32` and
  `Uint32`.
- Signed `+`, `-`, `*` and `<<` wrap in two's complement (`Wrap32`).
  Unsigned steps reduce modulo 2^32 (`ToU32`).
- Arithmetic `>>` on a signed value is floor division by a literal power
  of two.

Things the proofs bring out about the code as written:

- Lock release inside a read. `BMP280_Read` takes the lock, but the nested
  `BMP280_Write` releases it. All status polling and the data burst then
  run unlocked (`ReadTrafficUnlocked`).
- Whole-byte status compare. The polling loop compares the whole status
  byte with 0x08. A status of 0x09 (measuring and im_update both set)
  therefore ends the wait (`PollEndsOnAnyOtherByte`).
- im_update constant. Core/Inc/bmx280.h:46 defines `ImUpdate` as 0x00,
  not the bit-0 mask 0x01 its position calls for (`MeasuringIsItsBit`).
  The driver never tests it.
- t_fine gate on a real reading. `BMP280_ReadP` skips the computation when
  t_fine is 0, as it is before calibration (`UncalibratedTFineIsZero`).
  With the datasheet trimming values, the readings 440064..440071 are
  exactly 0.00 degC with t_fine == 0 (`DatasheetZeroTFine`). Such a
  sample keeps the previous pressure (`FreezingKeepsPressure`).
- Unconditional delay clear. `Cron_Handler` always clears `delay_tmp` and
  the delay flag after its spin (`CronHandler`).
- Cadence. From reset, 100000 ticked passes of the cascade give
  millis = 1000, seconds = 1 and minutes = 0 (`CadenceFromBoot`). In
  general seconds = ticks / 100000 and minutes = ticks / 6000000
  (`RunFromBoot`).

## Model

| member | source | states |
|---|---|---|
| Bmx280.WriteCommand | Core/Src/bmp280.c:157 | the command byte of a register write has bit 7 (read/write) cleared and keeps the seven address bits |
| Bmx280.CtrlMeas | Core/Inc/bmx280.h:49-57 | a ctrl_meas byte built from oversampling codes and a mode gives each code back through its mask and has no bits outside the three fields |
| Bmx280.ForcedCtrlMeasValue | Core/Src/bmp280.c:130 | the control byte written before every measurement is 0x25: x1 temperature and pressure oversampling, and its mode field is forced mode |
| Bmx280.SupportedIds | Core/Src/bmp280.c:61-71 | the accepted IDs are exactly 0x58 (BMP280) and 0x60 (BME280), and they are distinct |
| Bmx280.CtrlMeasMasks | Core/Inc/bmx280.h:49-54 | the three ctrl_meas masks are disjoint, cover the byte, and are the field widths shifted to their positions |
| Bmx280.ModesFitModeMask | Core/Inc/bmx280.h:53-57 | sleep, forced and normal mode codes lie inside the mode mask |
| Bmx280.MeasuringIsItsBit | Core/Inc/bmx280.h:44-47 | the Measuring status value is the single bit at Measuring_Pos. ImUpdate (0x00) is not the bit at ImUpdate_Pos. |
| Calibration.U16 | Core/Src/bmp280.c:83 | a little-endian unsigned word is in [0, 65536) and has the given low and high byte |
| Calibration.S16 | Core/Src/bmp280.c:85 | a little-endian signed word is in [-32768, 32768), is negative exactly when bit 7 of the high byte is set, and has the same bit pattern as the unsigned word |
| Calibration.Decode | Core/Src/bmp280.c:80-106 | coefficient i is read from bytes 2i and 2i+1 with its C signedness (T1 and P1 unsigned, the rest signed), and every coefficient lies in its C type's range |
| Calibration.Encode | Core/Src/bmp280.c:80-106 | the 24-byte register image of a coefficient record, the layout the decoder reads; its inverse relation to Decode is DecodeEncode and EncodeDecode |
| Calibration.DecodeEncode | Core/Src/bmp280.c:80-106 | decoding the block of any in-range coefficient record gives the record back |
| Calibration.EncodeDecode | Core/Src/bmp280.c:80-106 | encoding the decoding of any 24-byte block gives the block back, so decoding is injective |
| Compensation.Wrap32 | Core/Inc/bmx280.h:64 | the 32-bit signed wrap is the identity on in-range values and congruent to its argument modulo 2^32 |
| Compensation.ToU32 | Core/Inc/bmx280.h:65 | conversion to uint32 is the identity on in-range values and congruent to its argument modulo 2^32 |
| Compensation.TVar1 | Core/Src/bmp280.c:293 | `var1` of the temperature formula is a 32-bit product shifted right by 11, so it lies in [-2^20, 2^20) for every input |
| Compensation.TVar2 | Core/Src/bmp280.c:294 | `var2` of the temperature formula is a 32-bit product shifted right by 14, so it lies in [-2^17, 2^17) for every input |
| Compensation.CompensateT | Core/Src/bmp280.c:291-298 | for every reading and calibration the sum `t_fine = var1 + var2` never wraps, so t_fine is the exact sum and lies in [-0x12_0000, 0x12_0000) |
| Compensation.CompensateP | Core/Src/bmp280.c:301-323 | pressure is 0 whenever the denominator var1 is 0 (the division-by-zero guard) |
| Compensation.TemperatureFromTFine | Core/Src/bmp280.c:296 | for every reading and calibration `t_fine * 5 + 128` never wraps. The temperature is (5 t_fine + 128) / 256, i.e. t_fine scaled by 5/256 and rounded to the nearest hundredth of a degree, and lies within +-230.40 degC. |
| Compensation.TFineMatchesDatasheet | Core/Src/bmp280.c:293-295 | when no product or difference overflows, the wrapping C code computes exactly the unbounded-integer fine temperature of the datasheet formula, term by term |
| Compensation.DatasheetTNeverWraps | Core/Src/bmp280.c:293-295 | with the datasheet's trimming values no 20-bit reading makes the temperature formula overflow |
| Compensation.UncalibratedTFineIsZero | Core/Src/bmp280.c:291-298 | with all-zero coefficients (before a successful init) the fine temperature is 0 for every reading, which is the value the pressure read-out is gated on |
| Compensation.PressureZeroWhenP1Zero | Core/Src/bmp280.c:309-312 | a zero P1 zeroes the denominator, and the pressure comes out 0 |
| Compensation.SplitDiv | Core/Src/bmp280.c:314-318 | below 2^31 the split division is exactly 2p/d. From 2^31 on with d >= 2 it doubles p/d, fits in 32 bits and undershoots 2p/d by at most 1. With d = 1 it wraps. |
| Compensation.DatasheetZeroTFine | Core/Src/bmp280.c:291-298 | with the datasheet trimming values every reading 440064..440071 compensates to exactly 0.00 degC with t_fine 0 |
| Compensation.DatasheetExample | Core/Src/bmp280.c:291-323 | the datasheet's worked example (adc_T 519888, adc_P 415148) gives t_fine 128422, 25.08 degC and 100656 Pa |
| Transport.TransfersAsWritten | Core/Src/spi.c:93-107 | as written, with the uint8_t count, a request for cnt < 253 bytes performs cnt + 3 transfers, more than asked for; 253..255 wrap to 0..2 transfers |
| Transport.AsWrittenOverrunsDriverBuffers | Core/Src/spi.c:105-113 | the driver's 1-, 6- and 26-byte reads perform more transfers than their buffers (1, 8 and 28 bytes) hold |
| Transport.SpiRead | Core/Src/spi.c:93-116 | the corrected read stores exactly the cnt reply bytes from buf[0] on and leaves the rest of the buffer unchanged |
| Bmp280.RawAdc | Core/Src/bmp280.c:180 | the 20-bit reading is (msb·2^16 + lsb·2^8 + xlsb) / 16 and lies in [0, 2^20) |
| Bmp280.RawAdcIgnoresLowNibble | Core/Src/bmp280.c:200 | the low nibble of xlsb never reaches the reading; the reading's low nibble is xlsb's high nibble |
| Bmp280.PollEvents | Core/Src/bmp280.c:133-136 | n polling passes are n one-byte reads of the status register |
| Bmp280.ReadEvents | Core/Src/bmp280.c:127-143 | BMP280_Read's events: it starts by taking the lock and ends by releasing it. There are PollsUntilDone + 7 events; every event between the nested write and the burst is a one-byte status read; the burst is a six-byte read from 0xF7. |
| Bmp280.PollsUntilDone | Core/Src/bmp280.c:132-136 | the count of leading Measuring answers: every earlier status byte is 0x08 and the next one is not |
| Bmp280.PollStep | Core/Src/bmp280.c:133-135 | the k-th status read answers Measuring exactly when another read follows |
| Bmp280.PollEndsOnAnyOtherByte | Core/Src/bmp280.c:133 | the whole-byte compare ends the wait on 0x09 and on 0x00, after the right number of reads |
| Bmp280.ReadTrafficUnlocked | Core/Src/bmp280.c:127-143 | in BMP280_Read's event sequence the configuration write goes out locked, every read transaction happens with the lock released, and the lock ends free |
| Bmp280.FreezingKeepsPressure | Core/Src/bmp280.c:176-205 | with the datasheet trimming values, a burst whose temperature reading is 440064..440071 gives 0.00 degC and t_fine 0. BMP280_ReadP's gate then skips the pressure computation and the previous pressure stays. |
| Bmp280.Driver.constructor | Core/Src/bmp280.c:16-23 | the statics start zeroed: 8-byte dataBuf of zeros, lock free, zero coefficients, t_fine 0 |
| Bmp280.Driver.BusRead | Core/Src/bmp280.c:135-140 | a read transaction from the register in buf[0] stores exactly the cnt reply bytes and leaves the rest of the buffer; it is traced with its address and count |
| Bmp280.Driver.Init | Core/Src/bmp280.c:51-111 | returns true exactly for a supported ID. The ID is stored. Coefficients are decoded from the first 24 of 26 calibration bytes only on success. The lock ends free. The trace is InitEvents: lock, ID read, calibration read only on success, unlock. |
| Bmp280.Driver.ReadId | Core/Src/bmp280.c:56-58 | one one-byte read of register 0xD0 whose answer is the ID |
| Bmp280.Driver.ReadCalib | Core/Src/bmp280.c:74-106 | one 26-byte read from 0x88, and the coefficients become the decoding of its first 24 bytes |
| Bmp280.Driver.Write | Core/Src/bmp280.c:154-164 | dataBuf starts with the write command and the data, the rest is unchanged, and the trace is lock, two-byte frame, unlock |
| Bmp280.Driver.Read | Core/Src/bmp280.c:127-143 | dataBuf[0..6] holds the burst and the rest is unchanged. The status register is read once per Measuring answer plus once more. The trace is exactly ReadEvents. The lock ends free. |
| Bmp280.Driver.Poll | Core/Src/bmp280.c:132-136 | the loop performs PollsUntilDone + 1 status reads, touching only dataBuf[0]. It leaves there the last status answer, which is not Measuring. |
| Bmp280.Driver.ReadT | Core/Src/bmp280.c:176-185 | after a fresh measurement, the temperature and t_fine are the compensation of the temperature bytes (3..5) of the burst. The burst is in dataBuf[0..6] and the lock is free. The whole new state is AfterReadT of the old. |
| Bmp280.Driver.ReadP | Core/Src/bmp280.c:196-205 | with t_fine non-zero the pressure is the compensation of dataBuf[0..3]; with t_fine zero the previous pressure is kept; nothing else changes (AfterReadP) |
| Firmware.RunSnoc | Core/Src/main.c:100-102 | running one more pass of the cascade is one more Step |
| Firmware.BootCascade | Core/Src/main.c:15-26 | the reset values satisfy the cascade invariant |
| Firmware.Step | Core/Src/main.c:76-98 | in one pass sysQuantum advances by one modulo 2^32 exactly when COUNTFLAG is set. Each other counter stays or advances by one modulo 2^32. The only flag a pass can raise is the seconds flag, and none is cleared. |
| Firmware.Run | Core/Src/main.c:75-102 | over any sequence of passes the flags only grow, and the only flag the cascade adds is the seconds flag |
| Firmware.StepTicks | Core/Src/main.c:77-80 | one pass moves sysQuantum by exactly one when COUNTFLAG is set and leaves it alone otherwise |
| Firmware.ThresholdWrapsAtEnd | Core/Src/main.c:82-86 | the pass that counts a millisecond at sysQuantum 4294967200 sets the threshold to 4, wrapped |
| Firmware.WrappedThresholdCountsEveryPass | Core/Src/main.c:76-86 | once the threshold has wrapped below 100 with sysQuantum above 0xFFFF_FF9C, every pass until sysQuantum wraps counts a millisecond, ticked or not, and the threshold stays wrapped |
| Firmware.StepPreservesCascade | Core/Src/main.c:82-98 | each pass keeps millis = sysQuantum/100, seconds = millis/1000, minutes = seconds/60, with every threshold the next multiple |
| Firmware.StepMonotone | Core/Src/main.c:77-98 | in one pass each counter stays or grows by exactly one, and the seconds flag is added exactly on the passes that move seconds, with no other flag change |
| Firmware.RunFromBoot | Core/Src/main.c:15-26 | from reset, sysQuantum counts the ticked passes, the cascade holds, seconds = ticks/100000 and minutes = ticks/6000000 |
| Firmware.CadenceFromBoot | Core/Src/main.c:82-98 | 100 ticked passes give the first millisecond; 99999 give no second; 100000 give millis 1000, seconds 1, minutes 0 |
| Firmware.RunCountsTicks | Core/Src/main.c:77-80 | without wrap-around sysQuantum grows by exactly the number of ticked passes |
| Firmware.DelaySpinLength | Core/Src/main.c:100-102 | with every tick present the spin ends on the first pass k with sysQuantum + k at or past the delay target |
| Firmware.Firmware.constructor | Core/Src/main.c:15-28 | the globals start at their reset values: counters 0, thresholds 100/1000/60, no flags, sensor status clear |
| Firmware.Firmware.StartSensor | Core/Src/main.c:55-57 | the sensor status is set exactly when init recognises the chip; the coefficients change only then. The ID is stored and the lock ends free. The trace grows by InitEvents. t_fine, temperature, pressure and the contents of dataBuf stay as they were. |
| Firmware.Firmware.CronSecondsHandler | Core/Src/main.c:127-131 | raises the seconds flag and leaves the other flags |
| Firmware.Firmware.CronPass | Core/Src/main.c:76-98 | one pass of the handler's body updates the globals exactly as Step |
| Firmware.Firmware.CronHandler | Core/Src/main.c:75-106 | repeats passes until one ends with sysQuantum at or past delay_tmp. That is the first such pass, and the state is Run over those passes. Afterwards delay_tmp is 0 and the delay flag is clear. |
| Firmware.Firmware.Sample | Core/Src/main.c:156-157 | BMP280_ReadT then BMP280_ReadP: the driver's new state is AfterSample of the old, and the reading is the new temperature and pressure. That is, the burst is in dataBuf, the lock is free, and the temperature and t_fine are compensated; pressure is recomputed only when t_fine is non-zero. |
| Firmware.Firmware.SecondsEvent | Core/Src/main.c:153-162 | clears the seconds flag. It samples the sensor exactly when the seconds flag was set and the sensor was recognised. Otherwise the driver is untouched. |
| Firmware.Firmware.FlagsHandler | Core/Src/main.c:147-163 | clears the USART and seconds flags and keeps the rest. It reads exactly when the seconds flag was set and the sensor was recognised; the driver's new state is then AfterSample of the old, and the reading is its temperature and pressure. Otherwise the driver is untouched. |

## Left out

- Floating-point compensation: `BMP280_ReadPT`, `BMP280_ReadPP`,
  `bmp280_compensate_T_double` and `bmp280_compensate_P_double`
  (Core/Src/bmp280.c:212-287) are out of scope, because Dafny has no IEEE
  doubles.
  - Their dataBuf offsets (bytes 4..6 and 1..3 at bmp280.c:223, 243)
    differ from the integer path; they are not modelled.
  - Neither is the header declaring `BMP280_ReadTP` where the source
    defines `BMP280_ReadPT` (Core/Inc/bmx280.h:72).
  - Both float read-outs compute only when t_fine is non-zero
    (bmp280.c:222, 242). On the float path only
    `bmp280_compensate_T_double` sets t_fine, and it runs behind that gate.
    So the float path computes nothing unless an integer `BMP280_ReadT` ran
    first.
- Timing, console and watchdog: `Delay`, `Delay_Handler`, `printf`/USART,
  `USART1_RX_Handler`, the IWDG initialisation and reload, `SystemInit`,
  the clock setup and the start of `main` are not modelled. `Flags_Handler`
  returns what it would print instead of printing it.
- SysTick: the timer is not modelled. Its COUNTFLAG is an input, one boolean
  per pass of the cascade.
- `_EREG_`: the bit positions of `_U1RXF_`, `_SECF_` and `_DELAYF_` are
  in main.h, which is not part of this model. The register is modelled as a
  set of named flags.
- SPI peripheral: chip-select, FIFO draining and busy-waits in
  Core/Src/spi.c are not modelled.
- Bmp280.Driver.Write: traces the intended two-byte frame. As written,
  SPI_Write also adds 3 to its count (Core/Src/spi.c:134), so
  `SPI_Write(dataBuf, 2)` clocks out dataBuf[0..5]: three stale bytes
  follow the register write. The model does not capture those bytes.
- Descriptor layout: the `bmx280_t` struct in Core/Inc/bmx280.h:21-29 has
  no calibration fields, yet bmp280.c stores T1..P9 in it. The model keeps
  the coefficients as a `Calib` field of the driver.
- Signed overflow: this is undefined behaviour in C. The model fixes it as
  the two's-complement wrap the Cortex-M0 performs.
- Compensation.CompensateP: its contract states only the zero-denominator
  guard. The pressure pipeline is pinned by the worked example and by the
  split-division bounds, with no all-inputs comparison to an
  unbounded-integer pressure formula.
- Compensation.TFineMatchesDatasheet: proved only when no intermediate of
  the temperature formula overflows (`NoWrapT`).
- Firmware.StepPreservesCascade: the cascade invariant is proved only while
  sysQuantum stays below 0xFFFF_FF00, that is, before the uint32 counters
  wrap. sysQuantum wraps first, after 2^32 ticks. With the 10 us SysTick
  (480 cycles at 48 MHz, main.c:189) that is about 11.9 hours after reset.
  - Shortly before, the millisecond threshold wraps to a small value
    (`ThresholdWrapsAtEnd`).
  - From then until sysQuantum wraps, every pass counts a millisecond,
    ticked or not (`WrappedThresholdCountsEveryPass`), so the cascade
    invariant no longer holds.
- Firmware.RunFromBoot: proved for runs shorter than 0xFFFF_FF00 passes,
  for the same reason.
- Firmware.Firmware.CronHandler: requires the supplied COUNTFLAG samples to
  contain a pass that reaches `delay_tmp`. The spin does not end otherwise,
  and a non-terminating spin is not modelled.
- Bmp280.Driver.Read: requires the sensor to stop answering `Measuring`
  within the supplied status bytes. A sensor that never finishes hangs the
  firmware and is not modelled.

## Findings

| source | as written | input that shows it | evidently intended | confidence | as-written member | corrected member |
|---|---|---|---|---|---|---|
| Core/Src/spi.c:105 | `cnt += 3` before the transfer loop. A read of cnt bytes performs cnt + 3 transfers, and every reply that is in the receive FIFO is stored from buf[0] on, so up to cnt + 3 bytes are stored. | `SPI_Read(dataBuf, 6)` (bmp280.c:140) makes 9 transfers and can store up to 9 bytes into the 8-byte dataBuf. `SPI_Read(calib, 26)` (bmp280.c:77) can store up to 29 into a 28-byte array. `SPI_Read(&cmd, 1)` can store up to 4 into a 1-byte local. | exactly cnt transfers, storing exactly cnt bytes | not executed | Transport.AsWrittenOverrunsDriverBuffers | Transport.SpiRead |
