/** The register transport of Core/Src/spi.c as the sensor driver sees it:
    a read transaction sends the register address held in buf[0] and
    stores the bytes the device returns from buf[0] on. Chip-select
    timing, FIFO draining and busy-waits are not part of this model. */
module Transport {

  /** Number of byte transfers SPI_Read performs as written for a request
      of `cnt` bytes (Core/Src/spi.c:93, 105-107). The count is a uint8_t,
      so `cnt += 3` wraps: below 253 the loop makes three more transfers
      than were asked for, and 253..255 wrap to 0..2 transfers. */
  function TransfersAsWritten(cnt: nat): (n: nat)
    requires cnt < 0x100
    ensures n < 0x100
    ensures cnt < 0xFD ==> n == cnt + 3 && n > cnt
    ensures cnt >= 0xFD ==> n == cnt - 0xFD && n < 3
  {
    (cnt + 3) % 0x100
  }

  /** Every received byte of those transfers is stored, so the calls the
      driver makes can store past the end of their buffers: `SPI_Read(&cmd,
      1)` up to 4 bytes into the one-byte cmd (Core/Src/bmp280.c:56-57),
      `SPI_Read(dataBuf, 6)` up to 9 bytes into the 8-byte dataBuf
      (Core/Src/bmp280.c:16, 140) and `SPI_Read(calib, 26)` up to 29 bytes
      into the 28-byte calib array (Core/Src/bmp280.c:74, 77). */
  lemma AsWrittenOverrunsDriverBuffers()
    ensures TransfersAsWritten(1) > 1
    ensures TransfersAsWritten(6) > 8
    ensures TransfersAsWritten(26) > 28
  {
  }

  /** A read transaction that stores exactly the `cnt` bytes asked for. */
  method SpiRead(buf: array<bv8>, cnt: nat, rx: seq<bv8>)
    requires 1 <= cnt <= buf.Length && |rx| == cnt
    modifies buf
    ensures buf[..cnt] == rx
    ensures buf[cnt..] == old(buf[cnt..])
  {
    var i := 0;
    while i < cnt
      invariant 0 <= i <= cnt
      invariant buf[..i] == rx[..i]
      invariant buf[i..] == old(buf[i..])
    {
      buf[i] := rx[i];
      i := i + 1;
    }
  }
}
