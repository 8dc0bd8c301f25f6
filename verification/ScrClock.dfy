/** Arithmetic on the 27 MHz clock: the inline helpers of src/libltntstools/ts.h. */
module ScrClock {
  import opened TsPacket

  const PCR_CLOCK_HZ := 27000000

  function ScrDiff(from: int, to: int): int
  {
    if from > to && to < 5 * PCR_CLOCK_HZ then MAX_SCR_VALUE - from + to else to - from
  }

  function ScrAdd(scr: int, ticks: int): int
  {
    var clock := scr + ticks;
    if clock > MAX_SCR_VALUE then clock - MAX_SCR_VALUE
    else if clock < 0 then clock + MAX_SCR_VALUE
    else clock
  }
}
