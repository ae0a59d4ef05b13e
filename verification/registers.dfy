/**
 The register-level operations of the driver: bulk frames, word writes and
 the read-modify-write or packing setters of the configuration registers,
 plus the memory checksum comparison. A register read is modelled as the
 `int` that `dw791x_byte_read` returns; the setters store it in a `u8`, so
 only its low byte matters.
 */
module Registers {
  import opened Bits
  import opened Geometry
  import opened Trace

  /* ---------------------------------------------------------------- frames */

  /** A decoded bus frame: register byte, optional 16-bit RAM address, payload. */
  datatype Frame = Frame(reg: Byte, ram: Option<int>, data: seq<Byte>)

  /** `dw791x_seq_write`: the bytes put on the bus, or the size rejection. */
  function SeqFrame(reg: Word32, ram: RamAddr, data: seq<Byte>): (r: Result<seq<Byte>>)
    ensures r.Err? <==> |data| > MAX_FRAME_DATA
    ensures r.Err? ==> r.error == SizeExceeded
    ensures r.Ok? ==> |r.value| == |data| + (if ram.Ram16? then 3 else 1) <= MAX_FRAME_DATA + 3
  {
    if |data| > MAX_FRAME_DATA then Err(SizeExceeded)
    else match ram
      case NoRam => Ok([LowByte(reg)] + data)
      case Ram16(a) => Ok([LowByte(reg), LowByte(a / 256), LowByte(a)] + data)
  }

  /** How the device reads a frame, knowing whether a RAM address follows the
      register byte. */
  function ParseFrame(f: seq<Byte>, withRam: bool): Option<Frame>
  {
    if withRam then
      if |f| < 3 then None else Some(Frame(f[0], Some(Be16(f[1], f[2])), f[3..]))
    else
      if |f| < 1 then None else Some(Frame(f[0], None, f[1..]))
  }

  lemma Split16(a: Word32)
    ensures Be16(LowByte(a / 256), LowByte(a)) == a % 0x1_0000
  {
    var q := a / 256;
    assert a == q * 256 + a % 256;
    assert q == (q / 256) * 256 + q % 256;
    assert a == (q / 256) * 0x1_0000 + (q % 256) * 256 + a % 256;
  }

  /** Every accepted frame reads back as the register (truncated to a byte),
      the RAM address (truncated to 16 bits) and exactly the payload. */
  lemma FrameRoundTrip(reg: Word32, ram: RamAddr, data: seq<Byte>)
    requires |data| <= MAX_FRAME_DATA
    ensures SeqFrame(reg, ram, data).Ok?
    ensures ParseFrame(SeqFrame(reg, ram, data).value, ram.Ram16?)
         == Some(Frame(LowByte(reg), if ram.Ram16? then Some(ram.addr % 0x1_0000) else None, data))
  {
    if ram.Ram16? {
      Split16(ram.addr);
      var f := SeqFrame(reg, ram, data).value;
      assert f[3..] == data;
    } else {
      var f := SeqFrame(reg, ram, data).value;
      assert f[1..] == data;
    }
  }

  /** `dw791x_word_write`: register byte, then `data >> 8` and `data`, each
      truncated to a byte. */
  function WordFrame(reg: Byte, data: Word32): (f: seq<Byte>)
    ensures |f| == 3 && f[0] == reg
    ensures Be16(f[1], f[2]) == data % 0x1_0000
  {
    Split16(data);
    [reg, LowByte(data / 256), LowByte(data)]
  }

  /* ------------------------------------------------------------------- PWM */

  /** `dw791x_PWM_get`: the low two bits of the PWM register read. */
  function PwmGet(read: bv8): (r: bv8)
    ensures r < 4
    ensures r == read % 4
  {
    read & 0x03
  }

  /** `dw791x_PWM_set`: keeps bits 7..2 of the register and replaces bits 1..0
      with `val & 3`. */
  function PwmSet(read: bv8, val: bv32): (w: bv8)
    ensures PwmGet(w) == (val % 4) as bv8
    ensures w >> 2 == read >> 2
  {
    (read & 0xFC) | ((val & 0x03) as bv8)
  }

  /** Setting a rate and reading it back yields the rate, and a second set with
      the same rate writes the same byte. */
  lemma PwmSetGetRoundTrip(read: bv8, val: bv32)
    requires val < 4
    ensures PwmGet(PwmSet(read, val)) == val as bv8
    ensures PwmSet(PwmSet(read, val), val) == PwmSet(read, val)
  {
  }

  /* -------------------------------------------------------------- VD clamp */

  const MAX_TOP_VD_CLAMP: int := 5000
  const MAX_BOT_VD_CLAMP: int := 9000
  const DEFAULT_TOP_VD_CLAMP: int := 4500
  const DEFAULT_BOT_VD_CLAMP: int := 3500

  /** The clamp ceiling of a channel: index 0 is the bottom ("gamma") actuator. */
  function MaxClamp(index: int): int
  {
    if index == 0 then MAX_BOT_VD_CLAMP else MAX_TOP_VD_CLAMP
  }

  /** `dw791x_vd_clamp_set`: millivolts to the register byte, `vol / 40`
      truncated to a `u8`. */
  function VdClampByte(vol: Word32): (r: Byte)
    ensures vol < 256 * 40 ==> r * 40 <= vol < r * 40 + 40
  {
    LowByte(vol / 40)
  }

  /** The clamp `dw791x_vibrator_control` applies for function 1: a value
      outside `[0, max]` becomes the maximum. */
  function ControlClamp(index: int, param: int): (v: int)
    ensures 0 <= v <= MaxClamp(index)
    ensures v == param <==> 0 <= param <= MaxClamp(index)
    ensures v != param ==> v == MaxClamp(index)
  {
    if index == 0 then
      if param < 0 || param > MAX_BOT_VD_CLAMP then MAX_BOT_VD_CLAMP else param
    else
      if param < 0 || param > MAX_TOP_VD_CLAMP then MAX_TOP_VD_CLAMP else param
  }

  /** The clamp of the `vd_clamp` attribute store: there a zero also becomes
      the maximum. */
  function StoreClamp(index: int, val: int): (v: int)
    ensures 0 < v <= MaxClamp(index)
    ensures v == val <==> 0 < val <= MaxClamp(index)
    ensures v != val ==> v == MaxClamp(index)
  {
    if index == 0 then
      if val <= 0 || val > MAX_BOT_VD_CLAMP then MAX_BOT_VD_CLAMP else val
    else
      if val <= 0 || val > MAX_TOP_VD_CLAMP then MAX_TOP_VD_CLAMP else val
  }

  /** The two clamps agree everywhere except on zero, which the control path
      passes through and the attribute store raises to the maximum. */
  lemma ClampsDifferOnlyAtZero(index: int, x: int)
    ensures ControlClamp(index, x) != StoreClamp(index, x) <==> x == 0
    ensures ControlClamp(index, 0) == 0 && StoreClamp(index, 0) == MaxClamp(index)
  {
  }

  /** A clamped value is encoded without truncation: the register byte is the
      floor of the millivolts over 40, and one past the ceiling encodes as the
      ceiling itself. */
  lemma ClampedEncodingExact(index: int, x: int)
    ensures var v := ControlClamp(index, x); VdClampByte(v) == v / 40
    ensures var v := StoreClamp(index, x); VdClampByte(v) == v / 40
    ensures VdClampByte(ControlClamp(index, MaxClamp(index) + 1)) == MaxClamp(index) / 40
  {
  }

  /* ----------------------------------------------------------------- boost */

  /** `dw791x_bst_option`: `lv << 6 | limit << 4 | ofs / 80` computed in 32
      bits and stored in a `u8`; the fields are not masked. */
  function BstOption(lv: bv32, limit: bv32, ofs: bv32): (r: bv8)
    ensures lv < 4 && limit < 4 && ofs / 80 < 16 ==> r as bv32 == lv * 64 + limit * 16 + ofs / 80
  {
    (((lv << 6) | (limit << 4) | (ofs / 80)) & 0xFF) as bv8
  }

  /** The three fields of a boost-option byte: level, limit, offset step. */
  function BstFields(b: bv8): (bv8, bv8, bv8)
  {
    (b >> 6, (b >> 4) & 0x03, b & 0x0F)
  }

  /** Fields within their widths survive the packing. */
  lemma BstRoundTrip(lv: bv32, limit: bv32, ofs: bv32)
    requires lv < 4 && limit < 4 && ofs / 80 < 16
    ensures BstFields(BstOption(lv, limit, ofs)) == (lv as bv8, limit as bv8, (ofs / 80) as bv8)
  {
  }

  /** Without masking, an over-wide `limit` spills into the `lv` field. */
  lemma BstLimitSpills()
    ensures BstOption(0, 4, 0) == BstOption(1, 0, 0) == 0x40
  {
  }

  /* ------------------------------------------------------------- FIFO size */

  /** `dw791x_fifo_size_set`: the SRAM watermark for a FIFO of `kb` kilobytes. */
  function FifoThreshold(kb: Word32): (thr: Word32)
    ensures 1024 * kb + 4 <= SRAM_BASE ==> thr == SRAM_BASE - (1024 * kb + 4)
    ensures (thr + (1024 * kb + 4) - SRAM_BASE) % U32_MOD == 0
  {
    Wrap32(SRAM_BASE - Wrap32(1024 * kb + 4))
  }

  /** The FIFO size the RTP path derives from the two threshold bytes it reads
      back: `SRAM_BASE - (hi << 8 | lo)` in `u32`. */
  function FifoSizeFromRegs(hi: Byte, lo: Byte): (size: Word32)
    ensures Be16(hi, lo) <= SRAM_BASE ==> size == SRAM_BASE - Be16(hi, lo)
    ensures Be16(hi, lo) > SRAM_BASE ==> size == U32_MOD + SRAM_BASE - Be16(hi, lo)
  {
    Wrap32(SRAM_BASE - Be16(hi, lo))
  }

  /** The threshold written by `fifo_size_set(kb)` reads back in the RTP path
      as a FIFO of `1024 * kb + 4` bytes for every size up to 15 KB. */
  lemma FifoRoundTrip(kb: Word32)
    requires kb <= 15
    ensures var f := WordFrame(REG_FIFO_ADDRH, FifoThreshold(kb));
            FifoSizeFromRegs(f[1], f[2]) == 1024 * kb + 4
  {
    var f := WordFrame(REG_FIFO_ADDRH, FifoThreshold(kb));
    assert Be16(f[1], f[2]) == SRAM_BASE - (1024 * kb + 4);
  }

  /** At 16 KB the threshold underflows and the read-back size wraps. */
  lemma FifoSixteenWraps()
    ensures var f := WordFrame(REG_FIFO_ADDRH, FifoThreshold(16));
            FifoSizeFromRegs(f[1], f[2]) == 0xFFFF_4004
  {
    assert FifoThreshold(16) == 0xFFFF_FFFC;
    var f := WordFrame(REG_FIFO_ADDRH, 0xFFFF_FFFC);
    assert Be16(f[1], f[2]) == 0xFFFC;
    assert Wrap32(SRAM_BASE - 0xFFFC) == 0xFFFF_4004;
  }

  /* ------------------------------------------------------------------ mode */

  /** `dw7914_mode_set`: sets (`bitset == BITSET`) or clears the bits of `mask`
      in the MODE register read and writes the result. */
  function ModeSet(read: bv8, mask: bv8, bitset: int): (w: bv8)
    ensures w & mask == (if bitset == BITSET then mask else 0)
    ensures w & !mask == read & !mask
  {
    if bitset == BITSET then read | mask else read & !mask
  }

  /** Repeating a mode update changes nothing more. */
  lemma ModeSetIdempotent(read: bv8, mask: bv8, bitset: int)
    ensures ModeSet(ModeSet(read, mask, bitset), mask, bitset) == ModeSet(read, mask, bitset)
  {
  }

  /** Updating one MODE bit leaves every other MODE bit as it was read. */
  lemma ModeSetKeepsOtherModeBits(read: bv8, i: int, j: int, bitset: int)
    requires 0 <= i < |MODE_MASKS| && 0 <= j < |MODE_MASKS| && i != j
    ensures ModeSet(read, MODE_MASKS[i], bitset) & MODE_MASKS[j] == read & MODE_MASKS[j]
  {
    ModeMasksDisjoint();
  }

  /* -------------------------------------------------------------- checksum */

  datatype ChecksumResult = ChecksumResult(ret: int, stored: Word32)

  /** Where the expected checksum ends in the firmware image: the end of
      memory page `page`. */
  function ChecksumPoint(page: Word32): Word32
  {
    Wrap32((1 + page) * BIN_BASE)
  }

  /** `dw7914_checksum`: the expected value is the big-endian word in the last
      four bytes of the page when the firmware loads (otherwise the previously
      stored value), the device value is assembled big-endian from the reads of
      CHKSUM3..CHKSUM0, and 0 means they match. */
  function Checksum(ready: bool, fw: Option<seq<Byte>>, prev: Word32, page: Word32, devReads: seq<int>)
    : (r: ChecksumResult)
    requires |devReads| == 4
    requires fw.Some? ==> 4 <= ChecksumPoint(page) <= |fw.value|
    ensures r.ret == 0 || r.ret == -1
    ensures !ready ==> r == ChecksumResult(-1, prev)
    ensures ready ==> (r.ret == 0 <==>
      [LowByte(devReads[0]), LowByte(devReads[1]), LowByte(devReads[2]), LowByte(devReads[3])]
        == (if fw.Some? then fw.value[ChecksumPoint(page) - 4 .. ChecksumPoint(page)] else Be32Bytes(prev)))
    ensures ready && fw.None? ==> r.stored == prev
    ensures ready && fw.Some? ==>
      Be32Bytes(r.stored) == fw.value[ChecksumPoint(page) - 4 .. ChecksumPoint(page)]
  {
    if !ready then ChecksumResult(-1, prev)
    else
      var stored :=
        if fw.Some? then
          var p := fw.value;
          var point := ChecksumPoint(page);
          Be32RoundTrip(p[point - 4], p[point - 3], p[point - 2], p[point - 1]);
          assert p[point - 4 .. point] == [p[point - 4], p[point - 3], p[point - 2], p[point - 1]];
          Be32(p[point - 4], p[point - 3], p[point - 2], p[point - 1])
        else prev;
      var gsum := Be32(LowByte(devReads[0]), LowByte(devReads[1]), LowByte(devReads[2]), LowByte(devReads[3]));
      ChecksumVerdict(devReads, fw, prev, page);
      ChecksumResult(if gsum == stored then 0 else -1, stored)
  }

  lemma ChecksumVerdict(devReads: seq<int>, fw: Option<seq<Byte>>, prev: Word32, page: Word32)
    requires |devReads| == 4
    requires fw.Some? ==> 4 <= ChecksumPoint(page) <= |fw.value|
    ensures var stored :=
              if fw.Some? then
                var p := fw.value;
                var point := ChecksumPoint(page);
                Be32(p[point - 4], p[point - 3], p[point - 2], p[point - 1])
              else prev;
            var dev := [LowByte(devReads[0]), LowByte(devReads[1]), LowByte(devReads[2]), LowByte(devReads[3])];
            Be32(dev[0], dev[1], dev[2], dev[3]) == stored <==>
              dev == (if fw.Some? then fw.value[ChecksumPoint(page) - 4 .. ChecksumPoint(page)] else Be32Bytes(prev))
  {
    var dev := [LowByte(devReads[0]), LowByte(devReads[1]), LowByte(devReads[2]), LowByte(devReads[3])];
    if fw.Some? {
      var p := fw.value;
      var point := ChecksumPoint(page);
      Be32Injective(dev[0], dev[1], dev[2], dev[3], p[point - 4], p[point - 3], p[point - 2], p[point - 1]);
    } else {
      var b := Be32Bytes(prev);
      Be32RoundTrip(dev[0], dev[1], dev[2], dev[3]);
      assert prev == Be32(b[0], b[1], b[2], b[3]) by {
        Be32Split(prev);
      }
    }
  }

  lemma Be32Split(w: Word32)
    ensures var b := Be32Bytes(w); w == Be32(b[0], b[1], b[2], b[3])
  {
    var w1 := w / 256;
    var w2 := w1 / 256;
    assert w == w1 * 256 + w % 256;
    assert w1 == w2 * 256 + w1 % 256;
    assert w2 == (w2 / 256) * 256 + w2 % 256;
  }
}
