/**
 The chip's memory geometry, transfer sizes and register map for the DW7914
 (the only revision the streaming core supports), as the driver header and
 `dw791x_device_init` fix them.
 */
module Geometry {
  import opened Bits

  const SRAM_BASE: int := 0x4000
  const BIN_BASE: int := 0x3000
  /** Largest payload one frame may carry after the register byte(s). */
  const MAX_FRAME_DATA: int := 1027
  const I2C_TRANS_RTP: int := 1024
  const I2C_TRANS_MEM: int := 1024
  const FIFO_2KB: int := 2
  const FIFO_4KB: int := 4
  const FIFO_8KB: int := 8

  const BITSET: int := 1
  const BITCLR: int := 0
  const MEM: Byte := 1
  const DRV_STOP: Byte := 0
  const DRV_PLAY: Byte := 1

  /* DW7914 registers used by the core. */
  const REG_TRIG_CTRL: Byte := 0x03
  const REG_PWM: Byte := 0x04
  const REG_BST_OPTION: Byte := 0x06
  const REG_VD_CLAMP: Byte := 0x0A
  const REG_MODE: Byte := 0x0B
  const REG_PLAYBACK: Byte := 0x0C
  const REG_RTP_INPUT: Byte := 0x0D
  const REG_RAM_ADDR: Byte := 0x46
  const REG_FIFO_ADDRH: Byte := 0x49
  const REG_FIFO_ADDRL: Byte := 0x4A
  const REG_FIFO_LEVEL_H: Byte := 0x4D
  const REG_FIFO_LEVEL_L: Byte := 0x4E

  /* Bits of the DW7914 MODE register. */
  const D14_FIFO_FLUSH: bv8 := 0x20
  const D14_CHKSUM: bv8 := 0x10
  const D14_AUTO_TRACK: bv8 := 0x08
  const D14_AUTO_BRAKE: bv8 := 0x04
  const D14_DIGA_MODE: bv8 := 0x02
  const D14_MEM_MODE: bv8 := 0x01

  const MODE_MASKS: seq<bv8> :=
    [D14_FIFO_FLUSH, D14_CHKSUM, D14_AUTO_TRACK, D14_AUTO_BRAKE, D14_DIGA_MODE, D14_MEM_MODE]

  /** A byte with exactly one bit set. */
  predicate SingleBit(m: bv8)
  {
    m != 0 && m & (m - 1) == 0
  }

  /** Both transfer units fit in one frame, and the 8 KB FIFO threshold the
      driver programs at init lies inside the SRAM window. */
  lemma TransferUnitsFitFrame()
    ensures I2C_TRANS_RTP == I2C_TRANS_MEM <= MAX_FRAME_DATA
    ensures 0 < SRAM_BASE - (FIFO_8KB * 1024 + 4) == 0x1FFC
  {
  }

  /** The MODE-register masks are distinct single bits that share no bit, so a
      read-modify-write of one of them cannot disturb another. */
  lemma ModeMasksDisjoint()
    ensures forall i :: 0 <= i < |MODE_MASKS| ==> SingleBit(MODE_MASKS[i])
    ensures forall i, j :: 0 <= i < j < |MODE_MASKS| ==> MODE_MASKS[i] & MODE_MASKS[j] == 0
  {
  }
}
