/**
 The chunked MEM-mode loaders: `request_transfer_mem_wave`, which copies a
 waveform (or a whole 12 KB page) of a firmware image into the DW7914's SRAM,
 and `transfer_atuovib_wave`, which copies a self-addressed blob such as the
 auto-track brake waveform. Both write a 5-byte header and then the body in
 `I2C_TRANS_MEM`-byte bulk writes plus a tail, each to the RAM address that
 continues where the previous write ended.

 A header is two bytes of body RAM address, two bytes whose low 12 bits are the
 body size, and a gain byte.
 */
module MemLoader {
  import opened Bits
  import opened Geometry
  import opened Trace

  /* --------------------------------------------------------------- headers */

  const HEADER_LEN: int := 5

  datatype Header = Header(addr: int, size: int, gain: Byte)

  predicate ValidHeader(h: Header)
  {
    0 <= h.addr < 0x1_0000 && 0 <= h.size < 0x1000
  }

  /** The loaders' reading of a header: the address big-endian, the size from
      the low nibble of the third byte and the fourth byte. */
  function DecodeHeader(b: seq<Byte>): (h: Header)
    requires |b| >= HEADER_LEN
    ensures ValidHeader(h)
    ensures h.addr / 256 == b[0] && h.addr % 256 == b[1]
    ensures h.size / 256 == b[2] % 16 && h.size % 256 == b[3]
  {
    Header(Be16(b[0], b[1]), Be16(b[2] % 16, b[3]), b[4])
  }

  function EncodeHeader(h: Header): (b: seq<Byte>)
    requires ValidHeader(h)
    ensures |b| == HEADER_LEN
  {
    [h.addr / 256, h.addr % 256, h.size / 256, h.size % 256, h.gain]
  }

  lemma HeaderRoundTrip(h: Header)
    requires ValidHeader(h)
    ensures DecodeHeader(EncodeHeader(h)) == h
  {
    var b := EncodeHeader(h);
    DivMod256(h.addr / 256, h.addr % 256);
    DivMod256(h.size / 256, h.size % 256);
  }

  /** The high nibble of the size byte is not part of the size. */
  lemma HeaderIgnoresSizeNibble(b: seq<Byte>, nibble: int)
    requires |b| >= HEADER_LEN && 0 <= nibble < 16
    ensures DecodeHeader(b[2 := b[2] % 16 + 16 * nibble]) == DecodeHeader(b)
  {
  }

  /* ------------------------------------------------------------ body plan */

  /** Number of bulk writes for a body of `size` bytes: the full transfer
      units plus one tail when a remainder is left. */
  function ChunkCount(size: nat): nat
  {
    size / I2C_TRANS_MEM + (if size % I2C_TRANS_MEM > 0 then 1 else 0)
  }

  /** Length of the `k`-th bulk write. */
  function ChunkLen(size: nat, k: nat): nat
  {
    if k < size / I2C_TRANS_MEM then I2C_TRANS_MEM else size % I2C_TRANS_MEM
  }

  /** The `k`-th bulk write of a body of `size` bytes read from `src` at
      `from` and stored at RAM address `addr`. */
  function Chunk(src: seq<Byte>, from: nat, addr: nat, size: nat, k: nat): Action
    requires k < ChunkCount(size)
    requires from + size <= |src| && addr + size < U32_MOD
  {
    var off := k * I2C_TRANS_MEM;
    SeqWrite(REG_RAM_ADDR, Ram16(addr + off), src[from + off .. from + off + ChunkLen(size, k)])
  }

  /** `t` is the chunked transfer of the body. */
  predicate IsBody(t: seq<Action>, src: seq<Byte>, from: nat, addr: nat, size: nat)
    requires from + size <= |src| && addr + size < U32_MOD
  {
    |t| == ChunkCount(size) && forall k :: 0 <= k < |t| ==> t[k] == Chunk(src, from, addr, size, k)
  }

  /** The full transfer units of a body, the `for` loop of both loaders. */
  method WriteUnits(src: seq<Byte>, from: nat, addr: nat, size: nat) returns (t: seq<Action>)
    requires from + size <= |src| && addr + size < U32_MOD
    ensures |t| == size / I2C_TRANS_MEM
    ensures forall k :: 0 <= k < |t| ==> t[k] == Chunk(src, from, addr, size, k)
    ensures Sent(t) == src[from .. from + |t| * I2C_TRANS_MEM]
  {
    var loop := size / I2C_TRANS_MEM;
    t := [];
    var i := 0;
    while i < loop
      invariant 0 <= i <= loop
      invariant |t| == i
      invariant forall k :: 0 <= k < i ==> t[k] == Chunk(src, from, addr, size, k)
      invariant Sent(t) == src[from .. from + i * I2C_TRANS_MEM]
    {
      UnitBound(i, size);
      var w := Chunk(src, from, addr, size, i);
      BodyStep(t, src, from, addr, size, i, w);
      t := t + [w];
      i := i + 1;
    }
  }

  /** The body transfer shared by both loaders: the full units, then the
      tail when the size leaves a remainder. The writes go to consecutive RAM
      addresses and together carry exactly the body bytes in order. */
  method WriteBody(src: seq<Byte>, from: nat, addr: nat, size: nat) returns (t: seq<Action>)
    requires from + size <= |src| && addr + size < U32_MOD
    ensures IsBody(t, src, from, addr, size)
    ensures Sent(t) == src[from .. from + size]
  {
    var loop := size / I2C_TRANS_MEM;
    var tail := size % I2C_TRANS_MEM;
    UnitSplit(size);
    t := WriteUnits(src, from, addr, size);
    if tail > 0 {
      var w := Chunk(src, from, addr, size, loop);
      BodyStep(t, src, from, addr, size, loop, w);
      t := t + [w];
    }
  }

  /** A full transfer unit below `size / I2C_TRANS_MEM` lies inside the
      body. */
  lemma UnitBound(i: nat, size: nat)
    requires i < size / I2C_TRANS_MEM
    ensures i * I2C_TRANS_MEM + I2C_TRANS_MEM <= size
    ensures i < ChunkCount(size) && ChunkLen(size, i) == I2C_TRANS_MEM
  {
    assert (i + 1) * I2C_TRANS_MEM <= (size / I2C_TRANS_MEM) * I2C_TRANS_MEM;
  }

  lemma UnitSplit(size: nat)
    ensures size == (size / I2C_TRANS_MEM) * I2C_TRANS_MEM + size % I2C_TRANS_MEM
    ensures 0 <= size % I2C_TRANS_MEM < I2C_TRANS_MEM
    ensures ChunkCount(size) == size / I2C_TRANS_MEM + (if size % I2C_TRANS_MEM > 0 then 1 else 0)
  {
  }

  /** Every bulk write of a body is non-empty and fits one transfer unit, so
      `dw791x_seq_write` accepts it. */
  lemma BodyChunksBounded(t: seq<Action>, src: seq<Byte>, from: nat, addr: nat, size: nat)
    requires from + size <= |src| && addr + size < U32_MOD
    requires IsBody(t, src, from, addr, size)
    ensures forall k :: 0 <= k < |t| ==> t[k].SeqWrite? && 0 < |t[k].data| <= I2C_TRANS_MEM
  {
    ChunkCountIsCeiling(size);
  }

  /** Appending the `i`-th bulk write keeps the transfer a prefix of the body. */
  lemma BodyStep(t: seq<Action>, src: seq<Byte>, from: nat, addr: nat, size: nat, i: nat, w: Action)
    requires from + size <= |src| && addr + size < U32_MOD
    requires i < ChunkCount(size) && i * I2C_TRANS_MEM + ChunkLen(size, i) <= size
    requires w == Chunk(src, from, addr, size, i)
    requires |t| == i && forall k :: 0 <= k < i ==> t[k] == Chunk(src, from, addr, size, k)
    requires Sent(t) == src[from .. from + i * I2C_TRANS_MEM]
    ensures forall k :: 0 <= k < i + 1 ==> (t + [w])[k] == Chunk(src, from, addr, size, k)
    ensures Sent(t + [w]) == src[from .. from + i * I2C_TRANS_MEM + ChunkLen(size, i)]
  {
    ChunksExtend(t, src, from, addr, size, i, w);
    ChunkCarries(src, from, addr, size, i);
    BodySent(t, src, from, i * I2C_TRANS_MEM, ChunkLen(size, i), w);
  }

  lemma ChunkCarries(src: seq<Byte>, from: nat, addr: nat, size: nat, k: nat)
    requires k < ChunkCount(size) && from + size <= |src| && addr + size < U32_MOD
    ensures from + k * I2C_TRANS_MEM + ChunkLen(size, k) <= |src|
    ensures Chunk(src, from, addr, size, k).SeqWrite?
    ensures Chunk(src, from, addr, size, k).data
         == src[from + k * I2C_TRANS_MEM .. from + k * I2C_TRANS_MEM + ChunkLen(size, k)]
  {
  }

  lemma ChunksExtend(t: seq<Action>, src: seq<Byte>, from: nat, addr: nat, size: nat, i: nat, w: Action)
    requires from + size <= |src| && addr + size < U32_MOD
    requires i < ChunkCount(size) && w == Chunk(src, from, addr, size, i)
    requires |t| == i && forall k :: 0 <= k < i ==> t[k] == Chunk(src, from, addr, size, k)
    ensures forall k :: 0 <= k < i + 1 ==> (t + [w])[k] == Chunk(src, from, addr, size, k)
  {
  }

  lemma BodySent(t: seq<Action>, src: seq<Byte>, from: nat, done: nat, len: nat, w: Action)
    requires from + done + len <= |src|
    requires w.SeqWrite? && w.data == src[from + done .. from + done + len]
    requires Sent(t) == src[from .. from + done]
    ensures Sent(t + [w]) == src[from .. from + done + len]
  {
    SentOne(t, w);
    SliceJoin(src, from, from + done, from + done + len);
  }

  lemma SentOne(t: seq<Action>, w: Action)
    requires w.SeqWrite?
    ensures Sent(t + [w]) == Sent(t) + w.data
  {
    SentAppend(t, [w]);
    assert Sent([w]) == w.data + Sent([]);
  }

  /** The number of bulk writes is the size divided by the transfer unit,
      rounded up, and every write is non-empty. */
  lemma ChunkCountIsCeiling(size: nat)
    ensures size == 0 <==> ChunkCount(size) == 0
    ensures size > 0 ==> (ChunkCount(size) - 1) * I2C_TRANS_MEM < size <= ChunkCount(size) * I2C_TRANS_MEM
    ensures forall k :: 0 <= k < ChunkCount(size) ==> 0 < ChunkLen(size, k) <= I2C_TRANS_MEM
  {
  }

  lemma SliceJoin(src: seq<Byte>, a: int, b: int, c: int)
    requires 0 <= a <= b <= c <= |src|
    ensures src[a .. b] + src[b .. c] == src[a .. c]
  {
  }

  /* --------------------------------------------------------- the loaders */

  datatype Status = Unready | ModeWriteFailed | Loaded

  datatype LoadResult = LoadResult(status: Status, trace: seq<Action>)

  /** Offset in the firmware image of the header a `point` selects. */
  function HeaderOffset(page: nat, point: nat): int
  {
    point * HEADER_LEN - 4 + BIN_BASE * page
  }

  /** Where the body comes from and where it goes: for `point > 0` the header
      in the image names it; `point == 0` copies the whole 12 KB page to RAM
      address 0. */
  function BodyPlan(page: nat, point: nat, fw: seq<Byte>): (p: (int, int, int))
    requires MemReadsInRange(page, point, fw)
    ensures 0 <= p.1 && 0 <= p.2
  {
    if point > 0 then
      var h := DecodeHeader(fw[HeaderOffset(page, point) ..]);
      (h.addr + BIN_BASE * page, h.addr, h.size)
    else (BIN_BASE * page, 0, BIN_BASE)
  }

  /** The image holds every byte the loader reads: the selected header and the
      body it names, or the whole page. The C code never checks this. */
  predicate MemReadsInRange(page: nat, point: nat, fw: seq<Byte>)
  {
    && |fw| < U32_MOD
    && (point > 0 ==>
          && HeaderOffset(page, point) + HEADER_LEN <= |fw|
          && var h := DecodeHeader(fw[HeaderOffset(page, point) ..]);
             h.addr + BIN_BASE * page + h.size <= |fw|)
    && (point == 0 ==> BIN_BASE * page + BIN_BASE <= |fw|)
  }

  /** `request_transfer_mem_wave(client, page, point, fw, size)` on a channel
      whose readiness is `ready`, where the MODE write reports success
      exactly when `modeWriteOk`. */
  method LoadMem(ready: bool, modeWriteOk: bool, page: nat, point: nat, fw: seq<Byte>) returns (r: LoadResult)
    requires ready ==> MemReadsInRange(page, point, fw)
    ensures !ready ==> r == LoadResult(Unready, [])
    ensures ready && !modeWriteOk ==> r == LoadResult(ModeWriteFailed, [ByteWrite(REG_MODE, MEM)])
    ensures ready && modeWriteOk ==>
      && r.status == Loaded
      && var hdr := if point > 0 then 1 else 0;
         var (from, addr, size) := BodyPlan(page, point, fw);
         && |r.trace| >= 1 + hdr
         && r.trace[0] == ByteWrite(REG_MODE, MEM)
         && (point > 0 ==>
               r.trace[1] == SeqWrite(REG_RAM_ADDR, Ram16(point * HEADER_LEN - 4),
                                      fw[HeaderOffset(page, point) .. HeaderOffset(page, point) + HEADER_LEN]))
         && IsBody(r.trace[1 + hdr..], fw, from, addr, size)
         && Sent(r.trace[1 + hdr..]) == fw[from .. from + size]
  {
    if !ready {
      return LoadResult(Unready, []);
    }
    if !modeWriteOk {
      return LoadResult(ModeWriteFailed, [ByteWrite(REG_MODE, MEM)]);
    }
    var head := [ByteWrite(REG_MODE, MEM)];
    if point > 0 {
      var at := HeaderOffset(page, point);
      head := head + [SeqWrite(REG_RAM_ADDR, Ram16(point * HEADER_LEN - 4), fw[at .. at + HEADER_LEN])];
    }
    var (from, addr, size) := BodyPlan(page, point, fw);
    var body := WriteBody(fw, from, addr, size);
    r := LoadResult(Loaded, head + body);
    assert r.trace[|head|..] == body;
  }

  /** The blob holds its two address bytes, its header and the body the header
      announces. */
  predicate AutoVibFits(wave: seq<Byte>)
  {
    |wave| >= 2 + HEADER_LEN && 2 + HEADER_LEN + DecodeHeader(wave[2..]).size <= |wave|
  }

  /** `transfer_atuovib_wave(client, wave)`: set MEM mode, write the header to
      the RAM address in the blob's first two bytes, then the body that
      follows the header to the address the header names. */
  method LoadAutoVib(ready: bool, wave: seq<Byte>) returns (r: LoadResult)
    requires ready ==> AutoVibFits(wave)
    ensures !ready ==> r == LoadResult(Unready, [])
    ensures ready ==>
      && r.status == Loaded
      && |r.trace| >= 2
      && r.trace[0] == ModeBits(D14_MEM_MODE, true)
      && r.trace[1] == SeqWrite(REG_RAM_ADDR, Ram16(Be16(wave[0], wave[1])), wave[2 .. 2 + HEADER_LEN])
      && var h := DecodeHeader(wave[2..]);
         && IsBody(r.trace[2..], wave, 2 + HEADER_LEN, h.addr, h.size)
         && Sent(r.trace[2..]) == wave[2 + HEADER_LEN .. 2 + HEADER_LEN + h.size]
  {
    if !ready {
      return LoadResult(Unready, []);
    }
    var head := [ModeBits(D14_MEM_MODE, true), SeqWrite(REG_RAM_ADDR, Ram16(Be16(wave[0], wave[1])), wave[2 .. 2 + HEADER_LEN])];
    var h := DecodeHeader(wave[2..]);
    var body := WriteBody(wave, 2 + HEADER_LEN, h.addr, h.size);
    r := LoadResult(Loaded, head + body);
    assert r.trace[2..] == body;
  }
}
