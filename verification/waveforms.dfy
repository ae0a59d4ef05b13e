/**
 The static MEM-mode waveform tables of the driver header: five 5-byte headers
 (with their gain-level variants), the lengths of the PCM tables they describe,
 and the self-addressed auto-track brake blob; and the RAM image that the "mem
 play" command of `dw791x_vibrator_control` (function 4) builds from them.

 The PCM sample values are not modelled: a PCM table is any byte sequence of
 its declared length.
 */
module Waveforms {
  import opened Bits
  import opened Geometry
  import opened Trace
  import opened MemLoader

  /* ---------------------------------------------------------------- tables */

  const H1: seq<Byte> := [0x02, 0x7C, 0x01, 0x60, 0xE1]
  const H2: seq<Byte> := [0x03, 0xDC, 0x02, 0x23, 0x64]
  const H3: seq<Byte> := [0x05, 0xFF, 0x03, 0x7A, 0x64]
  const H4: seq<Byte> := [0x09, 0x79, 0x02, 0x23, 0x64]
  const H5: seq<Byte> := [0x0B, 0x9C, 0x03, 0x7A, 0x64]

  /** `haptic_h1` .. `haptic_h5`, in RAM order. */
  const HEADERS: seq<seq<Byte>> := [H1, H2, H3, H4, H5]

  /** Declared lengths of `haptic_pcm1` .. `haptic_pcm5`. */
  const PCM_LENS: seq<int> := [352, 547, 890, 547, 890]

  /** The level variants `haptic_hN_0` .. `haptic_hN_3` of the first three
      headers. */
  const LEVELS: seq<seq<seq<Byte>>> := [
    [[0x02, 0x7C, 0x01, 0x60, 0x00], [0x02, 0x7C, 0x01, 0x60, 0x7F],
     [0x02, 0x7C, 0x01, 0x60, 0xE1], [0x02, 0x7C, 0x01, 0x60, 0xFF]],
    [[0x03, 0xDC, 0x02, 0x23, 0x00], [0x03, 0xDC, 0x02, 0x23, 0x3F],
     [0x03, 0xDC, 0x02, 0x23, 0x64], [0x03, 0xDC, 0x02, 0x23, 0xC8]],
    [[0x05, 0xFF, 0x03, 0x7A, 0x00], [0x05, 0xFF, 0x03, 0x7A, 0x3F],
     [0x05, 0xFF, 0x03, 0x7A, 0x64], [0x05, 0xFF, 0x03, 0x7A, 0x7D]]
  ]

  /** Number of 5-byte header slots in front of the first body. */
  const HEADER_SLOTS: int := 127

  /** `auto_track_base_m1` as its initializer lists it: the RAM address of
      its header, the header, and 108 body samples. */
  const AUTO_TRACK_SLOT: seq<Byte> := [0x00, 0x01]
  const AUTO_TRACK_HEADER: seq<Byte> := [0x02, 0x7C, 0x00, 0x6E, 0x1E]
  const AUTO_TRACK_SAMPLES: seq<Byte> := [
    0x17, 0x2A, 0x39, 0x46, 0x50, 0x59, 0x60, 0x65, 0x6A, 0x6E, 0x71, 0x73, 0x76, 0x77, 0x79, 0x7A,
    0x7B, 0x7C, 0x7C, 0x7D, 0x7D, 0x7D, 0x7E, 0x7E, 0x7E, 0x7F, 0x7F, 0x7F, 0x7F, 0x7F, 0x7F, 0x7F,
    0x7F, 0x7F, 0x7F, 0x7F, 0x7F, 0x7F, 0x7F, 0x7F, 0x7F, 0x7F, 0x7F, 0x7F, 0x7F, 0x7F, 0x7F, 0x7F,
    0x7F, 0x7F, 0x7F, 0x7F, 0x7F, 0x7F, 0x7F, 0x7F, 0x7F, 0x7F, 0x7F, 0x7F, 0x7F, 0x7F, 0x7F, 0x7F,
    0x7F, 0x7F, 0x7F, 0x7F, 0x7F, 0x7F, 0x7F, 0x7F, 0x7F, 0x7F, 0x7F, 0x7F, 0x7F, 0x7F, 0x7F, 0x7F,
    0x7F, 0x7F, 0x7F, 0x7F, 0x7F, 0x7F, 0x7F, 0x7F, 0x7F, 0x7F, 0x7F, 0x7F, 0x7F, 0x7F, 0x7F, 0x7F,
    0x7F, 0x7F, 0x7F, 0x7F, 0x7F, 0x7F, 0x7F, 0x7F, 0x7F, 0x7F, 0x7F, 0x7F
  ]
  const AUTO_TRACK_LISTED: seq<Byte> := AUTO_TRACK_SLOT + AUTO_TRACK_HEADER + AUTO_TRACK_SAMPLES

  /** The declared length of `auto_track_base_m1`. */
  const AUTO_TRACK_DECLARED: int := 117

  /** The array as stored: C fills the elements the initializer leaves out
      with zero. */
  const AUTO_TRACK: seq<Byte> :=
    AUTO_TRACK_LISTED + seq(AUTO_TRACK_DECLARED - |AUTO_TRACK_LISTED|, _ => 0)

  /* ------------------------------------------------------ table agreement */

  /** Each header's 12-bit size field is the length of the PCM table it
      describes. */
  lemma HeaderSizesMatchTables()
    ensures |HEADERS| == |PCM_LENS| == 5
    ensures forall i :: 0 <= i < |HEADERS| ==>
      |HEADERS[i]| == HEADER_LEN && DecodeHeader(HEADERS[i]).size == PCM_LENS[i]
  {
    assert DecodeHeader(H1).size == 0x160;
    assert DecodeHeader(H2).size == 0x223;
    assert DecodeHeader(H3).size == 0x37A;
    assert DecodeHeader(H4).size == 0x223;
    assert DecodeHeader(H5).size == 0x37A;
  }

  /** The bodies are packed back to back: each one starts where the previous
      one ends, so no two overlap. */
  lemma BodiesPacked()
    ensures forall i, j :: 0 <= i && j == i + 1 < |HEADERS| ==>
      |HEADERS[i]| == |HEADERS[j]| == HEADER_LEN &&
      DecodeHeader(HEADERS[i]).addr + PCM_LENS[i] == DecodeHeader(HEADERS[j]).addr
  {
    assert DecodeHeader(H1).addr == 0x027C;
    assert DecodeHeader(H2).addr == 0x03DC;
    assert DecodeHeader(H3).addr == 0x05FF;
    assert DecodeHeader(H4).addr == 0x0979;
    assert DecodeHeader(H5).addr == 0x0B9C;
  }

  /** The first body starts just past 127 header slots after RAM address 1,
      and every header slot `point*5-4` of a point in 1..127 ends at or before
      it. */
  lemma FirstBodyAfterSlots()
    ensures DecodeHeader(H1).addr == HEADER_SLOTS * HEADER_LEN + 1
    ensures forall point :: 1 <= point <= HEADER_SLOTS ==>
      point * HEADER_LEN - 4 + HEADER_LEN <= DecodeHeader(H1).addr
  {
    assert DecodeHeader(H1).addr == 0x027C;
  }

  /** A level variant is its base header with another gain byte: the address
      and size it decodes to are the base header's. The third variant is the
      base header itself. */
  lemma LevelVariantsShareLayout()
    ensures |LEVELS| == 3
    ensures forall i, v :: 0 <= i < |LEVELS| && 0 <= v < |LEVELS[i]| ==>
      |LEVELS[i][v]| == HEADER_LEN &&
      LEVELS[i][v][..4] == HEADERS[i][..4] &&
      DecodeHeader(LEVELS[i][v]) == DecodeHeader(HEADERS[i]).(gain := LEVELS[i][v][4])
    ensures forall i :: 0 <= i < |LEVELS| ==> |LEVELS[i]| == 4 && LEVELS[i][2] == HEADERS[i]
  {
  }

  /** `auto_track_base_m1` addresses header slot 1, its header announces a
      110-byte body at the first body address, and its declared length is
      exactly address + header + body, so it satisfies what
      `transfer_atuovib_wave` reads. */
  lemma AutoTrackLayout()
    ensures |AUTO_TRACK_LISTED| == 115
    ensures |AUTO_TRACK| == AUTO_TRACK_DECLARED
    ensures AUTO_TRACK[2..7] == AUTO_TRACK_HEADER
    ensures Be16(AUTO_TRACK[0], AUTO_TRACK[1]) == 1 * HEADER_LEN - 4
    ensures DecodeHeader(AUTO_TRACK[2..]).addr == DecodeHeader(H1).addr
    ensures DecodeHeader(AUTO_TRACK[2..]).size == 110
    ensures AUTO_TRACK_DECLARED == 2 + HEADER_LEN + DecodeHeader(AUTO_TRACK[2..]).size
    ensures AutoVibFits(AUTO_TRACK)
    ensures AUTO_TRACK[|AUTO_TRACK| - 2..] == [0, 0]
  {
    var listed := AUTO_TRACK_LISTED;
    assert AUTO_TRACK[..|listed|] == listed;
    assert listed[..2] == AUTO_TRACK_SLOT;
    assert listed[2..7] == AUTO_TRACK_HEADER;
    assert AUTO_TRACK[0] == listed[0] && AUTO_TRACK[1] == listed[1];
    assert AUTO_TRACK[2..7] == listed[2..7];
    assert AUTO_TRACK[2..][..5] == AUTO_TRACK_HEADER;
  }

  /* ----------------------------------------------------- the RAM image */

  /** The RAM bytes a bulk write to the RAM address register stores. */
  predicate Covers(w: Action, a: int)
  {
    w.SeqWrite? && w.reg == REG_RAM_ADDR && w.ram.Ram16? &&
    w.ram.addr <= a < w.ram.addr + |w.data|
  }

  /** The byte RAM address `a` holds after the writes of `t`: the last write
      that covers it wins; `None` when no write touches it. */
  function RamAt(t: seq<Action>, a: int): (r: Option<Byte>)
    ensures r.Some? <==> exists j :: 0 <= j < |t| && Covers(t[j], a)
    decreases |t|
  {
    if |t| == 0 then None
    else
      var w := t[|t| - 1];
      var prefix := t[..|t| - 1];
      assert forall j :: 0 <= j < |prefix| ==> prefix[j] == t[j];
      if Covers(w, a) then Some(w.data[a - w.ram.addr]) else RamAt(prefix, a)
  }

  /** Address `a` holds what the `i`-th write put there when no later write
      covers it. */
  lemma {:induction false} RamAtLatest(t: seq<Action>, i: nat, a: int)
    requires i < |t| && Covers(t[i], a)
    requires forall j :: i < j < |t| ==> !Covers(t[j], a)
    ensures RamAt(t, a) == Some(t[i].data[a - t[i].ram.addr])
  {
    if i < |t| - 1 {
      var prefix := t[..|t| - 1];
      assert prefix[i] == t[i];
      assert forall j :: i < j < |prefix| ==> prefix[j] == t[j];
      RamAtLatest(prefix, i, a);
    }
  }

  /** Two RAM writes whose address ranges do not meet. */
  predicate Apart(v: Action, w: Action)
  {
    v.SeqWrite? && w.SeqWrite? && v.ram.Ram16? && w.ram.Ram16? &&
    (v.ram.addr + |v.data| <= w.ram.addr || w.ram.addr + |w.data| <= v.ram.addr)
  }

  /** No two writes of `t` meet. */
  predicate AllApart(t: seq<Action>)
  {
    forall x, y :: 0 <= x < y < |t| ==> Apart(t[x], t[y])
  }

  /** When every two writes are apart, every write survives in full. */
  lemma DisjointWritesStick(t: seq<Action>, i: nat, k: nat)
    requires AllApart(t)
    requires i < |t| && t[i].SeqWrite? && t[i].reg == REG_RAM_ADDR && t[i].ram.Ram16?
    requires k < |t[i].data|
    ensures RamAt(t, t[i].ram.addr + k) == Some(t[i].data[k])
  {
    var a := t[i].ram.addr + k;
    forall j | i < j < |t|
      ensures !Covers(t[j], a)
    {
      ApartMisses(t[i], t[j], a);
    }
    RamAtLatest(t, i, a);
  }

  lemma ApartMisses(v: Action, w: Action, a: int)
    requires Apart(v, w) && Covers(v, a)
    ensures !Covers(w, a)
  {
  }

  /* -------------------------------------------------- the "mem play" load */

  /** RAM addresses function 4 of `dw791x_vibrator_control` writes the three
      headers to: slots 1, 6 and 11. */
  const SLOT_ADDRS: seq<int> := [0x01, 0x06, 0x0B]

  /** RAM addresses it writes the three PCM bodies to, as written. */
  const WRITTEN_BODY_ADDRS: seq<int> := [0x027C, 0x03DC, 0x0566]

  /** Three PCM tables of the declared lengths of the first three. */
  predicate PcmTables(pcm: seq<seq<Byte>>)
  {
    |pcm| == 3 && forall i :: 0 <= i < 3 ==> |pcm[i]| == PCM_LENS[i]
  }

  /** Header, body, header, body, header, body, with the bodies at `at`. */
  function MemPlayLayout(pcm: seq<seq<Byte>>, at: seq<int>): (t: seq<Action>)
    requires PcmTables(pcm) && |at| == 3
    requires forall i :: 0 <= i < 3 ==> 0 <= at[i] < 0x1_0000
    ensures |t| == 6
    ensures forall i :: 0 <= i < 3 ==>
      t[2 * i] == SeqWrite(REG_RAM_ADDR, Ram16(SLOT_ADDRS[i]), HEADERS[i]) &&
      t[2 * i + 1] == SeqWrite(REG_RAM_ADDR, Ram16(at[i]), pcm[i])
    ensures Sent(t) == H1 + pcm[0] + H2 + pcm[1] + H3 + pcm[2]
  {
    var t := 
    [SeqWrite(REG_RAM_ADDR, Ram16(SLOT_ADDRS[0]), HEADERS[0]), SeqWrite(REG_RAM_ADDR, Ram16(at[0]), pcm[0]),
     SeqWrite(REG_RAM_ADDR, Ram16(SLOT_ADDRS[1]), HEADERS[1]), SeqWrite(REG_RAM_ADDR, Ram16(at[1]), pcm[1]),
     SeqWrite(REG_RAM_ADDR, Ram16(SLOT_ADDRS[2]), HEADERS[2]), SeqWrite(REG_RAM_ADDR, Ram16(at[2]), pcm[2])];
    SentSix(t);
    t
  }

  /** The payload of six bulk writes is their data in order. */
  lemma SentSix(t: seq<Action>)
    requires |t| == 6 && forall i :: 0 <= i < 6 ==> t[i].SeqWrite?
    ensures Sent(t) == t[0].data + t[1].data + t[2].data + t[3].data + t[4].data + t[5].data
  {
    assert t == [t[0]] + [t[1]] + [t[2]] + [t[3]] + [t[4]] + [t[5]];
    forall i | 0 <= i < 6
      ensures Sent([t[i]]) == t[i].data
    {
      assert [t[i]][1..] == [];
    }
    SentAppend([t[0]], [t[1]]);
    SentAppend([t[0]] + [t[1]], [t[2]]);
    SentAppend([t[0]] + [t[1]] + [t[2]], [t[3]]);
    SentAppend([t[0]] + [t[1]] + [t[2]] + [t[3]], [t[4]]);
    SentAppend([t[0]] + [t[1]] + [t[2]] + [t[3]] + [t[4]], [t[5]]);
  }

  /** The bulk writes of function 4 as written: the third body at 0x0566. */
  function MemPlayAsWritten(pcm: seq<seq<Byte>>): (t: seq<Action>)
    requires PcmTables(pcm)
    ensures |t| == 6 && Sent(t) == H1 + pcm[0] + H2 + pcm[1] + H3 + pcm[2]
    ensures forall i :: 0 <= i < 3 ==> t[2 * i] == SeqWrite(REG_RAM_ADDR, Ram16(SLOT_ADDRS[i]), HEADERS[i])
    ensures forall i :: 0 <= i < 2 ==>
      t[2 * i + 1] == SeqWrite(REG_RAM_ADDR, Ram16(DecodeHeader(HEADERS[i]).addr), pcm[i])
    ensures t[5] == SeqWrite(REG_RAM_ADDR, Ram16(WRITTEN_BODY_ADDRS[2]), pcm[2])
    ensures WRITTEN_BODY_ADDRS[2] != DecodeHeader(H3).addr
  {
    MemPlayLayout(pcm, WRITTEN_BODY_ADDRS)
  }

  /** The bulk writes of function 4 with every body at the address its header
      announces. */
  function MemPlay(pcm: seq<seq<Byte>>): (t: seq<Action>)
    requires PcmTables(pcm)
    ensures |t| == 6 && Sent(t) == H1 + pcm[0] + H2 + pcm[1] + H3 + pcm[2]
    ensures forall i :: 0 <= i < 3 ==>
      t[2 * i + 1] == SeqWrite(REG_RAM_ADDR, Ram16(DecodeHeader(HEADERS[i]).addr), pcm[i])
  {
    var at := [DecodeHeader(H1).addr, DecodeHeader(H2).addr, DecodeHeader(H3).addr];
    MemPlayLayout(pcm, at)
  }

  /** The header slots are the ones the MEM loader uses for points 1, 2, 3. */
  lemma SlotsArePoints()
    ensures forall i :: 0 <= i < 3 ==> SLOT_ADDRS[i] == (i + 1) * HEADER_LEN - 4
  {
  }

  /** After the corrected load, RAM holds each header in its slot. */
  lemma MemPlayHoldsHeaders(pcm: seq<seq<Byte>>)
    requires PcmTables(pcm)
    ensures forall i, k :: 0 <= i < 3 && 0 <= k < HEADER_LEN ==>
      RamAt(MemPlay(pcm), SLOT_ADDRS[i] + k) == Some(HEADERS[i][k])
  {
    var t := MemPlay(pcm);
    MemPlayAllApart(pcm);
    forall i, k | 0 <= i < 3 && 0 <= k < HEADER_LEN
      ensures RamAt(t, SLOT_ADDRS[i] + k) == Some(HEADERS[i][k])
    {
      DisjointWritesStick(t, 2 * i, k);
    }
  }

  /** After the corrected load, RAM holds each body, in full, at the address
      and for the size its header announces. */
  lemma MemPlayHoldsBodies(pcm: seq<seq<Byte>>)
    requires PcmTables(pcm)
    ensures forall i :: 0 <= i < 3 ==> DecodeHeader(HEADERS[i]).size == |pcm[i]|
    ensures forall i, k :: 0 <= i < 3 && 0 <= k < |pcm[i]| ==>
      RamAt(MemPlay(pcm), DecodeHeader(HEADERS[i]).addr + k) == Some(pcm[i][k])
  {
    var t := MemPlay(pcm);
    HeaderSizesMatchTables();
    MemPlayAllApart(pcm);
    forall i, k | 0 <= i < 3 && 0 <= k < |pcm[i]|
      ensures RamAt(t, DecodeHeader(HEADERS[i]).addr + k) == Some(pcm[i][k])
    {
      DisjointWritesStick(t, 2 * i + 1, k);
    }
  }

  lemma MemPlayAllApart(pcm: seq<seq<Byte>>)
    requires PcmTables(pcm)
    ensures AllApart(MemPlay(pcm))
  {
    forall x, y | 0 <= x < y < 6
      ensures Apart(MemPlay(pcm)[x], MemPlay(pcm)[y])
    {
      MemPlayApart(pcm, x, y);
    }
  }

  /** The footprints of the corrected load: slots 1..5, 6..10, 11..15, then
      the bodies back to back from 0x027C. */
  lemma MemPlayApart(pcm: seq<seq<Byte>>, x: nat, y: nat)
    requires PcmTables(pcm) && x < y < 6
    ensures Apart(MemPlay(pcm)[x], MemPlay(pcm)[y])
  {
    var t := MemPlay(pcm);
    var starts := [0x01, 0x027C, 0x06, 0x03DC, 0x0B, 0x05FF];
    var lens := [5, 352, 5, 547, 5, 890];
    BodiesPacked();
    assert forall j :: 0 <= j < 6 ==> t[j].ram.addr == starts[j] && |t[j].data| == lens[j];
  }

  /** As written, the third body lands 153 bytes before the address its header
      announces: its first 153 bytes overwrite the last 153 bytes of the
      second body (0x0566..0x05FE), the header's address holds the third
      body's 154th byte, and the last byte of the wave the third header
      describes is never loaded. */
  lemma MemPlayAsWrittenMisplacesThird(pcm: seq<seq<Byte>>)
    requires PcmTables(pcm)
    ensures DecodeHeader(H3).addr - WRITTEN_BODY_ADDRS[2] == 153
    ensures DecodeHeader(H2).addr <= WRITTEN_BODY_ADDRS[2] && WRITTEN_BODY_ADDRS[2] + 153 == DecodeHeader(H2).addr + PCM_LENS[1]
    ensures forall k :: 0 <= k < 153 ==> RamAt(MemPlayAsWritten(pcm), WRITTEN_BODY_ADDRS[2] + k) == Some(pcm[2][k])
    ensures RamAt(MemPlayAsWritten(pcm), DecodeHeader(H2).addr + PCM_LENS[1] - 1) == Some(pcm[2][152])
    ensures RamAt(MemPlayAsWritten(pcm), DecodeHeader(H3).addr) == Some(pcm[2][153])
    ensures RamAt(MemPlayAsWritten(pcm), DecodeHeader(H3).addr + PCM_LENS[2] - 1) == None
  {
    var t := MemPlayAsWritten(pcm);
    assert DecodeHeader(H2).addr == 0x03DC;
    assert DecodeHeader(H3).addr == 0x05FF;
    forall k | 0 <= k < 153
      ensures RamAt(t, WRITTEN_BODY_ADDRS[2] + k) == Some(pcm[2][k])
    {
      RamAtLatest(t, 5, WRITTEN_BODY_ADDRS[2] + k);
    }
    RamAtLatest(t, 5, 0x05FE);
    RamAtLatest(t, 5, 0x05FF);
    assert forall j :: 0 <= j < 6 ==> !Covers(t[j], 0x0978);
  }
}
