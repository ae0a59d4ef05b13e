/**
 `request_transfer_rtp_wave`: streaming a waveform into the DW7914's RTP FIFO.

 The waveform is a 5-byte header (tag, then the payload size as a big-endian
 `u32`) followed by the payload. Payloads shorter than one transfer unit go
 out in a single frame. Longer ones run the paced loop: every iteration reads
 the FIFO fill level, writes as much as fits (at most one transfer unit),
 starts playback once the FIFO is more than half full, honours the channel's
 break flag, and sleeps while the FIFO is more than two-thirds full; at the
 end of a pass the loop either rewinds for another repetition or flushes and
 stops.

 The device and the other threads are an oracle: each loop iteration consumes
 one `Tick` holding the two FIFO-level bytes it reads and the value of the
 break flag when the loop tests it. The loop has no termination measure of its
 own (it spins while the FIFO stays full), so the model runs it over a finite
 sequence of ticks and reports `Pending` when the ticks run out first.
 */
module RtpStream {
  import opened Bits
  import opened Geometry
  import opened Trace
  import Registers

  /** What one loop iteration observes: FIFO level registers 0x4D/0x4E and
      the per-channel `bRTP_Play_Break`. */
  datatype Tick = Tick(levelHi: Byte, levelLo: Byte, brk: bool)

  function Level(t: Tick): int
  {
    Be16(t.levelHi, t.levelLo)
  }

  /** Above this payload size the `u32` sum `curcnt + trans_size` can wrap and
      the C loop reads past the end of the waveform. */
  const MAX_SAFE_PLAY: int := U32_MOD - I2C_TRANS_RTP

  /** The payload size of the header, `wave[1..4]` big-endian. */
  function PlaySize(wave: seq<Byte>): Word32
    requires |wave| >= 5
  {
    Be32(wave[1], wave[2], wave[3], wave[4])
  }

  /** The caller hands over a waveform whose buffer holds the whole payload
      its header announces. */
  predicate WaveFits(wave: seq<Byte>)
  {
    |wave| >= 5 && 5 + PlaySize(wave) <= |wave| && PlaySize(wave) <= MAX_SAFE_PLAY
  }

  function Payload(wave: seq<Byte>): seq<Byte>
    requires WaveFits(wave)
  {
    wave[5 .. 5 + PlaySize(wave)]
  }

  function Min(a: int, b: int): int
  {
    if a <= b then a else b
  }

  /* ---------------------------------------------------------- chunk sizing */

  /** Free room in the FIFO as the loop sees it. When the level exceeds the
      FIFO size the `u32` difference wraps to a value above one transfer unit,
      so only the transfer unit limits the chunk. */
  function Room(fifoSize: Word32, level: int): int
  {
    if level <= fifoSize then fifoSize - level else I2C_TRANS_RTP
  }

  /** Steps 4 and 5 of the loop: `min(I2C_TRANS_RTP, fifo_size - fifo_level)`
      in `u32`, cut to what remains of the pass. */
  function ChunkSize(fifoSize: Word32, level: int, curcnt: Word32, playSize: Word32): (r: int)
    requires 0 <= level < 0x1_0000
    requires curcnt < playSize <= MAX_SAFE_PLAY
    ensures r == Min(Min(I2C_TRANS_RTP, Room(fifoSize, level)), playSize - curcnt)
    ensures 0 <= r <= I2C_TRANS_RTP && r <= playSize - curcnt
    ensures level <= fifoSize ==> r <= fifoSize - level
    ensures level > fifoSize ==> r == Min(I2C_TRANS_RTP, playSize - curcnt)
  {
    var free := Wrap32(fifoSize - level);
    var trans := if free > I2C_TRANS_RTP then I2C_TRANS_RTP else free;
    if Wrap32(curcnt + trans) > playSize then playSize - curcnt else trans
  }

  /* ------------------------------------------------------------ paced loop */

  /** What stays fixed during one call: the waveform, its payload size and the
      FIFO size read back from the threshold registers. */
  datatype Ctx = Ctx(wave: seq<Byte>, playSize: Word32, fifoSize: Word32)

  predicate ValidCtx(c: Ctx)
  {
    WaveFits(c.wave) && c.playSize == PlaySize(c.wave) && I2C_TRANS_RTP <= c.playSize
  }

  datatype Phase = Running | Finished | Broken

  /** The loop variables `curcnt`, `repeat`, `empty_lock` and `run`. */
  datatype Loop = Loop(curcnt: Word32, repeat: Word32, locked: bool, phase: Phase)

  predicate ValidLoop(c: Ctx, st: Loop)
  {
    && st.curcnt <= c.playSize
    && (st.phase == Finished ==> st.curcnt == c.playSize && st.repeat <= 1)
  }

  /** `max(repeat, 1)`: the number of passes a repeat count asks for. */
  function Passes(repeat: int): nat
  {
    if repeat > 1 then repeat else 1
  }

  /** `n` copies of `p` back to back. */
  function Repeat(p: seq<Byte>, n: nat): seq<Byte>
  {
    if n == 0 then [] else p + Repeat(p, n - 1)
  }

  /** The bytes the loop still has to send from state `st`: the rest of the
      current pass, then every pass still to come. */
  function Remaining(c: Ctx, st: Loop): seq<Byte>
    requires ValidCtx(c) && ValidLoop(c, st)
  {
    Payload(c.wave)[st.curcnt..] + Repeat(Payload(c.wave), Passes(st.repeat) - 1)
  }

  /** The bulk write of the next `trans` payload bytes at `wave + 5 + cur`,
      left out when there is nothing to send. */
  function ChunkWrite(c: Ctx, cur: int, trans: int): (w: seq<Action>)
    requires ValidCtx(c) && 0 <= cur && 0 <= trans <= I2C_TRANS_RTP && cur + trans <= c.playSize
    ensures |w| <= 1 && WritesAtMost(w, I2C_TRANS_RTP)
    ensures Sent(w) == Payload(c.wave)[cur .. cur + trans]
    ensures Play !in w && RaiseBreak !in w && Sleep !in w
  {
    if trans == 0 then []
    else
      var data := c.wave[5 + cur .. 5 + cur + trans];
      assert forall i :: 0 <= i < trans ==> data[i] == c.wave[5 + cur + i] == Payload(c.wave)[cur + i];
      assert data == Payload(c.wave)[cur .. cur + trans];
      assert Sent([SeqWrite(REG_RTP_INPUT, NoRam, data)]) == data + Sent([]);
      [SeqWrite(REG_RTP_INPUT, NoRam, data)]
  }

  /** The trace ends with the break sequence, possibly followed by the
      pacing sleep. */
  predicate EndsWithHalt(a: seq<Action>)
  {
    || (|a| >= 3 && a[|a| - 3..] == [ClearBreak, Stop, Flush])
    || (|a| >= 4 && a[|a| - 4..] == [ClearBreak, Stop, Flush, Sleep])
  }

  /** `curcnt += trans_size` in `u32`, which cannot wrap while the chunk stays
      inside the payload. */
  function Advance(cur: Word32, trans: int): (r: Word32)
    requires 0 <= cur + trans <= MAX_SAFE_PLAY
    ensures r == cur + trans
  {
    Wrap32(cur + trans)
  }

  /** The control actions of a transfer iteration: start playback (`fire`),
      honour the break flag (`brk`), and pace the loop (`sleepy`). */
  function Control(fire: bool, brk: bool, sleepy: bool): (a: seq<Action>)
    ensures Silent(a)
    ensures Count(a, Play) == if fire then 1 else 0
    ensures RaiseBreak !in a
    ensures brk ==> EndsWithHalt(a)
    ensures Stop in a <==> brk
    ensures Sleep in a <==> sleepy
  {
    var play := if fire then [Play] else [];
    var halt := if brk then [ClearBreak, Stop, Flush] else [];
    var nap := if sleepy then [Sleep] else [];
    ControlSilent(play, halt, nap, fire, brk, sleepy);
    ControlPlays(play, halt, nap, fire, brk);
    HaltIsSuffix(play, halt, nap, brk);
    play + halt + nap
  }

  lemma ControlSilent(play: seq<Action>, halt: seq<Action>, nap: seq<Action>, fire: bool, brk: bool, sleepy: bool)
    requires play == (if fire then [Play] else [])
    requires halt == (if brk then [ClearBreak, Stop, Flush] else [])
    requires nap == (if sleepy then [Sleep] else [])
    ensures Silent(play + halt + nap)
    ensures RaiseBreak !in play + halt + nap
    ensures Stop in play + halt + nap <==> brk
    ensures Sleep in play + halt + nap <==> sleepy
  {
  }

  lemma ControlPlays(play: seq<Action>, halt: seq<Action>, nap: seq<Action>, fire: bool, brk: bool)
    requires play == (if fire then [Play] else [])
    requires halt == (if brk then [ClearBreak, Stop, Flush] else [])
    requires nap == [] || nap == [Sleep]
    ensures Count(play + halt + nap, Play) == if fire then 1 else 0
  {
    CountAppend(play, halt, Play);
    CountAppend(play + halt, nap, Play);
    CountPositive(halt, Play);
    CountPositive(nap, Play);
    if fire {
      assert Count(play, Play) == 1 + Count([], Play);
    }
  }

  lemma HaltIsSuffix(pre: seq<Action>, halt: seq<Action>, nap: seq<Action>, brk: bool)
    requires halt == (if brk then [ClearBreak, Stop, Flush] else [])
    requires nap == [] || nap == [Sleep]
    ensures brk ==> EndsWithHalt(pre + halt + nap)
  {
    if !brk {
    } else if nap == [] {
      assert pre + halt + nap == pre + halt;
      SuffixOfAppend(pre, halt);
    } else {
      assert pre + halt + nap == pre + (halt + nap);
      SuffixOfAppend(pre, halt + nap);
    }
  }

  lemma SuffixOfAppend(a: seq<Action>, b: seq<Action>)
    ensures (a + b)[|a|..] == b
  {
  }

  lemma EndsWithHaltAppend(pre: seq<Action>, a: seq<Action>)
    requires EndsWithHalt(a)
    ensures EndsWithHalt(pre + a)
  {
    var k := if |a| >= 3 && a[|a| - 3..] == [ClearBreak, Stop, Flush] then 3 else 4;
    assert (pre + a)[|pre + a| - k..] == a[|a| - k..];
  }

  /** An iteration that still has payload to send: size the chunk, write it,
      then the control actions. */
  function Transfer(c: Ctx, st: Loop, t: Tick): (r: (Loop, seq<Action>))
    requires ValidCtx(c) && ValidLoop(c, st) && st.phase == Running && st.curcnt < c.playSize
    ensures ValidLoop(c, r.0) && r.0.repeat == st.repeat
    ensures WritesAtMost(r.1, I2C_TRANS_RTP)
    ensures Sent(r.1) + Remaining(c, r.0) == Remaining(c, st)
    ensures Count(r.1, Play) == (if r.0.locked && !st.locked then 1 else 0)
    ensures st.locked ==> r.0.locked
    ensures r.0.locked && !st.locked ==> Level(t) > c.fifoSize / 2
    ensures r.0.phase != Finished
    ensures r.0.phase == Broken <==> t.brk
    ensures t.brk ==> EndsWithHalt(r.1)
    ensures RaiseBreak !in r.1
    ensures Sleep in r.1 <==> Level(t) > c.fifoSize - c.fifoSize / 3
  {
    var level := Level(t);
    var trans := ChunkSize(c.fifoSize, level, st.curcnt, c.playSize);
    var write := ChunkWrite(c, st.curcnt, trans);
    var fire := !st.locked && level > c.fifoSize / 2;
    var ctl := Control(fire, t.brk, level > c.fifoSize - c.fifoSize / 3);
    var next := Loop(Advance(st.curcnt, trans), st.repeat, st.locked || fire, if t.brk then Broken else Running);
    TransferAccounting(c, st, next, trans, write, ctl);
    TransferTrace(write, ctl, fire, t.brk);
    assert Sleep in write + ctl <==> Sleep in ctl;
    (next, write + ctl)
  }

  /** A chunk write followed by the control actions plays, raises and halts
      exactly as the control actions alone do. */
  lemma TransferTrace(write: seq<Action>, ctl: seq<Action>, fire: bool, brk: bool)
    requires Play !in write && RaiseBreak !in write
    requires Count(ctl, Play) == (if fire then 1 else 0) && RaiseBreak !in ctl
    requires brk ==> EndsWithHalt(ctl)
    ensures Count(write + ctl, Play) == (if fire then 1 else 0)
    ensures RaiseBreak !in write + ctl
    ensures brk ==> EndsWithHalt(write + ctl)
  {
    CountAppend(write, ctl, Play);
    CountPositive(write, Play);
    if brk {
      EndsWithHaltAppend(write, ctl);
    }
  }

  /** The bytes a transfer iteration sends are exactly the ones its advance
      of `curcnt` takes off the remaining stream. */
  lemma TransferAccounting(c: Ctx, st: Loop, next: Loop, trans: int, write: seq<Action>, ctl: seq<Action>)
    requires ValidCtx(c) && ValidLoop(c, st) && ValidLoop(c, next)
    requires 0 <= trans && next.curcnt == st.curcnt + trans && next.repeat == st.repeat
    requires |write| <= 1 && WritesAtMost(write, I2C_TRANS_RTP)
    requires Sent(write) == Payload(c.wave)[st.curcnt .. st.curcnt + trans]
    requires Silent(ctl)
    ensures WritesAtMost(write + ctl, I2C_TRANS_RTP)
    ensures Sent(write + ctl) + Remaining(c, next) == Remaining(c, st)
  {
    SilentSendsNothing(ctl);
    SentAppend(write, ctl);
    WritesAtMostAppend(write, ctl, I2C_TRANS_RTP);
    SplitAt(Payload(c.wave), st.curcnt, st.curcnt + trans, Repeat(Payload(c.wave), Passes(st.repeat) - 1));
  }

  lemma SplitAt(p: seq<Byte>, i: int, j: int, rest: seq<Byte>)
    requires 0 <= i <= j <= |p|
    ensures p[i..j] + (p[j..] + rest) == p[i..] + rest
  {
    assert p[i..] == p[i..j] + p[j..];
  }

  /** One iteration of the `while(!run)` loop: a transfer while the pass has
      payload left, otherwise a rewind for the next pass or the final flush. */
  function Step(c: Ctx, st: Loop, t: Tick): (r: (Loop, seq<Action>))
    requires ValidCtx(c) && ValidLoop(c, st) && st.phase == Running
    ensures ValidLoop(c, r.0)
    ensures WritesAtMost(r.1, I2C_TRANS_RTP)
    ensures Sent(r.1) + Remaining(c, r.0) == Remaining(c, st)
    ensures Count(r.1, Play) == (if r.0.locked && !st.locked then 1 else 0)
    ensures st.locked ==> r.0.locked
    ensures r.0.locked && !st.locked ==> Level(t) > c.fifoSize / 2
    ensures r.0.phase == Broken ==> t.brk && EndsWithHalt(r.1)
    ensures r.0.phase == Finished ==> r.1 == [Flush]
    ensures RaiseBreak !in r.1
    ensures t.brk && st.curcnt < c.playSize ==> r.0.phase == Broken
  {
    if st.curcnt < c.playSize then
      Transfer(c, st, t)
    else if st.repeat > 1 then
      assert Remaining(c, st) == Repeat(Payload(c.wave), Passes(st.repeat) - 1);
      assert Sent([]) == [];
      (Loop(0, st.repeat - 1, st.locked, Running), [])
    else
      assert Sent([Flush]) == [];
      (st.(phase := Finished), [Flush])
  }

  datatype RunResult = RunResult(final: Loop, trace: seq<Action>, used: nat)

  /** The loop run over the observations `ticks`, one per iteration, until it
      finishes, breaks or runs out of observations. */
  function Run(c: Ctx, st: Loop, ticks: seq<Tick>): (r: RunResult)
    requires ValidCtx(c) && ValidLoop(c, st)
    ensures ValidLoop(c, r.final)
    ensures r.used <= |ticks|
    ensures st.phase != Running ==> r == RunResult(st, [], 0)
    ensures r.final.phase == Running ==> r.used == |ticks|
    ensures WritesAtMost(r.trace, I2C_TRANS_RTP)
    ensures Sent(r.trace) + Remaining(c, r.final) == Remaining(c, st)
    ensures Count(r.trace, Play) <= (if st.locked then 0 else 1)
    ensures RaiseBreak !in r.trace
    decreases |ticks|
  {
    if st.phase != Running || |ticks| == 0 then RunResult(st, [], 0)
    else
      var (next, acts) := Step(c, st, ticks[0]);
      var rest := Run(c, next, ticks[1..]);
      RunGlue(acts, rest.trace, Remaining(c, rest.final), Remaining(c, next), Remaining(c, st));
      RunResult(rest.final, acts + rest.trace, rest.used + 1)
  }

  /** Gluing a step's actions to the rest of the run adds up what each part
      sends, plays and writes. */
  lemma RunGlue(a: seq<Action>, b: seq<Action>, left: seq<Byte>, mid: seq<Byte>, start: seq<Byte>)
    requires Sent(a) + mid == start && Sent(b) + left == mid
    requires WritesAtMost(a, I2C_TRANS_RTP) && WritesAtMost(b, I2C_TRANS_RTP)
    ensures Sent(a + b) + left == start
    ensures Count(a + b, Play) == Count(a, Play) + Count(b, Play)
    ensures WritesAtMost(a + b, I2C_TRANS_RTP)
  {
    SentAppend(a, b);
    CountAppend(a, b, Play);
    WritesAtMostConcat(a, b, I2C_TRANS_RTP);
    assert Sent(a) + Sent(b) + left == Sent(a) + (Sent(b) + left);
  }

  /** A running loop with an observation left takes one step and runs on. */
  lemma RunStep(c: Ctx, st: Loop, ticks: seq<Tick>)
    requires ValidCtx(c) && ValidLoop(c, st) && st.phase == Running && |ticks| > 0
    ensures var s := Step(c, st, ticks[0]);
            var rest := Run(c, s.0, ticks[1..]);
            Run(c, st, ticks) == RunResult(rest.final, s.1 + rest.trace, rest.used + 1)
  {
  }

  /** A finished run's last action is the FIFO flush. */
  lemma {:induction false} RunFinishEnds(c: Ctx, st: Loop, ticks: seq<Tick>)
    requires ValidCtx(c) && ValidLoop(c, st) && st.phase == Running
    ensures var r := Run(c, st, ticks);
      r.final.phase == Finished ==> |r.trace| > 0 && r.trace[|r.trace| - 1] == Flush
    decreases |ticks|
  {
    if |ticks| > 0 {
      var (next, acts) := Step(c, st, ticks[0]);
      var rest := Run(c, next, ticks[1..]);
      RunStep(c, st, ticks);
      if next.phase == Running {
        RunFinishEnds(c, next, ticks[1..]);
        if rest.final.phase == Finished {
          LastOfAppend(acts, rest.trace);
        }
      } else {
        assert acts + rest.trace == acts;
      }
    }
  }

  /** A broken run consumed a tick whose break flag was set, and its trace
      ends with the clear-stop-flush sequence. */
  lemma {:induction false} RunBreakEnds(c: Ctx, st: Loop, ticks: seq<Tick>)
    requires ValidCtx(c) && ValidLoop(c, st) && st.phase == Running
    ensures var r := Run(c, st, ticks);
      r.final.phase == Broken ==> 0 < r.used && ticks[r.used - 1].brk && EndsWithHalt(r.trace)
    decreases |ticks|
  {
    if |ticks| > 0 {
      var (next, acts) := Step(c, st, ticks[0]);
      var rest := Run(c, next, ticks[1..]);
      RunStep(c, st, ticks);
      if next.phase == Running {
        RunBreakEnds(c, next, ticks[1..]);
        if rest.final.phase == Broken {
          EndsWithHaltAppend(acts, rest.trace);
          assert ticks[1..][rest.used - 1] == ticks[rest.used];
        }
      } else {
        assert acts + rest.trace == acts;
      }
    }
  }

  /** Some of the first `n` observations read a FIFO level above half the
      FIFO size. */
  predicate HalfFullSeen(fifoSize: int, ticks: seq<Tick>, n: int)
  {
    exists i :: 0 <= i < n && i < |ticks| && Level(ticks[i]) > fifoSize / 2
  }

  /** Playback starts only after some iteration read a FIFO level above half
      the FIFO size. */
  lemma {:induction false} PlayNeedsHalfFull(c: Ctx, st: Loop, ticks: seq<Tick>)
    requires ValidCtx(c) && ValidLoop(c, st)
    ensures var r := Run(c, st, ticks);
      Count(r.trace, Play) > 0 ==> HalfFullSeen(c.fifoSize, ticks, r.used)
    decreases |ticks|
  {
    if st.phase == Running && |ticks| > 0 {
      var (next, acts) := Step(c, st, ticks[0]);
      var rest := Run(c, next, ticks[1..]);
      RunStep(c, st, ticks);
      CountAppend(acts, rest.trace, Play);
      if Count(acts, Play) > 0 {
        StepPlayNeedsHalfFull(c, st, ticks[0]);
        HalfFullFirst(c.fifoSize, ticks, rest.used + 1);
      } else if Count(rest.trace, Play) > 0 {
        PlayNeedsHalfFull(c, next, ticks[1..]);
        HalfFullShift(c.fifoSize, ticks, rest.used);
      }
    }
  }

  lemma StepPlayNeedsHalfFull(c: Ctx, st: Loop, t: Tick)
    requires ValidCtx(c) && ValidLoop(c, st) && st.phase == Running
    ensures Count(Step(c, st, t).1, Play) > 0 ==> Level(t) > c.fifoSize / 2
  {
  }

  lemma HalfFullFirst(fifoSize: int, ticks: seq<Tick>, n: int)
    requires 0 < n && 0 < |ticks| && Level(ticks[0]) > fifoSize / 2
    ensures HalfFullSeen(fifoSize, ticks, n)
  {
  }

  lemma HalfFullShift(fifoSize: int, ticks: seq<Tick>, n: int)
    requires 0 < |ticks| && HalfFullSeen(fifoSize, ticks[1..], n)
    ensures HalfFullSeen(fifoSize, ticks, n + 1)
  {
    var i :| 0 <= i < n && i < |ticks[1..]| && Level(ticks[1..][i]) > fifoSize / 2;
    assert Level(ticks[i + 1]) > fifoSize / 2;
  }

  /** `n` passes of `p` hold `n * |p|` bytes. */
  lemma {:induction false} RepeatLength(p: seq<Byte>, n: nat)
    ensures |Repeat(p, n)| == n * |p|
  {
    if n > 0 {
      RepeatLength(p, n - 1);
    }
  }

  /* ---------------------------------------------------------- entry point */

  datatype Status = Unready | Done | Cancelled | Pending

  datatype StreamResult = StreamResult(status: Status, trace: seq<Action>, used: nat)

  /** Step 0: write 0x04 to the trigger-control register (`DW7914_TRIG_CTRL`,
      0x03), flush the FIFO and select RTP mode in one MODE write, restore the
      PWM rate. The status reads between these writes are discarded. */
  function Preamble(pwm: Byte): (p: seq<Action>)
    ensures |p| == 3 && Silent(p) && Play !in p && Stop !in p && RaiseBreak !in p && ClearBreak !in p
    ensures p[0] == ByteWrite(REG_TRIG_CTRL, 0x04)
    ensures p[1].ByteWrite? && p[1].reg == REG_MODE
    ensures (p[1].value as bv8) & D14_FIFO_FLUSH == D14_FIFO_FLUSH && (p[1].value as bv8) & D14_MEM_MODE == 0
    ensures p[2] == ByteWrite(REG_PWM, pwm)
  {
    [ByteWrite(REG_TRIG_CTRL, 0x04), ByteWrite(REG_MODE, 0x20), ByteWrite(REG_PWM, pwm)]
  }

  /** The preamble writes no bulk data, so it keeps every bound of what follows. */
  lemma PreambleThen(pwm: Byte, t: seq<Action>)
    requires WritesAtMost(t, I2C_TRANS_RTP)
    ensures |Preamble(pwm) + t| >= 3 && (Preamble(pwm) + t)[..3] == Preamble(pwm)
    ensures WritesAtMost(Preamble(pwm) + t, I2C_TRANS_RTP)
  {
    assert forall i :: 0 <= i < |Preamble(pwm) + t| && i >= 3 ==> (Preamble(pwm) + t)[i] == t[i - 3];
  }

  function StatusOf(ph: Phase): Status
  {
    match ph
    case Finished => Done
    case Broken => Cancelled
    case Running => Pending
  }

  /** `request_transfer_rtp_wave(client, wave, repeat)` on a channel whose
      readiness is `ready`, with `gPWM == pwm`, FIFO threshold registers
      reading `thrHi`/`thrLo`, and the loop observing `ticks`. */
  function Stream(ready: bool, wave: seq<Byte>, repeat: Word32, pwm: Byte, thrHi: Byte, thrLo: Byte,
                  ticks: seq<Tick>): (r: StreamResult)
    requires ready ==> WaveFits(wave)
    ensures !ready <==> r.status == Unready
    ensures !ready ==> r.trace == [] && r.used == 0
    ensures r.used <= |ticks|
    ensures WritesAtMost(r.trace, I2C_TRANS_RTP)
    ensures ready ==> |r.trace| >= 3 && r.trace[..3] == Preamble(pwm)
  {
    if !ready then StreamResult(Unready, [], 0)
    else
      var size := PlaySize(wave);
      if size < I2C_TRANS_RTP then
        PreambleThen(pwm, [SeqWrite(REG_RTP_INPUT, NoRam, wave[5 .. 5 + size]), Play]);
        StreamResult(Done, Preamble(pwm) + [SeqWrite(REG_RTP_INPUT, NoRam, wave[5 .. 5 + size]), Play], 0)
      else
        var c := Ctx(wave, size, Registers.FifoSizeFromRegs(thrHi, thrLo));
        var run := Run(c, Loop(0, repeat, false, Running), ticks);
        PreambleThen(pwm, run.trace);
        StreamResult(StatusOf(run.final.phase), Preamble(pwm) + run.trace, run.used)
  }

  /* ------------------------------------------------------------ properties */

  /** The loop a paced call runs, with the FIFO size it derives. */
  function PacedCtx(wave: seq<Byte>, thrHi: Byte, thrLo: Byte): (c: Ctx)
    requires WaveFits(wave) && PlaySize(wave) >= I2C_TRANS_RTP
    ensures ValidCtx(c) && c.wave == wave
  {
    Ctx(wave, PlaySize(wave), Registers.FifoSizeFromRegs(thrHi, thrLo))
  }

  /** A paced call is the preamble followed by the loop from its initial
      state. */
  lemma StreamIsPaced(wave: seq<Byte>, repeat: Word32, pwm: Byte, thrHi: Byte, thrLo: Byte, ticks: seq<Tick>)
    requires WaveFits(wave) && PlaySize(wave) >= I2C_TRANS_RTP
    ensures var run := Run(PacedCtx(wave, thrHi, thrLo), Loop(0, repeat, false, Running), ticks);
            Stream(true, wave, repeat, pwm, thrHi, thrLo, ticks)
              == StreamResult(StatusOf(run.final.phase), Preamble(pwm) + run.trace, run.used)
  {
  }

  lemma PreambleSilent(pwm: Byte, t: seq<Action>)
    ensures Sent(Preamble(pwm) + t) == Sent(t)
    ensures Count(Preamble(pwm) + t, Play) == Count(t, Play)
    ensures RaiseBreak !in t ==> RaiseBreak !in Preamble(pwm) + t
  {
    SilentSendsNothing(Preamble(pwm));
    SentAppend(Preamble(pwm), t);
    CountAppend(Preamble(pwm), t, Play);
    CountPositive(Preamble(pwm), Play);
  }

  /** From the start of a call, the bytes still to send are all the passes. */
  lemma StartRemaining(c: Ctx, repeat: Word32)
    requires ValidCtx(c)
    ensures Remaining(c, Loop(0, repeat, false, Running)) == Repeat(Payload(c.wave), Passes(repeat))
  {
    assert Payload(c.wave)[0..] == Payload(c.wave);
  }

  /** A finished loop has nothing left to send. */
  lemma FinishedRemaining(c: Ctx, st: Loop)
    requires ValidCtx(c) && ValidLoop(c, st) && st.phase == Finished
    ensures Remaining(c, st) == []
  {
  }

  /** A payload under one transfer unit goes out as one bulk write of exactly
      the payload followed by one PLAY, with no FIFO-level read and whatever
      the repeat count. */
  lemma FastPathSingleFrame(wave: seq<Byte>, repeat: Word32, pwm: Byte, thrHi: Byte, thrLo: Byte, ticks: seq<Tick>)
    requires WaveFits(wave) && PlaySize(wave) < I2C_TRANS_RTP
    ensures var r := Stream(true, wave, repeat, pwm, thrHi, thrLo, ticks);
      && r.status == Done && r.used == 0
      && r.trace == Preamble(pwm) + [SeqWrite(REG_RTP_INPUT, NoRam, Payload(wave)), Play]
      && Sent(r.trace) == Payload(wave)
      && Count(r.trace, Play) == 1
  {
    var tail := [SeqWrite(REG_RTP_INPUT, NoRam, Payload(wave)), Play];
    PreambleSilent(pwm, tail);
    assert Sent(tail) == Payload(wave) + Sent([Play]);
    assert Count(tail, Play) == 0 + Count([Play], Play);
  }

  /** A paced call that finishes has sent `max(repeat, 1)` complete copies of
      the payload in order, `max(repeat, 1) * play_size` bytes in all. */
  lemma PacedDeliversAllPasses(wave: seq<Byte>, repeat: Word32, pwm: Byte, thrHi: Byte, thrLo: Byte, ticks: seq<Tick>)
    requires WaveFits(wave) && PlaySize(wave) >= I2C_TRANS_RTP
    ensures var r := Stream(true, wave, repeat, pwm, thrHi, thrLo, ticks);
      r.status == Done ==>
        && Sent(r.trace) == Repeat(Payload(wave), Passes(repeat))
        && |Sent(r.trace)| == Passes(repeat) * PlaySize(wave)
  {
    var c := PacedCtx(wave, thrHi, thrLo);
    var run := Run(c, Loop(0, repeat, false, Running), ticks);
    StreamIsPaced(wave, repeat, pwm, thrHi, thrLo, ticks);
    PreambleSilent(pwm, run.trace);
    FinishedSentAll(c, repeat, ticks);
    RepeatLength(Payload(wave), Passes(repeat));
    assert |Payload(wave)| == PlaySize(wave);
  }

  /** A paced call that finishes ends with the FIFO flush. */
  /** A call can finish: with the 8 KB FIFO of `fifo_size_set(8)` reading
      empty and no break, a one-unit payload goes out in one frame on the
      first iteration, and the second iteration finishes the call. */
  lemma PacedFinishesOnQuietFifo(wave: seq<Byte>, pwm: Byte)
    requires WaveFits(wave) && PlaySize(wave) == I2C_TRANS_RTP
    ensures var r := Stream(true, wave, 1, pwm, 0x1F, 0xFC, [Tick(0, 0, false), Tick(0, 0, false)]);
      && r.status == Done && r.used == 2
      && Sent(r.trace) == Payload(wave)
  {
    var c := PacedCtx(wave, 0x1F, 0xFC);
    var quiet := Tick(0, 0, false);
    QuietRun(c, quiet);
    StreamIsPaced(wave, 1, pwm, 0x1F, 0xFC, [quiet, quiet]);
    PacedDeliversAllPasses(wave, 1, pwm, 0x1F, 0xFC, [quiet, quiet]);
    assert Repeat(Payload(wave), 1) == Payload(wave) by {
      assert Repeat(Payload(wave), 0) == [];
      assert Payload(wave) + [] == Payload(wave);
    }
  }

  /** Two quiet iterations over a one-unit payload and a FIFO with room for
      it: the first sends the unit, the second finishes. */
  lemma QuietRun(c: Ctx, quiet: Tick)
    requires ValidCtx(c) && c.playSize == I2C_TRANS_RTP && c.fifoSize == Registers.FifoSizeFromRegs(0x1F, 0xFC)
    requires quiet == Tick(0, 0, false)
    ensures var run := Run(c, Loop(0, 1, false, Running), [quiet, quiet]);
      run.final.phase == Finished && run.used == 2
  {
    assert c.fifoSize == SRAM_BASE - 0x1FFC;
    var st := Loop(0, 1, false, Running);
    var mid := QuietTransfer(c, st, quiet);
    var (last, fin) := Step(c, mid, quiet);
    assert last.phase == Finished;
    assert [quiet, quiet][1..] == [quiet] && [quiet][1..] == [];
    assert Run(c, last, []) == RunResult(last, [], 0);
  }

  /** One quiet iteration from the start of a one-unit pass sends the whole
      unit and keeps running. */
  lemma QuietTransfer(c: Ctx, st: Loop, quiet: Tick) returns (mid: Loop)
    requires ValidCtx(c) && c.playSize == I2C_TRANS_RTP && c.fifoSize == SRAM_BASE - 0x1FFC
    requires st == Loop(0, 1, false, Running) && quiet == Tick(0, 0, false)
    ensures mid == Step(c, st, quiet).0
    ensures mid.curcnt == c.playSize && mid.phase == Running && mid.repeat == 1
  {
    assert ChunkSize(c.fifoSize, Level(quiet), 0, c.playSize) == I2C_TRANS_RTP;
    mid := Step(c, st, quiet).0;
  }

  lemma PacedEndsWithFlush(wave: seq<Byte>, repeat: Word32, pwm: Byte, thrHi: Byte, thrLo: Byte, ticks: seq<Tick>)
    requires WaveFits(wave) && PlaySize(wave) >= I2C_TRANS_RTP
    ensures var r := Stream(true, wave, repeat, pwm, thrHi, thrLo, ticks);
      r.status == Done ==> r.trace[|r.trace| - 1] == Flush
  {
    var c := PacedCtx(wave, thrHi, thrLo);
    var st := Loop(0, repeat, false, Running);
    var run := Run(c, st, ticks);
    StreamIsPaced(wave, repeat, pwm, thrHi, thrLo, ticks);
    RunFinishEnds(c, st, ticks);
    if run.final.phase == Finished {
      LastOfAppend(Preamble(pwm), run.trace);
    }
  }

  lemma LastOfAppend(a: seq<Action>, b: seq<Action>)
    requires |b| > 0
    ensures (a + b)[|a + b| - 1] == b[|b| - 1]
  {
  }

  lemma FinishedSentAll(c: Ctx, repeat: Word32, ticks: seq<Tick>)
    requires ValidCtx(c)
    ensures var run := Run(c, Loop(0, repeat, false, Running), ticks);
      run.final.phase == Finished ==> Sent(run.trace) == Repeat(Payload(c.wave), Passes(repeat))
  {
    var run := Run(c, Loop(0, repeat, false, Running), ticks);
    StartRemaining(c, repeat);
    if run.final.phase == Finished {
      FinishedRemaining(c, run.final);
      assert Sent(run.trace) == Sent(run.trace) + Remaining(c, run.final);
    }
  }

  /** A paced call that is cancelled or runs out of observations has sent a
      prefix of the repeated payload: consecutive slices, no gap, no
      duplicate. One that is still pending has used every observation. */
  lemma PacedSendsPrefix(wave: seq<Byte>, repeat: Word32, pwm: Byte, thrHi: Byte, thrLo: Byte, ticks: seq<Tick>)
    requires WaveFits(wave) && PlaySize(wave) >= I2C_TRANS_RTP
    ensures var r := Stream(true, wave, repeat, pwm, thrHi, thrLo, ticks);
      && Sent(r.trace) <= Repeat(Payload(wave), Passes(repeat))
      && (r.status == Pending ==> r.used == |ticks|)
  {
    var c := PacedCtx(wave, thrHi, thrLo);
    var st := Loop(0, repeat, false, Running);
    var run := Run(c, st, ticks);
    StreamIsPaced(wave, repeat, pwm, thrHi, thrLo, ticks);
    PreambleSilent(pwm, run.trace);
    StartRemaining(c, repeat);
  }

  /** The paced path issues PLAY at most once, and only after an iteration
      read a FIFO level strictly above half the FIFO size. */
  lemma PacedPlaysOnce(wave: seq<Byte>, repeat: Word32, pwm: Byte, thrHi: Byte, thrLo: Byte, ticks: seq<Tick>)
    requires WaveFits(wave) && PlaySize(wave) >= I2C_TRANS_RTP
    ensures var r := Stream(true, wave, repeat, pwm, thrHi, thrLo, ticks);
      && Count(r.trace, Play) <= 1
      && (Play in r.trace ==>
            exists i :: 0 <= i < r.used && Level(ticks[i]) > Registers.FifoSizeFromRegs(thrHi, thrLo) / 2)
  {
    var c := PacedCtx(wave, thrHi, thrLo);
    var st := Loop(0, repeat, false, Running);
    var run := Run(c, st, ticks);
    StreamIsPaced(wave, repeat, pwm, thrHi, thrLo, ticks);
    PreambleSilent(pwm, run.trace);
    PlayNeedsHalfFull(c, st, ticks);
    CountPositive(Preamble(pwm) + run.trace, Play);
    CountPositive(run.trace, Play);
  }

  /** A cancelled call observed the break flag set on its last iteration,
      cleared it, and ended with STOP then FIFO flush (and possibly the
      pacing sleep); the flag stays clear afterwards. */
  lemma PacedBreakEnds(wave: seq<Byte>, repeat: Word32, pwm: Byte, thrHi: Byte, thrLo: Byte, ticks: seq<Tick>)
    requires WaveFits(wave) && PlaySize(wave) >= I2C_TRANS_RTP
    ensures var r := Stream(true, wave, repeat, pwm, thrHi, thrLo, ticks);
      r.status == Cancelled ==>
        0 < r.used && ticks[r.used - 1].brk && EndsWithHalt(r.trace) && !FlagAfter(r.trace, true)
  {
    var c := PacedCtx(wave, thrHi, thrLo);
    var st := Loop(0, repeat, false, Running);
    var run := Run(c, st, ticks);
    StreamIsPaced(wave, repeat, pwm, thrHi, thrLo, ticks);
    if run.final.phase == Broken {
      RunBreakEnds(c, st, ticks);
      PreambleSilent(pwm, run.trace);
      EndsWithHaltAppend(Preamble(pwm), run.trace);
      HaltClears(Preamble(pwm) + run.trace);
    }
  }

  lemma HaltClears(t: seq<Action>)
    requires EndsWithHalt(t) && RaiseBreak !in t
    ensures !FlagAfter(t, true)
  {
    if |t| >= 3 && t[|t| - 3..] == [ClearBreak, Stop, Flush] {
      assert t[|t| - 3] == ClearBreak;
    } else {
      assert t[|t| - 4] == ClearBreak;
    }
    ClearedStaysClear(t, true);
  }

  /** A break flag already set when the loop first tests it cancels the call
      after that first iteration. */
  lemma PacedBreakAtOnce(wave: seq<Byte>, repeat: Word32, pwm: Byte, thrHi: Byte, thrLo: Byte, ticks: seq<Tick>)
    requires WaveFits(wave) && PlaySize(wave) >= I2C_TRANS_RTP
    requires |ticks| > 0 && ticks[0].brk
    ensures var r := Stream(true, wave, repeat, pwm, thrHi, thrLo, ticks);
      r.status == Cancelled && r.used == 1
  {
    var c := PacedCtx(wave, thrHi, thrLo);
    var st := Loop(0, repeat, false, Running);
    StreamIsPaced(wave, repeat, pwm, thrHi, thrLo, ticks);
    RunStep(c, st, ticks);
  }

  /** No path of the streamer raises the break flag: only its callers do. */
  lemma StreamNeverRaisesBreak(ready: bool, wave: seq<Byte>, repeat: Word32, pwm: Byte, thrHi: Byte, thrLo: Byte,
                               ticks: seq<Tick>)
    requires ready ==> WaveFits(wave)
    ensures RaiseBreak !in Stream(ready, wave, repeat, pwm, thrHi, thrLo, ticks).trace
  {
    if ready && PlaySize(wave) >= I2C_TRANS_RTP {
      var run := Run(PacedCtx(wave, thrHi, thrLo), Loop(0, repeat, false, Running), ticks);
      StreamIsPaced(wave, repeat, pwm, thrHi, thrLo, ticks);
      PreambleSilent(pwm, run.trace);
    }
  }
}
