/**
 The command paths that drive a channel from user space: the 32-bit control
 word of the `top_vib_control`/`bot_vib_control` attributes, its dispatch in
 `dw791x_vibrator_control`, and the `rtp_repeat_play` attribute. What matters
 here is the order in which a new RTP play cancels the old one: the channel's
 break flag is raised before `DRV_STOP`, and lowered only once the firmware
 image has loaded and the new stream is about to start.
 */
module Control {
  import opened Bits
  import opened Geometry
  import opened Trace
  import Registers
  import RtpStream
  import ActuatorIndex
  import Waveforms

  /* DW7914 registers of the MEM-play setup. */
  const REG_WAVQ1: Byte := 0x0F
  const REG_WAVQ2: Byte := 0x10
  const REG_SEQ_LOOP0: Byte := 0x17
  const REG_SEQ_LOOP1: Byte := 0x18
  const REG_MEM_LOOP: Byte := 0x1B

  /* ---------------------------------------------------------- control word */

  /** The control word's split: the function number is the high half-word,
      `(mode & 0xffff0000) >> 16`, the parameter the low one, `mode & 0xffff`. */
  function SplitControlWord(mode: Word32): (r: (int, int))
    ensures 0 <= r.0 < 0x1_0000 && 0 <= r.1 < 0x1_0000
    ensures r.0 * 0x1_0000 + r.1 == mode
  {
    (mode / 0x1_0000, mode % 0x1_0000)
  }

  /** The word a user writes for function `fun` with parameter `param`. */
  function JoinControlWord(fun: int, param: int): (mode: Word32)
    requires 0 <= fun < 0x1_0000 && 0 <= param < 0x1_0000
    ensures SplitControlWord(mode) == (fun, param)
  {
    fun * 0x1_0000 + param
  }

  /** Splitting loses nothing: every word is the join of its halves. */
  lemma ControlWordRoundTrip(mode: Word32)
    ensures var (fun, param) := SplitControlWord(mode); JoinControlWord(fun, param) == mode
  {
  }

  /* --------------------------------------------------------------- inputs */

  /** What the device, the firmware loader and the rest of the driver supply
      to one command: whether the channel's bus works, the channel's slot, the
      three PCM tables, the image `request_firmware` returns for the requested
      name (`None` when it fails), bit 8 of `gVibDebugLog` (which keeps the
      RTP clamp off), `gPWM`, the FIFO threshold bytes and the streamer's
      observations. */
  datatype Env = Env(
    i2cOk: bool,
    index: int,
    pcm: seq<seq<Byte>>,
    fw: Option<seq<Byte>>,
    noRtpClamp: bool,
    pwm: Byte,
    thrHi: Byte,
    thrLo: Byte,
    ticks: seq<RtpStream.Tick>)

  predicate ValidEnv(e: Env)
  {
    && 0 <= e.index < ActuatorIndex.NUM_ACTUATORS
    && Waveforms.PcmTables(e.pcm)
    && (e.fw.Some? ==> RtpStream.WaveFits(e.fw.value))
  }

  /** `bEnable_Vib` and `gChannel`. */
  datatype Globals = Globals(enabled: int, channel: int)

  datatype Outcome = Outcome(ret: int, trace: seq<Action>, globals: Globals)

  /* ---------------------------------------------------- cancel, then play */

  /** The RTP clamp of a channel while a firmware stream plays. */
  function DefaultClamp(index: int): (v: int)
    ensures 0 < v < Registers.MaxClamp(index)
  {
    if index == 0 then Registers.DEFAULT_BOT_VD_CLAMP else Registers.DEFAULT_TOP_VD_CLAMP
  }

  /** Raise the break flag, stop the channel, apply `setup`, and, when the
      firmware image loaded, lower the flag and stream it `repeat` times. The
      streamer checks the channel's bus itself and issues nothing when it is
      down, so the flag is lowered even then. */
  function CancelThenPlay(setup: seq<Action>, e: Env, repeat: Word32): (t: seq<Action>)
    requires ValidEnv(e)
    requires Silent(setup) && RaiseBreak !in setup && ClearBreak !in setup
    ensures |t| >= 2 + |setup| && t[..2 + |setup|] == [RaiseBreak, Stop] + setup
    ensures RaiseBreak !in t[1..]
    ensures ClearBreak in t <==> e.fw.Some?
    ensures e.fw.None? ==> t == [RaiseBreak, Stop] + setup
    ensures e.fw.Some? ==> |t| >= 3 + |setup| && t[2 + |setup|] == ClearBreak
    ensures e.fw.Some? ==>
      t[3 + |setup|..] == RtpStream.Stream(e.i2cOk, e.fw.value, repeat, e.pwm, e.thrHi, e.thrLo, e.ticks).trace
    ensures e.fw.None? ==> FlagAfter(t, false) && FlagAfter(t, true)
    ensures e.fw.Some? ==> !FlagAfter(t, false) && !FlagAfter(t, true)
    ensures e.fw.None? ==> Sent(t) == []
    ensures e.fw.Some? ==>
      Sent(t) == Sent(RtpStream.Stream(e.i2cOk, e.fw.value, repeat, e.pwm, e.thrHi, e.thrLo, e.ticks).trace)
    ensures !e.i2cOk && e.fw.Some? ==> t == [RaiseBreak, Stop] + setup + [ClearBreak]
    ensures WritesAtMost(t, I2C_TRANS_RTP)
  {
    var head := [RaiseBreak, Stop] + setup;
    CancelHead(setup);
    if e.fw.None? then
      head
    else
      var run := RtpStream.Stream(e.i2cOk, e.fw.value, repeat, e.pwm, e.thrHi, e.thrLo, e.ticks);
      PlayAfterCancel(head, run.trace);
      head + [ClearBreak] + run.trace
  }

  /** The cancelling prefix: it raises the flag, stops, and runs the silent
      setup, so the flag ends raised and nothing is sent. */
  lemma CancelHead(setup: seq<Action>)
    requires Silent(setup) && RaiseBreak !in setup && ClearBreak !in setup
    ensures var head := [RaiseBreak, Stop] + setup;
      && |head| >= 2 && head[0] == RaiseBreak && head[1] == Stop
      && Silent(head) && RaiseBreak !in head[1..] && ClearBreak !in head
      && FlagAfter(head, false) && FlagAfter(head, true)
      && Sent(head) == [] && WritesAtMost(head, I2C_TRANS_RTP)
  {
    var head := [RaiseBreak, Stop] + setup;
    assert Silent(head);
    assert head[1..] == [Stop] + setup;
    UntouchedKeepsFlag(head[1..], true);
    FlagAfterAppend([RaiseBreak], head[1..], false);
    FlagAfterAppend([RaiseBreak], head[1..], true);
    assert [RaiseBreak] + head[1..] == head;
    SilentSendsNothing(head);
  }

  /** The flag and payload accounting of `head + [ClearBreak] + s` when `head`
      starts by raising the flag and `s` never raises it. */
  lemma PlayAfterCancel(head: seq<Action>, s: seq<Action>)
    requires |head| >= 2 && head[0] == RaiseBreak && Silent(head)
    requires RaiseBreak !in head[1..] && ClearBreak !in head
    requires RaiseBreak !in s && WritesAtMost(s, I2C_TRANS_RTP)
    ensures RaiseBreak !in (head + [ClearBreak] + s)[1..]
    ensures WritesAtMost(head + [ClearBreak] + s, I2C_TRANS_RTP)
    ensures ClearBreak in head + [ClearBreak] + s
    ensures !FlagAfter(head + [ClearBreak] + s, false) && !FlagAfter(head + [ClearBreak] + s, true)
    ensures Sent(head + [ClearBreak] + s) == Sent(s)
    ensures (head + [ClearBreak] + s)[..|head|] == head
    ensures (head + [ClearBreak] + s)[|head|] == ClearBreak && (head + [ClearBreak] + s)[|head| + 1..] == s
    ensures s == [] ==> head + [ClearBreak] + s == head + [ClearBreak]
  {
    var t := head + [ClearBreak] + s;
    assert t[1..] == head[1..] + [ClearBreak] + s;
    assert t == head + ([ClearBreak] + s);
    FlagAfterAppend(head, [ClearBreak] + s, false);
    FlagAfterAppend(head, [ClearBreak] + s, true);
    NeverRaisedKeepsFlag(s, false);
    assert ([ClearBreak] + s)[1..] == s;
    SilentSendsNothing(head + [ClearBreak]);
    SentAppend(head + [ClearBreak], s);
    assert Silent(head + [ClearBreak]);
    WritesAtMostConcat(head + [ClearBreak], s, I2C_TRANS_RTP);
  }

  /** Function 5: play firmware image `<param>.bin` once, under the channel's
      default RTP clamp unless bit 8 of the debug mask is set. */
  function RtpPlayCommand(e: Env): (t: seq<Action>)
    requires ValidEnv(e)
    ensures |t| >= 2 && t[0] == RaiseBreak && t[1] == Stop && RaiseBreak !in t[1..]
    ensures !e.noRtpClamp ==>
      |t| >= 3 && t[2] == ByteWrite(REG_VD_CLAMP, Registers.VdClampByte(DefaultClamp(e.index)))
    ensures e.noRtpClamp && e.fw.None? ==> t == [RaiseBreak, Stop]
    ensures e.noRtpClamp && e.fw.Some? ==> |t| >= 3 && t[2] == ClearBreak
    ensures !e.noRtpClamp && e.fw.None? ==> |t| == 3
    ensures !e.noRtpClamp && e.fw.Some? ==> |t| >= 4 && t[3] == ClearBreak
    ensures e.fw.Some? ==>
      t[(if e.noRtpClamp then 3 else 4)..] == RtpStream.Stream(e.i2cOk, e.fw.value, 1, e.pwm, e.thrHi, e.thrLo, e.ticks).trace
    ensures ClearBreak in t <==> e.fw.Some?
  {
    var clamp := if e.noRtpClamp then [] else [ByteWrite(REG_VD_CLAMP, Registers.VdClampByte(DefaultClamp(e.index)))];
    var t := CancelThenPlay(clamp, e, 1);
    assert t[0] == t[..2 + |clamp|][0] && t[1] == t[..2 + |clamp|][1];
    assert !e.noRtpClamp ==> t[2] == t[..2 + |clamp|][2];
    t
  }

  /** Function 7: raise the break flag and stop the channel. */
  function StopCommand(): (t: seq<Action>)
    ensures |t| == 2 && t[0] == RaiseBreak && t[1] == Stop
    ensures FlagAfter(t, false) && FlagAfter(t, true)
    ensures Sent(t) == [] && Count(t, Stop) == 1
  {
    var t := [RaiseBreak, Stop];
    assert t[1..] == [Stop] && t[1..][1..] == [];
    assert t == [RaiseBreak] + [Stop];
    UntouchedKeepsFlag([Stop], true);
    FlagAfterAppend([RaiseBreak], [Stop], false);
    FlagAfterAppend([RaiseBreak], [Stop], true);
    t
  }

  /** `dw791x_play_mode_sel(client, 44, ...)`: -1 and nothing on an unready
      channel; otherwise the common PWM write (`gPWM`), then case 44, which
      raises the driver-wide flag and stops. The flag it raises is not the
      channel's, so the channel's flag, the only one the streamer looks at,
      keeps whatever value it had. */
  function GlobalStopCommand(ready: bool, pwm: Byte): (r: (int, seq<Action>))
    ensures r.0 == (if ready then 0 else -1)
    ensures !ready ==> r.1 == []
    ensures ready ==> |r.1| == 2 && r.1[0] == ByteWrite(REG_PWM, pwm) && r.1[1] == Stop
    ensures forall flag :: FlagAfter(r.1, flag) == flag
    ensures Count(r.1, Stop) == (if ready then 1 else 0) && Sent(r.1) == []
  {
    if !ready then (-1, [])
    else
      var t := [ByteWrite(REG_PWM, pwm), Stop];
      assert t[1..] == [Stop] && t[1..][1..] == [];
      assert Count(t[1..][1..], Stop) == 0;
      assert Silent(t);
      SilentSendsNothing(t);
      forall flag | true
        ensures FlagAfter(t, flag) == flag
      {
        UntouchedKeepsFlag(t, flag);
      }
      (0, t)
  }

  /** Function 7 and the case-44 stop both stop the channel once, but only
      function 7 leaves the channel's flag raised: after case 44 a stream that
      is still running does not see a break. */
  lemma StopCommandsDiffer(pwm: Byte)
    ensures Count(StopCommand(), Stop) == Count(GlobalStopCommand(true, pwm).1, Stop) == 1
    ensures FlagAfter(StopCommand(), false)
    ensures !FlagAfter(GlobalStopCommand(true, pwm).1, false)
  {
  }

  /** Function 1: clamp the parameter to the channel's ceiling and program
      it. */
  function ClampCommand(index: int, param: int): (t: seq<Action>)
    requires 0 <= param < 0x1_0000
    ensures |t| == 1 && t[0].ByteWrite? && t[0].reg == REG_VD_CLAMP
    ensures t[0].value * 40 <= Registers.MaxClamp(index)
    ensures param <= Registers.MaxClamp(index) ==> t[0].value == param / 40
    ensures t[0] == ByteWrite(REG_VD_CLAMP, Registers.ControlClamp(index, param) / 40)
    ensures param > Registers.MaxClamp(index) ==> t[0].value == (if index == 0 then 225 else 125)
  {
    var v := Registers.ControlClamp(index, param);
    Registers.ClampedEncodingExact(index, param);
    [ByteWrite(REG_VD_CLAMP, Registers.VdClampByte(v))]
  }

  /** Function 4's wave queue entry: the parameter's low byte when it names
      one of the five waves (or 0), otherwise wave 1. */
  function MemPlayQueue(param: int): (val: Byte)
    requires 0 <= param < 0x1_0000
    ensures 0 <= val <= 5
    ensures val == param % 256 <==> param % 256 <= 5
    ensures val != param % 256 ==> val == 1
  {
    var val := param % 256;
    if val < 0 || val > 5 then 1 else val
  }

  /** Function 4: queue a wave, put the channel in MEM mode, load the three
      headers and PCM tables, and play. */
  function MemPlayCommand(param: int, pcm: seq<seq<Byte>>): (t: seq<Action>)
    requires 0 <= param < 0x1_0000 && Waveforms.PcmTables(pcm)
    ensures |t| == 14 && t[1] == ByteWrite(REG_WAVQ1, MemPlayQueue(param)) && t[13] == Play
    ensures t[..7] == [ByteWrite(REG_MEM_LOOP, 0x00), ByteWrite(REG_WAVQ1, MemPlayQueue(param)),
                       ByteWrite(REG_WAVQ2, 0x00), ByteWrite(REG_MODE, MEM),
                       ByteWrite(REG_SEQ_LOOP0, 0x33), ByteWrite(REG_SEQ_LOOP1, 0x33),
                       ByteWrite(REG_MEM_LOOP, 0x02)]
    ensures t[3].ByteWrite? && t[3].reg == REG_MODE && (t[3].value as bv8) & D14_MEM_MODE == D14_MEM_MODE
    ensures t[7 .. 13] == Waveforms.MemPlayAsWritten(pcm)
    ensures t[12] == SeqWrite(REG_RAM_ADDR, Ram16(0x0566), pcm[2])
    ensures Sent(t) == Waveforms.H1 + pcm[0] + Waveforms.H2 + pcm[1] + Waveforms.H3 + pcm[2]
    ensures WritesAtMost(t, MAX_FRAME_DATA)
  {
    var setup := [ByteWrite(REG_MEM_LOOP, 0x00), ByteWrite(REG_WAVQ1, MemPlayQueue(param)),
                  ByteWrite(REG_WAVQ2, 0x00), ByteWrite(REG_MODE, MEM),
                  ByteWrite(REG_SEQ_LOOP0, 0x33), ByteWrite(REG_SEQ_LOOP1, 0x33),
                  ByteWrite(REG_MEM_LOOP, 0x02)];
    var load := Waveforms.MemPlayAsWritten(pcm);
    MemPlayFrames(pcm);
    assert Silent(setup) && Silent([Play]);
    SilentSendsNothing(setup);
    SilentSendsNothing([Play]);
    SentAppend(setup, load);
    SentAppend(setup + load, [Play]);
    WritesAtMostConcat(setup, load, MAX_FRAME_DATA);
    WritesAtMostAppend(setup + load, [Play], MAX_FRAME_DATA);
    setup + load + [Play]
  }

  /** Every bulk write of the MEM load fits one `seq_write` frame. */
  lemma MemPlayFrames(pcm: seq<seq<Byte>>)
    requires Waveforms.PcmTables(pcm)
    ensures WritesAtMost(Waveforms.MemPlayAsWritten(pcm), MAX_FRAME_DATA)
  {
    var t := Waveforms.MemPlayAsWritten(pcm);
    forall i | 0 <= i < |t| && t[i].SeqWrite?
      ensures |t[i].data| <= MAX_FRAME_DATA
    {
      assert |t[i].data| <= 890;
    }
  }

  /* ------------------------------------------------------------ dispatch */

  /** `dw791x_vibrator_control(client, fun, param)`. Function 6 (GPIO
      trigger) and function 8 (the trigger setup of `dw791x_play_mode_sel`
      case 21) are outside this model: their trace here is empty. */
  function VibratorControl(e: Env, g: Globals, fun: int, param: int): (r: Outcome)
    requires ValidEnv(e)
    requires 0 <= fun < 0x1_0000 && 0 <= param < 0x1_0000
    ensures r.ret == (if e.i2cOk then 0 else -1)
    ensures !e.i2cOk ==> r.trace == [] && r.globals == g
    ensures WritesAtMost(r.trace, MAX_FRAME_DATA)
    ensures r.globals.channel != g.channel ==> fun == 3 && r.globals.channel == ActuatorIndex.ChannelSelect(param)
    ensures r.globals.enabled != g.enabled ==> fun == 2 && r.globals.enabled == param % 4
    ensures e.i2cOk && fun == 1 ==> r.trace == ClampCommand(e.index, param) && r.globals == g
    ensures e.i2cOk && fun == 2 ==> r.trace == [] && r.globals == g.(enabled := param % 4)
    ensures e.i2cOk && fun == 3 ==> r.trace == [] && r.globals == g.(channel := ActuatorIndex.ChannelSelect(param))
    ensures e.i2cOk && fun == 4 ==> r.trace == MemPlayCommand(param, e.pcm) && r.globals == g
    ensures e.i2cOk && fun == 5 ==> r.trace == RtpPlayCommand(e) && r.globals == g
    ensures e.i2cOk && fun == 7 ==> r.trace == StopCommand() && r.globals == g
    ensures e.i2cOk && !(1 <= fun <= 5 || fun == 7) ==> r.trace == [] && r.globals == g
  {
    if !e.i2cOk then Outcome(-1, [], g)
    else if fun == 1 then Outcome(0, ClampCommand(e.index, param), g)
    else if fun == 2 then Outcome(0, [], g.(enabled := param % 4))
    else if fun == 3 then Outcome(0, [], g.(channel := ActuatorIndex.ChannelSelect(param)))
    else if fun == 4 then Outcome(0, MemPlayCommand(param, e.pcm), g)
    else if fun == 5 then
      var t := RtpPlayCommand(e);
      RtpPlayFrames(e);
      Outcome(0, t, g)
    else if fun == 7 then Outcome(0, StopCommand(), g)
    else Outcome(0, [], g)
  }

  /** Only functions 5 and 7 touch the channel's break flag. Both raise it
      first and stop the channel next; only function 5 lowers it again, and
      only once its firmware image has loaded. */
  lemma ControlBreakOrdering(e: Env, g: Globals, fun: int, param: int)
    requires ValidEnv(e)
    requires 0 <= fun < 0x1_0000 && 0 <= param < 0x1_0000
    ensures var t := VibratorControl(e, g, fun, param).trace;
      && (RaiseBreak in t <==> e.i2cOk && (fun == 5 || fun == 7))
      && (ClearBreak in t <==> e.i2cOk && fun == 5 && e.fw.Some?)
      && ((fun == 5 || fun == 7) && e.i2cOk ==>
            |t| >= 2 && t[0] == RaiseBreak && t[1] == Stop && RaiseBreak !in t[1..])
  {
    if e.i2cOk && fun == 5 {
      RtpPlayFrames(e);
    }
    if e.i2cOk && fun == 4 {
      var t := MemPlayCommand(param, e.pcm);
      MemPlayCommandNoFlag(param, e.pcm);
    }
  }

  lemma MemPlayCommandNoFlag(param: int, pcm: seq<seq<Byte>>)
    requires 0 <= param < 0x1_0000 && Waveforms.PcmTables(pcm)
    ensures RaiseBreak !in MemPlayCommand(param, pcm) && ClearBreak !in MemPlayCommand(param, pcm)
  {
    var t := MemPlayCommand(param, pcm);
    var load := Waveforms.MemPlayAsWritten(pcm);
    assert forall i :: 0 <= i < |load| ==> load[i].SeqWrite?;
    assert forall i :: 7 <= i < 13 ==> t[i] == load[i - 7];
  }

  lemma RtpPlayFrames(e: Env)
    requires ValidEnv(e)
    ensures WritesAtMost(RtpPlayCommand(e), MAX_FRAME_DATA)
    ensures RaiseBreak in RtpPlayCommand(e) && RaiseBreak !in RtpPlayCommand(e)[1..]
  {
    var t := RtpPlayCommand(e);
    assert t[0] == RaiseBreak;
    forall i | 0 <= i < |t| && t[i].SeqWrite?
      ensures |t[i].data| <= MAX_FRAME_DATA
    {
    }
  }

  /* ------------------------------------------------------ repeat play */

  /** The firmware number and pass count `rtp_repeat_play_store` plays. The
      two numbers are only parsed when the debug mask is exactly 0x0010
      (`parsed`); otherwise their initial values -1 and 1 go through the
      sanitiser. A repeat count of 0 is let through. */
  function RepeatArgs(parsed: bool, val: int, repeat: int): (r: (int, int))
    ensures 1 <= r.0 < 65535 && 0 <= r.1 <= 65535
    ensures !parsed ==> r == (1, 1)
    ensures parsed ==> (r.0 == val <==> 0 < val < 65535) && (r.0 != val ==> r.0 == 1)
    ensures parsed ==> (r.1 == repeat <==> 0 <= repeat <= 65535) && (r.1 != repeat ==> r.1 == 1)
  {
    var val := if parsed then val else -1;
    var repeat := if parsed then repeat else 1;
    var repeat := if repeat < 0 || repeat > 65535 then 1 else repeat;
    var val := if val <= 0 || val >= 65535 then 1 else val;
    (val, repeat)
  }

  /** `rtp_repeat_play_store` on the selected channel: cancel, stop, and when
      image `<val>.bin` loads, stream it `repeat` times. Unlike function 5 it
      leaves the clamp alone. */
  function RepeatPlayStore(e: Env, parsed: bool, val: int, repeat: int): (t: seq<Action>)
    requires ValidEnv(e)
    ensures |t| >= 2 && t[0] == RaiseBreak && t[1] == Stop && RaiseBreak !in t[1..]
    ensures ClearBreak in t <==> e.fw.Some?
    ensures e.fw.None? ==> t == [RaiseBreak, Stop]
    ensures e.fw.Some? ==> |t| >= 3 && t[2] == ClearBreak
    ensures !e.i2cOk && e.fw.Some? ==> t == [RaiseBreak, Stop, ClearBreak]
    ensures e.fw.Some? ==>
      Sent(t) == Sent(RtpStream.Stream(e.i2cOk, e.fw.value, RepeatArgs(parsed, val, repeat).1,
                                       e.pwm, e.thrHi, e.thrLo, e.ticks).trace)
  {
    CancelThenPlay([], e, RepeatArgs(parsed, val, repeat).1)
  }

  /** A stored repeat count of 0 plays the image once, in full, like 1. */
  lemma RepeatZeroPlaysOnce(e: Env, val: int)
    requires ValidEnv(e) && e.fw.Some? && RtpStream.PlaySize(e.fw.value) >= I2C_TRANS_RTP
    ensures var n := RepeatArgs(true, val, 0).1;
      && n == 0 && RtpStream.Passes(n) == 1
      && (e.i2cOk && RtpStream.Stream(true, e.fw.value, n, e.pwm, e.thrHi, e.thrLo, e.ticks).status == RtpStream.Done ==>
            Sent(RepeatPlayStore(e, true, val, 0)) == RtpStream.Payload(e.fw.value))
  {
    var w := e.fw.value;
    RtpStream.PacedDeliversAllPasses(w, 0, e.pwm, e.thrHi, e.thrLo, e.ticks);
    assert RtpStream.Repeat(RtpStream.Payload(w), 1) == RtpStream.Payload(w) by {
      RepeatOnce(RtpStream.Payload(w));
    }
  }

  lemma RepeatOnce(p: seq<Byte>)
    ensures RtpStream.Repeat(p, 1) == p
  {
    assert RtpStream.Repeat(p, 0) == [];
    assert p + [] == p;
  }
}
