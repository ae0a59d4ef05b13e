/**
 The sample upsampler of `I2CWriteWithResendOnError_DW7914`, through which
 the Immersion player's force samples reach the RTP FIFO: with a resampling
 factor `r > 1` every sample is repeated to raise the sample rate (factor 4
 takes 12 kHz to 48 kHz), and the frame goes out behind the RTP input
 register byte.

 The loop as written is one sample late: its source index only advances after
 an output index that is a positive multiple of `r`, so the first sample goes
 out `r + 1` times and the last `r - 1` times. `UpsampleAsWritten` and
 `ResampleLoop` model that; `Upsample` is the evident intent (every sample `r`
 times). The `r <= 1` branch as written sends the copied samples plus one
 stale byte and no register byte (`PassThroughAsWritten`); `PassThrough`
 prefixes the register byte as the other branch does. `Send` is the call as
 written and builds its frame from `UpsampleAsWritten` and
 `PassThroughAsWritten`; `SendCorrected` builds it from `Upsample` and
 `PassThrough`, and `SendAgainstCorrected` relates the two.
 */
module Upsampler {
  import opened Bits
  import opened Geometry

  /** Size of the two DMA bounce buffers, `1024*8+1`. */
  const DMA_BUF_LEN: int := 1024 * 8 + 1

  /* -------------------------------------------------------- arithmetic */

  lemma DivUnique(i: int, r: int, q: int, m: int)
    requires r > 0 && i == q * r + m && 0 <= m < r
    ensures i / r == q && i % r == m
  {
    var d := i / r - q;
    assert d * r == m - i % r;
  }

  /** Below `n * r`, dividing by `r` gives an index below `n`. */
  lemma DivBelow(i: nat, r: nat, n: nat)
    requires r > 0 && i < n * r
    ensures i / r < n
  {
  }

  /** Stepping past a multiple of `r` advances the quotient by one. */
  lemma DivStep(i: nat, r: nat)
    requires r > 0 && i >= 1
    ensures i / r == (i - 1) / r + (if i % r == 0 then 1 else 0)
  {
    var q := (i - 1) / r;
    var m := (i - 1) % r;
    if m == r - 1 {
      DivUnique(i, r, q + 1, 0);
    } else {
      DivUnique(i, r, q, m + 1);
    }
  }

  /** Removing `r` from a numerator of at least `r` removes one from the
      quotient. */
  lemma DivShift(i: nat, r: nat)
    requires r > 0 && i >= r
    ensures (i - r) / r == i / r - 1
  {
    DivUnique(i - r, r, i / r - 1, i % r);
  }

  /* ------------------------------------------------------ the intended rule */

  /** `r` copies of one sample. */
  function Copies(b: Byte, r: nat): (s: seq<Byte>)
    ensures |s| == r && forall i :: 0 <= i < r ==> s[i] == b
  {
    seq(r, _ => b)
  }

  /** The reference stretch: each sample in turn, `r` times. */
  function Stretch(src: seq<Byte>, r: nat): (s: seq<Byte>)
    ensures |s| == |src| * r
  {
    if |src| == 0 then [] else Copies(src[0], r) + Stretch(src[1..], r)
  }

  /** Output sample `i` of the intended upsampler is input sample `i / r`. */
  function Upsample(src: seq<Byte>, r: nat): (out: seq<Byte>)
    requires r > 0
    ensures |out| == |src| * r
  {
    seq(|src| * r, i requires 0 <= i < |src| * r => DivBelow(i, r, |src|); src[i / r])
  }

  /** The index rule and the reference stretch agree. */
  lemma {:induction false} UpsampleIsStretch(src: seq<Byte>, r: nat)
    requires r > 0
    ensures Upsample(src, r) == Stretch(src, r)
  {
    if |src| > 0 {
      UpsampleIsStretch(src[1..], r);
      var u := Upsample(src, r);
      var s := Copies(src[0], r) + Stretch(src[1..], r);
      forall i | 0 <= i < |u|
        ensures u[i] == s[i]
      {
        DivBelow(i, r, |src|);
        if i < r {
          DivUnique(i, r, 0, i);
        } else {
          DivShift(i, r);
          DivBelow(i - r, r, |src| - 1);
          assert s[i] == Stretch(src[1..], r)[i - r] == Upsample(src[1..], r)[i - r];
        }
      }
    }
  }

  /* ---------------------------------------------------- the loop as written */

  /** The source index the loop as written reads at output index `i`: it
      starts at 0 and only moves after a positive multiple of `r`. */
  function SourceIndex(i: nat, r: nat, n: nat): (j: nat)
    requires r > 0 && i < n * r
    ensures j < n
    ensures i >= 1 ==> j == (i - 1) / r
  {
    if i == 0 then 0 else DivBelow(i - 1, r, n); (i - 1) / r
  }

  /** The output the loop as written fills in `dma_buf_resampling[1..]`. */
  function UpsampleAsWritten(src: seq<Byte>, r: nat): (out: seq<Byte>)
    requires r > 0
    ensures |out| == |src| * r
    ensures |src| > 0 ==> out[0] == src[0]
    ensures forall i :: 1 <= i < |out| ==> (i - 1) / r < |src| && out[i] == src[(i - 1) / r]
  {
    SourceIndexBehind(r, |src|);
    seq(|src| * r, i requires 0 <= i < |src| * r => src[SourceIndex(i, r, |src|)])
  }

  /** Past the first output, the loop reads one sample behind the quotient. */
  lemma SourceIndexBehind(r: nat, n: nat)
    requires r > 0
    ensures forall i :: 1 <= i < n * r ==> (i - 1) / r < n && SourceIndex(i, r, n) == (i - 1) / r
  {
    forall i | 1 <= i < n * r
      ensures (i - 1) / r < n && SourceIndex(i, r, n) == (i - 1) / r
    {
      var j := SourceIndex(i, r, n);
    }
  }

  /** The copy loop: one output byte per iteration from the current source
      index, which advances after every positive multiple of `r`. */
  method ResampleLoop(src: seq<Byte>, r: nat) returns (out: seq<Byte>)
    requires r > 1
    ensures out == UpsampleAsWritten(src, r)
  {
    out := [];
    var total := |src| * r;
    var i: nat := 0;
    var j: nat := 0;
    while i < total
      invariant i <= total && |out| == i
      invariant i < total ==> j == SourceIndex(i, r, |src|)
      invariant forall k :: 0 <= k < i ==> out[k] == src[SourceIndex(k, r, |src|)]
    {
      out := out + [src[j]];
      if i + 1 < total {
        LoopStep(i, r, |src|);
      }
      if i != 0 && i % r == 0 {
        j := j + 1;
      }
      i := i + 1;
    }
  }

  /** One iteration moves the source index exactly as `SourceIndex` says. */
  lemma LoopStep(i: nat, r: nat, n: nat)
    requires r > 1 && i + 1 < n * r
    ensures SourceIndex(i + 1, r, n) == SourceIndex(i, r, n) + (if i != 0 && i % r == 0 then 1 else 0)
  {
    if i == 0 {
      DivUnique(0, r, 0, 0);
    } else {
      DivStep(i, r);
    }
  }

  /** The loop as written is the intended output one sample late: it starts
      with an extra copy of the first sample and drops the last output. */
  lemma AsWrittenIsDelayed(src: seq<Byte>, r: nat)
    requires r > 0 && |src| > 0
    ensures UpsampleAsWritten(src, r) == [src[0]] + Upsample(src, r)[..|src| * r - 1]
  {
    var a := UpsampleAsWritten(src, r);
    var b := [src[0]] + Upsample(src, r)[..|src| * r - 1];
    assert |src| * r >= 1 by {
      assert |src| * r >= 1 * r;
    }
    forall i | 0 <= i < |a|
      ensures a[i] == b[i]
    {
    }
  }

  /** Two samples at factor 2: the loop as written sends the first sample three
      times and the second once, where each should go out twice. */
  lemma UpsampleCounterexample()
    ensures UpsampleAsWritten([0x00, 0x7F], 2) == [0x00, 0x00, 0x00, 0x7F]
    ensures Upsample([0x00, 0x7F], 2) == [0x00, 0x00, 0x7F, 0x7F]
  {
    var a := UpsampleAsWritten([0x00, 0x7F], 2);
    assert SourceIndex(1, 2, 2) == 0 && SourceIndex(2, 2, 2) == 0 && SourceIndex(3, 2, 2) == 1;
    assert a == [a[0], a[1], a[2], a[3]];
    var u := Upsample([0x00, 0x7F], 2);
    assert u == [u[0], u[1], u[2], u[3]];
  }

  /* ------------------------------------------------- the r <= 1 branch */

  /** As written: `i2c_send_buf(dma_buf_ivt, n + 1)` sends the copied samples
      and the stale byte after them, without the RTP input register byte. */
  function PassThroughAsWritten(src: seq<Byte>, stale: Byte): (frame: seq<Byte>)
    ensures |frame| == |src| + 1
    ensures frame[..|src|] == src && frame[|src|] == stale
  {
    src + [stale]
  }

  /** The frame the branch evidently means: the register byte, then the
      samples. */
  function PassThrough(src: seq<Byte>): (frame: seq<Byte>)
    ensures |frame| == |src| + 1 && frame[0] == REG_RTP_INPUT && frame[1..] == src
  {
    [REG_RTP_INPUT] + src
  }

  /** One sample 0x7F at factor 1: the frame as written names register 0x7F
      instead of the RTP input register. */
  lemma PassThroughCounterexample()
    ensures PassThroughAsWritten([0x7F], 0x00)[0] == 0x7F != REG_RTP_INPUT
    ensures PassThrough([0x7F]) == [REG_RTP_INPUT, 0x7F]
  {
  }

  /* ------------------------------------------------------------- the call */

  /** The buffers hold what the call copies: the samples plus one byte, and
      with resampling the stretched samples plus the register byte. */
  predicate FitsBuffers(src: seq<Byte>, r: int)
  {
    |src| + 1 <= DMA_BUF_LEN && (r > 1 ==> |src| * r + 1 <= DMA_BUF_LEN)
  }

  /** `I2CWriteWithResendOnError_DW7914` as written: `None` (VIBE_E_FAIL)
      when the bus is down or the buffer is longer than `maxSamples`
      (`VIBE_OUTPUT_SAMPLE_SIZE`), otherwise the one frame it sends. With
      resampling that is the register byte and the delayed stretch; without,
      the samples and `stale`, the byte of `dma_buf_ivt` after them. */
  function Send(i2cOk: bool, maxSamples: int, src: seq<Byte>, r: int, stale: Byte): (frame: Option<seq<Byte>>)
    requires |src| <= maxSamples ==> FitsBuffers(src, r)
    ensures frame.None? <==> !i2cOk || |src| > maxSamples
    ensures frame.Some? ==> |frame.value| == 1 + |src| * (if r > 1 then r else 1) <= DMA_BUF_LEN
    ensures frame.Some? && r > 1 ==>
      frame.value[0] == REG_RTP_INPUT && frame.value[1..] == UpsampleAsWritten(src, r)
    ensures frame.Some? && r > 1 && |src| > 0 ==>
      frame.value[1..] == [src[0]] + Stretch(src, r)[..|src| * r - 1]
    ensures frame.Some? && r <= 1 ==> frame.value[..|src|] == src && frame.value[|src|] == stale
  {
    if !i2cOk || |src| > maxSamples then None
    else if r > 1 then
      if |src| > 0 then
        AsWrittenIsDelayed(src, r);
        UpsampleIsStretch(src, r);
        Some([REG_RTP_INPUT] + UpsampleAsWritten(src, r))
      else Some([REG_RTP_INPUT] + UpsampleAsWritten(src, r))
    else Some(PassThroughAsWritten(src, stale))
  }

  /** The call with the corrected upsampler and framing: the register byte,
      then every sample `r` times with resampling, or the plain samples
      without. */
  function SendCorrected(i2cOk: bool, maxSamples: int, src: seq<Byte>, r: int): (frame: Option<seq<Byte>>)
    requires |src| <= maxSamples ==> FitsBuffers(src, r)
    ensures frame.None? <==> !i2cOk || |src| > maxSamples
    ensures frame.Some? ==>
      && |frame.value| == 1 + |src| * (if r > 1 then r else 1) <= DMA_BUF_LEN
      && frame.value[0] == REG_RTP_INPUT
      && frame.value[1..] == (if r > 1 then Stretch(src, r) else src)
  {
    if !i2cOk || |src| > maxSamples then None
    else if r > 1 then
      UpsampleIsStretch(src, r);
      Some([REG_RTP_INPUT] + Upsample(src, r))
    else Some(PassThrough(src))
  }

  /** The call as written fails exactly when the corrected one does; with
      resampling its frame is the corrected one delayed by one sample, and
      without it is the corrected frame shifted left over the register byte,
      with the stale byte at the end. */
  lemma SendAgainstCorrected(i2cOk: bool, maxSamples: int, src: seq<Byte>, r: int, stale: Byte)
    requires |src| <= maxSamples ==> FitsBuffers(src, r)
    ensures Send(i2cOk, maxSamples, src, r, stale).None? <==> SendCorrected(i2cOk, maxSamples, src, r).None?
    ensures var w := Send(i2cOk, maxSamples, src, r, stale);
            var c := SendCorrected(i2cOk, maxSamples, src, r);
      && (w.Some? && r > 1 && |src| > 0 ==> w.value == [REG_RTP_INPUT, src[0]] + c.value[1 .. |src| * r])
      && (w.Some? && r <= 1 ==> w.value == c.value[1..] + [stale])
  {
    var w := Send(i2cOk, maxSamples, src, r, stale);
    var c := SendCorrected(i2cOk, maxSamples, src, r);
    if w.Some? && r > 1 && |src| > 0 {
      DelayedFrame(w.value, c.value, src, r);
    } else if w.Some? && r <= 1 {
      ShiftedFrame(w.value, c.value, src, stale);
    }
  }

  lemma DelayedFrame(w: seq<Byte>, c: seq<Byte>, src: seq<Byte>, r: nat)
    requires |src| > 0 && r > 1
    requires |w| >= 1 && w[0] == REG_RTP_INPUT && w[1..] == [src[0]] + Stretch(src, r)[..|src| * r - 1]
    requires |c| >= 1 && c[1..] == Stretch(src, r)
    ensures w == [REG_RTP_INPUT, src[0]] + c[1 .. |src| * r]
  {
    var n := |src| * r;
    assert n >= 1 by {
      assert n >= 1 * r;
    }
    assert c[1 .. n] == c[1..][..n - 1];
    assert w == [w[0]] + w[1..];
  }

  lemma ShiftedFrame(w: seq<Byte>, c: seq<Byte>, src: seq<Byte>, stale: Byte)
    requires |w| == |src| + 1 && w[..|src|] == src && w[|src|] == stale
    requires |c| >= 1 && c[1..] == src
    ensures w == c[1..] + [stale]
  {
    assert w == w[..|src|] + [w[|src|]];
  }
}
