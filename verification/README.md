# DW791x haptic driver core, modelled in Dafny

This project models the core of the DW7914/DW7912 haptic-actuator driver (`ImmVibeSPI.c` with its register and waveform header `dw791x_drv.h`). The driver runs two LRA actuators, the bottom one in slot 0 and the top one in slot 1. The model covers:

- **Register frames:** the bus frames the driver builds (`dw791x_seq_write`, `dw791x_word_write`) and the read-modify-write setters of the configuration registers.
- **Paced RTP streamer:** `request_transfer_rtp_wave` streams a firmware waveform into the device FIFO, pacing the writes by the FIFO level it reads back. It can be cancelled through the channel's break flag.
- **Chunked MEM loaders:** `request_transfer_mem_wave` and `transfer_atuovib_wave`, plus the static MEM waveform tables and the RAM image that the "mem play" command builds from them.
- **Slot and channel bookkeeping:** `dw791x_probe`, `getActuatorIndex`, `gChannel` and the channel-to-slot rule of the sysfs handlers.
- **User commands:** the control word, its dispatch in `dw791x_vibrator_control`, and `rtp_repeat_play_store`. What matters here is the order of "raise the break flag, stop, lower the flag, stream".
- **Immersion upsampler:** `I2CWriteWithResendOnError_DW7914` stretches force samples by the resampling factor and frames them for the RTP input register.

**How the device is modelled.** The device is an oracle, and every operation is a pure function that returns the ordered trace of bus actions it issues (module `Trace`):

- Register reads become inputs.
- The streamer's loop consumes one observation per iteration. An observation holds the FIFO level bytes and the break flag.
- `request_firmware` becomes an `Option` image.
- The break flag's transitions are recorded as trace actions, so ordering properties can be stated over the trace.

**Integer widths.** `u32` arithmetic is written out where it can wrap (`Bits.Wrap32`). Byte stores are written out as truncations (`Bits.LowByte`).

## Model

| member | source | states |
|---|---|---|
| Bits.Be32RoundTrip | drivers/motor/tspdrv/ImmVibeSPI.c:3478-3490 | the big-endian `u32` assembled from four bytes splits back into exactly those bytes, so comparing two such words compares their bytes |
| Geometry.ModeMasksDisjoint | drivers/motor/tspdrv/dw791x_drv.h:179-184 | each of the six MODE masks is a single bit, and no two of them share a bit |
| Geometry.TransferUnitsFitFrame | drivers/motor/tspdrv/dw791x_drv.h:60-70 | the RTP and MEM transfer units are both 1024 bytes and fit the 1027-byte frame payload, and the 8 KB FIFO threshold is 0x1FFC, inside SRAM |
| Trace.ClearedStaysClear | drivers/motor/tspdrv/ImmVibeSPI.c:3763-3766 | a trace that lowers the break flag and never raises it leaves the flag lowered, whatever it was before |
| Registers.SeqFrame | drivers/motor/tspdrv/ImmVibeSPI.c:3515-3550 | the frame is refused exactly when the payload exceeds 1027 bytes; otherwise its length is payload + 1 (no RAM address) or + 3 |
| Registers.FrameRoundTrip | drivers/motor/tspdrv/ImmVibeSPI.c:3528-3546 | every accepted frame parses back to the byte-truncated register, the 16-bit RAM address and exactly the payload |
| Registers.WordFrame | drivers/motor/tspdrv/ImmVibeSPI.c:3207-3228 | a word write is three bytes whose last two hold the low 16 bits of the value big-endian |
| Registers.PwmSet | drivers/motor/tspdrv/ImmVibeSPI.c:3263-3276 | the written byte reads back as `val % 4` and keeps the six upper bits of the register |
| Registers.PwmSetGetRoundTrip | drivers/motor/tspdrv/ImmVibeSPI.c:3263-3294 | setting a rate below 4 reads back as that rate, and setting it twice writes the same byte |
| Registers.PwmGet | drivers/motor/tspdrv/ImmVibeSPI.c:3284-3294 | the rate read back is below 4 and is the register read modulo 4 |
| Registers.VdClampByte | drivers/motor/tspdrv/ImmVibeSPI.c:3301-3314 | below 10240 mV the register byte is the floor of millivolts over 40 |
| Registers.ControlClamp | drivers/motor/tspdrv/ImmVibeSPI.c:965-986 | the value is kept exactly when it lies in `[0, max]` of the channel, otherwise it becomes the channel maximum (9000 bottom, 5000 top) |
| Registers.StoreClamp | drivers/motor/tspdrv/ImmVibeSPI.c:2652-2668 | the value is kept exactly when it lies in `(0, max]`, otherwise it becomes the channel maximum |
| Registers.ClampsDifferOnlyAtZero | drivers/motor/tspdrv/ImmVibeSPI.c:965-986 | the control clamp and the attribute clamp disagree on 0 and nowhere else |
| Registers.ClampedEncodingExact | drivers/motor/tspdrv/ImmVibeSPI.c:3307 | every clamped value encodes without byte truncation |
| Registers.BstRoundTrip | drivers/motor/tspdrv/ImmVibeSPI.c:3323-3335 | level, limit and offset step within their field widths unpack to what was packed |
| Registers.BstOption | drivers/motor/tspdrv/ImmVibeSPI.c:3323-3335 | with each field in its width, the stored byte is `lv*64 + limit*16 + ofs/80` |
| Registers.BstLimitSpills | drivers/motor/tspdrv/ImmVibeSPI.c:3329 | an unmasked limit of 4 packs to the same byte as level 1 |
| Registers.FifoRoundTrip | drivers/motor/tspdrv/ImmVibeSPI.c:3345-3356 | the threshold `fifo_size_set(kb)` writes reads back in the RTP path as a `1024*kb+4`-byte FIFO, for kb up to 15 |
| Registers.FifoThreshold | drivers/motor/tspdrv/ImmVibeSPI.c:3345-3356 | the written threshold is `SRAM_BASE - (1024*kb + 4)` when that is not negative, and otherwise the same value reduced modulo 2^32 |
| Registers.FifoSizeFromRegs | drivers/motor/tspdrv/ImmVibeSPI.c:3691-3693 | the FIFO size read back is `SRAM_BASE` minus the big-endian threshold, plus 2^32 when the threshold lies above `SRAM_BASE` |
| Registers.FifoSixteenWraps | drivers/motor/tspdrv/ImmVibeSPI.c:3693 | at 16 KB the threshold underflows and the read-back FIFO size wraps to 0xFFFF4004 |
| Registers.ModeSet | drivers/motor/tspdrv/ImmVibeSPI.c:3364-3381 | the masked bits become set or clear as asked, and every other bit is as read |
| Registers.ModeSetIdempotent | drivers/motor/tspdrv/ImmVibeSPI.c:3364-3381 | a repeated MODE update writes the same byte |
| Registers.ModeSetKeepsOtherModeBits | drivers/motor/tspdrv/ImmVibeSPI.c:3369-3376 | updating one MODE mask leaves every other MODE mask's bit as read |
| Registers.Checksum | drivers/motor/tspdrv/ImmVibeSPI.c:3462-3506 | an unready channel gives -1 and keeps the stored value; otherwise, when the image loads, the stored checksum becomes the big-endian word of the four image bytes ending at `(1 + page) * BIN_BASE`, and when it does not, it stays as it was; the result is 0 exactly when the four device checksum bytes equal the stored checksum's bytes |
| RtpStream.ChunkSize | drivers/motor/tspdrv/ImmVibeSPI.c:3719-3732 | the chunk is the least of one transfer unit, the FIFO room and the rest of the pass; it never exceeds the room when the level is within the FIFO, and a level above the FIFO size leaves the room unbounded (the `u32` difference wraps) |
| RtpStream.Control | drivers/motor/tspdrv/ImmVibeSPI.c:3755-3797 | the control actions carry no data, play exactly once when fired and never otherwise, stop exactly on a break and then end with clear-stop-flush, sleep exactly when pacing is asked for, and never raise the flag |
| RtpStream.Transfer | drivers/motor/tspdrv/ImmVibeSPI.c:3713-3801 | one iteration sends exactly the bytes its `curcnt` advance takes off the remaining stream, at most one transfer unit per frame; it plays exactly on the first lock, which needs a level above half the FIFO; it cancels exactly when the flag is seen, ending with the halt; it sleeps exactly when the level exceeds `fifo_size - fifo_size/3`; it never raises the flag |
| RtpStream.Step | drivers/motor/tspdrv/ImmVibeSPI.c:3710-3818 | one loop turn keeps the sent-plus-remaining accounting; a finish writes only the flush; a cancel saw the flag and ends with the halt; a flag seen with data left always cancels |
| RtpStream.Run | drivers/motor/tspdrv/ImmVibeSPI.c:3710-3818 | the loop keeps `sent + remaining` equal to what remained at its start, plays at most once (never once already locked), never raises the flag, writes at most one transfer unit per frame, and runs out of observations only while still running |
| RtpStream.Stream | drivers/motor/tspdrv/ImmVibeSPI.c:3655-3706 | an unready channel does nothing and reports it; otherwise the call starts with the trigger-control write, FIFO flush in RTP mode and PWM write, and no frame exceeds one transfer unit |
| RtpStream.Preamble | drivers/motor/tspdrv/ImmVibeSPI.c:3675-3688 | three silent writes that touch no flag: 0x04 into the trigger-control register `DW7914_TRIG_CTRL` (0x03), a MODE byte with FIFO flush set and MEM mode clear (RTP mode), and `gPWM` into the PWM register |
| RtpStream.FastPathSingleFrame | drivers/motor/tspdrv/ImmVibeSPI.c:3700-3706 | a payload under 1024 bytes goes out as one frame of exactly the payload, then PLAY, whatever the repeat count |
| RtpStream.PacedDeliversAllPasses | drivers/motor/tspdrv/ImmVibeSPI.c:3728-3815 | a finished paced call sent `max(repeat,1)` copies of the payload in order |
| RtpStream.PacedSendsPrefix | drivers/motor/tspdrv/ImmVibeSPI.c:3728-3737 | whatever stops the call, the bytes sent are a prefix of the repeated payload, and a call still pending used every observation |
| RtpStream.PacedFinishesOnQuietFifo | drivers/motor/tspdrv/ImmVibeSPI.c:3713-3815 | a finished call is reachable: with the 8 KB FIFO (threshold 0x1FFC) reading empty and no break, a one-unit payload is sent in the first iteration and the second finishes, having sent the payload exactly once |
| RtpStream.PacedEndsWithFlush | drivers/motor/tspdrv/ImmVibeSPI.c:3810-3814 | a finished paced call ends with the FIFO flush |
| RtpStream.PacedPlaysOnce | drivers/motor/tspdrv/ImmVibeSPI.c:3755-3761 | PLAY is issued at most once, and only after an observed FIFO level above half the FIFO size |
| RtpStream.PlayNeedsHalfFull | drivers/motor/tspdrv/ImmVibeSPI.c:3755-3761 | in the loop, a PLAY implies that some consumed observation read more than half the FIFO size |
| RtpStream.PacedBreakEnds | drivers/motor/tspdrv/ImmVibeSPI.c:3763-3769 | a cancelled call saw the flag on its last observation, ends with clear, stop and flush (and possibly the sleep), and leaves the flag lowered |
| RtpStream.PacedBreakAtOnce | drivers/motor/tspdrv/ImmVibeSPI.c:3763-3764 | a flag already set at the first test cancels after exactly one iteration |
| RtpStream.StreamNeverRaisesBreak | drivers/motor/tspdrv/ImmVibeSPI.c:3655-3822 | the streamer never raises the break flag |
| MemLoader.DecodeHeader | drivers/motor/tspdrv/ImmVibeSPI.c:3857-3858 | the address is the first two bytes big-endian, and the size is the low nibble of the third byte with the fourth byte |
| MemLoader.HeaderRoundTrip | drivers/motor/tspdrv/ImmVibeSPI.c:3857-3858 | decoding an encoded header gives it back |
| MemLoader.HeaderIgnoresSizeNibble | drivers/motor/tspdrv/ImmVibeSPI.c:3858 | the high nibble of the size byte does not change the decoded header |
| MemLoader.WriteUnits | drivers/motor/tspdrv/ImmVibeSPI.c:3869-3877 | `size / 1024` frames, frame k carrying the k-th 1024-byte unit of the body to RAM address `addr + 1024k`, so together they send the body's first full units in order |
| MemLoader.WriteBody | drivers/motor/tspdrv/ImmVibeSPI.c:3869-3883 | the full units plus a tail frame for any remainder; together they send exactly the body bytes in order |
| MemLoader.BodyChunksBounded | drivers/motor/tspdrv/ImmVibeSPI.c:3869-3883 | every body chunk is non-empty and fits one transfer unit |
| MemLoader.ChunkCountIsCeiling | drivers/motor/tspdrv/ImmVibeSPI.c:3869-3870 | the number of chunks is the size over 1024 rounded up |
| MemLoader.LoadMem | drivers/motor/tspdrv/ImmVibeSPI.c:3834-3889 | unready: nothing; failed MODE write: only that write; otherwise MEM mode, then (when `point > 0`) the 5-byte header to RAM slot `point*5-4`, then the body the header names (or the whole page when `point == 0`), sent in order |
| MemLoader.LoadAutoVib | drivers/motor/tspdrv/ImmVibeSPI.c:3601-3644 | unready: nothing; otherwise the MEM mode bit, the header to the RAM address in the blob's first two bytes, then exactly the body the header announces, to the address it names |
| Waveforms.HeaderSizesMatchTables | drivers/motor/tspdrv/dw791x_drv.h:219-378 | every header's size field equals the declared length of its PCM table |
| Waveforms.BodiesPacked | drivers/motor/tspdrv/dw791x_drv.h:219-377 | each body starts where the previous one ends |
| Waveforms.FirstBodyAfterSlots | drivers/motor/tspdrv/dw791x_drv.h:218-221 | the first body starts at `127*5+1`, after every header slot `point*5-4` |
| Waveforms.LevelVariantsShareLayout | drivers/motor/tspdrv/dw791x_drv.h:219-299 | every gain variant decodes to its base header's address and size |
| Waveforms.AutoTrackLayout | drivers/motor/tspdrv/dw791x_drv.h:205-215 | the 117-byte blob (115 listed bytes plus zero fill) is its slot, its header and a body of exactly the 110 bytes the header announces |
| Waveforms.RamAt | drivers/motor/tspdrv/ImmVibeSPI.c:3536-3545 | an address holds a value exactly when some bulk write covers it |
| Waveforms.RamAtLatest | drivers/motor/tspdrv/ImmVibeSPI.c:3536-3545 | an address holds what the last covering write put there |
| Waveforms.DisjointWritesStick | drivers/motor/tspdrv/ImmVibeSPI.c:3536-3545 | when no two writes overlap, every write survives in full |
| Waveforms.MemPlay | drivers/motor/tspdrv/ImmVibeSPI.c:785-789 | the corrected function-4 load: six bulk writes sending header 1, table 1, header 2, table 2, header 3, table 3 in order, each table at the address its header announces (the addresses case 21 of `dw791x_play_mode_sel` uses) |
| Waveforms.MemPlayAsWritten | drivers/motor/tspdrv/ImmVibeSPI.c:1009-1023 | function 4's six bulk writes as written: each header to its slot, tables 1 and 2 at their headers' addresses, table 3 at 0x0566, which is not the address its header announces |
| Waveforms.MemPlayHoldsHeaders | drivers/motor/tspdrv/ImmVibeSPI.c:1011-1021 | after the load, each header sits in its slot (the header writes are the same as written and corrected) |
| Waveforms.MemPlayHoldsBodies | drivers/motor/tspdrv/ImmVibeSPI.c:1013-1023 | after the corrected load, each PCM table sits in full at the address and size its header announces |
| Waveforms.MemPlayAsWrittenMisplacesThird | drivers/motor/tspdrv/ImmVibeSPI.c:1023 | as written, the third table starts 153 bytes before its header's address: its first 153 bytes overwrite the second table's last 153 bytes (0x0566..0x05FE), and the last byte of the announced third wave is never written |
| ActuatorIndex.Probe | drivers/motor/tspdrv/ImmVibeSPI.c:3020-3028 | the slot steps down by one and records the client's bus and address there, leaving the other slot alone; no slot when out of range |
| ActuatorIndex.Resolve | drivers/motor/tspdrv/ImmVibeSPI.c:2992-3009 | -1 exactly for a missing client, otherwise a valid slot |
| ActuatorIndex.ProbeOrder | drivers/motor/tspdrv/ImmVibeSPI.c:282-291 | from boot, probes hand out slot 1, then slot 0, then none |
| ActuatorIndex.ResolveAgreesWithProbe | drivers/motor/tspdrv/ImmVibeSPI.c:2992-3028 | both probed devices resolve to their probe slots exactly when they are on different buses, or share one and the second probed is at 0x59 |
| ActuatorIndex.ChannelStore | drivers/motor/tspdrv/ImmVibeSPI.c:1765-1781 | channels 1..3 are kept exactly, anything else becomes 1 |
| ActuatorIndex.ChannelSelect | drivers/motor/tspdrv/ImmVibeSPI.c:992-995 | the channel is the parameter's low two bits |
| ActuatorIndex.ChannelIndex | drivers/motor/tspdrv/ImmVibeSPI.c:2514-2516 | the slot is always valid, and it is slot 1 exactly for channel 2 |
| ActuatorIndex.ChannelAlwaysInRange | drivers/motor/tspdrv/ImmVibeSPI.c:1814-1816 | stored, selected and boot channels all map to a valid slot, and slot 1 only for channel 2 |
| Control.JoinControlWord | drivers/motor/tspdrv/ImmVibeSPI.c:1554-1556 | the word for a function and parameter splits back into them |
| Control.SplitControlWord | drivers/motor/tspdrv/ImmVibeSPI.c:1588-1590 | the function and the parameter are 16-bit halves that recombine to the word |
| Control.ControlWordRoundTrip | drivers/motor/tspdrv/ImmVibeSPI.c:1588-1590 | every control word is the join of its two halves |
| Control.CancelThenPlay | drivers/motor/tspdrv/ImmVibeSPI.c:1041-1051 | raise the flag first, stop next, then the setup, and never raise the flag again; without an image nothing follows the setup; with one, the flag is lowered right after the setup and the stream's own trace follows, so the flag ends lowered and the bytes sent are exactly the stream's; the stream checks the channel's bus itself, so on a dead bus only the flag is lowered |
| Control.RtpPlayCommand | drivers/motor/tspdrv/ImmVibeSPI.c:1034-1053 | raise, stop, then the channel's default clamp exactly when debug bit 0x0100 is clear; the flag is lowered right after that (index 3 with the clamp, 2 without) exactly when the image loads, and the single-pass stream follows; without an image nothing follows |
| Control.StopCommand | drivers/motor/tspdrv/ImmVibeSPI.c:1058-1062 | raise the flag and stop once, sending no data; the flag ends raised |
| Control.GlobalStopCommand | drivers/motor/tspdrv/ImmVibeSPI.c:930-935 | `play_mode_sel(44)`: -1 and no action on an unready channel (442-445); otherwise the PWM write of 446, then one stop, sending no data and leaving the channel's break flag as it was |
| Control.StopCommandsDiffer | drivers/motor/tspdrv/ImmVibeSPI.c:930-935 | function 7 and the case-44 stop both stop the channel once, but only function 7 leaves the channel's flag raised |
| Control.ClampCommand | drivers/motor/tspdrv/ImmVibeSPI.c:965-986 | one clamp write of the clamped value divided by 40: exactly `param / 40` up to the channel ceiling, and above it the ceiling's encoding, 225 for the bottom channel and 125 for the top one |
| Control.MemPlayQueue | drivers/motor/tspdrv/ImmVibeSPI.c:999-1002 | the low byte is queued when it is at most 5, otherwise wave 1 |
| Control.MemPlayCommand | drivers/motor/tspdrv/ImmVibeSPI.c:996-1026 | 14 actions: MEM_LOOP 0, the queued wave, WAVQ2 0, MODE with the MEM-mode bit set, both sequence loops 0x33 and MEM_LOOP 2; then the as-written load, with the third table at 0x0566, and PLAY last; they send the three headers and tables in order, and every frame fits |
| Control.VibratorControl | drivers/motor/tspdrv/ImmVibeSPI.c:948-1068 | -1 with no action and no change on a failed bus, 0 otherwise; on a working bus function 1 is the clamp command, 2 sets the enable mask and 3 the channel (each to the parameter's low two bits, and nothing else changes them), 4 is the MEM play, 5 the RTP play, 7 the stop, and every other function issues nothing; every frame fits |
| Control.ControlBreakOrdering | drivers/motor/tspdrv/ImmVibeSPI.c:1034-1062 | on a working bus the flag is raised exactly by functions 5 and 7, first and followed by stop, and never again; it is lowered exactly by function 5 with a loaded image |
| Control.RepeatArgs | drivers/motor/tspdrv/ImmVibeSPI.c:2507-2522 | unparsed arguments give image 1 and repeat 1; parsed ones keep the image exactly when it is in 1..65534 and the repeat exactly when it is in 0..65535, each otherwise replaced by 1 |
| Control.RepeatPlayStore | drivers/motor/tspdrv/ImmVibeSPI.c:2502-2540 | raise, stop, and no clamp write; without an image nothing more; with one, the flag is lowered next and exactly the bytes of the stream are sent, and on a dead bus the trace ends right after the flag is lowered, since the streamer returns at once |
| Control.RepeatZeroPlaysOnce | drivers/motor/tspdrv/ImmVibeSPI.c:2521 | a repeat of 0 is kept and means one pass: on a working bus, a finished stream sends the payload exactly once |
| Upsampler.UpsampleIsStretch | drivers/motor/tspdrv/ImmVibeSPI.c:4217-4235 | the index rule `out[i] = in[i / r]` equals the reference "each sample r times" stretch |
| Upsampler.SourceIndex | drivers/motor/tspdrv/ImmVibeSPI.c:4218-4229 | the loop as written reads sample `(i - 1) / r` at output `i >= 1`, always in range |
| Upsampler.UpsampleAsWritten | drivers/motor/tspdrv/ImmVibeSPI.c:4217-4238 | the as-written output has `n*r` samples; output 0 is sample 0, and output `i >= 1` is sample `(i-1)/r` |
| Upsampler.ResampleLoop | drivers/motor/tspdrv/ImmVibeSPI.c:4218-4235 | the loop fills exactly the as-written output |
| Upsampler.AsWrittenIsDelayed | drivers/motor/tspdrv/ImmVibeSPI.c:4218-4235 | the as-written output is the intended one shifted by one sample: an extra first sample, and the last output dropped |
| Upsampler.UpsampleCounterexample | drivers/motor/tspdrv/ImmVibeSPI.c:4218-4229 | for samples [0x00, 0x7F] at factor 2 the loop sends [0,0,0,0x7F] instead of [0,0,0x7F,0x7F] |
| Upsampler.PassThroughAsWritten | drivers/motor/tspdrv/ImmVibeSPI.c:4240-4250 | as written, the samples and one stale byte are sent, with no register byte |
| Upsampler.PassThrough | drivers/motor/tspdrv/ImmVibeSPI.c:4209-4215 | the corrected frame is the RTP input register byte followed by the samples |
| Upsampler.PassThroughCounterexample | drivers/motor/tspdrv/ImmVibeSPI.c:4249 | a single sample 0x7F goes out as a frame naming register 0x7F |
| Upsampler.Send | drivers/motor/tspdrv/ImmVibeSPI.c:4183-4251 | as written: VIBE_E_FAIL exactly on a failed bus or an oversized buffer; otherwise one frame of `1 + n*r` (or `n + 1`) bytes: with resampling, 0x0D and the as-written stretch, which is the intended stretch delayed by one sample; without, the samples and the stale byte after them |
| Upsampler.SendCorrected | drivers/motor/tspdrv/ImmVibeSPI.c:4209-4215 | the corrected call fails in the same cases; otherwise one frame of 0x0D followed by every sample `r` times (factor > 1) or the plain samples |
| Upsampler.SendAgainstCorrected | drivers/motor/tspdrv/ImmVibeSPI.c:4217-4250 | the call as written fails exactly when the corrected one does; with resampling its frame is the corrected frame delayed by one sample; without, it is the corrected frame minus the register byte, plus the stale byte |

## Left out

- I2C transport, return codes of `i2c_transfer` and `i2c_send_buf`, and the `DbgOut`/`printk` logging are not modelled. A register read is an input value. A bus failure appears only as the channel's `i2c_status`.
- `request_firmware` is an `Option` input. `sprintf` of the image name is not modelled.
- Concurrency and locking (`dev_lock`, the interrupt work items) are left out. Another thread setting the break flag is the streamer's per-iteration observation.
- `msleep` and `schedule_timeout_interruptible` are a `Sleep` marker with no duration.
- The streamer's loop has no termination measure of its own (it spins while the FIFO stays full). It runs over a finite sequence of observations and reports `Pending` when they run out.
- RtpStream.Stream: payload sizes above 2^32-1024 are excluded. There the `u32` sum `curcnt + trans_size` wraps and the C loop reads past the buffer.
- MemLoader.LoadMem: requires the image to hold every byte the loader reads and to be shorter than 2^32 bytes. The C code checks neither and reads out of bounds otherwise.
- MemLoader.LoadMem: a failed bulk write is not modelled. The C loader ignores those return values.
- Control.VibratorControl: the status reads after PLAY in function 4 are left out, because they only feed a log line.
- Control.VibratorControl: function 6 (`vibrator_set_trigger`, a GPIO) is not modelled; its trace is empty.
- Control.VibratorControl: function 8 calls `dw791x_play_mode_sel(21)`. That call writes the PWM register, the trigger registers 0x03, 0x0B, 0x26, 0x28, 0x29, 0x2B, 0x2C and 0x45, and the MEM headers and tables selected by the actuator slot and `gTrigger_Level`. These writes are dropped: the modelled trace of function 8 is empty.
- `dw791x_play_mode_sel` is modelled only for case 44 (Control.GlobalStopCommand), with its entry check and PWM write. Its other cases are not modelled.
- `#if 0` code, the DW7912 register variants, GPIO/pinctrl setup and the sysfs show handlers are not modelled.
- The PCM sample values of `haptic_pcm1`..`haptic_pcm5` are left out: a PCM table is any byte sequence of its declared length.
- Upsampler.Send: `VIBE_OUTPUT_SAMPLE_SIZE` is a parameter (`maxSamples`), since its value is defined outside these files.
  - Send requires that a buffer under that limit fits the two `1024*8+1`-byte DMA buffers once stretched.
  - The stale byte of `dma_buf_ivt` after the samples is an input (`stale`), since it holds whatever an earlier call left there. The stored factor `gResample` is 4.
- ActuatorIndex.ChannelStore: a failed `kstrtouint` parse leaves `val` uninitialised in C and is not modelled.
- Registers.Checksum: it returns only the verdict and the stored checksum, with no trace. The `fifo_size_set(4)` call, the MODE write and the 20 ms sleep that come before the device reads are not modelled.

## Findings

The commands (Control.MemPlayCommand, Upsampler.Send) keep the behaviour as written, so that their traces are the driver's. Each corrected member proves the intended property, and a lemma relates it to the as-written one (Waveforms.MemPlayAsWrittenMisplacesThird, Upsampler.SendAgainstCorrected).

| source | as written | input that shows it | evidently intended | confidence | as-written member | corrected member |
|---|---|---|---|---|---|---|
| drivers/motor/tspdrv/ImmVibeSPI.c:1023 | function 4 writes `haptic_pcm3` to RAM 0x0566, but its header `haptic_h3` announces 0x05FF | any PCM tables: the third table's first 153 bytes overwrite the second table's last 153 bytes (0x0566..0x05FE), and RAM 0x0978 (the last byte of wave 3 per its header) is never written | write `haptic_pcm3` at 0x05FF, as the header says and as the packed layout of the other bodies implies | not executed | Waveforms.MemPlayAsWrittenMisplacesThird | Waveforms.MemPlayHoldsBodies |
| drivers/motor/tspdrv/ImmVibeSPI.c:4218-4229 | the source index advances after writing output `i` when `i != 0 && i % r == 0`, so output `i` reads sample `(i-1)/r` | samples [0x00, 0x7F], factor 2: sends [0x00, 0x00, 0x00, 0x7F] | every sample exactly `r` times: [0x00, 0x00, 0x7F, 0x7F] | not executed | Upsampler.UpsampleCounterexample | Upsampler.UpsampleIsStretch |
| drivers/motor/tspdrv/ImmVibeSPI.c:4249 | with resampling off, it sends `dma_buf_ivt` (the raw samples plus one stale byte) instead of a frame starting with the RTP input register 0x0D | one sample 0x7F at factor 1: the frame's register byte is 0x7F | send register 0x0D, then the samples | not executed | Upsampler.PassThroughCounterexample | Upsampler.SendCorrected |
