/**
 The observable behaviour of the core: the sequence of bus actions it issues
 against one channel, plus the transitions of that channel's break flag.
 */
module Trace {
  import opened Bits
  import opened Geometry

  /** How `dw791x_seq_write` addresses its payload: `RAM_ADDR0` sends only the
      register byte, `RAM_ADDR16` adds a 16-bit RAM address. */
  datatype RamAddr = NoRam | Ram16(addr: Word32)

  datatype Action =
    | ByteWrite(reg: Byte, value: Byte)                   // dw791x_byte_write
    | WordWrite(reg: Byte, word: Word32)                  // dw791x_word_write
    | SeqWrite(reg: Byte, ram: RamAddr, data: seq<Byte>)  // dw791x_seq_write
    | Play                                                // byte_write(play_back, DRV_PLAY)
    | Stop                                                // byte_write(play_back, DRV_STOP)
    | ModeBits(mask: bv8, setBits: bool)                  // dw7914_mode_set read-modify-write
    | Sleep                                               // schedule_timeout of the paced loop
    | RaiseBreak                                          // bRTP_Play_Break = true
    | ClearBreak                                          // bRTP_Play_Break = false

  /** `dw7914_mode_set(client, D14_FIFO_FLUSH, BITSET)`. */
  const Flush: Action := ModeBits(D14_FIFO_FLUSH, true)

  /** The payload bytes of every bulk write of a trace, in issue order. */
  function Sent(t: seq<Action>): seq<Byte>
  {
    if |t| == 0 then []
    else (if t[0].SeqWrite? then t[0].data else []) + Sent(t[1..])
  }

  lemma {:induction false} SentAppend(a: seq<Action>, b: seq<Action>)
    ensures Sent(a + b) == Sent(a) + Sent(b)
  {
    if |a| == 0 {
      assert a + b == b;
    } else {
      assert (a + b)[1..] == a[1..] + b;
      SentAppend(a[1..], b);
    }
  }

  /** Number of occurrences of `x` in `t`. */
  function Count(t: seq<Action>, x: Action): nat
  {
    if |t| == 0 then 0 else (if t[0] == x then 1 else 0) + Count(t[1..], x)
  }

  lemma {:induction false} CountAppend(a: seq<Action>, b: seq<Action>, x: Action)
    ensures Count(a + b, x) == Count(a, x) + Count(b, x)
  {
    if |a| == 0 {
      assert a + b == b;
    } else {
      assert (a + b)[1..] == a[1..] + b;
      CountAppend(a[1..], b, x);
    }
  }

  lemma {:induction false} CountPositive(t: seq<Action>, x: Action)
    ensures Count(t, x) > 0 <==> x in t
  {
    if |t| > 0 {
      CountPositive(t[1..], x);
      assert t == [t[0]] + t[1..];
    }
  }

  /** The trace carries no bulk write. */
  predicate Silent(t: seq<Action>)
  {
    forall i :: 0 <= i < |t| ==> !t[i].SeqWrite?
  }

  lemma {:induction false} SilentSendsNothing(t: seq<Action>)
    requires Silent(t)
    ensures Sent(t) == []
  {
    if |t| > 0 {
      SilentSendsNothing(t[1..]);
    }
  }

  /** Every bulk write of the trace carries at most `n` payload bytes. */
  predicate WritesAtMost(t: seq<Action>, n: int)
  {
    forall i :: 0 <= i < |t| && t[i].SeqWrite? ==> |t[i].data| <= n
  }

  lemma WritesAtMostAppend(a: seq<Action>, b: seq<Action>, n: int)
    requires WritesAtMost(a, n) && Silent(b)
    ensures WritesAtMost(a + b, n)
  {
    forall i | 0 <= i < |a + b| && (a + b)[i].SeqWrite?
      ensures |(a + b)[i].data| <= n
    {
      assert i < |a|;
    }
  }

  lemma WritesAtMostConcat(a: seq<Action>, b: seq<Action>, n: int)
    requires WritesAtMost(a, n) && WritesAtMost(b, n)
    ensures WritesAtMost(a + b, n)
  {
    forall i | 0 <= i < |a + b| && (a + b)[i].SeqWrite?
      ensures |(a + b)[i].data| <= n
    {
      if i >= |a| {
        assert (a + b)[i] == b[i - |a|];
      }
    }
  }

  /** The value of the break flag after the trace, starting from `flag`. */
  function FlagAfter(t: seq<Action>, flag: bool): bool
  {
    if |t| == 0 then flag
    else FlagAfter(t[1..], if t[0] == RaiseBreak then true else if t[0] == ClearBreak then false else flag)
  }

  /** Once a trace clears the flag and never raises it, the flag ends clear
      whatever it started as. */
  lemma {:induction false} ClearedStaysClear(t: seq<Action>, flag: bool)
    requires ClearBreak in t && RaiseBreak !in t
    ensures !FlagAfter(t, flag)
  {
    var next := if t[0] == RaiseBreak then true else if t[0] == ClearBreak then false else flag;
    if t[0] == ClearBreak {
      NeverRaisedKeepsFlag(t[1..], false);
    } else {
      assert ClearBreak in t[1..];
      ClearedStaysClear(t[1..], next);
    }
  }

  lemma {:induction false} NeverRaisedKeepsFlag(t: seq<Action>, flag: bool)
    requires RaiseBreak !in t && !flag
    ensures !FlagAfter(t, flag)
  {
    if |t| > 0 {
      assert t[0] != RaiseBreak;
      NeverRaisedKeepsFlag(t[1..], false);
    }
  }

  /** The flag after a concatenation is the flag after the second part,
      started from the flag after the first. */
  lemma {:induction false} FlagAfterAppend(a: seq<Action>, b: seq<Action>, flag: bool)
    ensures FlagAfter(a + b, flag) == FlagAfter(b, FlagAfter(a, flag))
  {
    if |a| > 0 {
      var next := if a[0] == RaiseBreak then true else if a[0] == ClearBreak then false else flag;
      assert (a + b)[0] == a[0] && (a + b)[1..] == a[1..] + b;
      FlagAfterAppend(a[1..], b, next);
    } else {
      assert a + b == b;
    }
  }

  /** A trace that neither raises nor clears the flag leaves it as it was. */
  lemma {:induction false} UntouchedKeepsFlag(t: seq<Action>, flag: bool)
    requires RaiseBreak !in t && ClearBreak !in t
    ensures FlagAfter(t, flag) == flag
  {
    if |t| > 0 {
      assert t[0] != RaiseBreak && t[0] != ClearBreak;
      UntouchedKeepsFlag(t[1..], flag);
    }
  }
}
