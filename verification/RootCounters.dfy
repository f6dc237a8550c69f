/** The root counters (src/psxcounters.cpp): three programmable counters and the base
    counter that paces hsyncs and vblanks, all kept as start times on the cycle counter. */
module RootCounters {
  import opened Cycles

  const MODE_COUNT_TO_TARGET: nat := 3
  const MODE_IRQ_ON_TARGET: nat := 4
  const MODE_IRQ_ON_OVERFLOW: nat := 5
  const MODE_IRQ_REGENERATE: nat := 6
  const MODE_UNKNOWN10: nat := 10
  const MODE_COUNT_EQ_TARGET: nat := 11
  const MODE_OVERFLOW: nat := 12
  const MODE_RC2_DISABLE: nat := 0
  const MODE_CLOCK8: nat := 8
  const MODE_RC2_ONE_EIGHTH: nat := 9

  const PSXCLK: nat := 33868800
  const V_BLANK_START: nat := 240
  const PAL_CYCLES: nat := 8864320
  const NTSC_CYCLES: nat := 8791293

  /** No counter is divided further than counter 1 is by the PAL hsync. */
  const MAX_RATE: nat := 2164

  datatype CounterState = CountToOverflow | CountToTarget

  /** A counter; its 16-bit mode register is the set of its bit numbers. */
  datatype Rcnt = Rcnt(mode: set<nat>, target: nat, rate: U32, counterState: CounterState, irqState: bool,
                       cycle: U32, cycleStart: U32)

  datatype Config = Config(pal: bool, vsyncWA: bool)

  /** Counters 0 to 3 with the base counter's hsync bookkeeping; `irqs` is the set of counters that have
      raised an interrupt, `vblanks` and `frames` count the vblanks and frames so far. */
  datatype Counters = Counters(rcnts: seq<Rcnt>, hSyncCount: nat, hsyncSteps: nat, baseCycle: nat,
                               irqs: set<nat>, vblanks: nat, frames: nat)

  function HSyncTotal(cfg: Config): nat {
    if cfg.pal then 313 else 263
  }

  function HSyncRate(cfg: Config): nat {
    if cfg.pal then PSXCLK / (50 * 313) else PSXCLK / (60 * 263)
  }

  /** Cycles since the counter stood at zero. */
  function Elapsed(r: Rcnt, now: U32): U32 {
    Wrap(now - r.cycleStart)
  }

  /** `_psxRcntRcount` (src/psxcounters.cpp:169-185): the count as the guest reads it. */
  function Count(r: Rcnt, now: U32): nat {
    (if r.rate > 1 then Elapsed(r, now) / r.rate else Elapsed(r, now)) % 0x10000
  }

  predicate Overdue(r: Rcnt, now: U32) {
    Elapsed(r, now) >= r.cycle
  }

  /** A running programmable counter: it waits for its target or for overflow. */
  ghost predicate Running(r: Rcnt) {
    && 1 <= r.rate <= MAX_RATE && r.target < 0x10000
    && match r.counterState
       case CountToTarget => 0 < r.target && r.cycle == r.target * r.rate
       case CountToOverflow => r.cycle == 0x10000 * r.rate
  }

  // ---------------------------------------------------------------------------
  // Writing a counter
  // ---------------------------------------------------------------------------

  /** `_psxRcntWcount` (src/psxcounters.cpp:145-167), products formed in 32 bits. */
  function Wcount(r: Rcnt, now: U32, value: nat): Rcnt {
    var v := value % 0x10000;
    var s := r.(cycleStart := Wrap(now - Wrap(v * r.rate)));
    if v < r.target then s.(cycle := Wrap(r.target * r.rate), counterState := CountToTarget)
    else s.(cycle := Wrap(0x10000 * r.rate), counterState := CountToOverflow)
  }

  /** `_psxRcntWmode` (src/psxcounters.cpp:188-231). */
  function Wmode(r: Rcnt, index: nat, value: set<nat>, cfg: Config): Rcnt {
    var s := r.(mode := value);
    if index == 0 then s.(rate := if MODE_CLOCK8 in value then 5 else 1)
    else if index == 1 then s.(rate := if MODE_CLOCK8 in value then HSyncRate(cfg) else 1)
    else if index == 2 then
      s.(rate := if MODE_RC2_DISABLE in value then 0xffff_ffff
                 else if MODE_RC2_ONE_EIGHTH in value then 8 else 1)
    else s
  }

  lemma ProductBound(a: nat, b: nat, x: nat, y: nat)
    requires a <= x && b <= y
    ensures a * b <= x * y
  {
    assert a * b <= x * b <= x * y;
  }

  lemma {:induction false} MulApart(q: nat, q': nat, d: nat)
    requires q < q'
    ensures q * d + d <= q' * d
  {
    assert (q + 1) * d == q * d + d;
    if q + 1 < q' {
      MulApart(q, q' - 1, d);
      assert q' * d == (q' - 1) * d + d;
    }
  }

  lemma DivUnique(d: nat, q: nat, m: nat, q': nat, m': nat)
    requires m < d && m' < d && q * d + m == q' * d + m'
    ensures q == q'
  {
    if q < q' { MulApart(q, q', d); } else if q' < q { MulApart(q', q, d); }
  }

  lemma DivIs(x: nat, d: nat, q: nat, m: nat)
    requires m < d && x == q * d + m
    ensures x / d == q
  {
    assert x == x / d * d + x % d;
    DivUnique(d, x / d, x % d, q, m);
  }

  lemma DivBack(v: nat, rate: nat)
    requires 1 <= rate
    ensures v * rate / rate == v
  {
    DivIs(v * rate, rate, v, 0);
  }

  /** Writing the count of a counter with a legal rate sets it running. */
  lemma WcountRuns(r: Rcnt, now: U32, value: nat)
    requires 1 <= r.rate <= MAX_RATE && r.target < 0x10000
    ensures Running(Wcount(r, now, value))
  {
    ProductBound(r.target, r.rate, 0xffff, MAX_RATE);
  }

  /** A counter whose count is written waits for its target exactly if that is still to come; nothing else about it
      changes. */
  lemma WcountWaits(r: Rcnt, now: U32, value: nat)
    ensures var s := Wcount(r, now, value);
            && (s.counterState == CountToTarget <==> value % 0x10000 < r.target)
            && s.mode == r.mode && s.target == r.target && s.rate == r.rate && s.irqState == r.irqState
  {
  }

  /** The count of a counter with a legal rate reads as it was written. */
  lemma WcountReads(r: Rcnt, now: U32, value: nat)
    requires 1 <= r.rate <= MAX_RATE
    ensures Elapsed(Wcount(r, now, value), now) == value % 0x10000 * r.rate
    ensures Count(Wcount(r, now, value), now) == value % 0x10000
  {
    var v := value % 0x10000;
    ProductBound(v, r.rate, 0xffff, MAX_RATE);
    assert Elapsed(Wcount(r, now, value), now) == v * r.rate by {
      SetBack(now, v * r.rate);
    }
    DivBack(v, r.rate);
  }

  /** The counter with its target and mode written keeps its count or restarts from zero. */
  lemma WtargetKeepsCount(r: Rcnt, now: U32, target: nat)
    requires 1 <= r.rate <= MAX_RATE && target < 0x10000
    ensures var s := Wcount(r.(target := target), now, Count(r, now));
            Running(s) && Count(s, now) == Count(r, now)
  {
    var u, c := r.(target := target), Count(r, now);
    assert c % 0x10000 == c;
    WcountRuns(u, now, c);
    WcountReads(u, now, c);
  }

  /** A mode write leaves the counter running exactly unless it disables counter 2. */
  lemma WmodeRuns(r: Rcnt, now: U32, index: nat, value: set<nat>, cfg: Config)
    requires index < 3 && r.target < 0x10000
    ensures Running(Wcount(Wmode(r, index, value, cfg), now, 0)) <==>
            !(index == 2 && MODE_RC2_DISABLE in value)
  {
    var s := Wmode(r, index, value, cfg);
    if !(index == 2 && MODE_RC2_DISABLE in value) {
      assert HSyncRate(cfg) == if cfg.pal then 2164 else 2146;
      WcountRuns(s, now, 0);
    }
  }

  // ---------------------------------------------------------------------------
  // Catching up
  // ---------------------------------------------------------------------------

  /** The irq a counter raises at its target or at overflow, once only unless it may be repeated. */
  predicate Raises(r: Rcnt, cause: nat) {
    cause in r.mode && (MODE_IRQ_REGENERATE in r.mode || !r.irqState)
  }

  /** The first half of `psxRcntReset` (src/psxcounters.cpp:269-298): the counter is at its target. */
  function ReachTarget(r: Rcnt, now: U32): Rcnt {
    var s := if MODE_COUNT_TO_TARGET in r.mode
             then r.(cycleStart := Wrap(now - Wrap(Elapsed(r, now) - r.target * r.rate)))
             else r.(cycle := Wrap(0x10000 * r.rate), counterState := CountToOverflow);
    s.(irqState := r.irqState || Raises(r, MODE_IRQ_ON_TARGET), mode := r.mode + {MODE_COUNT_EQ_TARGET})
  }

  /** The second half of `psxRcntReset` (src/psxcounters.cpp:301-325): the counter has overflowed. */
  function Overflow(r: Rcnt, now: U32): Rcnt {
    var rcycles := Wrap(Elapsed(r, now) - 0x10000 * r.rate);
    var s := r.(cycleStart := Wrap(now - rcycles));
    var u := if rcycles < Wrap(r.target * r.rate)
             then s.(cycle := Wrap(r.target * r.rate), counterState := CountToTarget) else s;
    u.(irqState := r.irqState || Raises(r, MODE_IRQ_ON_OVERFLOW), mode := r.mode + {MODE_OVERFLOW})
  }

  /** The cycles `psxRcntReset` tests against the overflow after it reached the target
      (src/psxcounters.cpp:273-277, 297). */
  function PastTarget(r: Rcnt, now: U32): U32 {
    if MODE_COUNT_TO_TARGET in r.mode then Wrap(Elapsed(r, now) - r.target * r.rate) else Elapsed(r, now)
  }

  /** `psxRcntReset` (src/psxcounters.cpp:265-326). */
  function Reset(r: Rcnt, now: U32): Rcnt {
    var s := r.(mode := r.mode + {MODE_UNKNOWN10});
    if s.counterState == CountToTarget then
      var t := ReachTarget(s, now);
      if PastTarget(s, now) >= Wrap(0x10000 * s.rate) && t.counterState == CountToOverflow then Overflow(t, now) else t
    else Overflow(s, now)
  }

  /** How far a counter still has to catch up, a pending target counting after the cycles. */
  function Lag(r: Rcnt, now: U32): nat {
    2 * Elapsed(r, now) + if r.counterState == CountToTarget then 1 else 0
  }

  lemma RunningBounds(r: Rcnt)
    requires Running(r)
    ensures 0 < 0x10000 * r.rate < TWO31 && 0 <= r.target * r.rate < 0x10000 * r.rate
    ensures 0 < r.cycle < TWO31
    ensures r.target > 0 ==> r.target * r.rate > 0
  {
    ProductBound(r.target, r.rate, 0xffff, r.rate);
    if r.target > 0 { ProductBound(1, 1, r.target, r.rate); }
  }

  /** Overflow takes 0x10000 counts off the elapsed time, so the count reads the same. */
  lemma OverflowRuns(r: Rcnt, now: U32)
    requires Running(r) && r.counterState == CountToOverflow && Overdue(r, now)
    ensures Running(Overflow(r, now)) && Overflow(r, now).rate == r.rate
    ensures Elapsed(Overflow(r, now), now) == Elapsed(r, now) - 0x10000 * r.rate
    ensures Lag(Overflow(r, now), now) < Lag(r, now)
  {
    RunningBounds(r);
    SetBack(now, Elapsed(r, now) - 0x10000 * r.rate);
  }

  lemma DivParts(e: nat, rate: nat)
    requires 1 <= rate
    ensures e == e / rate * rate + e % rate && e % rate < rate
  {
  }

  lemma MulLess(q: nat, d: nat, rate: nat)
    requires d <= q
    ensures (q - d) * rate == q * rate - d * rate
  {
  }

  lemma SameRemainder(q: nat)
    requires 0x10000 <= q
    ensures (q - 0x10000) % 0x10000 == q % 0x10000
  {
  }

  lemma TurnsOver(e: nat, rate: nat)
    requires 1 <= rate && 0x10000 * rate <= e
    ensures (e - 0x10000 * rate) / rate % 0x10000 == e / rate % 0x10000
    ensures rate == 1 ==> (e - 0x10000) % 0x10000 == e % 0x10000
  {
    var q, m := e / rate, e % rate;
    DivParts(e, rate);
    if q < 0x10000 { MulApart(q, 0x10000, rate); }
    MulLess(q, 0x10000, rate);
    DivIs(e - 0x10000 * rate, rate, q - 0x10000, m);
    SameRemainder(q);
    if rate == 1 { SameRemainder(e); }
  }

  /** The count reads the same after the overflow is dealt with. */
  lemma OverflowKeepsCount(r: Rcnt, now: U32)
    requires Running(r) && r.counterState == CountToOverflow && Overdue(r, now)
    ensures Count(Overflow(r, now), now) == Count(r, now)
  {
    OverflowRuns(r, now);
    TurnsOver(Elapsed(r, now), r.rate);
  }

  /** At its target a counter either starts over or goes on to overflow; either way it has less to catch up. */
  lemma ReachTargetRuns(r: Rcnt, now: U32)
    requires Running(r) && r.counterState == CountToTarget && Overdue(r, now)
    ensures Running(ReachTarget(r, now)) && ReachTarget(r, now).rate == r.rate
    ensures Elapsed(ReachTarget(r, now), now) == PastTarget(r, now) ==
            Elapsed(r, now) - if MODE_COUNT_TO_TARGET in r.mode then r.target * r.rate else 0
    ensures Lag(ReachTarget(r, now), now) < Lag(r, now)
  {
    RunningBounds(r);
    SetBack(now, Elapsed(r, now) - r.target * r.rate);
  }

  lemma ResetAtTarget(s: Rcnt, now: U32)
    requires Running(s) && s.counterState == CountToTarget && Overdue(s, now)
    ensures var t := ReachTarget(s, now);
            var u := if PastTarget(s, now) >= Wrap(0x10000 * s.rate) && t.counterState == CountToOverflow
                     then Overflow(t, now) else t;
            Running(u) && Elapsed(u, now) <= Elapsed(s, now) && Lag(u, now) < Lag(s, now)
  {
    ReachTargetRuns(s, now);
    var t := ReachTarget(s, now);
    RunningBounds(s);
    if PastTarget(s, now) >= Wrap(0x10000 * s.rate) && t.counterState == CountToOverflow {
      assert Overdue(t, now);
      OverflowRuns(t, now);
    }
  }

  /** Resetting an overdue counter leaves it running with less to catch up: elapsed cycles and pending
      target drop lexicographically. */
  lemma ResetCatchesUp(r: Rcnt, now: U32)
    requires Running(r) && Overdue(r, now)
    ensures Running(Reset(r, now)) && Elapsed(Reset(r, now), now) <= Elapsed(r, now)
    ensures Lag(Reset(r, now), now) < Lag(r, now)
  {
    var s := r.(mode := r.mode + {MODE_UNKNOWN10});
    assert Running(s) && Overdue(s, now) && Elapsed(s, now) == Elapsed(r, now) && Lag(s, now) == Lag(r, now);
    if s.counterState == CountToTarget {
      ResetAtTarget(s, now);
    } else {
      OverflowRuns(s, now);
    }
  }

  // ---------------------------------------------------------------------------
  // The base counter
  // ---------------------------------------------------------------------------

  /** Cycles per hsync, in units of 1/4096. */
  function LineCycles(cfg: Config): nat {
    if cfg.pal then PAL_CYCLES else NTSC_CYCLES
  }

  /** The lines of a second's frames, 50 or 60, take a second, to the cycle. */
  lemma LinesOfASecond(cfg: Config)
    ensures var lines := (if cfg.pal then 50 else 60) * HSyncTotal(cfg);
            4096 * PSXCLK - 4096 < lines * LineCycles(cfg) < 4096 * PSXCLK + 4096
  {
  }

  /** The hsync at which the frame ends (src/psxcounters.cpp:391). */
  function FrameEnd(cfg: Config): nat {
    if cfg.vsyncWA then HSyncTotal(cfg) / 2 else HSyncTotal(cfg)
  }

  /** The hsyncs to the next call (src/psxcounters.cpp:406-409), differences formed in 32 bits. */
  function NextSteps(hSyncCount: nat, cfg: Config): nat {
    var steps, next := Wrap(HSyncTotal(cfg) - hSyncCount), Wrap(V_BLANK_START - hSyncCount);
    if next != 0 && next < steps then next else steps
  }

  /** The next call is at vblank or, from vblank on, at the end of the frame. */
  lemma NextStepsIs(hSyncCount: nat, cfg: Config)
    requires hSyncCount < HSyncTotal(cfg)
    ensures NextSteps(hSyncCount, cfg) ==
            if hSyncCount < V_BLANK_START then V_BLANK_START - hSyncCount else HSyncTotal(cfg) - hSyncCount
  {
    if hSyncCount > V_BLANK_START {
      assert Wrap(V_BLANK_START - hSyncCount) == V_BLANK_START - hSyncCount + TWO32;
    }
  }

  /** The base part of `psxRcntUpdate` (src/psxcounters.cpp:353-420). */
  function BaseStep(c: Counters, now: U32, cfg: Config): Counters
    requires |c.rcnts| == 4
  {
    var r := c.rcnts[3];
    var leftover := Wrap(Elapsed(r, now) - r.cycle);
    var hs := c.hSyncCount + c.hsyncSteps;
    var ends := hs >= FrameEnd(cfg);
    var steps := NextSteps(if ends then 0 else hs, cfg);
    var base := Wrap(c.baseCycle + steps * LineCycles(cfg));
    Counters(c.rcnts[3 := r.(cycleStart := Wrap(now - leftover), cycle := base / 0x1000)],
             if ends then 0 else hs, steps, base % 0x1000,
             if hs == V_BLANK_START then c.irqs + {3} else c.irqs,
             if hs == V_BLANK_START then c.vblanks + 1 else c.vblanks,
             if ends then c.frames + 1 else c.frames)
  }

  /** Before vblank the next call is at vblank, but for the very first, one hsync after the start; from
      vblank on it is at the end of the frame of the region last seen. */
  ghost predicate BaseOk(c: Counters) {
    && |c.rcnts| == 4
    && c.baseCycle < 0x1000 && 0 < c.rcnts[3].cycle < 0x10_0000 && 0 < c.hsyncSteps
    && (if c.hSyncCount < V_BLANK_START
        then c.hSyncCount + c.hsyncSteps == V_BLANK_START || (c.hSyncCount == 0 && c.hsyncSteps == 1)
        else c.hSyncCount + c.hsyncSteps == 263 || c.hSyncCount + c.hsyncSteps == 313)
    && c.vblanks == c.frames + if c.hSyncCount < V_BLANK_START then 0 else 1
  }

  /** One step of the base counter in any region and with or without the vsync workaround, both free to
      change between calls: it stays in its pattern, its next wait and carry account exactly for the
      hsyncs stepped, its lateness is carried over whole, and it has less to catch up. */
  lemma BaseStepOk(c: Counters, now: U32, cfg: Config)
    requires BaseOk(c) && Overdue(c.rcnts[3], now)
    ensures var d := BaseStep(c, now, cfg);
            && BaseOk(d)
            && 0x1000 * d.rcnts[3].cycle + d.baseCycle == c.baseCycle + d.hsyncSteps * LineCycles(cfg)
            && Elapsed(d.rcnts[3], now) == Elapsed(c.rcnts[3], now) - c.rcnts[3].cycle
            && Elapsed(d.rcnts[3], now) < Elapsed(c.rcnts[3], now)
  {
    SetBack(now, Elapsed(c.rcnts[3], now) - c.rcnts[3].cycle);
    var hs := c.hSyncCount + c.hsyncSteps;
    NextStepsIs(if hs >= FrameEnd(cfg) then 0 else hs, cfg);
  }

  /** A frame ends at its last line, or with the workaround at line 240; there the lines are counted anew.  Vblank comes
      at line 240, with an interrupt. */
  lemma FrameEnds(c: Counters, now: U32, cfg: Config)
    requires BaseOk(c)
    ensures var d, hs := BaseStep(c, now, cfg), c.hSyncCount + c.hsyncSteps;
            && (if hs >= (if cfg.vsyncWA then 240 else if cfg.pal then 313 else 263)
                then d.hSyncCount == 0 && d.frames == c.frames + 1 else d.hSyncCount == hs && d.frames == c.frames)
            && (if hs == 240 then d.vblanks == c.vblanks + 1 && d.irqs == c.irqs + {3}
                else d.vblanks == c.vblanks && d.irqs == c.irqs)
  {
  }

  // ---------------------------------------------------------------------------
  // A pass over all counters
  // ---------------------------------------------------------------------------

  ghost predicate CountersOk(c: Counters) {
    BaseOk(c) && forall i :: 0 <= i < 3 ==> Running(c.rcnts[i])
  }

  /** No counter has been left alone for more than 2^31 cycles. */
  ghost predicate NotLost(c: Counters, now: U32) {
    forall i :: 0 <= i < |c.rcnts| ==> Elapsed(c.rcnts[i], now) <= TWO31
  }

  /** Whether a reset raises the counter's irq, at its target or at overflow. */
  predicate RaisesIrq(r: Rcnt, now: U32) {
    if r.counterState == CountToTarget then
      var t := ReachTarget(r, now);
      Raises(r, MODE_IRQ_ON_TARGET) ||
      (PastTarget(r, now) >= Wrap(0x10000 * r.rate) && t.counterState == CountToOverflow
       && Raises(t, MODE_IRQ_ON_OVERFLOW))
    else Raises(r, MODE_IRQ_ON_OVERFLOW)
  }

  function ResetIfDue(c: Counters, i: nat, now: U32): Counters
    requires i < |c.rcnts|
  {
    if Overdue(c.rcnts[i], now) then
      c.(rcnts := c.rcnts[i := Reset(c.rcnts[i], now)],
         irqs := if RaisesIrq(c.rcnts[i], now) then c.irqs + {i} else c.irqs)
    else c
  }

  /** `psxRcntUpdate` up to the scheduling (src/psxcounters.cpp:328-420). */
  function Pass(c: Counters, now: U32, cfg: Config): (d: Counters)
    requires |c.rcnts| == 4
    ensures |d.rcnts| == 4
  {
    var d := ResetIfDue(ResetIfDue(ResetIfDue(c, 0, now), 1, now), 2, now);
    if Overdue(d.rcnts[3], now) then BaseStep(d, now, cfg) else d
  }

  /** The status bits a reset sets first are none of the bits it tests. */
  lemma ModeBits(r: Rcnt, now: U32)
    ensures var s := r.(mode := r.mode + {MODE_UNKNOWN10});
            && PastTarget(s, now) == PastTarget(r, now)
            && Raises(s, MODE_IRQ_ON_TARGET) == Raises(r, MODE_IRQ_ON_TARGET)
            && Raises(s, MODE_IRQ_ON_OVERFLOW) == Raises(r, MODE_IRQ_ON_OVERFLOW)
            && Raises(ReachTarget(s, now), MODE_IRQ_ON_OVERFLOW) == Raises(ReachTarget(r, now), MODE_IRQ_ON_OVERFLOW)
  {
  }

  /** What decides whether a counter may raise its irq: whether it has done so, and whether it may repeat it. */
  ghost predicate SameIrqState(r: Rcnt, s: Rcnt) {
    r.irqState == s.irqState && (MODE_IRQ_REGENERATE in r.mode <==> MODE_IRQ_REGENERATE in s.mode)
  }

  /** Writing the count or the target keeps it, as do reading the mode, which clears two status bits
      (src/psxcounters.cpp:477-487), and a rebase. */
  lemma OthersKeepIrqState(r: Rcnt, now: U32, value: nat, d: U32)
    ensures SameIrqState(r, Wcount(r, now, value)) && SameIrqState(r, Wcount(r.(target := value), now, Count(r, now)))
    ensures SameIrqState(r, r.(mode := r.mode - {MODE_COUNT_EQ_TARGET, MODE_OVERFLOW}))
    ensures SameIrqState(r, r.(cycleStart := Wrap(r.cycleStart - d)))
  {
  }

  /** A counter reset again and again, at any times; between the resets anything may happen to it but a write of its
      mode. */
  ghost predicate ResetRun(rs: seq<Rcnt>, nows: seq<U32>) {
    |rs| == |nows| + 1 && forall i :: 0 <= i < |nows| ==> SameIrqState(Reset(rs[i], nows[i]), rs[i + 1])
  }

  /** How many of the resets raise the counter's irq. */
  function Raised(rs: seq<Rcnt>, nows: seq<U32>): nat
    requires |rs| == |nows| + 1
    decreases |nows|
  {
    if nows == [] then 0 else (if RaisesIrq(rs[0], nows[0]) then 1 else 0) + Raised(rs[1..], nows[1..])
  }

  /** A reset meets a cause of an interrupt: the target, if the counter waits for it and bit 4 of its mode is set, or,
      with bit 5 set, overflow, if it waits for that, or has gone on that far past its target. */
  predicate MeetsCause(r: Rcnt, now: U32) {
    || (4 in r.mode && r.counterState == CountToTarget)
    || (5 in r.mode
        && (r.counterState == CountToOverflow || (3 !in r.mode && Elapsed(r, now) >= Wrap(0x10000 * r.rate))))
  }

  /** An interrupt is raised if and only if the reset meets a cause of one, and the counter may repeat it (bit 6) or
      has not raised one yet; and that is remembered. */
  lemma RaisesExact(r: Rcnt, now: U32)
    ensures RaisesIrq(r, now) <==> MeetsCause(r, now) && (6 in r.mode || !r.irqState)
    ensures Reset(r, now).irqState <==> r.irqState || MeetsCause(r, now)
    ensures 6 in Reset(r, now).mode <==> 6 in r.mode
  {
    ModeBits(r, now);
  }

  /** What a reset makes of a counter that is overdue: how far it has still gone, what it waits for next, and the
      status bits that tell the guest what it reached. */
  lemma ResetExact(r: Rcnt, now: U32)
    requires Running(r) && Overdue(r, now)
    ensures var e, s := Elapsed(r, now), Reset(r, now);
            var atTarget := r.counterState == CountToTarget;
            var overflows := e >= 0x10000 * r.rate && !(atTarget && 3 in r.mode);
            && s.rate == r.rate && s.target == r.target
            && Elapsed(s, now) == e - (if atTarget && 3 in r.mode then r.target * r.rate else 0)
                                    - (if overflows then 0x10000 * r.rate else 0)
            && (s.counterState == CountToTarget <==>
                  if overflows then Elapsed(s, now) < r.target * r.rate else 3 in r.mode)
            && s.mode == r.mode + {10} + (if atTarget then {11} else {}) + (if overflows then {12} else {})
            && (MeetsCause(r, now) <==>
                  (4 in r.mode && atTarget && e >= r.target * r.rate) || (5 in r.mode && overflows))
  {
    var s := r.(mode := r.mode + {MODE_UNKNOWN10});
    assert Running(s) && Overdue(s, now) && Elapsed(s, now) == Elapsed(r, now);
    RunningBounds(s);
    if s.counterState == CountToTarget {
      ReachTargetRuns(s, now);
      var t := ReachTarget(s, now);
      if t.counterState == CountToOverflow && Elapsed(s, now) >= 0x10000 * r.rate {
        assert Overdue(t, now);
        OverflowRuns(t, now);
      }
    } else {
      OverflowRuns(s, now);
    }
  }

  /** The flag that an irq has been raised is set by raising one and stays set, and the repeat bit stays. */
  lemma ResetKeepsIrqState(r: Rcnt, now: U32)
    ensures RaisesIrq(r, now) || r.irqState ==> Reset(r, now).irqState
    ensures MODE_IRQ_REGENERATE in Reset(r, now).mode <==> MODE_IRQ_REGENERATE in r.mode
    ensures r.irqState && MODE_IRQ_REGENERATE !in r.mode ==> !RaisesIrq(r, now)
  {
    ModeBits(r, now);
  }

  /** How many of the resets meet a cause. */
  function CausesMet(rs: seq<Rcnt>, nows: seq<U32>): nat
    requires |rs| == |nows| + 1
    decreases |nows|
  {
    if nows == [] then 0 else (if MeetsCause(rs[0], nows[0]) then 1 else 0) + CausesMet(rs[1..], nows[1..])
  }

  lemma RestOfRun(rs: seq<Rcnt>, nows: seq<U32>)
    requires ResetRun(rs, nows) && nows != []
    ensures |rs| == |nows| + 1 && |nows| > 0
    ensures ResetRun(rs[1..], nows[1..]) && SameIrqState(Reset(rs[0], nows[0]), rs[1])
  {
    hide SameIrqState, Reset;
  }

  /** A counter that is not to repeat its irq raises exactly one until its mode is written if some reset meets a cause,
      and none otherwise, or if it has raised one already. */
  lemma {:induction false} OneShot(rs: seq<Rcnt>, nows: seq<U32>)
    requires ResetRun(rs, nows) && MODE_IRQ_REGENERATE !in rs[0].mode
    ensures Raised(rs, nows) == if rs[0].irqState || CausesMet(rs, nows) == 0 then 0 else 1
    decreases |nows|
  {
    hide Reset, RaisesIrq, MeetsCause, ResetRun;
    if nows != [] {
      RestOfRun(rs, nows);
      RaisesExact(rs[0], nows[0]);
      OneShot(rs[1..], nows[1..]);
    }
  }

  /** One that may repeat it raises one at every reset that meets a cause. */
  lemma {:induction false} Repeating(rs: seq<Rcnt>, nows: seq<U32>)
    requires ResetRun(rs, nows) && MODE_IRQ_REGENERATE in rs[0].mode
    ensures Raised(rs, nows) == CausesMet(rs, nows)
    decreases |nows|
  {
    hide Reset, RaisesIrq, MeetsCause, ResetRun;
    if nows != [] {
      RestOfRun(rs, nows);
      RaisesExact(rs[0], nows[0]);
      Repeating(rs[1..], nows[1..]);
    }
  }

  /** What all counters together still have to catch up. */
  function TotalLag(c: Counters, now: U32): nat
    requires |c.rcnts| == 4
  {
    Lag(c.rcnts[0], now) + Lag(c.rcnts[1], now) + Lag(c.rcnts[2], now) + Elapsed(c.rcnts[3], now)
  }

  predicate AnyOverdue(c: Counters, now: U32) {
    exists i :: 0 <= i < |c.rcnts| && Overdue(c.rcnts[i], now)
  }

  lemma ResetIfDueOk(c: Counters, i: nat, now: U32)
    requires CountersOk(c) && i < 3
    ensures CountersOk(ResetIfDue(c, i, now))
    ensures NotLost(c, now) ==> NotLost(ResetIfDue(c, i, now), now)
    ensures TotalLag(ResetIfDue(c, i, now), now) <= TotalLag(c, now)
    ensures Overdue(c.rcnts[i], now) ==> TotalLag(ResetIfDue(c, i, now), now) < TotalLag(c, now)
  {
    if Overdue(c.rcnts[i], now) { ResetCatchesUp(c.rcnts[i], now); }
  }

  lemma BaseIfDueOk(c: Counters, now: U32, cfg: Config)
    requires CountersOk(c)
    ensures var d := if Overdue(c.rcnts[3], now) then BaseStep(c, now, cfg) else c;
            && CountersOk(d) && (NotLost(c, now) ==> NotLost(d, now))
            && (if Overdue(c.rcnts[3], now) then TotalLag(d, now) < TotalLag(c, now) else d == c)
  {
    if Overdue(c.rcnts[3], now) { BaseStepOk(c, now, cfg); }
  }

  /** With the clock standing still, a pass either finds nothing overdue and changes nothing, or leaves
      strictly less to catch up. */
  lemma PassCatchesUp(c: Counters, now: U32, cfg: Config)
    requires CountersOk(c)
    ensures CountersOk(Pass(c, now, cfg))
    ensures NotLost(c, now) ==> NotLost(Pass(c, now, cfg), now)
    ensures if AnyOverdue(c, now) then TotalLag(Pass(c, now, cfg), now) < TotalLag(c, now)
            else Pass(c, now, cfg) == c
  {
    hide Reset, RaisesIrq, BaseStep, Running, Lag;
    var c1 := ResetIfDue(c, 0, now);
    var c2 := ResetIfDue(c1, 1, now);
    var c3 := ResetIfDue(c2, 2, now);
    ResetIfDueOk(c, 0, now);
    ResetIfDueOk(c1, 1, now);
    ResetIfDueOk(c2, 2, now);
    BaseIfDueOk(c3, now, cfg);
    assert c1.rcnts[1] == c.rcnts[1] && c2.rcnts[2] == c.rcnts[2] && c3.rcnts[3] == c.rcnts[3];
    if AnyOverdue(c, now) {
      var i :| 0 <= i < |c.rcnts| && Overdue(c.rcnts[i], now);
      assert i == 0 || i == 1 || i == 2 || i == 3;
    } else {
      assert !Overdue(c.rcnts[0], now) && !Overdue(c.rcnts[1], now);
      assert !Overdue(c.rcnts[2], now) && !Overdue(c.rcnts[3], now);
    }
  }

  // ---------------------------------------------------------------------------
  // Pacing
  // ---------------------------------------------------------------------------

  /** What paces the frames: the base counter's wait and carry, the hsyncs counted and those to come, and the vblanks
      and frames so far. */
  ghost predicate SamePace(c: Counters, d: Counters) {
    && |c.rcnts| == 4 == |d.rcnts| && c.rcnts[3].cycle == d.rcnts[3].cycle && c.baseCycle == d.baseCycle
    && c.hSyncCount == d.hSyncCount && c.hsyncSteps == d.hsyncSteps
    && c.vblanks == d.vblanks && c.frames == d.frames
  }

  lemma SamePaceOk(c: Counters, d: Counters)
    requires BaseOk(c) && SamePace(c, d)
    ensures BaseOk(d)
  {
  }

  /** The hsyncs a pass steps, in 1/4096 cycles: none while the base counter is not overdue. */
  function PassTime(c: Counters, now: U32, cfg: Config): nat
    requires |c.rcnts| == 4
  {
    if Overdue(c.rcnts[3], now) then Pass(c, now, cfg).hsyncSteps * LineCycles(cfg) else 0
  }

  /** A pass is a step of the base counter, whatever it does to the others. */
  lemma PassPaces(c: Counters, now: U32, cfg: Config)
    requires |c.rcnts| == 4
    ensures if Overdue(c.rcnts[3], now) then
              var d := BaseStep(c, now, cfg);
              SamePace(Pass(c, now, cfg), d) && Pass(c, now, cfg).rcnts[3] == d.rcnts[3]
            else SamePace(Pass(c, now, cfg), c) && Pass(c, now, cfg).rcnts[3] == c.rcnts[3]
  {
    hide Reset, RaisesIrq;
    var c1 := ResetIfDue(c, 0, now);
    var c2 := ResetIfDue(c1, 1, now);
    var c3 := ResetIfDue(c2, 2, now);
    assert SamePace(c3, c) && c3.rcnts[3] == c.rcnts[3];
  }

  lemma ResetIfDueIs(c: Counters, k: nat, now: U32, i: nat)
    requires |c.rcnts| == 4 && k < 3 && i < 4
    ensures var d, r := ResetIfDue(c, k, now), c.rcnts[i];
            && |d.rcnts| == 4 && d.rcnts[i] == (if i == k && Overdue(r, now) then Reset(r, now) else r)
            && (i in d.irqs <==> i in c.irqs || (i == k && Overdue(r, now) && RaisesIrq(r, now)))
  {
    hide RaisesIrq, Reset, Overdue;
  }

  /** A pass resets exactly the counters that are overdue, and each raises its interrupt exactly if it meets a cause
      and may raise one. */
  lemma PassRaises(c: Counters, now: U32, cfg: Config, i: nat)
    requires |c.rcnts| == 4 && i < 3
    ensures var d, r := Pass(c, now, cfg), c.rcnts[i];
            && d.rcnts[i] == (if Overdue(r, now) then Reset(r, now) else r)
            && (i in d.irqs <==>
                  i in c.irqs || (Overdue(r, now) && MeetsCause(r, now) && (6 in r.mode || !r.irqState)))
  {
    hide RaisesIrq, MeetsCause, Reset, Overdue, ResetIfDue, Elapsed;
    RaisesExact(c.rcnts[i], now);
    ResetIfDueIs(c, 0, now, i);
    ResetIfDueIs(ResetIfDue(c, 0, now), 1, now, i);
    ResetIfDueIs(ResetIfDue(ResetIfDue(c, 0, now), 1, now), 2, now, i);
  }

  /** The time from one deadline of the base counter to the next, and the change of the carry, are the hsyncs
      stepped. */
  lemma PassKeepsPace(c: Counters, now: U32, cfg: Config)
    requires BaseOk(c)
    ensures var d := Pass(c, now, cfg);
            && BaseOk(d)
            && 0x1000 * (Elapsed(c.rcnts[3], now) - Elapsed(d.rcnts[3], now) + d.rcnts[3].cycle - c.rcnts[3].cycle)
               + d.baseCycle == c.baseCycle + PassTime(c, now, cfg)
  {
    PassPaces(c, now, cfg);
    if Overdue(c.rcnts[3], now) {
      BaseStepOk(c, now, cfg);
      SamePaceOk(BaseStep(c, now, cfg), Pass(c, now, cfg));
    }
  }

  /** Passes over the counters, each at its own time and configuration, late or not.  Between them everything may
      change but the pace; `starts` follows the true time at which the base counter stood at zero. */
  ghost predicate PassRun(cs: seq<Counters>, nows: seq<U32>, cfgs: seq<Config>, starts: seq<int>) {
    && |cs| == |nows| + 1 == |cfgs| + 1 == |starts|
    && BaseOk(cs[0])
    && forall i :: 0 <= i < |nows| ==>
         && |cs[i].rcnts| == 4
         && var d := Pass(cs[i], nows[i], cfgs[i]);
            && SamePace(d, cs[i + 1])
            && starts[i + 1] - starts[i] == Elapsed(cs[i].rcnts[3], nows[i]) - Elapsed(d.rcnts[3], nows[i])
  }

  /** The hsyncs stepped over a run, in 1/4096 cycles. */
  ghost function LineTime(cs: seq<Counters>, nows: seq<U32>, cfgs: seq<Config>): nat
    requires |cs| == |nows| + 1 == |cfgs| + 1 && forall i :: 0 <= i < |nows| ==> |cs[i].rcnts| == 4
    decreases |nows|
  {
    if nows == [] then 0
    else
      var n := |nows| - 1;
      LineTime(cs[..n + 1], nows[..n], cfgs[..n]) + PassTime(cs[n], nows[n], cfgs[n])
  }

  /** All passes but the last, and the last. */
  lemma LastPass(cs: seq<Counters>, nows: seq<U32>, cfgs: seq<Config>, starts: seq<int>)
    requires PassRun(cs, nows, cfgs, starts) && nows != []
    ensures var n := |nows| - 1;
            && PassRun(cs[..n + 1], nows[..n], cfgs[..n], starts[..n + 1])
            && LineTime(cs, nows, cfgs)
               == LineTime(cs[..n + 1], nows[..n], cfgs[..n]) + PassTime(cs[n], nows[n], cfgs[n])
            && SamePace(Pass(cs[n], nows[n], cfgs[n]), cs[n + 1])
            && starts[n + 1] - starts[n] ==
                 Elapsed(cs[n].rcnts[3], nows[n]) - Elapsed(Pass(cs[n], nows[n], cfgs[n]).rcnts[3], nows[n])
  {
    hide Pass, PassTime, SamePace, BaseOk;
  }

  /** The frames never drift, and vblank comes exactly once a frame: over every run, lateness and rounding included, the
      base counter's next deadline and the carry are exactly the line times of the hsyncs stepped; and at every pass
      the vblanks are the frames, plus one while a vblank's frame is still to end. */
  lemma {:induction false} NoDrift(cs: seq<Counters>, nows: seq<U32>, cfgs: seq<Config>, starts: seq<int>)
    requires PassRun(cs, nows, cfgs, starts)
    ensures var n := |nows|;
            && BaseOk(cs[n])
            && 0x1000 * (starts[n] + cs[n].rcnts[3].cycle - starts[0] - cs[0].rcnts[3].cycle) + cs[n].baseCycle
               == cs[0].baseCycle + LineTime(cs, nows, cfgs)
            && cs[n].vblanks == cs[n].frames + if cs[n].hSyncCount < V_BLANK_START then 0 else 1
    decreases |nows|
  {
    if nows != [] {
      hide Pass, PassTime, PassRun, LineTime;
      LastPass(cs, nows, cfgs, starts);
      var n := |nows| - 1;
      NoDrift(cs[..n + 1], nows[..n], cfgs[..n], starts[..n + 1]);
      PassKeepsPace(cs[n], nows[n], cfgs[n]);
      SamePaceOk(Pass(cs[n], nows[n], cfgs[n]), cs[n + 1]);
    }
  }

  // ---------------------------------------------------------------------------
  // The next call
  // ---------------------------------------------------------------------------

  /** Cycles a counter still has to go, negative once it is overdue. */
  function Left(r: Rcnt, now: U32): int {
    r.cycle - Elapsed(r, now)
  }

  /** The smallest of 0x7fffffff and what the first `n` counters have left to go. */
  function MinLeft(rcnts: seq<Rcnt>, n: nat, now: U32): int
    requires n <= |rcnts|
  {
    if n == 0 then 0x7fff_ffff
    else
      var m, x := MinLeft(rcnts, n - 1, now), Left(rcnts[n - 1], now);
      if x < m then x else m
  }

  /** The delay `psxRcntSet` schedules (src/psxcounters.cpp:240-258). */
  function NextDelay(c: Counters, now: U32): int {
    var m := MinLeft(c.rcnts, |c.rcnts|, now);
    if m < 0 then 0 else m
  }

  lemma {:induction false} MinLeftIs(rcnts: seq<Rcnt>, n: nat, now: U32)
    requires n <= |rcnts|
    ensures MinLeft(rcnts, n, now) <= 0x7fff_ffff
    ensures forall i :: 0 <= i < n ==> MinLeft(rcnts, n, now) <= Left(rcnts[i], now)
    ensures MinLeft(rcnts, n, now) == 0x7fff_ffff ||
            exists i :: 0 <= i < n && MinLeft(rcnts, n, now) == Left(rcnts[i], now)
  {
    if n > 0 { MinLeftIs(rcnts, n - 1, now); }
  }

  lemma BelowCap(c: Counters, now: U32)
    requires CountersOk(c)
    ensures Left(c.rcnts[0], now) < 0x7fff_ffff
  {
    var r := c.rcnts[0];
    ProductBound(r.target, r.rate, 0xffff, MAX_RATE);
  }

  /** The next call comes at once exactly when some counter is overdue; otherwise it comes exactly when the
      first counter will be. */
  lemma NextDelayExact(c: Counters, now: U32)
    requires CountersOk(c)
    ensures 0 <= NextDelay(c, now) < TWO31
    ensures NextDelay(c, now) == 0 <==> AnyOverdue(c, now)
    ensures !AnyOverdue(c, now) ==>
              && (forall i :: 0 <= i < 4 ==> NextDelay(c, now) <= Left(c.rcnts[i], now))
              && (exists i :: 0 <= i < 4 && NextDelay(c, now) == Left(c.rcnts[i], now))
  {
    MinLeftIs(c.rcnts, 4, now);
    RunningBounds(c.rcnts[0]);
    assert MinLeft(c.rcnts, 4, now) <= Left(c.rcnts[0], now);
    if AnyOverdue(c, now) {
      var i :| 0 <= i < |c.rcnts| && Overdue(c.rcnts[i], now);
      assert MinLeft(c.rcnts, 4, now) <= Left(c.rcnts[i], now) <= 0;
    } else {
      assert forall i :: 0 <= i < 4 ==> !Overdue(c.rcnts[i], now);
    }
    if MinLeft(c.rcnts, 4, now) == 0x7fff_ffff {
      BelowCap(c, now);
    }
  }

  /** A counter's elapsed cycles grow with time, and what it has left shrinks, until the 32 bits are used up. */
  lemma LeftAdvances(r: Rcnt, now: U32, d: nat)
    requires Elapsed(r, now) + d < TWO32
    ensures Elapsed(r, Wrap(now + d)) == Elapsed(r, now) + d && Left(r, Wrap(now + d)) == Left(r, now) - d
  {
    WrapAdvance(now, r.cycleStart, d);
  }

  lemma {:induction false} MinLeftAdvances(rcnts: seq<Rcnt>, n: nat, now: U32, d: nat)
    requires n <= |rcnts| && forall i :: 0 <= i < n ==> Elapsed(rcnts[i], now) + d < TWO32
    ensures MinLeft(rcnts, n, now) - d <= MinLeft(rcnts, n, Wrap(now + d))
  {
    if n > 0 {
      LeftAdvances(rcnts[n - 1], now, d);
      MinLeftAdvances(rcnts, n - 1, now, d);
    }
  }

  /** One of the programmable counters rewritten. */
  lemma RewrittenOk(c: Counters, now: U32, index: nat, r: Rcnt)
    requires CountersOk(c) && NotLost(c, now) && index < 3 && Running(r) && Elapsed(r, now) <= TWO31
    ensures var c' := c.(rcnts := c.rcnts[index := r]); CountersOk(c') && NotLost(c', now)
  {
  }

  /** A count written is less than 2^31 cycles. */
  lemma WrittenCount(r: Rcnt, now: U32, value: nat)
    requires 1 <= r.rate <= MAX_RATE && r.target < 0x10000
    ensures var s := Wcount(r, now, value);
            Running(s) && Elapsed(s, now) <= TWO31 && Count(s, now) == value % 0x10000
  {
    WcountRuns(r, now, value);
    WcountReads(r, now, value);
    ProductBound(value % 0x10000, r.rate, 0xffff, MAX_RATE);
  }

  /** A counter whose mode is written (src/psxcounters.cpp:439-442). */
  function Restarted(r: Rcnt, now: U32, index: nat, value: set<nat>, cfg: Config): Rcnt {
    Wcount(Wmode(r, index, value, cfg), now, 0).(irqState := false)
  }

  lemma RestartedRuns(r: Rcnt, now: U32, index: nat, value: set<nat>, cfg: Config)
    requires index < 3 && r.target < 0x10000 && !(index == 2 && MODE_RC2_DISABLE in value)
    ensures var s := Restarted(r, now, index, value, cfg);
            Running(s) && Elapsed(s, now) == 0 == Count(s, now) && s.mode == value && !s.irqState
  {
    WmodeRuns(r, now, index, value, cfg);
    WcountReads(Wmode(r, index, value, cfg), now, 0);
  }

  lemma RestartedElapsed(r: Rcnt, now: U32, index: nat, value: set<nat>, cfg: Config, d: nat)
    requires index < 3 && d < 0xffff_ffff
    ensures Elapsed(Restarted(r, now, index, value, cfg), Wrap(now + d)) == d
  {
    WrapShift(now + d, now, 0);
  }

  /** What a counter counts from its mode write on, by the bits of its mode: cycles, dots of five cycles, lines, or
      every eighth cycle; and nothing when it is disabled. */
  lemma RestartedCounts(r: Rcnt, now: U32, index: nat, value: set<nat>, cfg: Config, d: nat)
    requires index < 3 && d < 0xffff_ffff
    ensures var count := Count(Restarted(r, now, index, value, cfg), Wrap(now + d));
            count == (if index == 0 then if 8 in value then d / 5 else d
                      else if index == 1 then
                        if 8 !in value then d else if cfg.pal then d / 2164 else d / 2146
                      else if 0 in value then 0 else if 9 in value then d / 8 else d) % 0x10000
  {
    RestartedElapsed(r, now, index, value, cfg, d);
    assert HSyncRate(cfg) == if cfg.pal then 2164 else 2146;
    hide Elapsed, HSyncRate;
    if index == 2 && 0 in value { assert d / 0xffff_ffff == 0; }
  }

  /** A counter that is not overdue may be left alone for two thousand million cycles more. */
  lemma NotLostFor(c: Counters, now: U32, d: nat)
    requires CountersOk(c) && !AnyOverdue(c, now) && d <= 2000000000
    ensures forall i :: 0 <= i < 4 ==> Elapsed(c.rcnts[i], now) + d <= TWO31
  {
    forall i | 0 <= i < 4 ensures Elapsed(c.rcnts[i], now) + d <= TWO31 {
      assert !Overdue(c.rcnts[i], now);
      if i < 3 { ProductBound(c.rcnts[i].target, c.rcnts[i].rate, 0xffff, MAX_RATE); }
    }
  }

  /** The countdown as the machine reads it, a 32-bit difference taken as signed. */
  function Countdown(r: Rcnt, now: U32): int {
    S32(Wrap(r.cycle - Elapsed(r, now)))
  }

  /** The scan of `psxRcntSet` from counter `i` on (src/psxcounters.cpp:243-257), `next` being the smallest countdown
      so far: the first negative one ends it with 0. */
  function Scan(rcnts: seq<Rcnt>, i: nat, next: U32, now: U32): (d: U32)
    requires i <= |rcnts|
    ensures next < TWO31 ==> d < TWO31
    decreases |rcnts| - i
  {
    if i == |rcnts| then next
    else
      var x := Countdown(rcnts[i], now);
      if x < 0 then 0 else Scan(rcnts, i + 1, if x < next then x else next, now)
  }

  /** The delay `psxRcntSet` schedules, of counters in any state. */
  function ScanAll(c: Counters, now: U32): (d: U32)
    ensures d < TWO31
  {
    Scan(c.rcnts, 0, 0x7fff_ffff, now)
  }

  /** The countdown of a sound counter is the true one. */
  lemma CountdownExact(c: Counters, i: nat, now: U32)
    requires CountersOk(c) && NotLost(c, now) && i < 4
    ensures Countdown(c.rcnts[i], now) == Left(c.rcnts[i], now)
  {
    if i < 3 { RunningBounds(c.rcnts[i]); }
    SignedExact(c.rcnts[i].cycle - Elapsed(c.rcnts[i], now));
  }

  lemma {:induction false} ScanIs(rcnts: seq<Rcnt>, i: nat, next: U32, now: U32)
    requires i <= |rcnts| && forall k :: 0 <= k < |rcnts| ==> Countdown(rcnts[k], now) == Left(rcnts[k], now)
    requires next == MinLeft(rcnts, i, now)
    ensures var m := MinLeft(rcnts, |rcnts|, now);
            Scan(rcnts, i, next, now) == if m < 0 then 0 else m
    decreases |rcnts| - i
  {
    if i < |rcnts| {
      MinLeftIs(rcnts, |rcnts|, now);
      var x := Countdown(rcnts[i], now);
      if x >= 0 { ScanIs(rcnts, i + 1, if x < next then x else next, now); }
    }
  }

  /** For sound counters the signed 32-bit scan finds the true delay. */
  lemma ScanExact(c: Counters, now: U32)
    requires CountersOk(c) && NotLost(c, now)
    ensures ScanAll(c, now) == NextDelay(c, now)
  {
    forall k | 0 <= k < |c.rcnts| ensures Countdown(c.rcnts[k], now) == Left(c.rcnts[k], now) {
      CountdownExact(c, k, now);
    }
    ScanIs(c.rcnts, 0, 0x7fff_ffff, now);
  }

  lemma {:induction false} ScanNegative(rcnts: seq<Rcnt>, i: nat, next: U32, now: U32, k: nat)
    requires i <= k < |rcnts| && Countdown(rcnts[k], now) < 0
    ensures Scan(rcnts, i, next, now) == 0
    decreases |rcnts| - i
  {
    var x := Countdown(rcnts[i], now);
    if x >= 0 { ScanNegative(rcnts, i + 1, if x < next then x else next, now, k); }
  }

  /** Counter 2 as a mode write with the disable bit leaves it: its rate is 2^32 - 1, and it waits for 2^32 cycles
      less a count. */
  ghost predicate Disabled(r: Rcnt) {
    r.rate == 0xffff_ffff && TWO32 - 0x10000 <= r.cycle
  }

  lemma DisabledRestart(r: Rcnt, now: U32, value: set<nat>, cfg: Config)
    requires r.target < 0x10000 && MODE_RC2_DISABLE in value
    ensures var s := Restarted(r, now, 2, value, cfg); Disabled(s) && Elapsed(s, now) == 0
  {
    if 0 < r.target {
      WrapCongruent(r.target * 0xffff_ffff, 0 - r.target, r.target);
    } else {
      WrapCongruent(0x10000 * 0xffff_ffff, -0x10000, 0x10000);
    }
    SetBack(now, 0);
  }

  lemma DisabledCountdown(r: Rcnt, now: U32)
    requires Disabled(r)
    ensures Countdown(r, now) < 0 <==> Elapsed(r, now) <= r.cycle - TWO31 || r.cycle < Elapsed(r, now)
  {
    var x := r.cycle - Elapsed(r, now);
    if x < 0 { assert Wrap(x) == x + TWO32; }
  }

  /** A disabled counter is not overdue, but for the first 2^31 - 2^16 cycles its countdown reads as negative, so
      the scan asks for a call at once. */
  lemma DisabledScan(c: Counters, now: U32)
    requires |c.rcnts| == 4 && Disabled(c.rcnts[2]) && Elapsed(c.rcnts[2], now) < TWO31 - 0x10000
    ensures !Overdue(c.rcnts[2], now) && ScanAll(c, now) == 0
  {
    DisabledCountdown(c.rcnts[2], now);
    ScanNegative(c.rcnts, 0, 0x7fff_ffff, now, 2);
  }

  /** A pass does nothing to it. */
  lemma DisabledPass(c: Counters, now: U32, cfg: Config)
    requires |c.rcnts| == 4 && !Overdue(c.rcnts[2], now)
    ensures Pass(c, now, cfg).rcnts[2] == c.rcnts[2]
  {
  }

  /** A counter started `d` cycles earlier. */
  function Earlier(r: Rcnt, d: U32): Rcnt {
    r.(cycleStart := Wrap(r.cycleStart - d))
  }

  /** Setting the cycle counter and every start time back by the same amount changes no counter's elapsed
      or remaining cycles. */
  lemma RebaseKeepsElapsed(r: Rcnt, now: U32)
    ensures Elapsed(Earlier(r, now), 0) == Elapsed(r, now)
    ensures Left(Earlier(r, now), 0) == Left(r, now)
  {
    WrapShift(now, r.cycleStart, now);
  }

  function AllEarlier(rcnts: seq<Rcnt>, d: U32): (rs: seq<Rcnt>)
    ensures |rs| == |rcnts|
  {
    seq(|rcnts|, i requires 0 <= i < |rcnts| => Earlier(rcnts[i], d))
  }

  /** Counter `i` with its rate as at the start; the base counter counts hsyncs. */
  function Started(rcnts: seq<Rcnt>, i: nat, cfg: Config): Rcnt
    requires i < |rcnts|
  {
    if i == 3 then rcnts[3].(rate := 1, mode := {MODE_COUNT_TO_TARGET}, target := HSyncRate(cfg))
    else rcnts[i].(rate := 1)
  }

  lemma StartedRuns(rcnts: seq<Rcnt>, i: nat, cfg: Config, now: U32)
    requires i < |rcnts| == 4 && (i < 3 ==> rcnts[i].target < 0x10000)
    ensures var r := Wcount(Started(rcnts, i, cfg), now, 0); Running(r) && Elapsed(r, now) == 0
  {
    WcountRuns(Started(rcnts, i, cfg), now, 0);
    WcountReads(Started(rcnts, i, cfg), now, 0);
  }

  // ---------------------------------------------------------------------------
  // The counters in place
  // ---------------------------------------------------------------------------

  class RootCounters {
    var rcnts: seq<Rcnt>
    var hSyncCount: nat
    var hsyncSteps: nat
    var baseCycle: nat
    var irqs: set<nat>
    ghost var vblanks: nat
    var frames: nat
    var cfg: Config

    ghost function Abs(): Counters
      reads this
    {
      Counters(rcnts, hSyncCount, hsyncSteps, baseCycle, irqs, vblanks, frames)
    }

    /** The globals before anything is initialised. */
    constructor (cfg: Config)
      ensures |rcnts| == 4 && baseCycle == 0 && this.cfg == cfg
      ensures forall i :: 0 <= i < 4 ==> rcnts[i].mode == {} && rcnts[i].target == 0 && !rcnts[i].irqState
    {
      var r := Rcnt({}, 0, 0, CountToOverflow, false, 0, 0);
      rcnts := [r, r, r, r];
      hSyncCount, hsyncSteps, baseCycle := 0, 0, 0;
      irqs, vblanks, frames := {}, 0, 0;
      this.cfg := cfg;
    }

    /** `_psxRcntWcount` (src/psxcounters.cpp:145-167). */
    method WriteCount(index: nat, value: nat, now: U32)
      requires index < |rcnts|
      modifies `rcnts
      ensures rcnts == old(rcnts)[index := Wcount(old(rcnts)[index], now, value)]
    {
      var v := value;
      if v > 0xffff { v := v % 0x10000; }
      rcnts := rcnts[index := rcnts[index].(cycleStart := now)];
      rcnts := rcnts[index := rcnts[index].(cycleStart := Wrap(now - Wrap(v * rcnts[index].rate)))];
      if v < rcnts[index].target {
        rcnts := rcnts[index := rcnts[index].(cycle := Wrap(rcnts[index].target * rcnts[index].rate))];
        rcnts := rcnts[index := rcnts[index].(counterState := CountToTarget)];
      } else {
        rcnts := rcnts[index := rcnts[index].(cycle := Wrap(0x10000 * rcnts[index].rate))];
        rcnts := rcnts[index := rcnts[index].(counterState := CountToOverflow)];
      }
    }

    method StartRates()
      requires |rcnts| == 4
      modifies `rcnts
      ensures |rcnts| == 4 && forall k :: 0 <= k < 4 ==> rcnts[k] == Started(old(rcnts), k, cfg)
    {
      rcnts := rcnts[0 := rcnts[0].(rate := 1)];
      rcnts := rcnts[1 := rcnts[1].(rate := 1)];
      rcnts := rcnts[2 := rcnts[2].(rate := 1)];
      rcnts := rcnts[3 := rcnts[3].(rate := 1, mode := {MODE_COUNT_TO_TARGET}, target := HSyncRate(cfg))];
    }

    method ZeroCounts(now: U32)
      modifies `rcnts
      ensures |rcnts| == |old(rcnts)| && forall k :: 0 <= k < |rcnts| ==> rcnts[k] == Wcount(old(rcnts)[k], now, 0)
    {
      ghost var rs := rcnts;
      for i := 0 to |rcnts|
        invariant |rcnts| == |rs|
        invariant forall k :: 0 <= k < |rs| ==> rcnts[k] == if k < i then Wcount(rs[k], now, 0) else rs[k]
      {
        WriteCount(i, 0, now);
      }
    }

    /** `psxRcntInit` up to the scheduling (src/psxcounters.cpp:498-525), of counters in any state: rates and counts
        start anew, while modes, targets, the flags of interrupts raised and the base counter's carry stay.  Vblanks
        are counted as from the start of a frame. */
    method PsxRcntInit(now: U32)
      requires |rcnts| == 4 && baseCycle < 0x1000 && forall i :: 0 <= i < 3 ==> rcnts[i].target < 0x10000
      modifies `rcnts, `hSyncCount, `hsyncSteps, `vblanks
      ensures CountersOk(Abs()) && forall i :: 0 <= i < 4 ==> Elapsed(rcnts[i], now) == 0
      ensures rcnts[3].cycle == (if cfg.pal then 2164 else 2146) && hSyncCount == 0 && hsyncSteps == 1
      ensures forall i :: 0 <= i < 3 ==>
                && rcnts[i].mode == old(rcnts)[i].mode && rcnts[i].target == old(rcnts)[i].target
                && rcnts[i].irqState == old(rcnts)[i].irqState && rcnts[i].rate == 1
    {
      StartRates();
      forall k | 0 <= k < 4 ensures Running(Wcount(rcnts[k], now, 0)) && Elapsed(Wcount(rcnts[k], now, 0), now) == 0 {
        StartedRuns(old(rcnts), k, cfg, now);
      }
      ZeroCounts(now);
      hSyncCount, hsyncSteps := 0, 1;
      vblanks := frames;
    }

    /** `setIrq` under the guard of `psxRcntReset` (src/psxcounters.cpp:285-293, 314-322). */
    method RaiseIf(index: nat, cause: nat)
      requires index < |rcnts|
      modifies `rcnts, `irqs
      ensures var r := old(rcnts)[index];
              && rcnts == old(rcnts)[index := r.(irqState := r.irqState || Raises(r, cause))]
              && irqs == if Raises(r, cause) then old(irqs) + {index} else old(irqs)
    {
      if cause in rcnts[index].mode {
        if MODE_IRQ_REGENERATE in rcnts[index].mode || !rcnts[index].irqState {
          irqs := irqs + {index};
          rcnts := rcnts[index := rcnts[index].(irqState := true)];
        }
      }
    }

    /** `psxRcntReset` at the target (src/psxcounters.cpp:271-295). */
    method AtTarget(index: nat, now: U32) returns (rcycles: U32)
      requires index < |rcnts|
      modifies `rcnts, `irqs
      ensures rcycles == PastTarget(old(rcnts)[index], now)
      ensures rcnts == old(rcnts)[index := ReachTarget(old(rcnts)[index], now)]
      ensures irqs == if Raises(old(rcnts)[index], MODE_IRQ_ON_TARGET) then old(irqs) + {index} else old(irqs)
    {
      rcycles := Elapsed(rcnts[index], now);
      if MODE_COUNT_TO_TARGET in rcnts[index].mode {
        rcycles := Wrap(rcycles - rcnts[index].target * rcnts[index].rate);
        rcnts := rcnts[index := rcnts[index].(cycleStart := Wrap(now - rcycles))];
      } else {
        rcnts := rcnts[index := rcnts[index].(cycle := Wrap(0x10000 * rcnts[index].rate),
                                              counterState := CountToOverflow)];
      }
      RaiseIf(index, MODE_IRQ_ON_TARGET);
      rcnts := rcnts[index := rcnts[index].(mode := rcnts[index].mode + {MODE_COUNT_EQ_TARGET})];
    }

    /** `psxRcntReset` at overflow (src/psxcounters.cpp:301-325). */
    method AtOverflow(index: nat, now: U32)
      requires index < |rcnts|
      modifies `rcnts, `irqs
      ensures rcnts == old(rcnts)[index := Overflow(old(rcnts)[index], now)]
      ensures irqs == if Raises(old(rcnts)[index], MODE_IRQ_ON_OVERFLOW) then old(irqs) + {index} else old(irqs)
    {
      var rcycles := Wrap(Elapsed(rcnts[index], now) - 0x10000 * rcnts[index].rate);
      rcnts := rcnts[index := rcnts[index].(cycleStart := Wrap(now - rcycles))];
      if rcycles < Wrap(rcnts[index].target * rcnts[index].rate) {
        rcnts := rcnts[index := rcnts[index].(cycle := Wrap(rcnts[index].target * rcnts[index].rate),
                                              counterState := CountToTarget)];
      }
      RaiseIf(index, MODE_IRQ_ON_OVERFLOW);
      rcnts := rcnts[index := rcnts[index].(mode := rcnts[index].mode + {MODE_OVERFLOW})];
    }

    /** `psxRcntReset` (src/psxcounters.cpp:265-326). */
    method PsxRcntReset(index: nat, now: U32)
      requires index < |rcnts|
      modifies `rcnts, `irqs
      ensures rcnts == old(rcnts)[index := Reset(old(rcnts)[index], now)]
      ensures irqs == if RaisesIrq(old(rcnts)[index], now) then old(irqs) + {index} else old(irqs)
      ensures var r := old(rcnts)[index];
              irqs == if MeetsCause(r, now) && (6 in r.mode || !r.irqState) then old(irqs) + {index} else old(irqs)
    {
      ghost var r := rcnts[index];
      rcnts := rcnts[index := rcnts[index].(mode := rcnts[index].mode + {MODE_UNKNOWN10})];
      RaisesExact(r, now);
      ModeBits(r, now);
      if rcnts[index].counterState == CountToTarget {
        var rcycles := AtTarget(index, now);
        if rcycles < Wrap(0x10000 * rcnts[index].rate) {
          return;
        }
      }
      if rcnts[index].counterState == CountToOverflow {
        AtOverflow(index, now);
      }
    }

    /** The due test of `psxRcntUpdate` and the reset it guards (src/psxcounters.cpp:334-350). */
    method UpdateOne(index: nat, now: U32)
      requires index < |rcnts|
      modifies `rcnts, `irqs
      ensures Abs() == ResetIfDue(old(Abs()), index, now)
    {
      if Wrap(now - rcnts[index].cycleStart) >= rcnts[index].cycle {
        PsxRcntReset(index, now);
      }
    }

    /** The base part of `psxRcntUpdate` (src/psxcounters.cpp:353-420). */
    method UpdateBase(now: U32)
      requires |rcnts| == 4
      modifies `rcnts, `irqs, `hSyncCount, `hsyncSteps, `baseCycle, `vblanks, `frames
      ensures Abs() == BaseStep(old(Abs()), now, cfg)
    {
      var leftover := Wrap(Wrap(now - rcnts[3].cycleStart) - rcnts[3].cycle);
      CountLines();
      ScheduleSteps();
      rcnts := rcnts[3 := rcnts[3].(cycleStart := Wrap(now - leftover))];
      baseCycle := Wrap(baseCycle + hsyncSteps * LineCycles(cfg));
      rcnts := rcnts[3 := rcnts[3].(cycle := baseCycle / 0x1000)];
      baseCycle := baseCycle % 0x1000;
    }

    /** The hsyncs stepped, the vblank and the end of the frame (src/psxcounters.cpp:358-403). */
    method CountLines()
      modifies `irqs, `hSyncCount, `vblanks, `frames
      ensures var hs, ends := old(hSyncCount) + hsyncSteps, old(hSyncCount) + hsyncSteps >= FrameEnd(cfg);
              && hSyncCount == (if ends then 0 else hs) && frames == (if ends then old(frames) + 1 else old(frames))
              && irqs == (if hs == V_BLANK_START then old(irqs) + {3} else old(irqs))
              && vblanks == (if hs == V_BLANK_START then old(vblanks) + 1 else old(vblanks))
    {
      hSyncCount := hSyncCount + hsyncSteps;
      if hSyncCount == V_BLANK_START {
        irqs := irqs + {3};
        vblanks := vblanks + 1;
      }
      if hSyncCount >= (if cfg.vsyncWA then HSyncTotal(cfg) / 2 else HSyncTotal(cfg)) {
        hSyncCount := 0;
        frames := frames + 1;
      }
    }

    /** The hsyncs to the next call (src/psxcounters.cpp:406-409). */
    method ScheduleSteps()
      modifies `hsyncSteps
      ensures hsyncSteps == NextSteps(hSyncCount, cfg)
    {
      hsyncSteps := Wrap(HSyncTotal(cfg) - hSyncCount);
      var nextVsync := Wrap(V_BLANK_START - hSyncCount);
      if nextVsync != 0 && nextVsync < hsyncSteps {
        hsyncSteps := nextVsync;
      }
    }

    /** `psxRcntUpdate` up to the scheduling (src/psxcounters.cpp:328-420). */
    method UpdateAll(now: U32)
      requires |rcnts| == 4
      modifies `rcnts, `irqs, `hSyncCount, `hsyncSteps, `baseCycle, `vblanks, `frames
      ensures Abs() == Pass(old(Abs()), now, cfg)
    {
      UpdateOne(0, now);
      UpdateOne(1, now);
      UpdateOne(2, now);
      if Wrap(now - rcnts[3].cycleStart) >= rcnts[3].cycle {
        UpdateBase(now);
      }
    }

    /** `_psxRcntWmode` (src/psxcounters.cpp:188-231). */
    method WriteMode(index: nat, value: set<nat>)
      requires index < |rcnts|
      modifies `rcnts
      ensures rcnts == old(rcnts)[index := Wmode(old(rcnts)[index], index, value, cfg)]
    {
      rcnts := rcnts[index := rcnts[index].(mode := value)];
      match index {
        case 0 =>
          rcnts := rcnts[index := rcnts[index].(rate := if MODE_CLOCK8 in value then 5 else 1)];
        case 1 =>
          rcnts := rcnts[index := rcnts[index].(rate := if MODE_CLOCK8 in value then HSyncRate(cfg) else 1)];
        case 2 =>
          rcnts := rcnts[index := rcnts[index].(rate := if MODE_RC2_ONE_EIGHTH in value then 8 else 1)];
          if MODE_RC2_DISABLE in value {
            rcnts := rcnts[index := rcnts[index].(rate := 0xffff_ffff)];
          }
        case _ =>
      }
    }

    /** `psxRcntWmode` up to the scheduling (src/psxcounters.cpp:439-442). */
    method Restart(index: nat, value: set<nat>, now: U32)
      requires index < |rcnts|
      modifies `rcnts
      ensures rcnts == old(rcnts)[index := Restarted(old(rcnts)[index], now, index, value, cfg)]
    {
      WriteMode(index, value);
      WriteCount(index, 0, now);
      rcnts := rcnts[index := rcnts[index].(irqState := false)];
    }

    /** `psxRcntAdjustTimestamps` (src/psxcounters.cpp:624-629). */
    method AdjustTimestamps(prevCycle: U32)
      modifies `rcnts
      ensures rcnts == AllEarlier(old(rcnts), prevCycle)
    {
      ghost var rs := rcnts;
      for i := 0 to |rcnts|
        invariant |rcnts| == |rs|
        invariant forall k :: 0 <= k < |rs| ==> rcnts[k] == if k < i then Earlier(rs[k], prevCycle) else rs[k]
      {
        rcnts := rcnts[i := rcnts[i].(cycleStart := Wrap(rcnts[i].cycleStart - prevCycle))];
      }
    }
  }
}
