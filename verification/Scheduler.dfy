/** The dispatch loop `psxBranchTest` (src/r3000a.cpp:153-176) over the event queue and the
    root counters it drives.

    Handlers other than those of the root counters and of the cycle rebase are modelled by
    what they do to the queue: a script gives, for every dispatch, the events the handler
    schedules and cancels. */
module Scheduler {
  import opened Cycles
  import opened EventQueue
  import RC = RootCounters

  datatype Command = Schedule(ev: nat, after: U32) | Cancel(ev: nat)

  type Script = (nat, nat) -> seq<Command>

  /** A handler re-arms events strictly later, and leaves the root-counter and rebase events to
      the code that owns them. */
  predicate Allowed(cmd: Command) {
    match cmd
    case Schedule(ev, after) => ev < PSXINT_COUNT && ev != RCNT && ev != RESET_CYCLE_VAL && 0 < after < 0x8000_0000
    case Cancel(ev) => ev != RCNT && ev != RESET_CYCLE_VAL
  }

  ghost predicate WellBehaved(script: Script) {
    forall n: nat, ev: nat, k: nat {:trigger script(n, ev)[k]} :: k < |script(n, ev)| ==> Allowed(script(n, ev)[k])
  }

  // ---------------------------------------------------------------------------
  // What one scheduling or removal keeps
  // ---------------------------------------------------------------------------

  /** Every queued event comes after `floor`. */
  ghost predicate AllAfter(q: seq<nat>, keys: seq<Key>, floor: Key) {
    forall i :: 0 <= i < |q| && q[i] < |keys| ==> Earlier(floor, keys[q[i]])
  }

  lemma AfterWithout(q: seq<nat>, keys: seq<Key>, ev: nat, floor: Key)
    requires Proper(q) && AllAfter(q, keys, floor)
    ensures AllAfter(Without(q, ev), keys, floor)
  {
    var p := WithoutFrom(q, ev);
    var r := Without(q, ev);
    forall i | 0 <= i < |r| && r[i] < |keys| ensures Earlier(floor, keys[r[i]]) {
      assert r[i] == q[if i < p then i else i + 1];
    }
  }

  lemma AfterInserted(q: seq<nat>, keys: seq<Key>, p: nat, ev: nat, key: Key, floor: Key)
    requires p <= |q| && ev < |keys| && Absent(q, ev) && AllAfter(q, keys, floor) && Earlier(floor, key)
    ensures AllAfter(Inserted(q, p, ev), keys[ev := key], floor)
  {
    var r, ks := Inserted(q, p, ev), keys[ev := key];
    forall i | 0 <= i < |r| && r[i] < |ks| ensures Earlier(floor, ks[r[i]]) {
      if i != p {
        assert r[i] == q[if i < p then i else i - 1];
      }
    }
  }

  ghost predicate Queued(s: State, ev: nat) {
    !Absent(s.q, ev)
  }

  lemma WithoutKeepsQueued(q: seq<nat>, ev: nat, other: nat)
    requires Proper(q) && ev != other
    ensures Absent(Without(q, ev), other) == Absent(q, other)
  {
    var p := WithoutFrom(q, ev);
    var r := Without(q, ev);
    assert forall i :: 0 <= i < |q| && i != p ==> q[i] == r[if i < p then i else i - 1];
  }

  lemma InsertedQueued(q: seq<nat>, p: nat, ev: nat, other: nat)
    requires p <= |q|
    ensures Absent(Inserted(q, p, ev), other) <==> Absent(q, other) && ev != other
  {
    var r := Inserted(q, p, ev);
    assert r[p] == ev;
    assert forall i :: 0 <= i < |q| ==> q[i] == r[if i < p then i else i + 1];
    assert forall i :: 0 <= i < |r| && i != p ==> r[i] == q[if i < p then i else i - 1];
  }

  /** Scheduling an event queues it, leaves the others queued, and puts nothing before the present. */
  lemma AddKeeps(s: State, ev: nat, after: U32, other: nat)
    requires GoodExcept(s, ev) && ev < PSXINT_COUNT && other != ev
    ensures var s' := AddEvent(s, ev, after);
            && Queued(s', ev) && (Queued(s', other) <==> Queued(s, other))
            && s'.keys[ev].due == s.clock + after
            && (other < PSXINT_COUNT ==> s'.keys[other] == s.keys[other])
  {
    WithoutKeepsQueued(s.q, ev, other);
    var rest := Without(s.q, ev);
    InsertedQueued(rest, InsertAt(rest, s.keys, s.clock + after), ev, other);
    InsertedQueued(rest, InsertAt(rest, s.keys, s.clock + after), ev, ev);
  }

  /** What is scheduled now comes after whatever was dispatched before. */
  lemma AddAfter(s: State, ev: nat, after: U32, floor: Key)
    requires GoodExcept(s, ev) && ev < PSXINT_COUNT
    requires AllAfter(s.q, s.keys, floor) && floor.due <= s.clock && floor.stamp < s.arrivals
    ensures AllAfter(AddEvent(s, ev, after).q, AddEvent(s, ev, after).keys, floor)
  {
    var rest, key := Without(s.q, ev), Key(s.clock + after, s.arrivals);
    var at := InsertAt(rest, s.keys, s.clock + after);
    assert Absent(rest, ev) by { WithoutProper(s.q, ev); }
    AfterWithout(s.q, s.keys, ev, floor);
    AfterInserted(rest, s.keys, at, ev, key, floor);
    assert AddEvent(s, ev, after).q == Inserted(rest, at, ev) && AddEvent(s, ev, after).keys == s.keys[ev := key];
  }

  lemma RemoveKeeps(s: State, ev: nat, floor: Key, other: nat)
    requires Good(s) && other != ev
    ensures Queued(RemoveEvent(s, ev), other) <==> Queued(s, other)
    ensures AllAfter(s.q, s.keys, floor) ==> AllAfter(RemoveEvent(s, ev).q, s.keys, floor)
    ensures DueCount(RemoveEvent(s, ev).q, s.keys, s.clock) <= DueCount(s.q, s.keys, s.clock)
  {
    WithoutKeepsQueued(s.q, ev, other);
    DueCountWithout(s.q, s.keys, s.clock, ev);
    if AllAfter(s.q, s.keys, floor) { AfterWithout(s.q, s.keys, ev, floor); }
  }

  /** An event whose entry is about to be overwritten anyway may have any entry. */
  lemma AddIgnoresEntry(s: State, ev: nat, ic: IntCycle, after: U32, s': State)
    requires |s.ics| == PSXINT_COUNT + 1 && |s.keys| == PSXINT_COUNT && ev < PSXINT_COUNT
    requires GoodExcept(s, ev) && after < TWO31 && s' == s.(ics := s.ics[ev := ic])
    ensures GoodExcept(s', ev) && AddEvent(s', ev, after) == AddEvent(s, ev, after)
  {
    var q := Without(s.q, ev);
    assert Absent(q, ev) by { WithoutProper(s.q, ev); }
    assert Truthful(q, s'.ics, s.cycle, s.keys, s.clock, s.arrivals);
    assert s'.ics[ev := IntCycle(s.cycle, after)] == s.ics[ev := IntCycle(s.cycle, after)];
    assert Scheduled(s', ev, after) == Scheduled(s, ev, after);
  }

  // ---------------------------------------------------------------------------
  // The machine between dispatches
  // ---------------------------------------------------------------------------

  /** The root-counter event is queued, for no later than the first counter will be due. */
  ghost predicate Armed(s: State, c: RC.Counters) {
    Queued(s, RCNT) && |s.keys| == PSXINT_COUNT && s.keys[RCNT].due <= s.clock + RC.NextDelay(c, s.cycle)
  }

  /** The rebase is due when the cycle counter has reached its limit. */
  ghost predicate Origin(s: State) {
    |s.keys| == PSXINT_COUNT && s.keys[RESET_CYCLE_VAL].due == s.clock - s.cycle + RESET_CYCLE_VAL_AT
  }

  /** A good queue that always holds the two persistent events, and running counters. */
  ghost predicate Core(s: State, c: RC.Counters) {
    && Good(s) && Queued(s, RESET_CYCLE_VAL) && Origin(s) && Armed(s, c)
    && RC.CountersOk(c) && RC.NotLost(c, s.cycle)
  }

  ghost function DueNow(s: State): nat {
    DueCount(s.q, s.keys, s.clock)
  }

  ghost predicate Dispatchable(s: State, c: RC.Counters, ev: nat) {
    && Core(s, c)
    && s.q != [] && s.q[0] == ev && s.keys[ev].due <= s.clock
  }

  /** Less to catch up, or as much and fewer events due. */
  ghost predicate Progress(s: State, c: RC.Counters, s': State, c': RC.Counters)
    requires |c.rcnts| == 4 && |c'.rcnts| == 4
  {
    var lag, lag' := RC.TotalLag(c, s.cycle), RC.TotalLag(c', s'.cycle);
    lag' < lag || (lag' == lag && DueNow(s') < DueNow(s))
  }

  /** What dispatching the due event `ev` leaves behind: the core, progress, and nothing queued that should
      have come before it. */
  ghost predicate Handled(s: State, c: RC.Counters, ev: nat, s': State, c': RC.Counters)
    requires Dispatchable(s, c, ev)
  {
    && Core(s', c') && Progress(s, c, s', c') && s'.clock == s.clock
    && AllAfter(s'.q, s'.keys, s.keys[ev]) && s.keys[ev].stamp < s'.arrivals
  }

  lemma PopQueued(s: State)
    requires Good(s) && s.q != []
    ensures Good(PopFront(s)) && forall e :: e != s.q[0] ==> (Queued(PopFront(s), e) <==> Queued(s, e))
  {
    PopGood(s);
    var t := s.q[1..];
    assert forall i :: 0 <= i < |t| ==> t[i] == s.q[i + 1];
    forall e | e != s.q[0] ensures Absent(t, e) <==> Absent(s.q, e) {
      assert forall i :: 0 < i < |s.q| ==> s.q[i] == t[i - 1];
    }
  }

  lemma PopKeeps(s: State)
    requires Good(s) && s.q != [] && s.keys[s.q[0]].due <= s.clock
    ensures Good(PopFront(s)) && AllAfter(PopFront(s).q, s.keys, s.keys[s.q[0]])
    ensures DueNow(PopFront(s)) == DueNow(s) - 1
    ensures forall e :: e != s.q[0] ==> (Queued(PopFront(s), e) <==> Queued(s, e))
    ensures s.keys[s.q[0]].stamp < s.arrivals
  {
    PopGood(s);
    PopQueued(s);
  }

  /** Dispatching the root-counter event: either some counter had something to catch up and there is less
      of it now, or the event is re-armed for later. */
  lemma RcntDispatched(s: State, c: RC.Counters, cfg: RC.Config)
    requires Dispatchable(s, c, RCNT)
    ensures var c' := RC.Pass(c, s.cycle, cfg);
            var s' := AddEvent(PopFront(s), RCNT, RC.NextDelay(c', s.cycle));
            && 0 <= RC.NextDelay(c', s.cycle) < TWO31
            && Handled(s, c, RCNT, s', c')
  {
    hide SortedByKey, Truthful, Proper, Inserted, Without, InsertAt, RC.Pass;
    var c' := RC.Pass(c, s.cycle, cfg);
    RC.PassCatchesUp(c, s.cycle, cfg);
    RC.NextDelayExact(c', s.cycle);
    var after := RC.NextDelay(c', s.cycle);
    PopKeeps(s);
    var t := PopFront(s);
    GoodIsGoodExcept(t, RCNT);
    AddGood(t, RCNT, after);
    AddDue(t, RCNT, after);
    AddKeeps(t, RCNT, after, RESET_CYCLE_VAL);
    AddAfter(t, RCNT, after, s.keys[RCNT]);
  }

  /** Counters set back with the cycle counter. */
  function CountersSetBack(c: RC.Counters, d: U32): RC.Counters {
    c.(rcnts := RC.AllEarlier(c.rcnts, d))
  }

  lemma {:induction false} MinLeftSame(rs: seq<RC.Rcnt>, rs': seq<RC.Rcnt>, n: nat, now: U32)
    requires n <= |rs| == |rs'|
    requires forall i :: 0 <= i < n ==> RC.Left(rs'[i], 0) == RC.Left(rs[i], now)
    ensures RC.MinLeft(rs', n, 0) == RC.MinLeft(rs, n, now)
  {
    if n > 0 { MinLeftSame(rs, rs', n - 1, now); }
  }

  lemma SetBackKeeps(c: RC.Counters, now: U32)
    requires RC.CountersOk(c)
    ensures var c' := CountersSetBack(c, now);
            && RC.CountersOk(c') && (RC.NotLost(c, now) ==> RC.NotLost(c', 0))
            && RC.TotalLag(c', 0) == RC.TotalLag(c, now) && RC.NextDelay(c', 0) == RC.NextDelay(c, now)
  {
    var c' := CountersSetBack(c, now);
    forall i | 0 <= i < 4
      ensures RC.Elapsed(c'.rcnts[i], 0) == RC.Elapsed(c.rcnts[i], now)
      ensures RC.Left(c'.rcnts[i], 0) == RC.Left(c.rcnts[i], now)
    {
      RC.RebaseKeepsElapsed(c.rcnts[i], now);
    }
    MinLeftSame(c.rcnts, c'.rcnts, 4, now);
  }

  /** Dispatching the rebase event: every true time stays as it was, and the event is re-armed for later. */
  lemma ResetDispatched(s: State, c: RC.Counters)
    requires Dispatchable(s, c, RESET_CYCLE_VAL)
    ensures var s' := AddEvent(Rebase(PopFront(s)), RESET_CYCLE_VAL, RESET_CYCLE_VAL_AT);
            Handled(s, c, RESET_CYCLE_VAL, s', CountersSetBack(c, s.cycle))
  {
    SetBackKeeps(c, s.cycle);
    PopKeeps(s);
    var t := PopFront(s);
    RebaseGood(t);
    var u := Rebase(t);
    GoodIsGoodExcept(u, RESET_CYCLE_VAL);
    AddGood(u, RESET_CYCLE_VAL, RESET_CYCLE_VAL_AT);
    AddDue(u, RESET_CYCLE_VAL, RESET_CYCLE_VAL_AT);
    AddKeeps(u, RESET_CYCLE_VAL, RESET_CYCLE_VAL_AT, RCNT);
    AddAfter(u, RESET_CYCLE_VAL, RESET_CYCLE_VAL_AT, s.keys[RESET_CYCLE_VAL]);
  }

  // ---------------------------------------------------------------------------
  // Handlers
  // ---------------------------------------------------------------------------

  /** One command of a handler, carried out on the queue. */
  function Perform(s: State, cmd: Command): (r: State)
    requires |s.ics| == PSXINT_COUNT + 1 && |s.keys| == PSXINT_COUNT && Allowed(cmd)
    ensures |r.ics| == PSXINT_COUNT + 1 && |r.keys| == PSXINT_COUNT
  {
    match cmd
    case Schedule(ev, after) => AddEvent(s, ev, after)
    case Cancel(ev) => RemoveEvent(s, ev)
  }

  ghost predicate AllAllowed(cmds: seq<Command>) {
    forall k :: 0 <= k < |cmds| ==> Allowed(cmds[k])
  }

  /** A handler's commands one after another. */
  ghost function PerformAll(s: State, cmds: seq<Command>): (r: State)
    requires |s.ics| == PSXINT_COUNT + 1 && |s.keys| == PSXINT_COUNT && AllAllowed(cmds)
    ensures |r.ics| == PSXINT_COUNT + 1 && |r.keys| == PSXINT_COUNT
  {
    if cmds == [] then s else Perform(PerformAll(s, cmds[..|cmds| - 1]), cmds[|cmds| - 1])
  }

  /** Whatever a handler does, the queue stays good, and the root-counter event stays queued as it was. */
  lemma PerformGood(s: State, cmd: Command)
    requires Good(s) && Queued(s, RCNT) && Allowed(cmd)
    ensures var r := Perform(s, cmd);
            && Good(r) && Queued(r, RCNT) && r.keys[RCNT] == s.keys[RCNT] && r.clock == s.clock && r.cycle == s.cycle
    ensures cmd.Cancel? ==> Without(s.q, cmd.ev) != []
  {
    match cmd {
      case Schedule(ev, after) =>
        GoodIsGoodExcept(s, ev);
        AddGood(s, ev, after);
        AddKeeps(s, ev, after, RCNT);
      case Cancel(ev) =>
        WithoutKeepsQueued(s.q, ev, RCNT);
        RemoveGood(s, ev);
        RemoveKeeps(s, ev, Key(0, 0), RCNT);
    }
  }

  lemma {:induction false} PerformAllGood(s: State, cmds: seq<Command>)
    requires Good(s) && Queued(s, RCNT) && AllAllowed(cmds)
    ensures var r := PerformAll(s, cmds);
            && Good(r) && Queued(r, RCNT) && r.keys[RCNT] == s.keys[RCNT] && r.clock == s.clock && r.cycle == s.cycle
    decreases |cmds|
  {
    if cmds != [] {
      var n := |cmds| - 1;
      PerformAllGood(s, cmds[..n]);
      PerformGood(PerformAll(s, cmds[..n]), cmds[n]);
    }
  }

  /** A handler's command keeps the machine's core, adds no due event and nothing earlier than `floor`. */
  lemma PerformKeeps(s: State, c: RC.Counters, cmd: Command, floor: Key)
    requires Core(s, c) && Allowed(cmd)
    requires AllAfter(s.q, s.keys, floor) && floor.due <= s.clock && floor.stamp < s.arrivals
    ensures Core(Perform(s, cmd), c) && DueNow(Perform(s, cmd)) <= DueNow(s)
    ensures AllAfter(Perform(s, cmd).q, Perform(s, cmd).keys, floor)
    ensures Perform(s, cmd).cycle == s.cycle && Perform(s, cmd).clock == s.clock
    ensures s.arrivals <= Perform(s, cmd).arrivals
  {
    match cmd {
      case Schedule(ev, after) =>
        GoodIsGoodExcept(s, ev);
        AddGood(s, ev, after);
        AddDue(s, ev, after);
        AddKeeps(s, ev, after, RCNT);
        AddKeeps(s, ev, after, RESET_CYCLE_VAL);
        AddAfter(s, ev, after, floor);
      case Cancel(ev) =>
        WithoutKeepsQueued(s.q, ev, RCNT);
        RemoveGood(s, ev);
        RemoveKeeps(s, ev, floor, RCNT);
        RemoveKeeps(s, ev, floor, RESET_CYCLE_VAL);
    }
  }

  lemma {:induction false} PerformAllKeeps(s: State, c: RC.Counters, cmds: seq<Command>, floor: Key)
    requires Core(s, c) && AllAllowed(cmds)
    requires AllAfter(s.q, s.keys, floor) && floor.due <= s.clock && floor.stamp < s.arrivals
    ensures var r := PerformAll(s, cmds);
            && Core(r, c) && DueNow(r) <= DueNow(s) && AllAfter(r.q, r.keys, floor)
            && r.cycle == s.cycle && r.clock == s.clock && s.arrivals <= r.arrivals
    decreases |cmds|
  {
    if cmds != [] {
      var n := |cmds| - 1;
      PerformAllKeeps(s, c, cmds[..n], floor);
      PerformKeeps(PerformAll(s, cmds[..n]), c, cmds[n], floor);
    }
  }

  /** Queue and counters. */
  datatype World = World(s: State, c: RC.Counters)

  /** What the handler of event `ev`, just taken off the queue, leaves; `cmds` is what any other handler than the two
      of the persistent events does. */
  ghost function Served(t: State, c: RC.Counters, cfg: RC.Config, ev: nat, cmds: seq<Command>): World
    requires |t.ics| == PSXINT_COUNT + 1 && |t.keys| == PSXINT_COUNT && |c.rcnts| == 4 && AllAllowed(cmds)
  {
    if ev == RCNT then
      var c' := RC.Pass(c, t.cycle, cfg);
      World(AddEvent(t, RCNT, RC.ScanAll(c', t.cycle)), c')
    else if ev == RESET_CYCLE_VAL then
      World(AddEvent(Rebase(t), RESET_CYCLE_VAL, RESET_CYCLE_VAL_AT), CountersSetBack(c, t.cycle))
    else World(PerformAll(t, cmds), c)
  }

  /** The front event's entry copied to the next-event slot. */
  function ShowNext(s: State): State
    requires |s.ics| == PSXINT_COUNT + 1
  {
    if s.q == [] || s.q[0] >= PSXINT_COUNT then s else s.(ics := s.ics[NEXT_EVENT := s.ics[s.q[0]]])
  }

  /** One dispatch: the front event taken out, its handler, the next event shown. */
  ghost function Turn(s: State, c: RC.Counters, cfg: RC.Config, cmds: seq<Command>): World
    requires |s.ics| == PSXINT_COUNT + 1 && |s.keys| == PSXINT_COUNT && |c.rcnts| == 4 && AllAllowed(cmds)
    requires s.q != []
  {
    var w := Served(PopFront(s), c, cfg, s.q[0], cmds);
    World(ShowNext(w.s), w.c)
  }

  lemma QueuedFront(s: State, ev: nat)
    requires Good(s) && Queued(s, ev)
    ensures s.q != [] && s.q[0] < PSXINT_COUNT && |s.ics| == PSXINT_COUNT + 1 && |s.keys| == PSXINT_COUNT
  {
  }

  /** After any handler there is an event in the queue. */
  lemma ServedQueue(t: State, c': RC.Counters, r: State, ev: nat, cmds: seq<Command>)
    requires Good(t) && (ev != RCNT ==> Queued(t, RCNT)) && AllAllowed(cmds)
    requires exists c: RC.Counters, cfg: RC.Config :: |c.rcnts| == 4 && World(r, c') == Served(t, c, cfg, ev, cmds)
    ensures r.q != [] && r.q[0] < PSXINT_COUNT
  {
    var c: RC.Counters, cfg: RC.Config :| |c.rcnts| == 4 && World(r, c') == Served(t, c, cfg, ev, cmds);
    if ev == RCNT {
      GoodIsGoodExcept(t, RCNT);
      AddGood(t, RCNT, RC.ScanAll(c', t.cycle));
    } else if ev == RESET_CYCLE_VAL {
      RebaseGood(t);
      GoodIsGoodExcept(Rebase(t), ev);
      AddGood(Rebase(t), ev, RESET_CYCLE_VAL_AT);
    } else {
      PerformAllGood(t, cmds);
      QueuedFront(PerformAll(t, cmds), RCNT);
    }
  }

  /** Taking out another event leaves the two persistent ones queued. */
  lemma OtherPopped(s: State, c: RC.Counters, ev: nat)
    requires Dispatchable(s, c, ev) && ev != RCNT && ev != RESET_CYCLE_VAL
    ensures Core(PopFront(s), c) && DueNow(PopFront(s)) == DueNow(s) - 1
    ensures AllAfter(PopFront(s).q, s.keys, s.keys[ev]) && s.keys[ev].stamp < s.arrivals
  {
    PopKeeps(s);
  }

  /** The handler of a due front event keeps the core and makes progress. */
  lemma ServedHandled(s: State, c: RC.Counters, cfg: RC.Config, cmds: seq<Command>)
    requires s.q != [] && Dispatchable(s, c, s.q[0]) && AllAllowed(cmds)
    ensures var w := Served(PopFront(s), c, cfg, s.q[0], cmds); Handled(s, c, s.q[0], w.s, w.c)
  {
    var ev := s.q[0];
    if ev == RCNT {
      RcntDispatched(s, c, cfg);
      RC.PassCatchesUp(c, s.cycle, cfg);
      RC.ScanExact(RC.Pass(c, s.cycle, cfg), s.cycle);
    } else if ev == RESET_CYCLE_VAL {
      ResetDispatched(s, c);
    } else {
      OtherPopped(s, c, ev);
      PerformAllKeeps(PopFront(s), c, cmds, s.keys[ev]);
    }
  }

  // ---------------------------------------------------------------------------
  // Between branch tests
  // ---------------------------------------------------------------------------

  /** Counters the guest has written are watched from then on: with the event re-armed by `psxRcntSet` the core
      holds. */
  lemma RewrittenKeeps(s: State, c': RC.Counters)
    requires Good(s) && Queued(s, RESET_CYCLE_VAL) && Origin(s) && RC.CountersOk(c') && RC.NotLost(c', s.cycle)
    ensures var s' := AddEvent(s, RCNT, RC.ScanAll(c', s.cycle)); Core(s', c') && FrontShown(s') && IoShown(s')
  {
    RC.ScanExact(c', s.cycle);
    RC.NextDelayExact(c', s.cycle);
    GoodIsGoodExcept(s, RCNT);
    AddGood(s, RCNT, RC.NextDelay(c', s.cycle));
    AddKeeps(s, RCNT, RC.NextDelay(c', s.cycle), RESET_CYCLE_VAL);
  }

  /** The SPU update interval: a frame, halved as often as the frequency setting says. */
  function SpuInterval(cfg: RC.Config, freq: nat): (i: U32)
    ensures i < TWO31
  {
    if freq == 0 then RC.PSXCLK / (if cfg.pal then 50 else 60) else SpuInterval(cfg, freq - 1) / 2
  }

  function TwoTo(n: nat): (p: nat)
    ensures p > 0
  {
    if n == 0 then 1 else 2 * TwoTo(n - 1)
  }

  lemma Halved(t: nat, i: nat, h: nat, frame: nat)
    requires 2 * h <= i <= 2 * h + 1 && t * i <= frame < t * (i + 1)
    ensures 2 * t * h <= frame < 2 * t * (h + 1)
  {
    assert t * (2 * h) <= t * i && t * (i + 1) <= t * (2 * h + 2);
    assert t * (2 * h) == 2 * t * h && t * (2 * h + 2) == 2 * t * (h + 1);
  }

  /** There are 2^freq updates to a frame of a 50th or 60th of a second. */
  lemma {:induction false} SpuIntervalIs(cfg: RC.Config, freq: nat)
    ensures var frame := if cfg.pal then 677376 else 564480;
            TwoTo(freq) * SpuInterval(cfg, freq) <= frame < TwoTo(freq) * (SpuInterval(cfg, freq) + 1)
  {
    if freq == 0 {
      assert SpuInterval(cfg, 0) == if cfg.pal then 677376 else 564480;
      assert TwoTo(0) == 1;
    } else {
      var i, h := SpuInterval(cfg, freq - 1), SpuInterval(cfg, freq);
      assert h == i / 2 && TwoTo(freq) == 2 * TwoTo(freq - 1);
      hide SpuInterval, TwoTo;
      SpuIntervalIs(cfg, freq - 1);
      Halved(TwoTo(freq - 1), i, h, if cfg.pal then 677376 else 564480);
    }
  }

  function SpuScheduled(s: State, cfg: RC.Config, freq: nat): State
    requires |s.ics| == PSXINT_COUNT + 1 && |s.keys| == PSXINT_COUNT
  {
    if freq > 0 then AddEvent(s, SPU_UPDATE, SpuInterval(cfg, freq)) else s
  }

  /** The queue with the persistent events scheduled. */
  function Persistent(s: State, cfg: RC.Config, freq: nat): State
    requires |s.ics| == PSXINT_COUNT + 1 && |s.keys| == PSXINT_COUNT
  {
    SpuScheduled(AddEvent(Rebase(s), RESET_CYCLE_VAL, RESET_CYCLE_VAL_AT), cfg, freq)
  }

  lemma PersistentGood(s: State, cfg: RC.Config, freq: nat)
    requires Good(s)
    ensures var r := AddEvent(Rebase(s), RESET_CYCLE_VAL, RESET_CYCLE_VAL_AT); Good(r)
    ensures var r := Persistent(s, cfg, freq);
            && Good(r) && FrontShown(r) && r.cycle == 0 && r.clock == s.clock
            && Origin(r) && Queued(r, RESET_CYCLE_VAL) && (freq > 0 ==> Queued(r, SPU_UPDATE))
  {
    hide SortedByKey, Truthful, Proper, Without, Inserted, InsertAt;
    var r := AddEvent(Rebase(s), RESET_CYCLE_VAL, RESET_CYCLE_VAL_AT);
    RebaseGood(s);
    GoodIsGoodExcept(Rebase(s), RESET_CYCLE_VAL);
    AddGood(Rebase(s), RESET_CYCLE_VAL, RESET_CYCLE_VAL_AT);
    AddKeeps(Rebase(s), RESET_CYCLE_VAL, RESET_CYCLE_VAL_AT, SPU_UPDATE);
    if freq > 0 {
      GoodIsGoodExcept(r, SPU_UPDATE);
      AddGood(r, SPU_UPDATE, SpuInterval(cfg, freq));
      AddKeeps(r, SPU_UPDATE, SpuInterval(cfg, freq), RESET_CYCLE_VAL);
    }
  }

  /** Scheduling the persistent events leaves the others queued as they were. */
  lemma PersistentKeeps(s: State, cfg: RC.Config, freq: nat, ev: nat)
    requires Good(s) && ev < PSXINT_COUNT && ev != RESET_CYCLE_VAL && ev != SPU_UPDATE
    ensures var r := Persistent(s, cfg, freq); (Queued(r, ev) <==> Queued(s, ev)) && r.keys[ev] == s.keys[ev]
  {
    var r := AddEvent(Rebase(s), RESET_CYCLE_VAL, RESET_CYCLE_VAL_AT);
    PersistentGood(s, cfg, freq);
    RebaseGood(s);
    GoodIsGoodExcept(Rebase(s), RESET_CYCLE_VAL);
    AddKeeps(Rebase(s), RESET_CYCLE_VAL, RESET_CYCLE_VAL_AT, ev);
    if freq > 0 {
      GoodIsGoodExcept(r, SPU_UPDATE);
      AddKeeps(r, SPU_UPDATE, SpuInterval(cfg, freq), ev);
    }
  }

  /** The persistent events and then the root-counter event scheduled at time 0. */
  lemma StartsSound(s: State, c: RC.Counters, cfg: RC.Config, freq: nat)
    requires Good(s) && s.cycle == 0 && RC.CountersOk(c) && RC.NotLost(c, 0)
    ensures var s1, c1 := Persistent(s, cfg, freq), CountersSetBack(c, 0);
            var s2 := AddEvent(s1, RCNT, RC.ScanAll(c1, 0));
            && GoodExcept(s1, RCNT) && s1.cycle == 0
            && Core(s2, c1) && FrontShown(s2) && IoShown(s2) && (freq > 0 ==> Queued(s2, SPU_UPDATE)) && s2.cycle == 0
  {
    var s1, c1 := Persistent(s, cfg, freq), CountersSetBack(c, 0);
    PersistentGood(s, cfg, freq);
    SetBackKeeps(c, 0);
    RewrittenKeeps(s1, c1);
    GoodIsGoodExcept(s1, RCNT);
    AddKeeps(s1, RCNT, RC.ScanAll(c1, 0), SPU_UPDATE);
  }

  /** A rebuilt queue with the persistent events scheduled, and `io_cycle_counter` cleared. */
  lemma RebuiltPersistent(s: State, cfg: RC.Config, freq: nat, dues: seq<int>)
    requires Good(s) && |dues| == PSXINT_COUNT && forall ev :: 0 <= ev < PSXINT_COUNT ==> s.keys[ev].due == dues[ev]
    ensures var r := Persistent(s, cfg, freq).(io := 0);
            && Good(r) && FrontShown(r) && r.cycle == 0 && Queued(r, RESET_CYCLE_VAL)
            && (freq > 0 ==> Queued(r, SPU_UPDATE))
            && forall ev :: 0 <= ev < PSXINT_COUNT && ev != RESET_CYCLE_VAL && ev != SPU_UPDATE ==>
                 (Queued(r, ev) <==> ev in s.interrupt) && r.keys[ev].due == dues[ev]
  {
    PersistentGood(s, cfg, freq);
    forall ev | 0 <= ev < PSXINT_COUNT && ev != RESET_CYCLE_VAL && ev != SPU_UPDATE
      ensures var r := Persistent(s, cfg, freq).(io := 0);
              (Queued(r, ev) <==> ev in s.interrupt) && r.keys[ev].due == dues[ev]
    {
      ElementIn(s.q, ev);
      PersistentKeeps(s, cfg, freq, ev);
    }
  }

  /** In `d` cycles from now no queued event will be more than 2^31 cycles late, and no counter more than that old. */
  ghost predicate Attended(s: State, c: RC.Counters, d: nat) {
    && (forall i :: 0 <= i < |s.q| && s.q[i] < |s.keys| ==> s.clock + d <= s.keys[s.q[i]].due + TWO31)
    && (forall i :: 0 <= i < |c.rcnts| ==> RC.Elapsed(c.rcnts[i], s.cycle) + d <= TWO31)
  }

  /** Time passing keeps the core exactly as long as events and counters are attended to. */
  lemma AdvanceKeeps(s: State, c: RC.Counters, d: nat)
    requires Core(s, c) && forall i :: 0 <= i < 4 ==> RC.Elapsed(c.rcnts[i], s.cycle) + d < TWO32
    ensures Core(Advance(s, d), c) <==> Attended(s, c, d)
    ensures FrontShown(s) ==> FrontShown(Advance(s, d))
  {
    AdvanceGood(s, d);
    forall i | 0 <= i < 4
      ensures RC.Elapsed(c.rcnts[i], Wrap(s.cycle + d)) == RC.Elapsed(c.rcnts[i], s.cycle) + d
    {
      RC.LeftAdvances(c.rcnts[i], s.cycle, d);
    }
    RC.MinLeftAdvances(c.rcnts, 4, s.cycle, d);
  }

  /** Nothing is due, no counter is overdue, and `io_cycle_counter` is the earliest deadline. */
  ghost predicate Settled(s: State, c: RC.Counters) {
    && |s.keys| == PSXINT_COUNT && Proper(s.q) && s.q != [] && |s.ics| == PSXINT_COUNT + 1
    && (forall i :: 0 <= i < |s.q| ==> s.clock < s.keys[s.q[i]].due)
    && (forall i :: 0 < i < |s.q| ==> s.keys[s.q[0]].due <= s.keys[s.q[i]].due)
    && s.io == Deadline(s.ics[s.q[0]])
    && !RC.AnyOverdue(c, s.cycle)
  }

  /** After a branch test the CPU may run for two thousand million cycles before the next one. */
  lemma SettledAdvances(s: State, c: RC.Counters, d: nat)
    requires Core(s, c) && Settled(s, c) && d <= RESET_CYCLE_VAL_AT
    ensures Attended(s, c, d)
  {
    RC.NotLostFor(c, s.cycle, d);
  }

  // ---------------------------------------------------------------------------
  // The dispatch loop
  // ---------------------------------------------------------------------------

  /** A dispatched event: its number, when it was due, and its rank of arrival. */
  datatype Dispatched = Dispatched(ev: nat, key: Key)

  /** Dispatches in the order they were due, and in order of arrival among those due together. */
  ghost predicate InOrder(log: seq<Dispatched>) {
    forall i, j :: 0 <= i < j < |log| ==> Earlier(log[i].key, log[j].key)
  }

  /** The last dispatch came before everything still queued. */
  ghost predicate LogBefore(log: seq<Dispatched>, s: State) {
    log != [] ==>
      var last := log[|log| - 1].key;
      AllAfter(s.q, s.keys, last) && last.due <= s.clock && last.stamp < s.arrivals
  }

  lemma LogExtended(log: seq<Dispatched>, s: State)
    requires InOrder(log) && LogBefore(log, s) && s.q != [] && s.q[0] < |s.keys|
    ensures InOrder(log + [Dispatched(s.q[0], s.keys[s.q[0]])])
  {
    var e := Dispatched(s.q[0], s.keys[s.q[0]]);
    forall i | 0 <= i < |log| ensures Earlier(log[i].key, e.key) {
      var last := log[|log| - 1].key;
      assert Earlier(last, e.key);
      if i < |log| - 1 { assert Earlier(log[i].key, last); }
    }
  }

  /** Between dispatches the slot `psxBranchTest` reads shows the front event, everything dispatched so far was
      due and came in order, and before anything still queued. */
  ghost predicate Steady(s: State, c: RC.Counters, log: seq<Dispatched>) {
    && Core(s, c) && FrontShown(s) && InOrder(log) && LogBefore(log, s)
    && forall i :: 0 <= i < |log| ==> log[i].key.due <= s.clock
  }

  /** The next-event slot and `io_cycle_counter` belong to no queued event. */
  lemma ShownCore(s: State, s': State, c: RC.Counters, log: seq<Dispatched>)
    requires Core(s, c) && |s'.ics| == |s.ics| && s' == s.(ics := s'.ics, io := s'.io)
    requires forall i :: 0 <= i < PSXINT_COUNT ==> s'.ics[i] == s.ics[i]
    ensures Core(s', c) && DueNow(s') == DueNow(s) && (LogBefore(log, s) ==> LogBefore(log, s'))
  {
  }

  /** A dispatch of a due front event keeps the invariant of the loop, and makes progress. */
  lemma TurnSteady(s: State, c: RC.Counters, cfg: RC.Config, cmds: seq<Command>, log: seq<Dispatched>, e: Dispatched)
    requires Steady(s, c, log) && s.keys[s.q[0]].due <= s.clock && AllAllowed(cmds)
    requires e == Dispatched(s.q[0], s.keys[s.q[0]])
    ensures var w := Turn(s, c, cfg, cmds);
            Steady(w.s, w.c, log + [e]) && Progress(s, c, w.s, w.c) && w.s.clock == s.clock
  {
    hide Good, Served;
    ServedHandled(s, c, cfg, cmds);
    var w := Served(PopFront(s), c, cfg, s.q[0], cmds);
    QueuedFront(w.s, RCNT);
    LogExtended(log, s);
    ShownCore(w.s, ShowNext(w.s), w.c, log + [e]);
  }

  /** The branch test is exact about the front event. */
  lemma FrontTrue(s: State)
    requires Good(s) && FrontShown(s)
    ensures DueTest(s.ics[NEXT_EVENT], s.cycle) <==> s.keys[s.q[0]].due <= s.clock
  {
    TrueTime(s.ics[s.q[0]], s.cycle, s.keys[s.q[0]].due, s.clock);
  }

  /** What the loop reads and a dispatch needs. */
  ghost predicate ReadyToTest(s: State, c: RC.Counters) {
    && Good(s) && Queued(s, RCNT) && |c.rcnts| == 4 && s.q != [] && s.q[0] < PSXINT_COUNT
    && |s.keys| == PSXINT_COUNT && |s.ics| == PSXINT_COUNT + 1
    && (DueTest(s.ics[NEXT_EVENT], s.cycle) <==> s.keys[s.q[0]].due <= s.clock)
  }

  ghost predicate Schedules(cmds: seq<Command>, ev: nat, k: nat) {
    exists l :: k <= l < |cmds| && cmds[l].Schedule? && cmds[l].ev == ev
  }

  /** No handler ever schedules event `ev`. */
  ghost predicate NeverSchedules(script: Script, ev: nat) {
    forall n: nat, e: nat :: !Schedules(script(n, e), ev, 0)
  }

  /** Only events were dispatched that were on the agenda or are scheduled by some handler. */
  ghost predicate OnlyPlanned(agenda: map<nat, int>, log: seq<Dispatched>, script: Script) {
    forall i :: 0 <= i < |log| ==> log[i].ev in agenda || !NeverSchedules(script, log[i].ev)
  }

  ghost predicate StillUnplanned(agenda: map<nat, int>, agenda': map<nat, int>, script: Script) {
    && RCNT in agenda && RESET_CYCLE_VAL in agenda
    && forall ev :: ev in agenda' && ev !in agenda ==> !NeverSchedules(script, ev)
  }

  lemma NothingPlanned(s: State, c: RC.Counters, script: Script)
    requires Core(s, c)
    ensures StillUnplanned(Agenda(s), Agenda(s), script) && OnlyPlanned(Agenda(s), [], script)
  {
    ElementIn(s.q, RCNT);
    ElementIn(s.q, RESET_CYCLE_VAL);
  }

  /** An agenda after a handler's commands, or a device's, by the commands alone. */
  ghost function Ordered(agenda: map<nat, int>, cmds: seq<Command>, clock: int): map<nat, int> {
    if cmds == [] then agenda
    else
      var a := Ordered(agenda, cmds[..|cmds| - 1], clock);
      match cmds[|cmds| - 1]
      case Schedule(ev, after) => a[ev := clock + after]
      case Cancel(ev) => a - {ev}
  }

  lemma PerformAgenda(s: State, cmd: Command)
    requires Good(s) && Queued(s, RCNT) && Allowed(cmd)
    ensures Agenda(Perform(s, cmd)) ==
            match cmd
            case Schedule(ev, after) => Agenda(s)[ev := s.clock + after]
            case Cancel(ev) => Agenda(s) - {ev}
  {
    hide Agenda, AddEvent, RemoveEvent;
    match cmd {
      case Schedule(ev, after) =>
        GoodIsGoodExcept(s, ev);
        AddAgenda(s, ev, after);
      case Cancel(ev) =>
        PerformGood(s, cmd);
        RemoveAgenda(s, ev);
    }
  }

  lemma {:induction false} PerformAllAgenda(s: State, cmds: seq<Command>)
    requires Good(s) && Queued(s, RCNT) && AllAllowed(cmds)
    ensures Agenda(PerformAll(s, cmds)) == Ordered(Agenda(s), cmds, s.clock)
    decreases |cmds|
  {
    hide SortedByKey, Truthful, Proper, Agenda, Perform;
    if cmds != [] {
      var n := |cmds| - 1;
      PerformAllAgenda(s, cmds[..n]);
      PerformAllGood(s, cmds[..n]);
      PerformAgenda(PerformAll(s, cmds[..n]), cmds[n]);
    }
  }

  /** The agenda after a dispatch: the front event is off it, the persistent ones are on it anew, and the commands of
      any other handler are carried out. */
  ghost function TurnPlan(agenda: map<nat, int>, ev: nat, next: U32, cmds: seq<Command>, clock: int): map<nat, int> {
    if ev == RCNT then agenda[RCNT := clock + next]
    else if ev == RESET_CYCLE_VAL then agenda[RESET_CYCLE_VAL := clock + RESET_CYCLE_VAL_AT]
    else Ordered(agenda - {ev}, cmds, clock)
  }

  lemma ShowNextAgenda(s: State)
    requires |s.ics| == PSXINT_COUNT + 1
    ensures Agenda(ShowNext(s)) == Agenda(s)
  {
  }

  lemma RebaseReady(s: State)
    requires Good(s)
    ensures WellFormed(s) && GoodExcept(Rebase(s), RESET_CYCLE_VAL)
  {
    RebaseGood(s);
    GoodIsGoodExcept(Rebase(s), RESET_CYCLE_VAL);
  }

  lemma Replanned(agenda: map<nat, int>, ev: nat, due: int)
    ensures (agenda - {ev})[ev := due] == agenda[ev := due]
  {
  }

  lemma TurnAgenda(s: State, c: RC.Counters, cfg: RC.Config, cmds: seq<Command>)
    requires Good(s) && s.q != [] && Queued(s, RCNT) && |c.rcnts| == 4 && AllAllowed(cmds)
    ensures var w := Turn(s, c, cfg, cmds);
            Agenda(w.s) == TurnPlan(Agenda(s), s.q[0], RC.ScanAll(w.c, s.cycle), cmds, s.clock)
  {
    hide Agenda, SortedByKey, Truthful, Proper, Without, Inserted, InsertAt, RC.Pass, RC.ScanAll;
    var ev, t := s.q[0], PopFront(s);
    PopAgenda(s);
    PopQueued(s);
    if ev == RCNT {
      GoodIsGoodExcept(t, RCNT);
      AddAgenda(t, RCNT, RC.ScanAll(RC.Pass(c, s.cycle, cfg), s.cycle));
      Replanned(Agenda(s), RCNT, s.clock + RC.ScanAll(RC.Pass(c, s.cycle, cfg), s.cycle));
    } else if ev == RESET_CYCLE_VAL {
      RebaseReady(t);
      ClockAgenda(t, 0);
      AddAgenda(Rebase(t), RESET_CYCLE_VAL, RESET_CYCLE_VAL_AT);
      Replanned(Agenda(s), RESET_CYCLE_VAL, s.clock + RESET_CYCLE_VAL_AT);
    } else {
      PerformAllGood(t, cmds);
      PerformAllAgenda(t, cmds);
    }
    ShowNextAgenda(Served(t, c, cfg, ev, cmds).s);
  }

  lemma SilentPrefix(cmds: seq<Command>, ev: nat, k: nat)
    requires !Schedules(cmds, ev, k) && k < |cmds|
    ensures var n := |cmds| - 1; !Schedules(cmds[..n], ev, k) && !(cmds[n].Schedule? && cmds[n].ev == ev)
  {
    var n := |cmds| - 1;
    forall l | k <= l < n ensures !(cmds[..n][l].Schedule? && cmds[..n][l].ev == ev) {
      assert !(cmds[l].Schedule? && cmds[l].ev == ev);
    }
  }

  lemma {:induction false} OrderedWithout(agenda: map<nat, int>, cmds: seq<Command>, clock: int, ev: nat)
    requires ev !in agenda && !Schedules(cmds, ev, 0)
    ensures ev !in Ordered(agenda, cmds, clock)
    decreases |cmds|
  {
    if cmds != [] {
      var n := |cmds| - 1;
      SilentPrefix(cmds, ev, 0);
      OrderedWithout(agenda, cmds[..n], clock, ev);
    }
  }

  /** A dispatch takes a planned event, and plans only what its handler schedules. */
  lemma TurnPlanned(s: State, c: RC.Counters, cfg: RC.Config, cmds: seq<Command>, log: seq<Dispatched>,
                    agenda: map<nat, int>, script: Script, n: nat)
    requires ReadyToTest(s, c) && AllAllowed(cmds) && cmds == script(n, s.q[0])
    requires OnlyPlanned(agenda, log, script) && StillUnplanned(agenda, Agenda(s), script)
    ensures OnlyPlanned(agenda, log + [Dispatched(s.q[0], s.keys[s.q[0]])], script)
    ensures StillUnplanned(agenda, Agenda(Turn(s, c, cfg, cmds).s), script)
  {
    hide Good, Turn, Agenda, Schedules, RC.ScanAll;
    PopAgenda(s);
    TurnAgenda(s, c, cfg, cmds);
    forall ev | ev in Agenda(Turn(s, c, cfg, cmds).s) && ev !in agenda ensures !NeverSchedules(script, ev) {
      if NeverSchedules(script, ev) {
        assert !Schedules(script(n, s.q[0]), ev, 0);
        OrderedWithout(Agenda(s) - {s.q[0]}, cmds, s.clock, ev);
      }
    }
  }

  lemma SteadyStart(s: State, c: RC.Counters)
    requires Core(s, c) && FrontShown(s)
    ensures Steady(s, c, [])
  {
  }

  lemma SteadyFront(s: State, c: RC.Counters, log: seq<Dispatched>)
    requires Steady(s, c, log)
    ensures ReadyToTest(s, c)
  {
    FrontTrue(s);
  }

  /** When the front event is not due, no event is, and no counter is overdue. */
  lemma NothingDue(s: State, c: RC.Counters, log: seq<Dispatched>, s': State)
    requires Steady(s, c, log) && s.clock < s.keys[s.q[0]].due
    requires s' == s.(io := Deadline(s.ics[NEXT_EVENT]))
    ensures Steady(s', c, log) && Settled(s', c)
  {
    ShownCore(s, s', c, log);
    forall i | 0 < i < |s.q| ensures s.clock < s.keys[s.q[0]].due <= s.keys[s.q[i]].due {
      assert Earlier(s.keys[s.q[0]], s.keys[s.q[i]]);
    }
    var i :| 0 <= i < |s.q| && s.q[i] == RCNT;
    RC.NextDelayExact(c, s.cycle);
  }

  /** As long as the events are attended to, the cycle counter does not wrap: the rebase is one of them. */
  lemma NeverWraps(s: State, c: RC.Counters, d: nat)
    requires Core(s, c) && Attended(s, c, d)
    ensures s.cycle + d < TWO32
  {
  }

  /** Between rebases `io_cycle_counter` and the cycle counter can be compared as they are (what
      src/psxevents.cpp:140-143 promises and src/recompiler/mips/recompiler.cpp:707 does): after a branch test the
      counter reaches it exactly when the first event is due. */
  lemma IoExact(s: State, c: RC.Counters, d: nat)
    requires Core(s, c) && Settled(s, c) && s.cycle + d < TWO32
    ensures s.cycle + d >= s.io <==> s.keys[s.q[0]].due <= s.clock + d
  {
    var i :| 0 <= i < |s.q| && s.q[i] == RESET_CYCLE_VAL;
    var front, key := s.ics[s.q[0]], s.keys[s.q[0]];
    assert InTime(front, s.cycle, key.due, s.clock) && key.due <= s.keys[RESET_CYCLE_VAL].due;
    var k := WrapIs(s.cycle - front.sCycle);
    WrapCongruent(front.sCycle + front.cycle, s.cycle + key.due - s.clock, -k);
  }

  // ---------------------------------------------------------------------------
  // Runs of the machine
  // ---------------------------------------------------------------------------

  /** What happens to the machine: an event dispatched, the end of a branch test, time passing, a guest write to a
      device that schedules and cancels events, or a guest write to a counter. */
  datatype MachineStep =
    | Dispatching(cmds: seq<Command>)
    | ShowingIo
    | Elapsing(d: nat)
    | WritingDevice(cmds: seq<Command>)
    | WritingCount(index: nat, value: nat)
    | WritingMode(index: nat, mode: set<nat>)
    | WritingTarget(index: nat, value: nat)

  /** Events are dispatched only when due, time passes only as long as they are attended to, and counter 2 is not
      disabled. */
  ghost predicate Can(w: World, step: MachineStep)
    requires |w.s.ics| == PSXINT_COUNT + 1
  {
    match step
    case Dispatching(cmds) => AllAllowed(cmds) && w.s.q != [] && DueTest(w.s.ics[NEXT_EVENT], w.s.cycle)
    case ShowingIo => true
    case Elapsing(d) => Attended(w.s, w.c, d)
    case WritingDevice(cmds) => AllAllowed(cmds)
    case WritingMode(index, mode) => index < 3 && !(index == 2 && RC.MODE_RC2_DISABLE in mode)
    case WritingCount(index, _) => index < 3
    case WritingTarget(index, _) => index < 3
  }

  /** A machine between two steps. */
  ghost predicate Alive(w: World) {
    Core(w.s, w.c) && FrontShown(w.s)
  }
  /** A counter with its target written, the count staying as it reads. */
  function Retargeted(r: RC.Rcnt, now: U32, value: nat): RC.Rcnt {
    RC.Wcount(r.(target := value % 0x10000), now, RC.Count(r, now))
  }

  lemma RetargetedRuns(r: RC.Rcnt, now: U32, value: nat)
    requires 1 <= r.rate <= RC.MAX_RATE
    ensures var s := Retargeted(r, now, value);
            RC.Running(s) && RC.Elapsed(s, now) <= TWO31 && RC.Count(s, now) == RC.Count(r, now)
  {
    RC.WtargetKeepsCount(r, now, value % 0x10000);
    RC.WrittenCount(r.(target := value % 0x10000), now, RC.Count(r, now));
  }

  /** Counter `index` as a step leaves it. */
  function Rewritten(r: RC.Rcnt, now: U32, step: MachineStep, cfg: RC.Config): RC.Rcnt {
    match step
    case WritingCount(_, value) => RC.Wcount(r, now, value)
    case WritingMode(index, mode) => RC.Restarted(r, now, index, mode, cfg)
    case WritingTarget(_, value) => Retargeted(r, now, value)
    case _ => r
  }

  /** The event re-armed by `psxRcntSet`, with counter `index` now `r`. */
  function CounterWritten(w: World, index: nat, r: RC.Rcnt): World
    requires |w.s.ics| == PSXINT_COUNT + 1 && |w.s.keys| == PSXINT_COUNT && index < |w.c.rcnts|
  {
    var c := w.c.(rcnts := w.c.rcnts[index := r]);
    World(AddEvent(w.s, RCNT, RC.ScanAll(c, w.s.cycle)), c)
  }

  ghost function After(w: World, step: MachineStep, cfg: RC.Config): World
    requires |w.s.ics| == PSXINT_COUNT + 1 && |w.s.keys| == PSXINT_COUNT && |w.c.rcnts| == 4 && Can(w, step)
  {
    match step
    case Dispatching(cmds) => Turn(w.s, w.c, cfg, cmds)
    case ShowingIo => World(w.s.(io := Deadline(w.s.ics[NEXT_EVENT])), w.c)
    case Elapsing(d) => World(Advance(w.s, d), w.c)
    case WritingDevice(cmds) => World(PerformAll(w.s, cmds), w.c)
    case _ =>
      CounterWritten(w, step.index, Rewritten(w.c.rcnts[step.index], w.s.cycle, step, cfg))
  }

  /** Whatever a device write schedules or cancels, the front event is shown. */
  lemma PerformShown(s: State, cmd: Command)
    requires Good(s) && Queued(s, RCNT) && FrontShown(s) && Allowed(cmd)
    ensures FrontShown(Perform(s, cmd))
  {
    match cmd {
      case Schedule(ev, after) =>
        GoodIsGoodExcept(s, ev);
        AddGood(s, ev, after);
      case Cancel(ev) =>
        PerformGood(s, cmd);
        if ev in s.interrupt { RemoveGood(s, ev); }
    }
  }

  /** A time before everything queued. */
  lemma LongAgo(s: State) returns (floor: Key)
    requires Good(s) && Queued(s, RCNT)
    ensures AllAfter(s.q, s.keys, floor) && floor.due <= s.clock && floor.stamp < s.arrivals
  {
    floor := Key(s.clock - TWO31 - 1, 0);
    var i :| 0 <= i < |s.q| && s.q[i] == RCNT;
    assert s.keys[s.q[i]].stamp < s.arrivals;
    forall i | 0 <= i < |s.q| && s.q[i] < |s.keys| ensures Earlier(floor, s.keys[s.q[i]]) {
      assert InTime(s.ics[s.q[i]], s.cycle, s.keys[s.q[i]].due, s.clock);
    }
  }

  /** Guest writes to devices between branch tests keep the machine alive. */
  lemma {:induction false} DeviceAlive(s: State, c: RC.Counters, cmds: seq<Command>)
    requires Core(s, c) && FrontShown(s) && AllAllowed(cmds)
    ensures var r := PerformAll(s, cmds); Core(r, c) && FrontShown(r) && r.cycle == s.cycle && r.clock == s.clock
    decreases |cmds|
  {
    if cmds != [] {
      var n := |cmds| - 1;
      DeviceAlive(s, c, cmds[..n]);
      var r := PerformAll(s, cmds[..n]);
      var floor := LongAgo(r);
      PerformKeeps(r, c, cmds[n], floor);
      PerformShown(r, cmds[n]);
    }
  }

  lemma RewrittenRuns(w: World, step: MachineStep, cfg: RC.Config)
    requires Alive(w) && Can(w, step) && (step.WritingCount? || step.WritingMode? || step.WritingTarget?)
    ensures var r := Rewritten(w.c.rcnts[step.index], w.s.cycle, step, cfg);
            RC.Running(r) && RC.Elapsed(r, w.s.cycle) <= TWO31
  {
    var r, now := w.c.rcnts[step.index], w.s.cycle;
    match step {
      case WritingCount(_, value) => RC.WrittenCount(r, now, value);
      case WritingMode(index, mode) => RC.RestartedRuns(r, now, index, mode, cfg);
      case WritingTarget(_, value) => RetargetedRuns(r, now, value);
    }
  }

  /** Every step keeps the machine alive. */
  lemma StepAlive(w: World, step: MachineStep, cfg: RC.Config)
    requires Alive(w) && Can(w, step)
    ensures Alive(After(w, step, cfg))
  {
    match step {
      case Dispatching(cmds) =>
        FrontTrue(w.s);
        TurnSteady(w.s, w.c, cfg, cmds, [], Dispatched(w.s.q[0], w.s.keys[w.s.q[0]]));
      case ShowingIo =>
        ShownCore(w.s, After(w, step, cfg).s, w.c, []);
      case Elapsing(d) =>
        AdvanceKeeps(w.s, w.c, d);
      case WritingDevice(cmds) =>
        DeviceAlive(w.s, w.c, cmds);
      case _ =>
        RewrittenRuns(w, step, cfg);
        var r := Rewritten(w.c.rcnts[step.index], w.s.cycle, step, cfg);
        RC.RewrittenOk(w.c, w.s.cycle, step.index, r);
        RewrittenKeeps(w.s, CounterWritten(w, step.index, r).c);
    }
  }

  /** The true time the base counter will be due. */
  ghost function BaseDeadline(w: World): int
    requires |w.c.rcnts| == 4
  {
    w.s.clock + RC.Left(w.c.rcnts[3], w.s.cycle)
  }

  /** The hsyncs a step counts off, in 1/4096 cycles. */
  ghost function StepTime(w: World, step: MachineStep, cfg: RC.Config): nat
    requires |w.c.rcnts| == 4
  {
    if step.Dispatching? && w.s.q != [] && w.s.q[0] == RCNT then RC.PassTime(w.c, w.s.cycle, cfg) else 0
  }

  lemma TurnClocks(s: State, c: RC.Counters, cfg: RC.Config, cmds: seq<Command>)
    requires Good(s) && s.q != [] && Queued(s, RCNT) && |c.rcnts| == 4 && AllAllowed(cmds)
    ensures var w, ev := Turn(s, c, cfg, cmds), s.q[0];
            && w.s.clock == s.clock && w.s.cycle == (if ev == RESET_CYCLE_VAL then 0 else s.cycle)
            && w.c == if ev == RCNT then RC.Pass(c, s.cycle, cfg)
                      else if ev == RESET_CYCLE_VAL then CountersSetBack(c, s.cycle) else c
  {
    hide SortedByKey, Truthful, RC.Pass;
    if s.q[0] != RCNT && s.q[0] != RESET_CYCLE_VAL {
      PopQueued(s);
      PerformAllGood(PopFront(s), cmds);
    }
  }

  lemma TurnPaced(w: World, cfg: RC.Config, cmds: seq<Command>)
    requires Alive(w) && Can(w, Dispatching(cmds))
    ensures var w' := Turn(w.s, w.c, cfg, cmds);
            && |w'.c.rcnts| == 4
            && 0x1000 * (BaseDeadline(w') - BaseDeadline(w)) + w'.c.baseCycle
               == w.c.baseCycle + StepTime(w, Dispatching(cmds), cfg)
  {
    hide Turn, SortedByKey, Truthful, RC.Pass, RC.PassTime;
    TurnClocks(w.s, w.c, cfg, cmds);
    if w.s.q[0] == RCNT {
      RC.PassKeepsPace(w.c, w.s.cycle, cfg);
    } else if w.s.q[0] == RESET_CYCLE_VAL {
      RC.RebaseKeepsElapsed(w.c.rcnts[3], w.s.cycle);
    }
  }

  /** Only dispatches of the root-counter event move the base counter's deadline, and by just the hsyncs stepped. */
  lemma StepPaced(w: World, step: MachineStep, cfg: RC.Config)
    requires Alive(w) && Can(w, step)
    ensures var w' := After(w, step, cfg);
            && |w'.c.rcnts| == 4
            && 0x1000 * (BaseDeadline(w') - BaseDeadline(w)) + w'.c.baseCycle == w.c.baseCycle + StepTime(w, step, cfg)
  {
    match step {
      case Dispatching(cmds) =>
        TurnPaced(w, cfg, cmds);
      case ShowingIo =>
      case Elapsing(d) =>
        RC.LeftAdvances(w.c.rcnts[3], w.s.cycle, d);
      case WritingDevice(cmds) =>
        DeviceAlive(w.s, w.c, cmds);
      case _ =>
    }
  }

  /** The steps of a machine, the configuration free to change between them. */
  ghost predicate MachineRun(ws: seq<World>, steps: seq<MachineStep>, cfgs: seq<RC.Config>) {
    && |ws| == |steps| + 1 == |cfgs| + 1 && Alive(ws[0])
    && forall i :: 0 <= i < |steps| ==>
         && |ws[i].s.ics| == PSXINT_COUNT + 1 && |ws[i].s.keys| == PSXINT_COUNT && |ws[i].c.rcnts| == 4
         && Can(ws[i], steps[i]) && ws[i + 1] == After(ws[i], steps[i], cfgs[i])
  }

  ghost function RunTime(ws: seq<World>, steps: seq<MachineStep>, cfgs: seq<RC.Config>): nat
    requires |ws| == |steps| + 1 == |cfgs| + 1 && forall i :: 0 <= i < |steps| ==> |ws[i].c.rcnts| == 4
    decreases |steps|
  {
    if steps == [] then 0
    else
      var n := |steps| - 1;
      RunTime(ws[..n + 1], steps[..n], cfgs[..n]) + StepTime(ws[n], steps[n], cfgs[n])
  }

  /** Over every run, dispatches, guest writes, rebases and passing time in any order: queue and counters stay sound,
      what the branch test reads is the front event, the base counter's deadline moves by exactly the hsyncs counted
      off, and vblank comes once a frame. */
  lemma {:induction false} MachineNeverDrifts(ws: seq<World>, steps: seq<MachineStep>, cfgs: seq<RC.Config>)
    requires MachineRun(ws, steps, cfgs)
    ensures var w := ws[|steps|];
            && Alive(w)
            && 0x1000 * (BaseDeadline(w) - BaseDeadline(ws[0])) + w.c.baseCycle
               == ws[0].c.baseCycle + RunTime(ws, steps, cfgs)
            && w.c.vblanks == w.c.frames + if w.c.hSyncCount < RC.V_BLANK_START then 0 else 1
    decreases |steps|
  {
    if steps != [] {
      var n := |steps| - 1;
      assert MachineRun(ws[..n + 1], steps[..n], cfgs[..n]);
      MachineNeverDrifts(ws[..n + 1], steps[..n], cfgs[..n]);
      StepAlive(ws[n], steps[n], cfgs[n]);
      StepPaced(ws[n], steps[n], cfgs[n]);
    }
  }

  // ---------------------------------------------------------------------------
  // The agenda of the machine
  // ---------------------------------------------------------------------------

  /** The agenda after a step of the machine: guest writes to counters re-arm the root-counter event. */
  ghost function MachinePlan(w: World, step: MachineStep, c': RC.Counters): map<nat, int>
    requires w.s.q != []
  {
    match step
    case Dispatching(cmds) => TurnPlan(Agenda(w.s), w.s.q[0], RC.ScanAll(c', w.s.cycle), cmds, w.s.clock)
    case ShowingIo => Agenda(w.s)
    case Elapsing(_) => Agenda(w.s)
    case WritingDevice(cmds) => Ordered(Agenda(w.s), cmds, w.s.clock)
    case _ => Agenda(w.s)[RCNT := w.s.clock + RC.ScanAll(c', w.s.cycle)]
  }

  lemma SameAgenda(s: State, s': State)
    requires s'.q == s.q && s'.keys == s.keys
    ensures Agenda(s') == Agenda(s)
  {
  }

  lemma StepKeepsPlan(w: World, step: MachineStep, cfg: RC.Config)
    requires Alive(w) && Can(w, step)
    ensures w.s.q != [] && |w.s.ics| == PSXINT_COUNT + 1
    ensures var w' := After(w, step, cfg); Agenda(w'.s) == MachinePlan(w, step, w'.c)
  {
    hide Agenda, AddEvent, SortedByKey, Truthful, RC.ScanAll, TurnPlan, Turn;
    match step {
      case Dispatching(cmds) => TurnAgenda(w.s, w.c, cfg, cmds);
      case ShowingIo => SameAgenda(w.s, After(w, step, cfg).s);
      case Elapsing(d) => ClockAgenda(w.s, d);
      case WritingDevice(cmds) => PerformAllAgenda(w.s, cmds);
      case _ =>
        GoodIsGoodExcept(w.s, RCNT);
        AddAgenda(w.s, RCNT, RC.ScanAll(After(w, step, cfg).c, w.s.cycle));
    }
  }

  lemma {:induction false} OrderedCancelled(agenda: map<nat, int>, cmds: seq<Command>, clock: int, ev: nat, k: nat)
    requires k < |cmds| && cmds[k] == Cancel(ev) && !Schedules(cmds, ev, k)
    ensures ev !in Ordered(agenda, cmds, clock)
    decreases |cmds|
  {
    var n := |cmds| - 1;
    if k < n {
      SilentPrefix(cmds, ev, k);
      OrderedCancelled(agenda, cmds[..n], clock, ev, k);
    }
  }

  /** The commands a step carries out; a dispatch of a persistent event carries out none. */
  function Commands(w: World, step: MachineStep): seq<Command> {
    match step
    case WritingDevice(cmds) => cmds
    case Dispatching(cmds) => if w.s.q == [] || w.s.q[0] == RCNT || w.s.q[0] == RESET_CYCLE_VAL then [] else cmds
    case _ => []
  }

  lemma StepSilent(w: World, step: MachineStep, cfg: RC.Config, ev: nat)
    requires Alive(w) && Can(w, step) && ev != RCNT && ev != RESET_CYCLE_VAL
    requires var cmds := Commands(w, step);
             (ev !in Agenda(w.s) && !Schedules(cmds, ev, 0))
             || exists k :: 0 <= k < |cmds| && cmds[k] == Cancel(ev) && !Schedules(cmds, ev, k)
    ensures ev !in Agenda(After(w, step, cfg).s)
  {
    hide Agenda, Core, After, RC.ScanAll;
    StepKeepsPlan(w, step, cfg);
    var cmds := Commands(w, step);
    var a := if step.Dispatching? then Agenda(w.s) - {w.s.q[0]} else Agenda(w.s);
    if k :| 0 <= k < |cmds| && cmds[k] == Cancel(ev) && !Schedules(cmds, ev, k) {
      OrderedCancelled(a, cmds, w.s.clock, ev, k);
    } else {
      OrderedWithout(a, cmds, w.s.clock, ev);
    }
  }

  /** What is dispatched was on the agenda. */
  lemma DispatchPlanned(w: World)
    requires Alive(w)
    ensures w.s.q != [] && w.s.q[0] in Agenda(w.s)
  {
    PopAgenda(w.s);
  }

  /** One step of a run, and the states before and after it. */
  lemma RunStep(ws: seq<World>, steps: seq<MachineStep>, cfgs: seq<RC.Config>, n: nat)
    requires MachineRun(ws, steps, cfgs) && n < |ws| - 1
    ensures |ws| == |steps| + 1 == |cfgs| + 1
    ensures |ws[n].s.ics| == PSXINT_COUNT + 1 && |ws[n].s.keys| == PSXINT_COUNT && |ws[n].c.rcnts| == 4
    ensures Alive(ws[n]) && Can(ws[n], steps[n]) && ws[n + 1] == After(ws[n], steps[n], cfgs[n])
  {
    hide Alive, Can, After;
    assert MachineRun(ws[..n + 1], steps[..n], cfgs[..n]);
    MachineNeverDrifts(ws[..n + 1], steps[..n], cfgs[..n]);
  }

  /** An event cancelled by a guest write or by a handler, and not scheduled again, is never dispatched, over every run
      of the machine. */
  lemma {:induction false} CancelledNeverDispatched(ws: seq<World>, steps: seq<MachineStep>, cfgs: seq<RC.Config>,
                                                    ev: nat, i: nat, k: nat, j: nat)
    requires MachineRun(ws, steps, cfgs) && i < |steps| && i < j < |ws| && ev != RCNT && ev != RESET_CYCLE_VAL
    requires var cmds := Commands(ws[i], steps[i]);
             k < |cmds| && cmds[k] == Cancel(ev) && !Schedules(cmds, ev, k)
    requires forall l :: i < l < |steps| ==> !Schedules(Commands(ws[l], steps[l]), ev, 0)
    ensures ev !in Agenda(ws[j].s) && ws[j].s.q != [] && ws[j].s.q[0] != ev
    decreases j
  {
    hide MachineRun, Alive, Can, After, Agenda, Schedules, Commands;
    RunStep(ws, steps, cfgs, j - 1);
    if i < j - 1 { CancelledNeverDispatched(ws, steps, cfgs, ev, i, k, j - 1); }
    StepSilent(ws[j - 1], steps[j - 1], cfgs[j - 1], ev);
    StepAlive(ws[j - 1], steps[j - 1], cfgs[j - 1]);
    DispatchPlanned(ws[j]);
  }

  // ---------------------------------------------------------------------------
  // A disabled counter
  // ---------------------------------------------------------------------------

  /** The root-counter event is due, and counter 2 is disabled and its countdown still negative. */
  ghost predicate Stuck(s: State, c: RC.Counters) {
    && Good(s) && Queued(s, RCNT) && s.keys[RCNT].due <= s.clock
    && |c.rcnts| == 4 && RC.Disabled(c.rcnts[2]) && RC.Elapsed(c.rcnts[2], s.cycle) < TWO31 - 0x10000
  }

  /** When the root-counter event is due, so is the front event, by true time and by the branch test. */
  lemma StuckFront(s: State, c: RC.Counters)
    requires Stuck(s, c) && FrontShown(s)
    ensures s.keys[s.q[0]].due <= s.clock && DueTest(s.ics[NEXT_EVENT], s.cycle)
  {
    var i :| 0 <= i < |s.q| && s.q[i] == RCNT;
    if i > 0 { assert Earlier(s.keys[s.q[0]], s.keys[s.q[i]]); }
    FrontTrue(s);
  }

  /** Scheduling from counters of which the second is disabled is for now. */
  lemma StuckScheduled(s: State, c: RC.Counters)
    requires GoodExcept(s, RCNT) && |c.rcnts| == 4
    requires RC.Disabled(c.rcnts[2]) && RC.Elapsed(c.rcnts[2], s.cycle) < TWO31 - 0x10000
    ensures var s' := AddEvent(s, RCNT, RC.ScanAll(c, s.cycle)); Stuck(s', c) && FrontShown(s') && IoShown(s')
  {
    RC.DisabledScan(c, s.cycle);
    AddGood(s, RCNT, 0);
    AddKeeps(s, RCNT, 0, PSXINT_COUNT);
  }

  /** A machine sound but for counter 2, which is disabled. */
  ghost predicate Suspended(s: State, c: RC.Counters) {
    && Stuck(s, c) && Queued(s, RESET_CYCLE_VAL) && Origin(s)
    && RC.BaseOk(c) && RC.Running(c.rcnts[0]) && RC.Running(c.rcnts[1]) && RC.NotLost(c, s.cycle)
    && c.rcnts[2].target < 0x10000
  }

  /** A counter of a sound or suspended machine that the guest may write, and what it may become. */
  ghost predicate MayBecome(s: State, c: RC.Counters, index: nat, r: RC.Rcnt) {
    && (Core(s, c) || Suspended(s, c)) && index < 3
    && if RC.Disabled(r) then index == 2 && RC.Elapsed(r, s.cycle) == 0 && r.target < 0x10000
       else RC.Running(r) && RC.Elapsed(r, s.cycle) <= TWO31
  }

  /** With the root-counter event re-armed the machine is sound exactly if counter 2 is not disabled any more. */
  lemma WrittenSound(s: State, c: RC.Counters, index: nat, r: RC.Rcnt)
    requires MayBecome(s, c, index, r)
    ensures var w := CounterWritten(World(s, c), index, r);
            && FrontShown(w.s) && IoShown(w.s)
            && if RC.Disabled(w.c.rcnts[2]) then Suspended(w.s, w.c) else Core(w.s, w.c)
  {
    hide SortedByKey, Truthful, Proper, Inserted, Without, InsertAt;
    var c' := c.(rcnts := c.rcnts[index := r]);
    if RC.Disabled(c'.rcnts[2]) {
      GoodIsGoodExcept(s, RCNT);
      StuckScheduled(s, c');
      AddKeeps(s, RCNT, RC.ScanAll(c', s.cycle), RESET_CYCLE_VAL);
    } else {
      RewrittenKeeps(s, c');
    }
  }

  /** A write finds the queue fit for re-arming the event. */
  lemma WriteReady(s: State, c: RC.Counters, index: nat)
    requires (Core(s, c) || Suspended(s, c)) && index < 3
    ensures Good(s) && GoodExcept(s, RCNT) && |c.rcnts| == 4
    ensures Core(s, c) || index != 2 ==> RC.Running(c.rcnts[index])
    ensures c.rcnts[index].target < 0x10000
  {
    GoodIsGoodExcept(s, RCNT);
  }

  /** A count written reads back, and the machine is as sound as it was. */
  lemma CountWritten(s: State, c: RC.Counters, index: nat, value: nat)
    requires index < 3 && (Core(s, c) || (Suspended(s, c) && index != 2))
    ensures Good(s) && GoodExcept(s, RCNT) && |c.rcnts| == 4
    ensures var r := RC.Wcount(c.rcnts[index], s.cycle, value);
            var w := CounterWritten(World(s, c), index, r);
            && RC.Count(r, s.cycle) == value % 0x10000 && FrontShown(w.s) && IoShown(w.s)
            && if RC.Disabled(w.c.rcnts[2]) then Suspended(w.s, w.c) else Core(w.s, w.c)
  {
    hide Good, GoodExcept, Core, Suspended, CounterWritten, RC.Wcount, RC.Count;
    WriteReady(s, c, index);
    RC.WrittenCount(c.rcnts[index], s.cycle, value);
    WrittenSound(s, c, index, RC.Wcount(c.rcnts[index], s.cycle, value));
  }

  /** A target written leaves the count as it reads. */
  lemma TargetWritten(s: State, c: RC.Counters, index: nat, value: nat)
    requires index < 3 && (Core(s, c) || (Suspended(s, c) && index != 2))
    ensures Good(s) && GoodExcept(s, RCNT) && |c.rcnts| == 4
    ensures var r := Retargeted(c.rcnts[index], s.cycle, value);
            var w := CounterWritten(World(s, c), index, r);
            && RC.Count(r, s.cycle) == RC.Count(c.rcnts[index], s.cycle) && r.target == value % 0x10000
            && FrontShown(w.s) && IoShown(w.s)
            && if RC.Disabled(w.c.rcnts[2]) then Suspended(w.s, w.c) else Core(w.s, w.c)
  {
    hide Good, GoodExcept, Core, Suspended, CounterWritten, RC.Count;
    WriteReady(s, c, index);
    RetargetedRuns(c.rcnts[index], s.cycle, value);
    WrittenSound(s, c, index, Retargeted(c.rcnts[index], s.cycle, value));
  }

  /** A mode write restarts the counter; the machine is then sound unless counter 2 is disabled, by this write or
      still. */
  lemma ModeWritten(s: State, c: RC.Counters, cfg: RC.Config, index: nat, value: set<nat>)
    requires (Core(s, c) || Suspended(s, c)) && index < 3
    ensures Good(s) && GoodExcept(s, RCNT) && |c.rcnts| == 4
    ensures var r := RC.Restarted(c.rcnts[index], s.cycle, index, value, cfg);
            var w := CounterWritten(World(s, c), index, r);
            && RC.Count(r, s.cycle) == 0 && r.mode == value && !r.irqState
            && FrontShown(w.s) && IoShown(w.s)
            && if (if index == 2 then RC.MODE_RC2_DISABLE in value else RC.Disabled(c.rcnts[2]))
               then Suspended(w.s, w.c) else Core(w.s, w.c)
  {
    hide SortedByKey, Truthful, Proper, Core, Suspended, AddEvent;
    WriteReady(s, c, index);
    var r := RC.Restarted(c.rcnts[index], s.cycle, index, value, cfg);
    if index == 2 && RC.MODE_RC2_DISABLE in value {
      RC.DisabledRestart(c.rcnts[2], s.cycle, value, cfg);
    } else {
      RC.RestartedRuns(c.rcnts[index], s.cycle, index, value, cfg);
    }
    WrittenSound(s, c, index, r);
  }

  /** Whatever handler runs, the root-counter event is due afterwards. */
  lemma StuckServed(s: State, c: RC.Counters, cfg: RC.Config, cmds: seq<Command>)
    requires Stuck(s, c) && s.q != [] && AllAllowed(cmds)
    ensures var w := Served(PopFront(s), c, cfg, s.q[0], cmds); Stuck(w.s, w.c)
  {
    hide SortedByKey, Truthful, Proper, Inserted, Without, InsertAt, RC.Pass;
    var ev, t := s.q[0], PopFront(s);
    PopQueued(s);
    if ev == RCNT {
      RC.DisabledScan(c, s.cycle);
      RC.DisabledPass(c, s.cycle, cfg);
      GoodIsGoodExcept(t, RCNT);
      StuckScheduled(t, RC.Pass(c, s.cycle, cfg));
    } else if ev == RESET_CYCLE_VAL {
      RebaseGood(t);
      GoodIsGoodExcept(Rebase(t), ev);
      AddGood(Rebase(t), ev, RESET_CYCLE_VAL_AT);
      AddKeeps(Rebase(t), ev, RESET_CYCLE_VAL_AT, RCNT);
      RC.RebaseKeepsElapsed(c.rcnts[2], s.cycle);
    } else {
      PerformAllGood(t, cmds);
    }
  }

  lemma ShownStuck(s: State, c: RC.Counters)
    requires Stuck(s, c)
    ensures Stuck(ShowNext(s), c) && FrontShown(ShowNext(s))
  {
    QueuedFront(s, RCNT);
  }

  /** Whatever event is dispatched, the root-counter event is due again. */
  lemma StuckTurn(s: State, c: RC.Counters, cfg: RC.Config, cmds: seq<Command>)
    requires Stuck(s, c) && s.q != [] && AllAllowed(cmds)
    ensures var w := Turn(s, c, cfg, cmds); Stuck(w.s, w.c) && FrontShown(w.s)
  {
    StuckServed(s, c, cfg, cmds);
    var w := Served(PopFront(s), c, cfg, s.q[0], cmds);
    ShownStuck(w.s, w.c);
  }

  /** Dispatches one after another, the clock standing still. */
  ghost predicate Turns(ws: seq<World>, cfg: RC.Config, cmds: seq<seq<Command>>) {
    && |ws| == |cmds| + 1
    && forall i :: 0 <= i < |cmds| ==>
         && AllAllowed(cmds[i]) && ws[i].s.q != [] && |ws[i].c.rcnts| == 4
         && |ws[i].s.ics| == PSXINT_COUNT + 1 && |ws[i].s.keys| == PSXINT_COUNT
         && ws[i + 1] == Turn(ws[i].s, ws[i].c, cfg, cmds[i])
  }

  /** A disabled counter 2 hangs the dispatch loop: after any number of dispatches its test still finds an event due. */
  lemma {:induction false} DisabledCounterHangs(ws: seq<World>, cfg: RC.Config, cmds: seq<seq<Command>>)
    requires Turns(ws, cfg, cmds) && Stuck(ws[0].s, ws[0].c) && FrontShown(ws[0].s)
    ensures var w := ws[|cmds|];
            Stuck(w.s, w.c) && FrontShown(w.s) && DueTest(w.s.ics[NEXT_EVENT], w.s.cycle)
    decreases |cmds|
  {
    if cmds != [] {
      var n := |cmds| - 1;
      assert Turns(ws[..n + 1], cfg, cmds[..n]);
      DisabledCounterHangs(ws[..n + 1], cfg, cmds[..n]);
      StuckTurn(ws[n].s, ws[n].c, cfg, cmds[n]);
    }
    StuckFront(ws[|cmds|].s, ws[|cmds|].c);
  }

  // ---------------------------------------------------------------------------
  // The machine in place
  // ---------------------------------------------------------------------------

  /** The scan of `psxRcntSet` (src/psxcounters.cpp:240-257) for the smallest countdown. */
  method CountDown(rcnts: seq<RC.Rcnt>, now: U32) returns (next: U32)
    ensures next == RC.Scan(rcnts, 0, 0x7fff_ffff, now) && next < TWO31
  {
    next := 0x7fff_ffff;
    var i := 0;
    while i < |rcnts|
      invariant 0 <= i <= |rcnts| && next < TWO31
      invariant RC.Scan(rcnts, i, next, now) == RC.Scan(rcnts, 0, 0x7fff_ffff, now)
    {
      var countToUpdate := S32(Wrap(rcnts[i].cycle - Wrap(now - rcnts[i].cycleStart)));
      if countToUpdate < 0 {
        return 0;
      }
      if countToUpdate < next {
        next := countToUpdate;
      }
      i := i + 1;
    }
  }

  /** A frame's cycles shifted right by `freq` (src/psxevents.cpp:278-284). */
  method IntervalOf(cfg: RC.Config, freq: nat) returns (interval: U32)
    ensures interval == SpuInterval(cfg, freq)
  {
    interval := RC.PSXCLK / (if cfg.pal then 50 else 60);
    for k := 0 to freq
      invariant interval == SpuInterval(cfg, k)
    {
      interval := interval / 2;
    }
  }

  class Machine {
    const eq: Queue
    const rc: RC.RootCounters
    const script: Script
    ghost var log: seq<Dispatched>
    var count: nat

    ghost predicate Apart()
      reads this, eq
    {
      eq as object != rc && eq as object != this && rc as object != this && eq.Shape()
    }

    constructor (eq: Queue, rc: RC.RootCounters, script: Script)
      ensures this.eq == eq && this.rc == rc && this.script == script && log == []
    {
      this.eq, this.rc, this.script, log, count := eq, rc, script, [], 0;
    }

    /** `psxRcntSet` (src/psxcounters.cpp:235-261), of counters in any state.  It overwrites the timestamp of the
        root-counter event, which may still be queued. */
    method PsxRcntSet()
      requires Apart() && GoodExcept(eq.Abs(), RCNT)
      modifies eq, eq.queue
      ensures eq.queue == old(eq.queue) && Apart() && eq.cycle == old(eq.cycle)
      ensures eq.Abs() == AddEvent(old(eq.Abs()), RCNT, RC.ScanAll(rc.Abs(), old(eq.cycle)))
    {
      var next := CountDown(rc.rcnts, eq.cycle);
      SetNext(next);
    }

    /** The end of `psxRcntSet`: the timestamp of the root-counter event overwritten, and the event queued. */
    method SetNext(next: U32)
      requires Apart() && GoodExcept(eq.Abs(), RCNT) && next < TWO31
      modifies eq, eq.queue
      ensures eq.queue == old(eq.queue) && Apart() && eq.cycle == old(eq.cycle)
      ensures eq.Abs() == AddEvent(old(eq.Abs()), RCNT, next)
    {
      ghost var s := eq.Abs();
      eq.intCycle := eq.intCycle[RCNT := IntCycle(eq.cycle, next)];
      AddIgnoresEntry(s, RCNT, IntCycle(s.cycle, next), next, eq.Abs());
      eq.Add(RCNT, next);
    }

    /** `psxRcntUpdate` (src/psxcounters.cpp:328-423). */
    method PsxRcntUpdate()
      requires Apart() && GoodExcept(eq.Abs(), RCNT) && |rc.rcnts| == 4
      modifies eq, eq.queue, rc
      ensures eq.queue == old(eq.queue) && Apart() && rc.cfg == old(rc.cfg)
      ensures rc.Abs() == RC.Pass(old(rc.Abs()), old(eq.cycle), rc.cfg)
      ensures eq.Abs() == AddEvent(old(eq.Abs()), RCNT, RC.ScanAll(rc.Abs(), old(eq.cycle)))
    {
      rc.UpdateAll(eq.cycle);
      PsxRcntSet();
    }

    /** `psxEvqueueResetCycleVal` (src/psxevents.cpp:144-168). */
    method PsxEvqueueResetCycleVal()
      requires Apart() && Good(eq.Abs())
      modifies eq, eq.queue, rc
      ensures eq.queue == old(eq.queue) && Apart() && rc.cfg == old(rc.cfg)
      ensures rc.Abs() == CountersSetBack(old(rc.Abs()), old(eq.cycle))
      ensures eq.Abs() == AddEvent(Rebase(old(eq.Abs())), RESET_CYCLE_VAL, RESET_CYCLE_VAL_AT)
    {
      hide Good, GoodExcept, AddEvent, Rebase;
      RebaseReady(eq.Abs());
      RebaseAll();
      eq.Add(RESET_CYCLE_VAL, RESET_CYCLE_VAL_AT);
    }

    /** Queue and counters set back together (src/psxevents.cpp:152-159). */
    method RebaseAll()
      requires Apart() && WellFormed(eq.Abs())
      modifies eq`intCycle, eq`cycle, rc`rcnts
      ensures Apart() && eq.Abs() == Rebase(old(eq.Abs()))
      ensures rc.rcnts == RC.AllEarlier(old(rc.rcnts), old(eq.cycle))
    {
      var prevCycle := eq.cycle;
      eq.RebaseCycle();
      rc.AdjustTimestamps(prevCycle);
    }

    /** `SPU_resetUpdateInterval` (src/psxevents.cpp:276-287): with a frequency above 1 the SPU event is scheduled. */
    method SpuResetUpdateInterval(freq: nat)
      requires Apart() && Good(eq.Abs())
      modifies eq, eq.queue
      ensures eq.queue == old(eq.queue) && Apart()
      ensures eq.Abs() == SpuScheduled(old(eq.Abs()), rc.cfg, freq)
    {
      if freq > 0 {
        var interval := IntervalOf(rc.cfg, freq);
        GoodIsGoodExcept(eq.Abs(), SPU_UPDATE);
        eq.Add(SPU_UPDATE, interval);
      }
    }

    /** `psxEvqueueSchedulePersistentEvents` (src/psxevents.cpp:170-181). */
    method SchedulePersistentEvents(freq: nat)
      requires Apart() && Good(eq.Abs())
      modifies eq, eq.queue, rc
      ensures eq.queue == old(eq.queue) && Apart() && rc.cfg == old(rc.cfg)
      ensures rc.Abs() == CountersSetBack(old(rc.Abs()), old(eq.cycle))
      ensures eq.Abs() == Persistent(old(eq.Abs()), rc.cfg, freq)
    {
      hide Good, GoodExcept, AddEvent, Rebase, SpuScheduled;
      PersistentGood(eq.Abs(), rc.cfg, freq);
      PsxEvqueueResetCycleVal();
      SpuResetUpdateInterval(freq);
    }

    /** `psxReset` as far as it goes for events (src/r3000a.cpp:88-91): the persistent events are scheduled on an empty
        queue and just initialised counters, and the machine can run. */
    method Reset(freq: nat)
      requires Apart() && Good(eq.Abs()) && eq.Live() == [] && eq.cycle == 0
      requires RC.CountersOk(rc.Abs()) && RC.NotLost(rc.Abs(), 0)
      modifies eq, eq.queue, rc
      ensures eq.queue == old(eq.queue) && Apart() && eq.cycle == 0
      ensures Core(eq.Abs(), rc.Abs()) && FrontShown(eq.Abs()) && IoShown(eq.Abs())
      ensures freq > 0 ==> Queued(eq.Abs(), SPU_UPDATE)
    {
      hide SortedByKey, Truthful, Proper, AddEvent, Persistent, GoodExcept, RC.CountersOk, RC.NotLost;
      StartsSound(eq.Abs(), rc.Abs(), rc.cfg, freq);
      SchedulePersistentEvents(freq);
      PsxRcntSet();
    }

    /** `psxEvqueueInitFromFreeze` (src/psxevents.cpp:125-138), from a saved interrupt mask and timestamps that tell the
        truth about the due times `dues`: every saved event but the persistent two keeps its due time. */
    method InitFromFreeze(ghost dues: seq<int>, freq: nat)
      requires Apart() && |dues| == PSXINT_COUNT
      requires eq.interrupt != {} && forall ev :: ev in eq.interrupt ==> ev < PSXINT_COUNT
      requires forall ev :: ev in eq.interrupt ==> InTime(eq.intCycle[ev], eq.cycle, dues[ev], eq.clock)
      modifies eq, eq.queue, rc
      ensures eq.queue == old(eq.queue) && Apart()
      ensures Good(eq.Abs()) && FrontShown(eq.Abs()) && eq.cycle == 0 == eq.ioCycleCounter
      ensures Queued(eq.Abs(), RESET_CYCLE_VAL) && (freq > 0 ==> Queued(eq.Abs(), SPU_UPDATE))
      ensures forall ev :: 0 <= ev < PSXINT_COUNT && ev != RESET_CYCLE_VAL && ev != SPU_UPDATE ==>
                (Queued(eq.Abs(), ev) <==> ev in old(eq.interrupt)) && eq.keys[ev].due == dues[ev]
    {
      eq.InitFromFreeze(dues);
      ghost var s := eq.Abs();
      PersistentGood(s, rc.cfg, freq);
      SchedulePersistentEvents(freq);
      RebuiltPersistent(s, rc.cfg, freq, dues);
      ClearIo();
    }

    /** `io_cycle_counter` is not taken from the saved state (src/psxevents.cpp:137). */
    method ClearIo()
      requires Apart()
      modifies eq`ioCycleCounter
      ensures Apart() && eq.Abs() == old(eq.Abs()).(io := 0)
    {
      eq.ioCycleCounter := 0;
    }

    /** `psxRcntWcount` (src/psxcounters.cpp:427-433): the count reads as written, and the machine is as sound as it
        was. */
    method PsxRcntWcount(index: nat, value: nat)
      requires Apart() && index < 3
      requires Core(eq.Abs(), rc.Abs()) || (Suspended(eq.Abs(), rc.Abs()) && index != 2)
      modifies eq, eq.queue, rc
      ensures eq.queue == old(eq.queue) && Apart() && eq.cycle == old(eq.cycle) && rc.cfg == old(rc.cfg)
      ensures var r := RC.Wcount(old(rc.rcnts)[index], eq.cycle, value);
              && World(eq.Abs(), rc.Abs()) == CounterWritten(World(old(eq.Abs()), old(rc.Abs())), index, r)
              && RC.Count(r, eq.cycle) == value % 0x10000
      ensures FrontShown(eq.Abs()) && IoShown(eq.Abs())
      ensures if RC.Disabled(rc.rcnts[2]) then Suspended(eq.Abs(), rc.Abs()) else Core(eq.Abs(), rc.Abs())
    {
      hide Core, Suspended, Good, GoodExcept, AddEvent, FrontShown, IoShown, RC.ScanAll, RC.Count;
      CountWritten(eq.Abs(), rc.Abs(), index, value);
      rc.WriteCount(index, value, eq.cycle);
      PsxRcntSet();
    }

    /** `psxRcntWmode` (src/psxcounters.cpp:435-444): the counter restarts from zero at its new rate.  Unless counter 2
        is disabled then, the machine can run on; with that, the dispatch loop will hang. */
    method PsxRcntWmode(index: nat, value: set<nat>)
      requires Apart() && index < 3 && (Core(eq.Abs(), rc.Abs()) || Suspended(eq.Abs(), rc.Abs()))
      modifies eq, eq.queue, rc
      ensures eq.queue == old(eq.queue) && Apart() && eq.cycle == old(eq.cycle) && rc.cfg == old(rc.cfg)
      ensures var r := RC.Restarted(old(rc.rcnts)[index], eq.cycle, index, value, rc.cfg);
              && World(eq.Abs(), rc.Abs()) == CounterWritten(World(old(eq.Abs()), old(rc.Abs())), index, r)
              && RC.Count(r, eq.cycle) == 0 && r.mode == value && !r.irqState
      ensures FrontShown(eq.Abs()) && IoShown(eq.Abs())
      ensures if (if index == 2 then RC.MODE_RC2_DISABLE in value else old(RC.Disabled(rc.rcnts[2])))
              then Suspended(eq.Abs(), rc.Abs()) else Core(eq.Abs(), rc.Abs())
    {
      hide Core, Suspended, Good, GoodExcept, AddEvent, FrontShown, IoShown, RC.ScanAll, RC.Count;
      ModeWritten(eq.Abs(), rc.Abs(), rc.cfg, index, value);
      rc.Restart(index, value, eq.cycle);
      PsxRcntSet();
    }

    /** `psxRcntWtarget` (src/psxcounters.cpp:446-454): the count stays as it reads. */
    method PsxRcntWtarget(index: nat, value: nat)
      requires Apart() && index < 3
      requires Core(eq.Abs(), rc.Abs()) || (Suspended(eq.Abs(), rc.Abs()) && index != 2)
      modifies eq, eq.queue, rc
      ensures eq.queue == old(eq.queue) && Apart() && eq.cycle == old(eq.cycle) && rc.cfg == old(rc.cfg)
      ensures var r := Retargeted(old(rc.rcnts)[index], eq.cycle, value);
              && World(eq.Abs(), rc.Abs()) == CounterWritten(World(old(eq.Abs()), old(rc.Abs())), index, r)
              && RC.Count(r, eq.cycle) == RC.Count(old(rc.rcnts)[index], eq.cycle) && r.target == value % 0x10000
      ensures FrontShown(eq.Abs()) && IoShown(eq.Abs())
      ensures if RC.Disabled(rc.rcnts[2]) then Suspended(eq.Abs(), rc.Abs()) else Core(eq.Abs(), rc.Abs())
    {
      hide Core, Suspended, Good, GoodExcept, AddEvent, FrontShown, IoShown, RC.ScanAll, RC.Count;
      TargetWritten(eq.Abs(), rc.Abs(), index, value);
      WriteTarget(index, value);
      PsxRcntSet();
    }

    /** The target written, and the count with it (src/psxcounters.cpp:450-451). */
    method WriteTarget(index: nat, value: nat)
      requires index < |rc.rcnts|
      modifies rc`rcnts
      ensures rc.rcnts == old(rc.rcnts)[index := Retargeted(old(rc.rcnts)[index], eq.cycle, value)]
    {
      rc.rcnts := rc.rcnts[index := rc.rcnts[index].(target := value % 0x10000)];
      rc.WriteCount(index, RC.Count(rc.rcnts[index], eq.cycle), eq.cycle);
    }

    /** The events that guest writes to devices schedule and cancel between branch tests: the machine can run on. */
    method WriteDevice(cmds: seq<Command>)
      requires Apart() && Core(eq.Abs(), rc.Abs()) && FrontShown(eq.Abs()) && AllAllowed(cmds)
      modifies eq, eq.queue
      ensures eq.queue == old(eq.queue) && Apart() && eq.Abs() == PerformAll(old(eq.Abs()), cmds)
      ensures Core(eq.Abs(), rc.Abs()) && FrontShown(eq.Abs())
      ensures Agenda(eq.Abs()) == Ordered(old(Agenda(eq.Abs())), cmds, old(eq.clock))
    {
      hide SortedByKey, Truthful, Proper, Agenda, Ordered;
      DeviceAlive(eq.Abs(), rc.Abs(), cmds);
      PerformAllAgenda(eq.Abs(), cmds);
      RunHandler(cmds);
    }

    /** The CPU runs for `d` cycles between branch tests. */
    method Run(d: nat)
      requires Apart() && Core(eq.Abs(), rc.Abs()) && FrontShown(eq.Abs()) && Attended(eq.Abs(), rc.Abs(), d)
      modifies eq`cycle, eq`clock
      ensures Apart() && Core(eq.Abs(), rc.Abs()) && FrontShown(eq.Abs()) && eq.clock == old(eq.clock) + d
    {
      AdvanceKeeps(eq.Abs(), rc.Abs(), d);
      eq.Run(d);
    }

    /** One command of a handler. */
    method PerformOne(cmd: Command)
      requires Apart() && Good(eq.Abs()) && Allowed(cmd)
      requires cmd.Cancel? ==> Without(eq.Live(), cmd.ev) != []
      modifies eq, eq.queue
      ensures eq.queue == old(eq.queue) && Apart() && eq.Abs() == Perform(old(eq.Abs()), cmd)
    {
      match cmd {
        case Schedule(ev, after) =>
          GoodIsGoodExcept(eq.Abs(), ev);
          eq.Add(ev, after);
        case Cancel(ev) =>
          eq.Remove(ev);
      }
    }

    /** A handler's effect on the queue: its schedulings and cancellations in turn. */
    method RunHandler(cmds: seq<Command>)
      requires Apart() && Good(eq.Abs()) && Queued(eq.Abs(), RCNT) && AllAllowed(cmds)
      modifies eq, eq.queue
      ensures eq.queue == old(eq.queue) && Apart() && eq.Abs() == PerformAll(old(eq.Abs()), cmds)
    {
      hide Good, Perform;
      ghost var s0 := eq.Abs();
      for k := 0 to |cmds|
        invariant eq.queue == old(eq.queue) && Apart()
        invariant Good(eq.Abs()) && Queued(eq.Abs(), RCNT) && eq.Abs() == PerformAll(s0, cmds[..k])
      {
        PerformGood(eq.Abs(), cmds[k]);
        assert cmds[..k + 1][..k] == cmds[..k];
        PerformOne(cmds[k]);
      }
      assert cmds[..|cmds|] == cmds;
    }

    /** The handler of an event that was just taken off the front (src/psxevents.cpp:258). */
    method Dispatch(ev: nat, n: nat)
      requires Apart() && WellBehaved(script) && Good(eq.Abs()) && |rc.rcnts| == 4
      requires ev != RCNT ==> Queued(eq.Abs(), RCNT)
      modifies eq, eq.queue, rc
      ensures eq.queue == old(eq.queue) && Apart() && rc.cfg == old(rc.cfg)
      ensures AllAllowed(script(n, ev))
      ensures World(eq.Abs(), rc.Abs()) == Served(old(eq.Abs()), old(rc.Abs()), rc.cfg, ev, script(n, ev))
    {
      var cmds := script(n, ev);
      assert AllAllowed(cmds) by {
        assert forall k: nat :: k < |cmds| ==> Allowed(script(n, ev)[k]);
      }
      if ev == RCNT {
        GoodIsGoodExcept(eq.Abs(), RCNT);
        PsxRcntUpdate();
      } else if ev == RESET_CYCLE_VAL {
        PsxEvqueueResetCycleVal();
      } else {
        RunHandler(cmds);
      }
    }

    /** `psxEvqueueDispatchAndRemoveFront` (src/psxevents.cpp:239-273), whatever the state of the counters. */
    method DispatchAndRemoveFront()
      requires Apart() && WellBehaved(script) && Good(eq.Abs()) && Queued(eq.Abs(), RCNT) && |rc.rcnts| == 4
      modifies this, eq, eq.queue, rc
      ensures eq.queue == old(eq.queue) && Apart() && rc.cfg == old(rc.cfg)
      ensures var s, cmds := old(eq.Abs()), script(old(count), old(eq.Abs().q[0]));
              && AllAllowed(cmds) && World(eq.Abs(), rc.Abs()) == Turn(s, old(rc.Abs()), rc.cfg, cmds)
              && log == old(log) + [Dispatched(s.q[0], s.keys[s.q[0]])]
    {
      hide Good, Served;
      ghost var s := eq.Abs();
      QueuedFront(s, RCNT);
      PopQueued(s);
      log := log + [Dispatched(s.q[0], s.keys[s.q[0]])];
      var n := count;
      var ev := eq.RemoveFront();
      count := count + 1;
      Dispatch(ev, n);
      ServedQueue(PopFront(s), rc.Abs(), eq.Abs(), ev, script(n, ev));
      CopyFrontEntry();
    }

    /** The front event's entry copied to the next-event slot (src/psxevents.cpp:269). */
    method CopyFrontEntry()
      requires Apart() && eq.Live() != [] && eq.Live()[0] < PSXINT_COUNT
      modifies eq`intCycle
      ensures Apart() && eq.Abs() == ShowNext(old(eq.Abs()))
    {
      var front := eq.Front();
      eq.intCycle := eq.intCycle[NEXT_EVENT := eq.intCycle[front]];
    }

    /** The event part of `psxBranchTest` (src/r3000a.cpp:168-176): it dispatches due events, the earliest
        first and in order of arrival among those due together, until none is due, and leaves the earliest
        deadline in `io_cycle_counter`; then no counter is overdue either. */
    method PsxBranchTest()
      requires Apart() && WellBehaved(script)
      requires Core(eq.Abs(), rc.Abs()) && FrontShown(eq.Abs())
      modifies this, eq, eq.queue, rc
      ensures eq.queue == old(eq.queue) && Apart() && rc.cfg == old(rc.cfg) && eq.clock == old(eq.clock)
      ensures Steady(eq.Abs(), rc.Abs(), log) && Settled(eq.Abs(), rc.Abs())
      ensures OnlyPlanned(old(Agenda(eq.Abs())), log, script)
    {
      hide Steady, Good, Turn, FrontShown, OnlyPlanned, StillUnplanned, Agenda;
      ghost var clock := eq.clock;
      log := [];
      SteadyStart(eq.Abs(), rc.Abs());
      SteadyFront(eq.Abs(), rc.Abs(), log);
      ghost var agenda := Agenda(eq.Abs());
      NothingPlanned(eq.Abs(), rc.Abs(), script);
      while DueTest(eq.intCycle[NEXT_EVENT], eq.cycle)
        invariant eq.queue == old(eq.queue) && Apart() && rc.cfg == old(rc.cfg) && eq.clock == clock
        invariant Steady(eq.Abs(), rc.Abs(), log) && ReadyToTest(eq.Abs(), rc.Abs())
        invariant OnlyPlanned(agenda, log, script) && StillUnplanned(agenda, Agenda(eq.Abs()), script)
        decreases RC.TotalLag(rc.Abs(), eq.cycle), DueNow(eq.Abs())
      {
        ghost var s, c, log0, n, cmds := eq.Abs(), rc.Abs(), log, count, script(count, eq.Abs().q[0]);
        DispatchAndRemoveFront();
        TurnSteady(s, c, rc.cfg, cmds, log0, Dispatched(s.q[0], s.keys[s.q[0]]));
        SteadyFront(eq.Abs(), rc.Abs(), log);
        TurnPlanned(s, c, rc.cfg, cmds, log0, agenda, script, n);
      }
      ghost var s := eq.Abs();
      eq.ioCycleCounter := Deadline(eq.intCycle[NEXT_EVENT]);
      NothingDue(s, rc.Abs(), log, eq.Abs());
    }
  }
}
