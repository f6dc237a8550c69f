/** The event queue (src/psxevents.cpp): an array deque sorted by imminence, whose
    deadlines are 32-bit sums compared as signed distances from the cycle counter.

    The interrupt bitmask is modelled as the set of its bit numbers.  Beside the
    machine's state the model keeps an unbounded clock and, for every event, the
    true time it is due and its rank of arrival. */
module EventQueue {
  import opened Cycles
  import opened NatSets

  const PSXINT_COUNT: nat := 18

  const NEXT_EVENT: nat := 18

  const RCNT: nat := 11

  const SPU_UPDATE: nat := 15

  const RESET_CYCLE_VAL: nat := 16

  const RESET_CYCLE_VAL_AT: U32 := 2000000000

  /** The cycle count when an event was scheduled, and the delay asked for. */
  datatype IntCycle = IntCycle(sCycle: U32, cycle: U32)

  /** The true time an event is due, and its rank of arrival in the queue. */
  datatype Key = Key(due: int, stamp: nat)

  predicate Earlier(a: Key, b: Key) {
    a.due < b.due || (a.due == b.due && a.stamp < b.stamp)
  }

  /** The machine's view of an event: cycles until it is due, negative once it is overdue. */
  function Remaining(ic: IntCycle, cycle: U32): int {
    S32(Wrap(ic.sCycle + ic.cycle - cycle))
  }

  /** The due test of `psxBranchTest` (src/r3000a.cpp:168-169). */
  predicate DueTest(ic: IntCycle, cycle: U32) {
    Wrap(cycle - ic.sCycle) >= ic.cycle
  }

  /** The 32-bit words `ic` and `cycle` tell the truth about an event due at `due` when the time is
      `clock`: the elapsed cycles are those since it was scheduled, the delay is less than 2^31, and
      the event is at most 2^31 cycles late. */
  ghost predicate InTime(ic: IntCycle, cycle: U32, due: int, clock: int) {
    && ic.cycle < TWO31
    && Wrap(cycle - ic.sCycle) == clock - (due - ic.cycle)
    && -TWO31 <= due - clock
  }

  /** In time, the machine's view of an event is the true one, and its due test is exact. */
  lemma TrueTime(ic: IntCycle, cycle: U32, due: int, clock: int)
    requires InTime(ic, cycle, due, clock)
    ensures Remaining(ic, cycle) == due - clock
    ensures DueTest(ic, cycle) <==> due <= clock
  {
    WrapParts(ic.cycle, cycle - ic.sCycle);
    assert ic.cycle - (cycle - ic.sCycle) == ic.sCycle + ic.cycle - cycle;
    SignedExact(due - clock);
  }

  /** An event just scheduled with a delay below 2^31 is in time. */
  lemma ScheduledInTime(cycle: U32, after: U32, clock: int)
    requires after < TWO31
    ensures InTime(IntCycle(cycle, after), cycle, clock + after, clock)
  {
  }

  /** Time passing keeps an event in time until it is 2^31 cycles late. */
  lemma AdvanceInTime(ic: IntCycle, cycle: U32, due: int, clock: int, d: nat)
    requires InTime(ic, cycle, due, clock)
    ensures InTime(ic, Wrap(cycle + d), due, clock + d) <==> clock + d <= due + TWO31
  {
    if clock + d <= due + TWO31 {
      WrapAdvance(cycle, ic.sCycle, d);
    }
  }

  /** Moving the origin of time changes nothing an event can see. */
  lemma RebaseInTime(ic: IntCycle, cycle: U32, due: int, clock: int)
    requires InTime(ic, cycle, due, clock)
    ensures InTime(ic.(sCycle := Wrap(ic.sCycle - cycle)), 0, due, clock)
  {
    WrapShift(cycle, ic.sCycle, cycle);
  }

  // ---------------------------------------------------------------------------
  // Queues as sequences of event numbers
  // ---------------------------------------------------------------------------

  /** Distinct event numbers. */
  ghost predicate Proper(q: seq<nat>) {
    && (forall i :: 0 <= i < |q| ==> q[i] < PSXINT_COUNT)
    && (forall i, j :: 0 <= i < j < |q| ==> q[i] != q[j])
  }

  ghost predicate SortedByKey(q: seq<nat>, keys: seq<Key>) {
    && (forall i :: 0 <= i < |q| ==> q[i] < |keys|)
    && (forall i, j :: 0 <= i < j < |q| ==> Earlier(keys[q[i]], keys[q[j]]))
  }

  /** The timestamps of the events of `q` tell the truth, and all of them have arrived. */
  ghost predicate Truthful(q: seq<nat>, ics: seq<IntCycle>, cycle: U32, keys: seq<Key>, clock: int, arrivals: nat) {
    forall i :: 0 <= i < |q| ==>
      && q[i] < |ics| && q[i] < |keys|
      && InTime(ics[q[i]], cycle, keys[q[i]].due, clock) && keys[q[i]].stamp < arrivals
  }

  ghost predicate Absent(q: seq<nat>, ev: nat) {
    forall i :: 0 <= i < |q| ==> q[i] != ev
  }

  /** The queue without event `ev`. */
  function Without(q: seq<nat>, ev: nat): (r: seq<nat>) {
    if q == [] then [] else if q[0] == ev then q[1..] else [q[0]] + Without(q[1..], ev)
  }

  lemma {:induction false} WithoutAt(q: seq<nat>, p: nat)
    requires p < |q| && Absent(q[..p], q[p])
    ensures Without(q, q[p]) == q[..p] + q[p + 1..]
  {
    if p > 0 {
      assert q[0] == q[..p][0];
      assert Absent(q[1..][..p - 1], q[p]) by {
        assert q[1..][..p - 1] == q[..p][1..];
      }
      WithoutAt(q[1..], p - 1);
      assert q[..p] == [q[0]] + q[1..][..p - 1];
    }
  }

  lemma {:induction false} WithoutAbsent(q: seq<nat>, ev: nat)
    requires Absent(q, ev)
    ensures Without(q, ev) == q
  {
    if q != [] {
      assert Absent(q[1..], ev) by { assert forall i :: 0 <= i < |q| - 1 ==> q[1..][i] == q[i + 1]; }
      WithoutAbsent(q[1..], ev);
      assert q == [q[0]] + q[1..];
    }
  }

  /** What remains of a queue are its other entries in their order; `f` says where each came from. */
  lemma WithoutFrom(q: seq<nat>, ev: nat) returns (p: nat)
    requires Proper(q)
    ensures p <= |q|
    ensures if p < |q| then q[p] == ev && |Without(q, ev)| == |q| - 1 else Absent(q, ev) && Without(q, ev) == q
    ensures forall i :: 0 <= i < |Without(q, ev)| ==> Without(q, ev)[i] == q[if i < p then i else i + 1]
    ensures Absent(Without(q, ev), ev)
  {
    if Absent(q, ev) {
      p := |q|;
      WithoutAbsent(q, ev);
    } else {
      p :| p < |q| && q[p] == ev;
      WithoutAt(q, p);
    }
  }

  function Inserted(q: seq<nat>, p: nat, ev: nat): (r: seq<nat>)
    requires p <= |q|
    ensures |r| == |q| + 1
  {
    q[..p] + [ev] + q[p..]
  }

  /** The place of an event due at `due`: after every event due no later. */
  function InsertAt(q: seq<nat>, keys: seq<Key>, due: int): (p: nat)
    ensures p <= |q|
  {
    if q == [] || q[0] >= |keys| || due < keys[q[0]].due then 0 else 1 + InsertAt(q[1..], keys, due)
  }

  lemma {:induction false} InsertAtIs(q: seq<nat>, keys: seq<Key>, due: int, p: nat)
    requires p <= |q| && forall i :: 0 <= i < |q| ==> q[i] < |keys|
    requires forall i :: 0 <= i < p ==> keys[q[i]].due <= due
    requires p < |q| ==> due < keys[q[p]].due
    ensures InsertAt(q, keys, due) == p
  {
    if p > 0 { InsertAtIs(q[1..], keys, due, p - 1); }
  }

  /** In a sorted queue the place of an event splits the earlier from the later ones. */
  lemma {:induction false} InsertAtSplits(q: seq<nat>, keys: seq<Key>, due: int)
    requires SortedByKey(q, keys)
    ensures forall i :: 0 <= i < InsertAt(q, keys, due) ==> keys[q[i]].due <= due
    ensures forall i :: InsertAt(q, keys, due) <= i < |q| ==> due < keys[q[i]].due
  {
    if q != [] {
      assert SortedByKey(q[1..], keys) by { assert forall i :: 0 <= i < |q| - 1 ==> q[1..][i] == q[i + 1]; }
      InsertAtSplits(q[1..], keys, due);
      forall i | 0 < i < |q| ensures q[i] == q[1..][i - 1] && keys[q[0]].due <= keys[q[i]].due {
        assert Earlier(keys[q[0]], keys[q[i]]);
      }
    }
  }

  lemma {:induction false} InsertAtOther(q: seq<nat>, keys: seq<Key>, ev: nat, key: Key, due: int)
    requires ev < |keys| && Absent(q, ev)
    ensures InsertAt(q, keys[ev := key], due) == InsertAt(q, keys, due)
  {
    if q != [] {
      assert Absent(q[1..], ev) by { assert forall i :: 0 <= i < |q| - 1 ==> q[1..][i] == q[i + 1]; }
      InsertAtOther(q[1..], keys, ev, key, due);
    }
  }

  lemma ElementIn(q: seq<nat>, ev: nat)
    ensures ev in Elements(q) <==> !Absent(q, ev)
  {
    ElementAt(q, ev);
  }

  lemma {:induction false} ElementsConcat(x: seq<nat>, y: seq<nat>)
    ensures Elements(x + y) == Elements(x) + Elements(y)
  {
    if x == [] {
      assert x + y == y;
    } else {
      assert (x + y)[1..] == x[1..] + y;
      ElementsConcat(x[1..], y);
    }
  }

  lemma ElementsOne(ev: nat)
    ensures Elements([ev]) == {ev}
  {
    assert [ev][1..] == [];
  }

  lemma ElementsInserted(q: seq<nat>, p: nat, ev: nat)
    requires p <= |q|
    ensures Elements(Inserted(q, p, ev)) == Elements(q) + {ev}
  {
    var x, y := q[..p], q[p..];
    assert q == x + y;
    ElementsConcat(x, y);
    ElementsConcat(x + [ev], y);
    ElementsConcat(x, [ev]);
    ElementsOne(ev);
  }

  lemma ElementsCut(q: seq<nat>, p: nat)
    requires p < |q| && Absent(q[..p], q[p]) && Absent(q[p + 1..], q[p])
    ensures Elements(q[..p] + q[p + 1..]) == Elements(q) - {q[p]}
  {
    hide Elements, Absent;
    var x, y, ev := q[..p], q[p + 1..], q[p];
    ElementsConcat(x, y);
    ElementsConcat(x, [ev] + y);
    ElementsConcat([ev], y);
    ElementsOne(ev);
    ElementIn(x, ev);
    ElementIn(y, ev);
    assert q == x + ([ev] + y);
  }

  lemma ElementsWithout(q: seq<nat>, ev: nat)
    requires Proper(q)
    ensures Elements(Without(q, ev)) == Elements(q) - {ev}
  {
    hide Elements;
    if Absent(q, ev) {
      WithoutAbsent(q, ev);
      ElementIn(q, ev);
    } else {
      var p :| 0 <= p < |q| && q[p] == ev;
      assert Absent(q[..p], ev) && Absent(q[p + 1..], ev);
      WithoutAt(q, p);
      ElementsCut(q, p);
    }
  }

  /** There are only eighteen events, so a queue of distinct ones that lacks one has room for it. */
  lemma QueueFits(q: seq<nat>, ev: nat)
    requires Proper(q) && ev < PSXINT_COUNT && Absent(q, ev)
    ensures |q| < PSXINT_COUNT
  {
    var r := q + [ev];
    assert forall i :: 0 <= i < |q| ==> r[i] == q[i];
    DistinctBelow(r, PSXINT_COUNT);
  }

  // ---------------------------------------------------------------------------
  // Queue states
  // ---------------------------------------------------------------------------

  /** The queue with the registers it works on, and beside them the true time, the true due times and
      the number of arrivals so far. */
  datatype State = State(q: seq<nat>, ics: seq<IntCycle>, cycle: U32, interrupt: set<nat>, io: U32,
                         clock: int, keys: seq<Key>, arrivals: nat)

  ghost predicate WellFormed(s: State) {
    |s.ics| == PSXINT_COUNT + 1 && |s.keys| == PSXINT_COUNT && Proper(s.q) && s.interrupt == Elements(s.q)
  }

  /** The queue holds each event whose interrupt bit is set exactly once, sorted by imminence, ties in
      order of arrival, with truthful timestamps; the entry of event `x` alone may be anything. */
  ghost predicate GoodExcept(s: State, x: nat) {
    && WellFormed(s)
    && SortedByKey(Without(s.q, x), s.keys)
    && Truthful(Without(s.q, x), s.ics, s.cycle, s.keys, s.clock, s.arrivals)
  }

  ghost predicate Good(s: State) {
    && WellFormed(s)
    && SortedByKey(s.q, s.keys)
    && Truthful(s.q, s.ics, s.cycle, s.keys, s.clock, s.arrivals)
  }

  /** What `psxBranchTest` reads is the front event's entry. */
  predicate FrontShown(s: State) {
    && |s.ics| == PSXINT_COUNT + 1
    && s.q != [] && s.q[0] < PSXINT_COUNT
    && s.ics[NEXT_EVENT] == s.ics[s.q[0]]
  }

  function Deadline(ic: IntCycle): U32 {
    Wrap(ic.sCycle + ic.cycle)
  }

  predicate IoShown(s: State) {
    |s.ics| == PSXINT_COUNT + 1 && s.io == Deadline(s.ics[NEXT_EVENT])
  }

  lemma GoodIsGoodExcept(s: State, x: nat)
    requires Good(s)
    ensures GoodExcept(s, x)
  {
    var p := WithoutFrom(s.q, x);
  }

  /** Event `ev` scheduled `after` cycles from now, by true time: taken out if it is queued, then put
      after every event due no later. */
  function Scheduled(s: State, ev: nat, after: U32): State
    requires |s.ics| == PSXINT_COUNT + 1 && |s.keys| == PSXINT_COUNT && ev < PSXINT_COUNT
  {
    var rest := Without(s.q, ev);
    State(Inserted(rest, InsertAt(rest, s.keys, s.clock + after), ev), s.ics[ev := IntCycle(s.cycle, after)],
          s.cycle, s.interrupt + {ev}, s.io,
          s.clock, s.keys[ev := Key(s.clock + after, s.arrivals)], s.arrivals + 1)
  }

  /** The front event's entry copied to the next-event slot, and its deadline to `io_cycle_counter`. */
  function ShowFront(s: State): State
    requires |s.ics| == PSXINT_COUNT + 1
  {
    if s.q == [] || s.q[0] >= PSXINT_COUNT then s
    else s.(ics := s.ics[NEXT_EVENT := s.ics[s.q[0]]], io := Deadline(s.ics[s.q[0]]))
  }

  function AddEvent(s: State, ev: nat, after: U32): State
    requires |s.ics| == PSXINT_COUNT + 1 && |s.keys| == PSXINT_COUNT && ev < PSXINT_COUNT
  {
    ShowFront(Scheduled(s, ev, after))
  }

  /** `r` is `q` with `ev` put at place `p`. */
  ghost predicate PutAt(q: seq<nat>, p: nat, ev: nat, r: seq<nat>) {
    && p <= |q| && |r| == |q| + 1
    && forall i {:trigger r[i]} :: 0 <= i < |r| ==> r[i] == if i < p then q[i] else if i == p then ev else q[i - 1]
  }

  lemma InsertedIsPut(q: seq<nat>, p: nat, ev: nat)
    requires p <= |q|
    ensures PutAt(q, p, ev, Inserted(q, p, ev))
  {
  }

  /** Any two entries of a queue with an event put at its place are in order. */
  lemma AddOrdered(q: seq<nat>, keys: seq<Key>, ev: nat, key: Key, p: nat, r: seq<nat>, ks: seq<Key>, i: nat, j: nat)
    requires Proper(q) && SortedByKey(q, keys) && Absent(q, ev) && ev < |keys| && PutAt(q, p, ev, r)
    requires ks == keys[ev := key]
    requires forall i :: 0 <= i < |q| ==> keys[q[i]].stamp < key.stamp
    requires forall i :: 0 <= i < p ==> keys[q[i]].due <= key.due
    requires forall i :: p <= i < |q| ==> key.due < keys[q[i]].due
    requires i < j < |r|
    ensures r[i] != r[j] && r[i] < |ks| && r[j] < |ks| && Earlier(ks[r[i]], ks[r[j]])
  {
    if i != p && j != p {
      var x, y := if i < p then i else i - 1, if j < p then j else j - 1;
      assert q[x] != q[y] && Earlier(keys[q[x]], keys[q[y]]);
    }
  }

  lemma AddSorted(q: seq<nat>, keys: seq<Key>, ev: nat, key: Key, p: nat, r: seq<nat>, ks: seq<Key>)
    requires Proper(q) && SortedByKey(q, keys) && Absent(q, ev) && ev < |keys| == PSXINT_COUNT
    requires forall i :: 0 <= i < |q| ==> keys[q[i]].stamp < key.stamp
    requires p == InsertAt(q, keys, key.due) && PutAt(q, p, ev, r) && ks == keys[ev := key]
    ensures Proper(r) && SortedByKey(r, ks)
  {
    InsertAtSplits(q, keys, key.due);
    forall i, j | 0 <= i < j < |r| ensures r[i] != r[j] && r[j] < |ks| && r[i] < |ks| && Earlier(ks[r[i]], ks[r[j]]) {
      AddOrdered(q, keys, ev, key, p, r, ks, i, j);
    }
  }

  lemma AddTruthful(s: State, q: seq<nat>, p: nat, ev: nat, after: U32,
                    r: seq<nat>, ics: seq<IntCycle>, ks: seq<Key>)
    requires |s.ics| == PSXINT_COUNT + 1 && |s.keys| == PSXINT_COUNT && ev < PSXINT_COUNT
    requires Proper(q) && Absent(q, ev) && Truthful(q, s.ics, s.cycle, s.keys, s.clock, s.arrivals)
    requires after < TWO31
    requires PutAt(q, p, ev, r) && ics == s.ics[ev := IntCycle(s.cycle, after)]
    requires ks == s.keys[ev := Key(s.clock + after, s.arrivals)]
    ensures Truthful(r, ics, s.cycle, ks, s.clock, s.arrivals + 1)
  {
    ScheduledInTime(s.cycle, after, s.clock);
  }

  /** Copying the front entry is seen by nobody but the branch test. */
  lemma ShowFrontGood(s: State)
    requires Good(s) && s.q != []
    ensures Good(ShowFront(s)) && FrontShown(ShowFront(s)) && IoShown(ShowFront(s))
  {
  }

  lemma WithoutProper(q: seq<nat>, ev: nat)
    requires Proper(q)
    ensures Proper(Without(q, ev)) && Absent(Without(q, ev), ev)
  {
    var p := WithoutFrom(q, ev);
  }

  lemma ScheduledGood(s: State, ev: nat, after: U32)
    requires GoodExcept(s, ev) && ev < PSXINT_COUNT && after < TWO31
    ensures Good(Scheduled(s, ev, after))
  {
    hide Proper, SortedByKey, Without, Inserted, InsertAt, Elements, Absent, InTime;
    var rest := Without(s.q, ev);
    var at := InsertAt(rest, s.keys, s.clock + after);
    var s' := Scheduled(s, ev, after);
    WithoutProper(s.q, ev);
    InsertedIsPut(rest, at, ev);
    assert Proper(s'.q) && SortedByKey(s'.q, s'.keys) by {
      AddSorted(rest, s.keys, ev, Key(s.clock + after, s.arrivals), at, s'.q, s'.keys);
    }
    assert Truthful(s'.q, s'.ics, s'.cycle, s'.keys, s'.clock, s'.arrivals) by {
      AddTruthful(s, rest, at, ev, after, s'.q, s'.ics, s'.keys);
    }
    assert s'.interrupt == Elements(s'.q) by {
      ElementsWithout(s.q, ev);
      ElementsInserted(rest, at, ev);
    }
  }

  lemma ScheduledFront(s: State, ev: nat, after: U32)
    requires GoodExcept(s, ev) && ev < PSXINT_COUNT && after < TWO31
    ensures var q := Scheduled(s, ev, after).q; q != [] && q[0] < PSXINT_COUNT
  {
    ScheduledGood(s, ev, after);
  }

  /** Scheduling keeps the queue good, whatever the entry of the event was before. */
  lemma AddGood(s: State, ev: nat, after: U32)
    requires GoodExcept(s, ev) && ev < PSXINT_COUNT && after < TWO31
    ensures var s' := AddEvent(s, ev, after); Good(s') && FrontShown(s') && IoShown(s')
  {
    ScheduledGood(s, ev, after);
    ShowFrontGood(Scheduled(s, ev, after));
  }

  /** `psxEvqueueRemove` (src/psxevents.cpp:212-236) by its effect. */
  function RemoveEvent(s: State, ev: nat): State
    requires |s.ics| == PSXINT_COUNT + 1
  {
    if ev !in s.interrupt then s
    else ShowFront(s.(q := Without(s.q, ev), interrupt := s.interrupt - {ev}))
  }

  lemma RemoveGood(s: State, ev: nat)
    requires Good(s) && Without(s.q, ev) != []
    ensures Good(RemoveEvent(s, ev))
    ensures ev in s.interrupt || (FrontShown(s) && IoShown(s)) ==>
              FrontShown(RemoveEvent(s, ev)) && IoShown(RemoveEvent(s, ev))
  {
    GoodIsGoodExcept(s, ev);
    WithoutProper(s.q, ev);
    ElementsWithout(s.q, ev);
    ShowFrontGood(s.(q := Without(s.q, ev), interrupt := s.interrupt - {ev}));
  }

  /** The front event taken out (src/psxevents.cpp:248-250). */
  function PopFront(s: State): State
    requires s.q != []
  {
    s.(q := s.q[1..], interrupt := s.interrupt - {s.q[0]})
  }

  /** The front event is the one due first, and among those due together the one that came first. */
  lemma PopGood(s: State)
    requires Good(s) && s.q != []
    ensures Good(PopFront(s))
    ensures forall i :: 0 < i < |s.q| ==> Earlier(s.keys[s.q[0]], s.keys[s.q[i]])
  {
    var t := s.q[1..];
    assert forall i :: 0 <= i < |t| ==> t[i] == s.q[i + 1];
    assert Absent(t, s.q[0]);
    ElementIn(t, s.q[0]);
  }

  function Advance(s: State, d: nat): State {
    s.(cycle := Wrap(s.cycle + d), clock := s.clock + d)
  }

  /** The machine's 32-bit time follows the true one as long as, and no longer than, no queued event is
      more than 2^31 cycles late. */
  lemma AdvanceGood(s: State, d: nat)
    requires Good(s)
    ensures Good(Advance(s, d)) <==>
            forall i :: 0 <= i < |s.q| ==> s.clock + d <= s.keys[s.q[i]].due + TWO31
  {
    forall i | 0 <= i < |s.q|
      ensures InTime(s.ics[s.q[i]], Wrap(s.cycle + d), s.keys[s.q[i]].due, s.clock + d) <==>
              s.clock + d <= s.keys[s.q[i]].due + TWO31
    {
      AdvanceInTime(s.ics[s.q[i]], s.cycle, s.keys[s.q[i]].due, s.clock, d);
    }
    if Good(Advance(s, d)) {
      forall i | 0 <= i < |s.q| ensures s.clock + d <= s.keys[s.q[i]].due + TWO31 {
        assert InTime(s.ics[s.q[i]], Wrap(s.cycle + d), s.keys[s.q[i]].due, s.clock + d);
      }
    }
  }

  function Shifted(ic: IntCycle, d: U32): IntCycle {
    ic.(sCycle := Wrap(ic.sCycle - d))
  }

  /** The cycle counter set back to 0 and every queued timestamp with it (src/psxevents.cpp:144-159, 186-193). */
  function Rebase(s: State): State {
    s.(cycle := 0, ics := seq(|s.ics|, i requires 0 <= i < |s.ics| =>
                                if i == NEXT_EVENT || i in s.q then Shifted(s.ics[i], s.cycle) else s.ics[i]))
  }

  /** The entries of the first `k` events of `q` set back by `d`. */
  function ShiftedUpTo(ics: seq<IntCycle>, q: seq<nat>, k: nat, d: U32): (r: seq<IntCycle>)
    requires k <= |q| && forall i :: 0 <= i < |q| ==> q[i] < |ics|
    ensures |r| == |ics|
  {
    if k == 0 then ics
    else
      var r := ShiftedUpTo(ics, q, k - 1, d);
      r[q[k - 1] := Shifted(r[q[k - 1]], d)]
  }

  lemma {:induction false} ShiftedUpToAt(ics: seq<IntCycle>, q: seq<nat>, k: nat, d: U32, i: nat)
    requires Proper(q) && k <= |q| && |ics| == PSXINT_COUNT + 1 && i < |ics|
    ensures ShiftedUpTo(ics, q, k, d)[i] == if i in q[..k] then Shifted(ics[i], d) else ics[i]
  {
    if k > 0 {
      ShiftedUpToAt(ics, q, k - 1, d, i);
      assert q[..k] == q[..k - 1] + [q[k - 1]];
      assert q[k - 1] !in q[..k - 1];
    }
  }

  /** Setting back every queued entry, and the copy of the front one, is the rebase. */
  lemma ShiftedIsRebase(s: State, ics: seq<IntCycle>)
    requires WellFormed(s)
    requires var r := ShiftedUpTo(s.ics, s.q, |s.q|, s.cycle);
             ics == r[NEXT_EVENT := Shifted(r[NEXT_EVENT], s.cycle)]
    ensures ics == Rebase(s).ics
  {
    assert s.q[..|s.q|] == s.q;
    assert NEXT_EVENT !in s.q;
    forall i | 0 <= i < |ics| ensures ics[i] == Rebase(s).ics[i] {
      ShiftedUpToAt(s.ics, s.q, |s.q|, s.cycle, i);
    }
  }

  /** Rebasing changes no true time: every event keeps its due time and its remaining cycles. */
  lemma RebaseGood(s: State)
    requires Good(s)
    ensures Good(Rebase(s))
    ensures FrontShown(s) ==> FrontShown(Rebase(s))
    ensures forall i :: 0 <= i < |s.q| ==>
              Remaining(Rebase(s).ics[s.q[i]], 0) == Remaining(s.ics[s.q[i]], s.cycle) == s.keys[s.q[i]].due - s.clock
  {
    forall i | 0 <= i < |s.q|
      ensures InTime(Rebase(s).ics[s.q[i]], 0, s.keys[s.q[i]].due, s.clock)
      ensures Remaining(Rebase(s).ics[s.q[i]], 0) == Remaining(s.ics[s.q[i]], s.cycle) == s.keys[s.q[i]].due - s.clock
    {
      assert s.q[i] in s.q;
      RebaseInTime(s.ics[s.q[i]], s.cycle, s.keys[s.q[i]].due, s.clock);
      TrueTime(s.ics[s.q[i]], s.cycle, s.keys[s.q[i]].due, s.clock);
      TrueTime(Rebase(s).ics[s.q[i]], 0, s.keys[s.q[i]].due, s.clock);
    }
  }

  // ---------------------------------------------------------------------------
  // The agenda
  // ---------------------------------------------------------------------------

  /** What the queue is for: which events are to come, and when. */
  ghost function Agenda(s: State): map<nat, int> {
    map ev | ev in Elements(s.q) && ev < |s.keys| :: s.keys[ev].due
  }

  /** The events of a good queue are exactly those with a bit. */
  lemma AgendaIsInterrupt(s: State)
    requires WellFormed(s)
    ensures Agenda(s).Keys == s.interrupt
  {
    forall ev | ev in s.interrupt ensures ev < |s.keys| {
      ElementIn(s.q, ev);
    }
  }

  /** Scheduling puts the event on the agenda for its time, instead of the one it may have had, and nothing else. */
  lemma AddAgenda(s: State, ev: nat, after: U32)
    requires GoodExcept(s, ev) && ev < PSXINT_COUNT
    ensures Agenda(AddEvent(s, ev, after)) == Agenda(s)[ev := s.clock + after]
  {
    hide Elements, Inserted, Without, InsertAt, SortedByKey, Truthful;
    var rest := Without(s.q, ev);
    ElementsWithout(s.q, ev);
    ElementsInserted(rest, InsertAt(rest, s.keys, s.clock + after), ev);
  }

  /** Removal takes the event off the agenda and out of the mask, and nothing else. */
  lemma RemoveAgenda(s: State, ev: nat)
    requires Good(s) && Without(s.q, ev) != []
    ensures Agenda(RemoveEvent(s, ev)) == Agenda(s) - {ev} && RemoveEvent(s, ev).interrupt == s.interrupt - {ev}
  {
    ElementsWithout(s.q, ev);
    hide Elements, Without, SortedByKey, Truthful, Proper;
  }

  /** A dispatch takes an event off the agenda that is due first. */
  lemma PopAgenda(s: State)
    requires Good(s) && s.q != []
    ensures Agenda(PopFront(s)) == Agenda(s) - {s.q[0]} && PopFront(s).interrupt == s.interrupt - {s.q[0]}
    ensures s.q[0] in Agenda(s) && forall e :: e in Agenda(s) ==> Agenda(s)[s.q[0]] <= Agenda(s)[e]
  {
    PopGood(s);
    assert s.q[0] in Elements(s.q);
    forall e | e in Agenda(s) ensures Agenda(s)[s.q[0]] <= Agenda(s)[e] {
      ElementIn(s.q, e);
    }
  }

  /** Neither a rebase nor time passing changes it. */
  lemma ClockAgenda(s: State, d: nat)
    ensures Agenda(Rebase(s)) == Agenda(s) == Agenda(Advance(s, d))
  {
  }

  // ---------------------------------------------------------------------------
  // Runs
  // ---------------------------------------------------------------------------

  datatype Step = AddStep(ev: nat, after: U32) | RemoveStep(ev: nat) | DispatchStep | RebaseStep | ClockStep(d: nat)

  /** What callers see to: delays below 2^31, a queue never emptied by a removal or dispatched from when
      empty, and no event left unattended for more than 2^31 cycles. */
  ghost predicate LegalStep(s: State, step: Step) {
    match step
    case AddStep(ev, after) => ev < PSXINT_COUNT && after < TWO31
    case RemoveStep(ev) => Without(s.q, ev) != []
    case DispatchStep => s.q != []
    case RebaseStep => true
    case ClockStep(d) => forall i :: 0 <= i < |s.q| && s.q[i] < |s.keys| ==> s.clock + d <= s.keys[s.q[i]].due + TWO31
  }

  function Next(s: State, step: Step): State
    requires |s.ics| == PSXINT_COUNT + 1 && |s.keys| == PSXINT_COUNT
  {
    match step
    case AddStep(ev, after) => if ev < PSXINT_COUNT then AddEvent(s, ev, after) else s
    case RemoveStep(ev) => RemoveEvent(s, ev)
    case DispatchStep => if s.q != [] then PopFront(s) else s
    case RebaseStep => Rebase(s)
    case ClockStep(d) => Advance(s, d)
  }

  lemma StepGood(s: State, step: Step)
    requires Good(s) && LegalStep(s, step)
    ensures Good(Next(s, step))
  {
    match step
    case AddStep(ev, after) => GoodIsGoodExcept(s, ev); AddGood(s, ev, after);
    case RemoveStep(ev) => RemoveGood(s, ev);
    case DispatchStep => PopGood(s);
    case RebaseStep => RebaseGood(s);
    case ClockStep(d) => AdvanceGood(s, d);
  }

  /** The agenda after a step, by the step alone; a dispatch takes `front`. */
  ghost function Planned(agenda: map<nat, int>, step: Step, clock: int, front: nat): map<nat, int> {
    match step
    case AddStep(ev, after) => agenda[ev := clock + after]
    case RemoveStep(ev) => agenda - {ev}
    case DispatchStep => agenda - {front}
    case RebaseStep => agenda
    case ClockStep(_) => agenda
  }

  /** Every step does to the agenda what it is for. */
  lemma StepAgenda(s: State, step: Step)
    requires Good(s) && LegalStep(s, step)
    ensures Agenda(Next(s, step)) == Planned(Agenda(s), step, s.clock, if s.q != [] then s.q[0] else 0)
  {
    match step
    case AddStep(ev, after) => GoodIsGoodExcept(s, ev); AddAgenda(s, ev, after);
    case RemoveStep(ev) => RemoveAgenda(s, ev);
    case DispatchStep => PopAgenda(s);
    case RebaseStep => ClockAgenda(s, 0);
    case ClockStep(d) => ClockAgenda(s, d);
  }

  ghost predicate QueueRun(ss: seq<State>, steps: seq<Step>) {
    && |ss| == |steps| + 1 && Good(ss[0])
    && forall i :: 0 <= i < |steps| ==>
         && |ss[i].ics| == PSXINT_COUNT + 1 && |ss[i].keys| == PSXINT_COUNT
         && LegalStep(ss[i], steps[i]) && ss[i + 1] == Next(ss[i], steps[i])
  }

  lemma LastStep(ss: seq<State>, steps: seq<Step>)
    requires QueueRun(ss, steps) && steps != []
    ensures var n := |steps| - 1;
            && QueueRun(ss[..n + 1], steps[..n])
            && |ss[n].ics| == PSXINT_COUNT + 1 && |ss[n].keys| == PSXINT_COUNT
            && LegalStep(ss[n], steps[n]) && ss[n + 1] == Next(ss[n], steps[n])
  {
    hide Good, LegalStep, Next;
  }

  /** Over every run of schedulings, removals, dispatches, rebases and passing time, the queue holds each
      event whose bit is set exactly once, sorted by true due time and arrival, and the 32-bit timestamps
      tell every event's true remaining time and whether it is due. */
  lemma {:induction false} RunGood(ss: seq<State>, steps: seq<Step>)
    requires QueueRun(ss, steps)
    ensures var s := ss[|steps|];
            && Good(s)
            && forall i :: 0 <= i < |s.q| ==>
                 && Remaining(s.ics[s.q[i]], s.cycle) == s.keys[s.q[i]].due - s.clock
                 && (DueTest(s.ics[s.q[i]], s.cycle) <==> s.keys[s.q[i]].due <= s.clock)
    decreases |steps|
  {
    if steps != [] {
      var n := |steps| - 1;
      LastStep(ss, steps);
      RunGood(ss[..n + 1], steps[..n]);
      StepGood(ss[n], steps[n]);
    }
    var s := ss[|steps|];
    forall i | 0 <= i < |s.q|
      ensures Remaining(s.ics[s.q[i]], s.cycle) == s.keys[s.q[i]].due - s.clock
      ensures DueTest(s.ics[s.q[i]], s.cycle) <==> s.keys[s.q[i]].due <= s.clock
    {
      TrueTime(s.ics[s.q[i]], s.cycle, s.keys[s.q[i]].due, s.clock);
    }
  }

  lemma GoodFormed(s: State)
    requires Good(s)
    ensures WellFormed(s)
  {
  }

  lemma LegalDispatch(s: State)
    requires LegalStep(s, DispatchStep)
    ensures s.q != []
  {
  }

  /** Over a run: every step does to the agenda what it is for, and a dispatch takes one of the events due first. */
  lemma RunAgenda(ss: seq<State>, steps: seq<Step>, i: nat)
    requires QueueRun(ss, steps) && i < |steps|
    ensures var s := ss[i];
            && Agenda(ss[i + 1]) == Planned(Agenda(s), steps[i], s.clock, if s.q != [] then s.q[0] else 0)
            && Agenda(s).Keys == s.interrupt
            && (steps[i].DispatchStep? ==>
                  s.q != [] && s.q[0] in Agenda(s) && forall e :: e in Agenda(s) ==> Agenda(s)[s.q[0]] <= Agenda(s)[e])
  {
    hide Good, LegalStep, Next, Planned, Agenda;
    RunGood(ss[..i + 1], steps[..i]);
    StepAgenda(ss[i], steps[i]);
    GoodFormed(ss[i]);
    AgendaIsInterrupt(ss[i]);
    if steps[i].DispatchStep? {
      LegalDispatch(ss[i]);
      PopAgenda(ss[i]);
    }
  }

  lemma RunLength(ss: seq<State>, steps: seq<Step>)
    requires QueueRun(ss, steps)
    ensures |ss| == |steps| + 1
  {
  }

  /** An event cancelled, and not scheduled again, is off the agenda for the rest of a run, and not dispatched. */
  lemma {:induction false} CancelledNotDispatched(ss: seq<State>, steps: seq<Step>, ev: nat, i: nat, j: nat)
    requires QueueRun(ss, steps) && i < |steps| && i < j < |ss| && steps[i] == RemoveStep(ev)
    requires forall k :: i < k < |steps| ==> !(steps[k].AddStep? && steps[k].ev == ev)
    ensures ev !in Agenda(ss[j])
    ensures j < |steps| && steps[j].DispatchStep? ==> ss[j].q != [] && ss[j].q[0] != ev
    decreases j
  {
    hide QueueRun, Agenda;
    RunLength(ss, steps);
    RunAgenda(ss, steps, j - 1);
    if i < j - 1 { CancelledNotDispatched(ss, steps, ev, i, j - 1); }
    if j < |steps| { RunAgenda(ss, steps, j); }
  }

  // ---------------------------------------------------------------------------
  // Due events
  // ---------------------------------------------------------------------------

  /** How many of the queued events are due. */
  ghost function DueCount(q: seq<nat>, keys: seq<Key>, clock: int): nat {
    if q == [] then 0
    else (if q[0] < |keys| && keys[q[0]].due <= clock then 1 else 0) + DueCount(q[1..], keys, clock)
  }

  lemma {:induction false} DueCountConcat(x: seq<nat>, y: seq<nat>, keys: seq<Key>, clock: int)
    ensures DueCount(x + y, keys, clock) == DueCount(x, keys, clock) + DueCount(y, keys, clock)
  {
    if x == [] {
      assert x + y == y;
    } else {
      assert (x + y)[1..] == x[1..] + y;
      DueCountConcat(x[1..], y, keys, clock);
    }
  }

  lemma {:induction false} DueCountOther(q: seq<nat>, keys: seq<Key>, clock: int, ev: nat, key: Key)
    requires ev < |keys| && Absent(q, ev)
    ensures DueCount(q, keys[ev := key], clock) == DueCount(q, keys, clock)
  {
    if q != [] {
      assert Absent(q[1..], ev) by { assert forall i :: 0 <= i < |q| - 1 ==> q[1..][i] == q[i + 1]; }
      DueCountOther(q[1..], keys, clock, ev, key);
    }
  }

  lemma {:induction false} DueCountWithout(q: seq<nat>, keys: seq<Key>, clock: int, ev: nat)
    ensures DueCount(Without(q, ev), keys, clock) <= DueCount(q, keys, clock)
  {
    if q != [] && q[0] != ev {
      DueCountWithout(q[1..], keys, clock, ev);
      assert ([q[0]] + Without(q[1..], ev))[1..] == Without(q[1..], ev);
    }
  }

  lemma DueCountInserted(q: seq<nat>, keys: seq<Key>, clock: int, p: nat, ev: nat)
    requires p <= |q| && ev < |keys|
    ensures DueCount(Inserted(q, p, ev), keys, clock) ==
            DueCount(q, keys, clock) + if keys[ev].due <= clock then 1 else 0
  {
    DueCountConcat(q[..p] + [ev], q[p..], keys, clock);
    DueCountConcat(q[..p], [ev], keys, clock);
    DueCountConcat(q[..p], q[p..], keys, clock);
    assert q == q[..p] + q[p..] && [ev][1..] == [];
    assert DueCount([ev], keys, clock) == if keys[ev].due <= clock then 1 else 0;
  }

  /** Scheduling an event adds a due event only if it is due at once. */
  lemma AddDue(s: State, ev: nat, after: U32)
    requires GoodExcept(s, ev) && ev < PSXINT_COUNT
    ensures var s' := AddEvent(s, ev, after);
            DueCount(s'.q, s'.keys, s'.clock) <= DueCount(s.q, s.keys, s.clock) + if after == 0 then 1 else 0
  {
    var rest, key := Without(s.q, ev), Key(s.clock + after, s.arrivals);
    WithoutProper(s.q, ev);
    DueCountWithout(s.q, s.keys, s.clock, ev);
    DueCountOther(rest, s.keys, s.clock, ev, key);
    DueCountInserted(rest, s.keys[ev := key], s.clock, InsertAt(rest, s.keys, s.clock + after), ev);
  }

  // ---------------------------------------------------------------------------
  // The queue in place
  // ---------------------------------------------------------------------------

  lemma InsertedFront(a: seq<nat>, a': seq<nat>, b: nat, e: nat, it: nat, ev: nat)
    requires |a| == |a'| && 0 < b <= it <= e <= |a|
    requires forall p {:trigger a'[p]} :: 0 <= p < |a| ==>
               a'[p] == if p == it - 1 then ev else if b - 1 <= p < it - 1 then a[p + 1] else a[p]
    ensures a'[b - 1..e] == Inserted(a[b..e], it - b, ev)
  {
    var l, r := a'[b - 1..e], Inserted(a[b..e], it - b, ev);
    forall k | 0 <= k < |l| ensures l[k] == r[k] {
      assert l[k] == a'[b - 1 + k];
      if k < it - b {
        assert r[k] == a[b + k];
      } else if k > it - b {
        assert r[k] == a[b..e][k - 1] == a[b + k - 1];
      }
    }
  }

  lemma InsertedBack(a: seq<nat>, a': seq<nat>, b: nat, e: nat, it: nat, ev: nat)
    requires |a| == |a'| && b <= it <= e < |a|
    requires forall p {:trigger a'[p]} :: 0 <= p < |a| ==>
               a'[p] == if p == it then ev else if it < p <= e then a[p - 1] else a[p]
    ensures a'[b..e + 1] == Inserted(a[b..e], it - b, ev)
  {
    var l, r := a'[b..e + 1], Inserted(a[b..e], it - b, ev);
    forall k | 0 <= k < |l| ensures l[k] == r[k] {
      assert l[k] == a'[b + k];
      if k < it - b {
        assert r[k] == a[b + k];
      } else if k > it - b {
        assert r[k] == a[b..e][k - 1] == a[b + k - 1];
      }
    }
  }

  lemma CutOut(a: seq<nat>, a': seq<nat>, b: nat, e: nat, it: nat)
    requires |a| == |a'| && b <= it <= e < |a|
    requires forall p {:trigger a'[p]} :: 0 <= p < |a| ==> a'[p] == if it <= p < e then a[p + 1] else a[p]
    ensures a'[b..e] == a[b..e + 1][..it - b] + a[b..e + 1][it - b + 1..]
  {
    var q := a[b..e + 1];
    var l, r := a'[b..e], q[..it - b] + q[it - b + 1..];
    forall k | 0 <= k < |l| ensures l[k] == r[k] {
      assert l[k] == a'[b + k];
      if k < it - b {
        assert r[k] == q[k] == a[b + k];
      } else {
        assert r[k] == q[k + 1] == a[b + k + 1];
      }
    }
  }

  function Below(bits: set<nat>, n: nat): set<nat> {
    set e | e in bits && e < n
  }

  /** The queue rebuilt from the bits below `n`. */
  ghost predicate Rebuilt(q: seq<nat>, n: nat, bits: set<nat>, ics: seq<IntCycle>, cycle: U32, keys: seq<Key>,
                          clock: int) {
    && Proper(q) && SortedByKey(q, keys) && Truthful(q, ics, cycle, keys, clock, PSXINT_COUNT)
    && (forall i :: 0 <= i < |q| ==> q[i] < n)
    && Elements(q) == Below(bits, n)
  }

  lemma RebuiltSorted(q: seq<nat>, ev: nat, keys: seq<Key>, at: nat, r: seq<nat>)
    requires ev < PSXINT_COUNT == |keys| && Proper(q) && SortedByKey(q, keys)
    requires forall e :: 0 <= e < PSXINT_COUNT ==> keys[e].stamp == e
    requires forall i :: 0 <= i < |q| ==> q[i] < ev
    requires at == InsertAt(q, keys, keys[ev].due) && PutAt(q, at, ev, r)
    ensures Proper(r) && SortedByKey(r, keys) && forall i :: 0 <= i < |r| ==> r[i] < ev + 1
  {
    assert keys[ev := keys[ev]] == keys;
    AddSorted(q, keys, ev, keys[ev], at, r, keys);
  }

  lemma BelowNext(bits: set<nat>, ev: nat)
    requires ev in bits
    ensures Below(bits, ev + 1) == Below(bits, ev) + {ev}
  {
  }

  lemma RebuiltElements(q: seq<nat>, ev: nat, bits: set<nat>, at: nat, r: seq<nat>)
    requires at <= |q| && ev in bits && Elements(q) == Below(bits, ev) && r == Inserted(q, at, ev)
    ensures Elements(r) == Below(bits, ev + 1)
  {
    ElementsInserted(q, at, ev);
    BelowNext(bits, ev);
  }

  lemma InsertedTruthful(q: seq<nat>, p: nat, ev: nat, ics: seq<IntCycle>, cycle: U32, keys: seq<Key>,
                         clock: int, arrivals: nat, r: seq<nat>)
    requires PutAt(q, p, ev, r) && Truthful(q, ics, cycle, keys, clock, arrivals)
    requires ev < |ics| && ev < |keys|
    requires InTime(ics[ev], cycle, keys[ev].due, clock) && keys[ev].stamp < arrivals
    ensures Truthful(r, ics, cycle, keys, clock, arrivals)
  {
  }

  lemma RebuiltStep(q: seq<nat>, ev: nat, bits: set<nat>, ics: seq<IntCycle>, cycle: U32, keys: seq<Key>, clock: int,
                    r: seq<nat>)
    requires ev < PSXINT_COUNT == |keys| && |ics| == PSXINT_COUNT + 1
    requires Rebuilt(q, ev, bits, ics, cycle, keys, clock)
    requires forall e :: 0 <= e < PSXINT_COUNT ==> keys[e].stamp == e
    requires ev in bits ==> InTime(ics[ev], cycle, keys[ev].due, clock)
    requires r == if ev in bits then Inserted(q, InsertAt(q, keys, keys[ev].due), ev) else q
    ensures Rebuilt(r, ev + 1, bits, ics, cycle, keys, clock)
  {
    hide Proper, SortedByKey, Truthful, InTime, PutAt, Inserted, InsertAt, Elements;
    if ev in bits {
      var at := InsertAt(q, keys, keys[ev].due);
      InsertedIsPut(q, at, ev);
      RebuiltSorted(q, ev, keys, at, r);
      InsertedTruthful(q, at, ev, ics, cycle, keys, clock, PSXINT_COUNT, r);
      RebuiltElements(q, ev, bits, at, r);
    } else {
      assert Below(bits, ev + 1) == Below(bits, ev);
    }
  }

  lemma RebuiltAll(q: seq<nat>, bits: set<nat>, ics: seq<IntCycle>, cycle: U32, keys: seq<Key>, clock: int)
    requires Rebuilt(q, PSXINT_COUNT, bits, ics, cycle, keys, clock)
    requires bits != {} && forall e :: e in bits ==> e < PSXINT_COUNT
    ensures Elements(q) == bits && q != [] && q[0] < PSXINT_COUNT
  {
    assert Below(bits, PSXINT_COUNT) == bits;
  }

  lemma RebuiltGood(s: State, ics: seq<IntCycle>)
    requires |ics| == PSXINT_COUNT + 1 == |s.ics| && s.ics == ics[NEXT_EVENT := s.ics[NEXT_EVENT]]
    requires |s.keys| == PSXINT_COUNT == s.arrivals && Elements(s.q) == s.interrupt
    requires Rebuilt(s.q, PSXINT_COUNT, s.interrupt, ics, s.cycle, s.keys, s.clock)
    ensures Good(s)
  {
  }

  lemma RebuiltNone(bits: set<nat>, ics: seq<IntCycle>, cycle: U32, keys: seq<Key>, clock: int)
    ensures Rebuilt([], 0, bits, ics, cycle, keys, clock)
  {
  }

  /** Scheduling an event leaves the entries of the others alone. */
  lemma OthersStay(q: seq<nat>, ics: seq<IntCycle>, cycle: U32, keys: seq<Key>, clock: int, arrivals: nat,
                   ev: nat, ics': seq<IntCycle>, keys': seq<Key>, due: int)
    requires ev < |keys| && Absent(q, ev) && SortedByKey(q, keys) && Truthful(q, ics, cycle, keys, clock, arrivals)
    requires |ics'| == |ics| && forall i :: 0 <= i < |ics| && i != ev ==> ics'[i] == ics[i]
    requires |keys'| == |keys| && keys' == keys[ev := keys'[ev]]
    ensures SortedByKey(q, keys') && Truthful(q, ics', cycle, keys', clock, arrivals)
    ensures InsertAt(q, keys', due) == InsertAt(q, keys, due)
  {
    InsertAtOther(q, keys, ev, keys'[ev], due);
  }

  class Queue {
    var queue: array<nat>
    var useBeginIdx: nat
    var useEndIdx: nat
    var intCycle: seq<IntCycle>
    var cycle: U32
    var interrupt: set<nat>
    var ioCycleCounter: U32

    ghost var clock: int
    ghost var keys: seq<Key>
    ghost var arrivals: nat

    ghost predicate Shape()
      reads this
    {
      && queue.Length == PSXINT_COUNT
      && useBeginIdx <= useEndIdx <= PSXINT_COUNT
      && |intCycle| == PSXINT_COUNT + 1 && |keys| == PSXINT_COUNT
    }

    /** The used part of the array. */
    ghost function Live(): seq<nat>
      requires Shape()
      reads this, queue
    {
      queue[useBeginIdx..useEndIdx]
    }

    ghost function Abs(): State
      requires Shape()
      reads this, queue
    {
      State(Live(), intCycle, cycle, interrupt, ioCycleCounter, clock, keys, arrivals)
    }

    constructor ()
      ensures Shape() && fresh(queue)
      ensures Abs().q == [] && Abs().cycle == 0 && Abs().clock == 0 && Good(Abs())
    {
      queue := new nat[PSXINT_COUNT];
      useBeginIdx, useEndIdx := 0, 0;
      intCycle := seq(PSXINT_COUNT + 1, i => IntCycle(0, 0));
      cycle, interrupt, ioCycleCounter := 0, {}, 0;
      clock, arrivals := 0, 0;
      keys := seq(PSXINT_COUNT, i => Key(0, 0));
    }

    /** `evqueueMoveTowardsBack` (src/psxevents.cpp:444-448): entries start..end move up one place. */
    method MoveTowardsBack(start: int, end: int)
      requires queue.Length == PSXINT_COUNT
      requires 0 <= start <= end + 1 < PSXINT_COUNT
      modifies queue
      ensures forall p {:trigger queue[p]} :: 0 <= p < PSXINT_COUNT ==>
                queue[p] == if start < p <= end + 1 then old(queue[p - 1]) else old(queue[p])
    {
      var ptr := end;
      while ptr >= start
        invariant start - 1 <= ptr <= end
        invariant forall p {:trigger queue[p]} :: 0 <= p < PSXINT_COUNT ==>
                    queue[p] == if ptr + 1 < p <= end + 1 then old(queue[p - 1]) else old(queue[p])
      {
        queue[ptr + 1] := queue[ptr];
        ptr := ptr - 1;
      }
    }

    /** `evqueueMoveTowardsFront` (src/psxevents.cpp:452-456): entries start..end move down one place. */
    method MoveTowardsFront(start: int, end: int)
      requires queue.Length == PSXINT_COUNT
      requires 1 <= start <= end + 1 <= PSXINT_COUNT
      modifies queue
      ensures forall p {:trigger queue[p]} :: 0 <= p < PSXINT_COUNT ==>
                queue[p] == if start - 1 <= p < end then old(queue[p + 1]) else old(queue[p])
    {
      var ptr := start;
      while ptr <= end
        invariant start <= ptr <= end + 1
        invariant forall p {:trigger queue[p]} :: 0 <= p < PSXINT_COUNT ==>
                    queue[p] == if start - 1 <= p < ptr - 1 then old(queue[p + 1]) else old(queue[p])
      {
        queue[ptr - 1] := queue[ptr];
        ptr := ptr + 1;
      }
    }

    /** `evqueueInsertFront` (src/psxevents.cpp:460-465): entries up to `pos` move down to make room. */
    method InsertFront(pos: nat, ev: nat)
      requires Shape() && 0 < useBeginIdx <= pos + 1 <= useEndIdx
      modifies queue, `useBeginIdx
      ensures Shape() && Live() == Inserted(old(Live()), pos + 1 - old(useBeginIdx), ev)
    {
      ghost var a, b := queue[..], useBeginIdx;
      MoveTowardsFront(useBeginIdx, pos);
      useBeginIdx := useBeginIdx - 1;
      queue[pos] := ev;
      InsertedFront(a, queue[..], b, useEndIdx, pos + 1, ev);
      assert queue[useBeginIdx..useEndIdx] == queue[..][useBeginIdx..useEndIdx];
      assert a[b..useEndIdx] == old(Live());
    }

    /** `evqueueInsertBack` (src/psxevents.cpp:469-474): entries from `pos` on move up to make room. */
    method InsertBack(pos: nat, ev: nat)
      requires Shape() && useBeginIdx <= pos <= useEndIdx < PSXINT_COUNT
      modifies queue, `useEndIdx
      ensures Shape() && Live() == Inserted(old(Live()), pos - useBeginIdx, ev)
    {
      ghost var a, e := queue[..], useEndIdx;
      MoveTowardsBack(pos, useEndIdx - 1);
      useEndIdx := useEndIdx + 1;
      queue[pos] := ev;
      InsertedBack(a, queue[..], useBeginIdx, e, pos, ev);
      assert queue[useBeginIdx..useEndIdx] == queue[..][useBeginIdx..useEndIdx];
      assert a[useBeginIdx..e] == old(Live());
    }

    /** `EventMoreImminent` (src/psxevents.cpp:316-325). */
    predicate EventMoreImminent(l: nat, r: nat)
      requires l < |intCycle| && r < |intCycle|
      reads this
    {
      Remaining(intCycle[l], cycle) < Remaining(intCycle[r], cycle)
    }

    /** The scan of `evqueueAdd` (src/psxevents.cpp:379-382): by 32-bit time it finds the place that
        true time gives the event. */
    method FindPlace(ev: nat) returns (it: nat)
      requires Shape() && Proper(Live()) && SortedByKey(Live(), keys)
      requires Truthful(Live(), intCycle, cycle, keys, clock, arrivals)
      requires ev < PSXINT_COUNT && InTime(intCycle[ev], cycle, keys[ev].due, clock)
      ensures useBeginIdx <= it <= useEndIdx
      ensures it - useBeginIdx == InsertAt(Live(), keys, keys[ev].due)
    {
      ghost var q := Live();
      TrueTime(intCycle[ev], cycle, keys[ev].due, clock);
      it := useBeginIdx;
      while it != useEndIdx && !EventMoreImminent(ev, queue[it])
        invariant useBeginIdx <= it <= useEndIdx
        invariant it < useEndIdx ==> queue[it] == q[it - useBeginIdx] && queue[it] < PSXINT_COUNT
        invariant forall i :: 0 <= i < it - useBeginIdx ==> keys[q[i]].due <= keys[ev].due
        decreases useEndIdx - it
      {
        TrueTime(intCycle[queue[it]], cycle, keys[queue[it]].due, clock);
        it := it + 1;
        assert it < useEndIdx ==> queue[it] == q[it - useBeginIdx];
      }
      if it != useEndIdx {
        TrueTime(intCycle[queue[it]], cycle, keys[queue[it]].due, clock);
      }
      InsertAtIs(q, keys, keys[ev].due, it - useBeginIdx);
    }

    /** `evqueueAdd` (src/psxevents.cpp:364-402) of an event that is not queued. */
    method Enqueue(ev: nat, ghost at: nat)
      requires Shape() && Proper(Live()) && SortedByKey(Live(), keys)
      requires Truthful(Live(), intCycle, cycle, keys, clock, arrivals)
      requires ev < PSXINT_COUNT && Absent(Live(), ev)
      requires InTime(intCycle[ev], cycle, keys[ev].due, clock) && at == InsertAt(Live(), keys, keys[ev].due)
      modifies queue, `useBeginIdx, `useEndIdx
      ensures Shape() && Live() == Inserted(old(Live()), at, ev)
    {
      hide Proper, SortedByKey, Truthful, InTime, Absent, InsertAt;
      QueueFits(Live(), ev);
      var it := FindPlace(ev);
      if useBeginIdx > 0 {
        InsertFront(it - 1, ev);
      } else {
        InsertBack(it, ev);
      }
    }

    /** `evqueueRemove` (src/psxevents.cpp:405-428). */
    method Dequeue(ev: nat)
      requires Shape()
      modifies queue, `useEndIdx
      ensures Shape() && Live() == Without(old(Live()), ev)
    {
      ghost var q := Live();
      var it := useBeginIdx;
      while it != useEndIdx && queue[it] != ev
        modifies {}
        invariant useBeginIdx <= it <= useEndIdx
        invariant forall i :: 0 <= i < it - useBeginIdx ==> q[i] != ev
        decreases useEndIdx - it
      {
        assert queue[it] == q[it - useBeginIdx];
        it := it + 1;
      }
      if it == useEndIdx {
        WithoutAbsent(q, ev);
        return;
      }
      ghost var a, p := queue[..], it - useBeginIdx;
      assert q[p] == ev && Absent(q[..p], q[p]);
      WithoutAt(q, p);
      useEndIdx := useEndIdx - 1;
      MoveTowardsFront(it + 1, useEndIdx);
      CutOut(a, queue[..], useBeginIdx, useEndIdx, it);
      assert queue[useBeginIdx..useEndIdx] == queue[..][useBeginIdx..useEndIdx];
      assert a[useBeginIdx..useEndIdx + 1] == q;
    }

    method At(p: nat) returns (ev: nat)
      requires Shape() && useBeginIdx <= p < useEndIdx
      ensures ev == Live()[p - useBeginIdx]
    {
      ev := queue[p];
    }

    /** `evqueueFront`. */
    method Front() returns (ev: nat)
      requires Shape() && Live() != []
      ensures ev == Live()[0]
    {
      ev := queue[useBeginIdx];
    }

    /** The copy of the front event's entry, and its deadline (src/psxevents.cpp:205-209, 231-235). */
    method CopyFront()
      requires Shape() && Live() != [] && Live()[0] < PSXINT_COUNT
      modifies `intCycle, `ioCycleCounter
      ensures Shape() && Abs() == ShowFront(old(Abs()))
    {
      var front := Front();
      intCycle := intCycle[NEXT_EVENT := intCycle[front]];
      ioCycleCounter := Deadline(intCycle[NEXT_EVENT]);
    }

    /** A queued event is taken out before it is scheduled anew (src/psxevents.cpp:198-199). */
    method TakeOut(ev: nat)
      requires Shape() && WellFormed(Abs())
      modifies queue, `useEndIdx
      ensures Shape() && Abs() == old(Abs()).(q := Without(old(Live()), ev))
    {
      ElementIn(Live(), ev);
      if ev in interrupt {
        Dequeue(ev);
      } else {
        WithoutAbsent(Live(), ev);
      }
    }

    /** The event's bit and timestamp (src/psxevents.cpp:201-203). */
    method Stamp(ev: nat, cyclesAfter: U32)
      requires Shape() && ev < PSXINT_COUNT
      modifies `interrupt, `intCycle, `keys
      ensures Shape() && Live() == old(Live())
      ensures interrupt == old(interrupt) + {ev} && intCycle == old(intCycle)[ev := IntCycle(cycle, cyclesAfter)]
      ensures keys == old(keys)[ev := Key(clock + cyclesAfter, arrivals)]
    {
      interrupt := interrupt + {ev};
      intCycle := intCycle[ev := IntCycle(cycle, cyclesAfter)];
      keys := keys[ev := Key(clock + cyclesAfter, arrivals)];
    }

    /** The event's bit and timestamp are set and it is put at its place (src/psxevents.cpp:201-204). */
    method PutIn(ev: nat, cyclesAfter: U32, ghost at: nat)
      requires Shape() && Proper(Live()) && Absent(Live(), ev) && SortedByKey(Live(), keys)
      requires Truthful(Live(), intCycle, cycle, keys, clock, arrivals)
      requires ev < PSXINT_COUNT && cyclesAfter < TWO31 && at == InsertAt(Live(), keys, clock + cyclesAfter)
      modifies queue, `useBeginIdx, `useEndIdx, `interrupt, `intCycle, `keys, `arrivals
      ensures Shape() && Live() == Inserted(old(Live()), at, ev)
      ensures interrupt == old(interrupt) + {ev} && intCycle == old(intCycle)[ev := IntCycle(cycle, cyclesAfter)]
      ensures keys == old(keys)[ev := Key(clock + cyclesAfter, old(arrivals))] && arrivals == old(arrivals) + 1
    {
      hide Proper, SortedByKey, Truthful, InsertAt, Absent, Inserted, InTime;
      ghost var q, ics, ks := Live(), intCycle, keys;
      Stamp(ev, cyclesAfter);
      assert InTime(intCycle[ev], cycle, keys[ev].due, clock) by {
        ScheduledInTime(cycle, cyclesAfter, clock);
      }
      OthersStay(q, ics, cycle, ks, clock, arrivals, ev, intCycle, keys, clock + cyclesAfter);
      Enqueue(ev, at);
      arrivals := arrivals + 1;
    }

    /** `psxEvqueueAdd` (src/psxevents.cpp:195-210).  The timestamp of `ev` may already be overwritten. */
    method Add(ev: nat, cyclesAfter: U32)
      requires Shape() && GoodExcept(Abs(), ev)
      requires ev < PSXINT_COUNT && cyclesAfter < TWO31
      modifies this, queue
      ensures queue == old(queue) && Shape() && Abs() == AddEvent(old(Abs()), ev, cyclesAfter)
      ensures Agenda(Abs()) == old(Agenda(Abs()))[ev := clock + cyclesAfter]
    {
      hide Proper, SortedByKey, Truthful, InTime, Absent, InsertAt, Without, Inserted;
      ghost var s, t := Abs(), Scheduled(Abs(), ev, cyclesAfter);
      TakeOut(ev);
      assert Proper(Live()) && Absent(Live(), ev) by { WithoutProper(s.q, ev); }
      PutIn(ev, cyclesAfter, InsertAt(Live(), keys, clock + cyclesAfter));
      assert Abs() == t;
      ScheduledFront(s, ev, cyclesAfter);
      CopyFront();
      AddAgenda(s, ev, cyclesAfter);
      hide Agenda, AddEvent;
    }

    /** `psxEvqueueRemove` (src/psxevents.cpp:212-236), called while another event stays queued. */
    method Remove(ev: nat)
      requires Shape() && Good(Abs())
      requires Without(Live(), ev) != []
      modifies queue, `useEndIdx, `interrupt, `intCycle, `ioCycleCounter
      ensures Shape() && Abs() == RemoveEvent(old(Abs()), ev)
      ensures ev !in interrupt && Absent(Live(), ev) && Agenda(Abs()) == old(Agenda(Abs())) - {ev}
    {
      ghost var s := Abs();
      RemoveAgenda(s, ev);
      if ev !in interrupt {
        ElementIn(s.q, ev);
        return;
      }
      WithoutProper(Live(), ev);
      interrupt := interrupt - {ev};
      Dequeue(ev);
      CopyFront();
    }

    /** The front event is taken out for dispatch (src/psxevents.cpp:248-250 and 430-440). */
    method RemoveFront() returns (ev: nat)
      requires Shape() && Good(Abs()) && Live() != []
      modifies `useBeginIdx, `interrupt
      ensures Shape() && ev == old(Live())[0] && Abs() == PopFront(old(Abs()))
      ensures Agenda(Abs()) == old(Agenda(Abs())) - {ev} && ev !in interrupt
    {
      PopAgenda(Abs());
      ev := Front();
      useBeginIdx := useBeginIdx + 1;
      interrupt := interrupt - {ev};
    }

    /** The CPU runs for `d` cycles. */
    method Run(d: nat)
      requires Shape()
      modifies `cycle, `clock
      ensures Shape() && Abs() == Advance(old(Abs()), d)
    {
      cycle := Wrap(cycle + d);
      clock := clock + d;
    }

    /** Every queued timestamp is set back (src/psxevents.cpp:188-190). */
    method ShiftQueued()
      requires Shape() && Proper(Live())
      modifies `intCycle
      ensures Shape() && intCycle == ShiftedUpTo(old(intCycle), Live(), |Live()|, cycle)
    {
      ghost var ics, q := intCycle, Live();
      var p := useBeginIdx;
      while p != useEndIdx
        invariant useBeginIdx <= p <= useEndIdx && Shape() && Live() == q
        invariant intCycle == ShiftedUpTo(ics, q, p - useBeginIdx, cycle)
        decreases useEndIdx - p
      {
        var ev := At(p);
        intCycle := intCycle[ev := Shifted(intCycle[ev], cycle)];
        p := p + 1;
      }
    }

    /** The rebase of `psxEvqueueResetCycleVal` (src/psxevents.cpp:153-159) with
        `psxEvqueueAdjustTimestamps` (src/psxevents.cpp:186-193): the cycle counter goes back to 0. */
    method RebaseCycle()
      requires Shape() && WellFormed(Abs())
      modifies `intCycle, `cycle
      ensures Shape() && Abs() == Rebase(old(Abs()))
    {
      hide Elements, Proper;
      ghost var s := Abs();
      ShiftQueued();
      intCycle := intCycle[NEXT_EVENT := Shifted(intCycle[NEXT_EVENT], cycle)];
      ShiftedIsRebase(s, intCycle);
      cycle := 0;
    }

    /** An event whose bit is saved is put back (src/psxevents.cpp:128-130). */
    method Requeue(ev: nat)
      requires Shape() && ev < PSXINT_COUNT && Rebuilt(Live(), ev, interrupt, intCycle, cycle, keys, clock)
      requires forall e :: 0 <= e < PSXINT_COUNT ==> keys[e].stamp == e
      requires arrivals == PSXINT_COUNT && (ev in interrupt ==> InTime(intCycle[ev], cycle, keys[ev].due, clock))
      modifies queue, `useBeginIdx, `useEndIdx
      ensures Shape() && Rebuilt(Live(), ev + 1, interrupt, intCycle, cycle, keys, clock)
    {
      ghost var q := Live();
      if ev in interrupt {
        Enqueue(ev, InsertAt(q, keys, keys[ev].due));
      }
      RebuiltStep(q, ev, interrupt, intCycle, cycle, keys, clock, Live());
    }

    /** Every event with a bit is queued again, at the due time its key has. */
    method RequeueAll()
      requires Shape() && Live() == [] && arrivals == PSXINT_COUNT
      requires forall e :: 0 <= e < PSXINT_COUNT ==> keys[e].stamp == e
      requires forall e :: 0 <= e < PSXINT_COUNT && e in interrupt ==> InTime(intCycle[e], cycle, keys[e].due, clock)
      modifies queue, `useBeginIdx, `useEndIdx
      ensures Shape() && Rebuilt(Live(), PSXINT_COUNT, interrupt, intCycle, cycle, keys, clock)
    {
      hide Rebuilt, InTime;
      RebuiltNone(interrupt, intCycle, cycle, keys, clock);
      for ev := 0 to PSXINT_COUNT
        invariant Shape() && Rebuilt(Live(), ev, interrupt, intCycle, cycle, keys, clock)
      {
        Requeue(ev);
      }
    }

    /** The rebuilding of the queue in `psxEvqueueInitFromFreeze` (src/psxevents.cpp:125-133) from a
        saved interrupt mask and timestamps that tell the truth about the due times `dues`. */
    method InitFromFreeze(ghost dues: seq<int>)
      requires Shape() && |dues| == PSXINT_COUNT
      requires interrupt != {} && forall ev :: ev in interrupt ==> ev < PSXINT_COUNT
      requires forall ev :: ev in interrupt ==> InTime(intCycle[ev], cycle, dues[ev], clock)
      modifies this, queue
      ensures queue == old(queue) && interrupt == old(interrupt) && cycle == old(cycle) && clock == old(clock)
      ensures Shape() && Good(Abs()) && FrontShown(Abs())
      ensures forall ev :: 0 <= ev < PSXINT_COUNT ==> intCycle[ev] == old(intCycle)[ev] && keys[ev].due == dues[ev]
    {
      hide Rebuilt, Good, InTime;
      useEndIdx, useBeginIdx := 0, 0;
      keys := seq(PSXINT_COUNT, i requires 0 <= i < PSXINT_COUNT => Key(dues[i], i));
      arrivals := PSXINT_COUNT;
      ghost var bits, ics := interrupt, intCycle;
      RequeueAll();
      RebuiltAll(Live(), bits, intCycle, cycle, keys, clock);
      var front := Front();
      intCycle := intCycle[NEXT_EVENT := intCycle[front]];
      RebuiltGood(Abs(), ics);
    }
  }
}
