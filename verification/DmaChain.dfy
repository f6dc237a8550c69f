/** The GPU's linked lists in memory (src/psxdma.cpp:100-137 and 234-266): the walk that measures a list, its
    detector of endless loops, which remembers only two addresses, and the builder of ordering tables. */
module DmaChain {
  import opened NatSets

  const END_OF_LIST: nat := 0xff_ffff

  const MAX_COMMANDS: nat := 2000000

  // ---------------------------------------------------------------------------
  // The loop detector
  // ---------------------------------------------------------------------------

  /** The address before, the last one reached by a step down, and the last one reached by a step not down. */
  datatype Used = Used(last: nat, down: nat, up: nat)

  function Noted(u: Used, x: nat): Used {
    if x < u.last then Used(x, x, u.up) else Used(x, u.down, x)
  }

  function UsedAfter(xs: seq<nat>): Used {
    if xs == [] then Used(END_OF_LIST, END_OF_LIST, END_OF_LIST)
    else Noted(UsedAfter(xs[..|xs| - 1]), xs[|xs| - 1])
  }

  /** The detector reports address `n` of a walk. */
  predicate Reports(xs: seq<nat>, n: nat)
    requires n < |xs|
  {
    var u := UsedAfter(xs[..n]);
    xs[n] == u.down || xs[n] == u.up
  }

  /** The step to address `i` goes down; the first address counts as reached from above. */
  predicate Down(xs: seq<nat>, i: nat)
    requires i < |xs|
  {
    i == 0 || xs[i] < xs[i - 1]
  }

  ghost predicate InRam(xs: seq<nat>) {
    forall i :: 0 <= i < |xs| ==> xs[i] < END_OF_LIST
  }

  /** `r` is the address that the last step of the given kind before `n` led to. */
  ghost predicate LastOfKind(xs: seq<nat>, n: nat, down: bool, r: nat)
    requires n <= |xs|
  {
    || (r == END_OF_LIST && forall i :: 0 <= i < n ==> Down(xs, i) != down)
    || exists m :: 0 <= m < n && r == xs[m] && Down(xs, m) == down && forall i :: m < i < n ==> Down(xs, i) != down
  }

  lemma LastOfKindStep(xs: seq<nat>, n: nat, down: bool, r: nat)
    requires n < |xs| && LastOfKind(xs, n, down, r)
    ensures LastOfKind(xs, n + 1, down, if Down(xs, n) == down then xs[n] else r)
  {
    if Down(xs, n) != down && !(r == END_OF_LIST && forall i :: 0 <= i < n ==> Down(xs, i) != down) {
      var m :| 0 <= m < n && r == xs[m] && Down(xs, m) == down && forall i :: m < i < n ==> Down(xs, i) != down;
      assert forall i :: m < i < n + 1 ==> Down(xs, i) != down;
    }
  }

  /** `u` is what is remembered of the first `n` addresses. */
  ghost predicate Remembers(xs: seq<nat>, n: nat, u: Used)
    requires n <= |xs|
  {
    && u.last == (if n == 0 then END_OF_LIST else xs[n - 1])
    && LastOfKind(xs, n, true, u.down) && LastOfKind(xs, n, false, u.up)
  }

  lemma NotedRemembers(xs: seq<nat>, n: nat, u: Used)
    requires InRam(xs) && n < |xs| && Remembers(xs, n, u)
    ensures Remembers(xs, n + 1, Noted(u, xs[n]))
  {
    hide LastOfKind;
    LastOfKindStep(xs, n, true, u.down);
    LastOfKindStep(xs, n, false, u.up);
  }

  lemma {:induction false} UsedIs(xs: seq<nat>, n: nat)
    requires InRam(xs) && n <= |xs|
    ensures var u := UsedAfter(xs[..n]);
            && u.last == (if n == 0 then END_OF_LIST else xs[n - 1])
            && LastOfKind(xs, n, true, u.down) && LastOfKind(xs, n, false, u.up)
  {
    hide Noted, InRam;
    if n > 0 {
      UsedIs(xs, n - 1);
      assert xs[..n][..n - 1] == xs[..n - 1];
      NotedRemembers(xs, n - 1, UsedAfter(xs[..n - 1]));
    }
  }

  /** A report is never false: the address was visited before. */
  lemma ReportsVisited(xs: seq<nat>, n: nat)
    requires InRam(xs) && n < |xs| && Reports(xs, n)
    ensures exists m :: 0 <= m < n && xs[m] == xs[n]
  {
    UsedIs(xs, n);
  }

  // ---------------------------------------------------------------------------
  // Walks that run into a cycle
  // ---------------------------------------------------------------------------

  /** After `tail` distinct addresses the walk goes round a cycle of `len` distinct addresses. */
  ghost predicate Cyclic(xs: seq<nat>, tail: nat, len: nat) {
    && 0 < len && tail + len <= |xs|
    && (forall i, j :: 0 <= i < j < tail + len ==> xs[i] != xs[j])
    && (forall i :: tail + len <= i < |xs| ==> xs[i] == xs[i - len])
  }

  /** How many of the steps to addresses `a` to `b - 1` are of the given kind. */
  function Count(xs: seq<nat>, a: nat, b: nat, down: bool): nat
    requires b <= |xs|
    decreases b
  {
    if b <= a then 0 else Count(xs, a, b - 1, down) + if Down(xs, b - 1) == down then 1 else 0
  }

  lemma {:induction false} CountSplit(xs: seq<nat>, a: nat, b: nat, down: bool)
    requires a < b <= |xs|
    ensures Count(xs, a, b, down) == Count(xs, a + 1, b, down) + if Down(xs, a) == down then 1 else 0
  {
    if a + 1 < b { CountSplit(xs, a, b - 1, down); }
  }

  lemma {:induction false} CountNone(xs: seq<nat>, a: nat, b: nat, down: bool)
    requires a <= b <= |xs|
    ensures Count(xs, a, b, down) == 0 <==> forall i :: a <= i < b ==> Down(xs, i) != down
  {
    if a < b { CountNone(xs, a, b - 1, down); }
  }

  /** Once round the cycle there are as many steps of a kind from wherever one starts. */
  lemma {:induction false} CountRound(xs: seq<nat>, tail: nat, len: nat, a: nat, down: bool)
    requires Cyclic(xs, tail, len) && tail < a && a + len <= |xs| && tail + 1 + len <= |xs|
    ensures Count(xs, a, a + len, down) == Count(xs, tail + 1, tail + 1 + len, down)
    decreases a
  {
    if a > tail + 1 {
      CountRound(xs, tail, len, a - 1, down);
      CountSplit(xs, a - 1, a - 1 + len, down);
      assert xs[a - 1 + len] == xs[a - 1] && xs[a - 2 + len] == xs[a - 2];
      assert Down(xs, a - 1 + len) == Down(xs, a - 1);
    }
  }

  /** Between two visits of an address lies the rest of the cycle. */
  lemma {:induction false} VisitsApart(xs: seq<nat>, tail: nat, len: nat, m: nat, n: nat)
    requires Cyclic(xs, tail, len) && m < n < |xs| && xs[m] == xs[n]
    ensures tail + len <= n && m + len <= n
    decreases n
  {
    if n >= tail + len {
      assert xs[n - len] == xs[n];
      if m >= tail + len {
        assert xs[m - len] == xs[m];
        VisitsApart(xs, tail, len, m - len, n - len);
      }
    }
  }

  /** The kinds of step once round the cycle. */
  ghost function Steps(xs: seq<nat>, tail: nat, len: nat, down: bool): nat
    requires tail + 1 + len <= |xs|
  {
    Count(xs, tail + 1, tail + 1 + len, down)
  }

  lemma NoOtherStep(xs: seq<nat>, tail: nat, len: nat, d: nat, down: bool)
    requires Cyclic(xs, tail, len) && tail < d && d + len < |xs| && tail + 1 + len <= |xs|
    requires Steps(xs, tail, len, down) == 1 && Down(xs, d) == down
    ensures forall i :: d < i < d + len ==> Down(xs, i) != down
  {
    CountRound(xs, tail, len, d, down);
    CountSplit(xs, d, d + len, down);
    CountNone(xs, d + 1, d + len, down);
  }

  lemma LastKnown(xs: seq<nat>, d: nat, n: nat, down: bool)
    requires InRam(xs) && d < n < |xs| && Down(xs, d) == down && forall i :: d < i < n ==> Down(xs, i) != down
    ensures xs[d] == if down then UsedAfter(xs[..n]).down else UsedAfter(xs[..n]).up
  {
    UsedIs(xs, n);
    var u := UsedAfter(xs[..n]);
    var r := if down then u.down else u.up;
    assert LastOfKind(xs, n, down, r);
    var m :| 0 <= m < n && r == xs[m] && Down(xs, m) == down && forall i :: m < i < n ==> Down(xs, i) != down;
    assert m == d;
  }

  /** A cycle with exactly one step of a kind is reported at the latest when that step is taken again. */
  lemma LoneStepReported(xs: seq<nat>, tail: nat, len: nat, down: bool) returns (n: nat)
    requires Cyclic(xs, tail, len) && InRam(xs) && tail + 2 * len < |xs|
    requires Steps(xs, tail, len, down) == 1
    ensures n <= tail + 2 * len && Reports(xs, n)
  {
    CountNone(xs, tail + 1, tail + 1 + len, down);
    var d :| tail + 1 <= d < tail + 1 + len && Down(xs, d) == down;
    NoOtherStep(xs, tail, len, d, down);
    n := d + len;
    LastKnown(xs, d, n, down);
    assert xs[n] == xs[d];
  }

  /** If an address was last reached, by a step of a kind, as long ago as its visit `m`, then once round the cycle
      there is at most one step of that kind. */
  lemma LongSince(xs: seq<nat>, tail: nat, len: nat, m: nat, n: nat, down: bool)
    requires Cyclic(xs, tail, len) && m < n < |xs| && xs[m] == xs[n] && tail + len < |xs|
    requires forall i :: m < i < n ==> Down(xs, i) != down
    ensures Steps(xs, tail, len, down) <= 1
  {
    VisitsApart(xs, tail, len, m, n);
    CountRound(xs, tail, len, n + 1 - len, down);
    CountNone(xs, n + 1 - len, n, down);
  }

  /** A cycle with at least two steps of each kind is never reported. */
  lemma MixedStepsUnreported(xs: seq<nat>, tail: nat, len: nat, n: nat)
    requires Cyclic(xs, tail, len) && InRam(xs) && tail + len < |xs| && n < |xs|
    requires Steps(xs, tail, len, true) >= 2 && Steps(xs, tail, len, false) >= 2
    ensures !Reports(xs, n)
  {
    if Reports(xs, n) {
      UsedIs(xs, n);
      var u := UsedAfter(xs[..n]);
      var down := xs[n] == u.down;
      assert LastOfKind(xs, n, down, xs[n]);
      var m :| 0 <= m < n && xs[n] == xs[m] && Down(xs, m) == down && forall i :: m < i < n ==> Down(xs, i) != down;
      LongSince(xs, tail, len, m, n, down);
    }
  }

  lemma {:induction false} Monotone(xs: seq<nat>, a: nat, b: nat, down: bool)
    requires 0 < a <= b < |xs| && forall i :: a < i <= b ==> Down(xs, i) == down
    ensures if down then xs[b] <= xs[a] && (a < b ==> xs[b] < xs[a]) else xs[a] <= xs[b]
    decreases b
  {
    if a < b {
      Monotone(xs, a, b - 1, down);
      assert Down(xs, b) == down;
    }
  }

  lemma SomeStep(xs: seq<nat>, tail: nat, len: nat, down: bool)
    requires Cyclic(xs, tail, len) && tail + len < |xs| && len > 1
    ensures Steps(xs, tail, len, down) > 0
  {
    CountNone(xs, tail + 1, tail + 1 + len, down);
    if Steps(xs, tail, len, down) == 0 {
      assert xs[tail + len] == xs[tail] && xs[tail] != xs[tail + 1];
      assert Down(xs, tail + 1) == !down;
      Monotone(xs, tail + 1, tail + len, !down);
    }
  }

  /** Only a cycle of one address has no step of some kind. */
  lemma BothKinds(xs: seq<nat>, tail: nat, len: nat)
    requires Cyclic(xs, tail, len) && tail + len < |xs|
    ensures Steps(xs, tail, len, true) == 0 || Steps(xs, tail, len, false) == 0 ==> len == 1
    ensures len == 1 ==> Steps(xs, tail, len, false) == 1
  {
    assert xs[tail + len] == xs[tail];
    if len == 1 {
      assert !Down(xs, tail + 1);
      assert Count(xs, tail + 1, tail + 1, false) == 0;
    } else {
      SomeStep(xs, tail, len, true);
      SomeStep(xs, tail, len, false);
    }
  }

  /** Exactly the cycles with a single step down or a single step not down are reported; the others go on until the
      walk gives up. */
  lemma DetectorExact(xs: seq<nat>, tail: nat, len: nat)
    requires Cyclic(xs, tail, len) && InRam(xs) && tail + 2 * len < |xs|
    ensures (exists n :: 0 <= n < |xs| && Reports(xs, n)) <==>
            Steps(xs, tail, len, true) == 1 || Steps(xs, tail, len, false) == 1
    ensures (exists n :: 0 <= n < |xs| && Reports(xs, n)) ==> exists n :: 0 <= n <= tail + 2 * len && Reports(xs, n)
  {
    BothKinds(xs, tail, len);
    if Steps(xs, tail, len, true) == 1 {
      var n := LoneStepReported(xs, tail, len, true);
    } else if Steps(xs, tail, len, false) == 1 {
      var n := LoneStepReported(xs, tail, len, false);
    } else {
      forall n | 0 <= n < |xs| ensures !Reports(xs, n) {
        MixedStepsUnreported(xs, tail, len, n);
      }
    }
  }

  // ---------------------------------------------------------------------------
  // The walk
  // ---------------------------------------------------------------------------

  type Word = x: nat | x < 0x1_0000_0000

  /** Two megabytes in words. */
  const RAM_WORDS: nat := 0x8_0000

  /** `addr & 0x1ffffc`. */
  function Masked(addr: nat): (x: nat)
    ensures x % 4 == 0 && x < 0x20_0000 && x <= addr % 0x20_0000 < x + 4
  {
    addr % 0x20_0000 / 4 * 4
  }

  /** The pointer in the list node at `x`, and the number of words it carries. */
  function Pointer(ram: seq<Word>, x: nat): nat
    requires x / 4 < |ram|
  {
    ram[x / 4] % 0x100_0000
  }

  function Carries(ram: seq<Word>, x: nat): (n: nat)
    requires x / 4 < |ram|
    ensures ram[x / 4] == 0x100_0000 * n + Pointer(ram, x) && Pointer(ram, x) < 0x100_0000 && n < 0x100
  {
    ram[x / 4] / 0x100_0000
  }

  predicate Linked(ram: seq<Word>, x: nat, y: nat)
    requires x / 4 < |ram|
  {
    Pointer(ram, x) != END_OF_LIST && y == Masked(Pointer(ram, x))
  }

  /** The addresses visited from `addr` on, the list not having ended before the last. */
  ghost predicate IsWalk(ram: seq<Word>, addr: nat, xs: seq<nat>) {
    && |ram| == RAM_WORDS && xs != [] && xs[0] == Masked(addr)
    && (forall i :: 0 <= i < |xs| ==> xs[i] / 4 < |ram|)
    && (forall i {:trigger xs[i]} :: 0 < i < |xs| ==> Linked(ram, xs[i - 1], xs[i]))
  }

  ghost predicate Ends(ram: seq<Word>, addr: nat, xs: seq<nat>) {
    IsWalk(ram, addr, xs) && Pointer(ram, xs[|xs| - 1]) == END_OF_LIST
  }

  /** The words of the nodes visited, a pointer each and what they carry. */
  function Words(ram: seq<Word>, xs: seq<nat>): nat
    requires forall i :: 0 <= i < |xs| ==> xs[i] / 4 < |ram|
  {
    if xs == [] then 0
    else Words(ram, xs[..|xs| - 1]) + Carries(ram, xs[|xs| - 1]) + 1
  }

  lemma WalkInRam(ram: seq<Word>, addr: nat, xs: seq<nat>)
    requires IsWalk(ram, addr, xs)
    ensures InRam(xs)
  {
  }

  /** Two walks over the same list agree as far as both go. */
  lemma {:induction false} WalksAgree(ram: seq<Word>, addr: nat, xs: seq<nat>, ys: seq<nat>, i: nat)
    requires IsWalk(ram, addr, xs) && IsWalk(ram, addr, ys) && i < |xs| && i < |ys|
    ensures xs[i] == ys[i]
  {
    if i > 0 { WalksAgree(ram, addr, xs, ys, i - 1); }
  }

  lemma LinkedAt(ram: seq<Word>, addr: nat, xs: seq<nat>, n: nat)
    requires IsWalk(ram, addr, xs) && 0 < n < |xs|
    ensures xs[n - 1] / 4 < |ram| && Linked(ram, xs[n - 1], xs[n])
  {
  }

  lemma LinkedOnce(ram: seq<Word>, x: nat, y: nat, z: nat)
    requires x / 4 < |ram| && Linked(ram, x, y) && Linked(ram, x, z)
    ensures y == z
  {
  }

  lemma {:induction false} SameOnwards(ram: seq<Word>, addr: nat, xs: seq<nat>, i: nat, j: nat, k: nat)
    requires IsWalk(ram, addr, xs) && i < j && j + k < |xs| && xs[i] == xs[j]
    ensures xs[i + k] == xs[j + k]
  {
    hide IsWalk, Linked;
    if k > 0 {
      SameOnwards(ram, addr, xs, i, j, k - 1);
      LinkedAt(ram, addr, xs, i + k);
      LinkedAt(ram, addr, xs, j + k);
      LinkedOnce(ram, xs[i + k - 1], xs[i + k], xs[j + k]);
    }
  }

  lemma GoesOn(ram: seq<Word>, addr: nat, xs: seq<nat>, i: nat)
    requires IsWalk(ram, addr, xs) && i + 1 < |xs|
    ensures Pointer(ram, xs[i]) != END_OF_LIST
  {
    assert xs[i + 1] == Masked(Pointer(ram, xs[i]));
  }

  /** A list that ends visits no address twice, so the detector never reports. */
  lemma EndingUnreported(ram: seq<Word>, addr: nat, xs: seq<nat>)
    requires Ends(ram, addr, xs)
    ensures forall i, j :: 0 <= i < j < |xs| ==> xs[i] != xs[j]
    ensures forall n :: 0 <= n < |xs| ==> !Reports(xs, n)
  {
    forall i, j | 0 <= i < j < |xs| ensures xs[i] != xs[j] {
      if xs[i] == xs[j] {
        GoesOn(ram, addr, xs, i + |xs| - 1 - j);
        SameOnwards(ram, addr, xs, i, j, |xs| - 1 - j);
      }
    }
    forall n | 0 <= n < |xs| ensures !Reports(xs, n) {
      if Reports(xs, n) { ReportsVisited(xs, n); }
    }
  }

  predicate Aligned(x: nat) {
    x % 4 == 0
  }

  lemma MaskedAligned(addr: nat)
    ensures Aligned(Masked(addr))
  {
  }

  /** Distinct word addresses of RAM are no more than the RAM has words. */
  lemma DistinctFit(xs: seq<nat>, words: nat)
    requires forall i :: 0 <= i < |xs| ==> Aligned(xs[i]) && xs[i] / 4 < words
    requires forall i, j :: 0 <= i < j < |xs| ==> xs[i] != xs[j]
    ensures |xs| <= words
  {
    var quarters := seq(|xs|, i requires 0 <= i < |xs| => xs[i] / 4);
    forall i, j | 0 <= i < j < |xs| ensures quarters[i] != quarters[j] {
      assert xs[i] == 4 * quarters[i] && xs[j] == 4 * quarters[j];
    }
    DistinctBelow(quarters, words);
  }

  /** What `gpuDmaChainSize` finds: the walk until the list ends, the next address is reported, or more nodes
      than allowed have been visited. */
  ghost predicate Measured(ram: seq<Word>, addr: nat, size: nat, xs: seq<nat>) {
    && IsWalk(ram, addr, xs) && |xs| <= MAX_COMMANDS + 1 && size == 1 + Words(ram, xs)
    && (forall n :: 0 <= n < |xs| ==> !Reports(xs, n))
    && var p := Pointer(ram, xs[|xs| - 1]);
       p == END_OF_LIST || |xs| == MAX_COMMANDS + 1 || Reports(xs + [Masked(p)], |xs|)
  }

  lemma NotReportedEarly(ram: seq<Word>, addr: nat, xs: seq<nat>, ys: seq<nat>)
    requires IsWalk(ram, addr, xs) && IsWalk(ram, addr, ys) && |xs| < |ys| && xs == ys[..|xs|]
    requires !Reports(ys, |xs|)
    ensures !Reports(xs + [Masked(Pointer(ram, xs[|xs| - 1]))], |xs|)
  {
    var x := Masked(Pointer(ram, xs[|xs| - 1]));
    assert ys[|xs|] == x;
    assert (xs + [x])[..|xs|] == xs;
  }

  lemma MeasuredNoShorter(ram: seq<Word>, addr: nat, size: nat, xs: seq<nat>, size': nat, ys: seq<nat>)
    requires Measured(ram, addr, size, xs) && Measured(ram, addr, size', ys)
    ensures |xs| >= |ys|
  {
    if |xs| < |ys| {
      forall i | 0 <= i < |xs| ensures xs[i] == ys[i] { WalksAgree(ram, addr, xs, ys, i); }
      GoesOn(ram, addr, ys, |xs| - 1);
      NotReportedEarly(ram, addr, xs, ys);
    }
  }

  /** What is found is determined by the memory and the address. */
  lemma MeasuredOnce(ram: seq<Word>, addr: nat, size: nat, xs: seq<nat>, size': nat, xs': seq<nat>)
    requires Measured(ram, addr, size, xs) && Measured(ram, addr, size', xs')
    ensures xs == xs' && size == size'
  {
    MeasuredNoShorter(ram, addr, size, xs, size', xs');
    MeasuredNoShorter(ram, addr, size', xs', size, xs);
    forall i | 0 <= i < |xs| ensures xs[i] == xs'[i] { WalksAgree(ram, addr, xs, xs', i); }
  }

  lemma EndingFits(ram: seq<Word>, addr: nat, ys: seq<nat>)
    requires Ends(ram, addr, ys)
    ensures |ys| <= RAM_WORDS
  {
    EndingUnreported(ram, addr, ys);
    forall i | 0 <= i < |ys| ensures Aligned(ys[i]) {
      MaskedAligned(if i == 0 then addr else Pointer(ram, ys[i - 1]));
    }
    DistinctFit(ys, |ram|);
  }

  /** A list that ends is measured whole. */
  lemma EndingMeasured(ram: seq<Word>, addr: nat, size: nat, xs: seq<nat>, ys: seq<nat>)
    requires Measured(ram, addr, size, xs) && Ends(ram, addr, ys)
    ensures xs == ys && size == 1 + Words(ram, ys)
  {
    EndingUnreported(ram, addr, ys);
    EndingFits(ram, addr, ys);
    forall i | 0 <= i < |xs| && i < |ys| ensures xs[i] == ys[i] {
      WalksAgree(ram, addr, xs, ys, i);
    }
    if |xs| > |ys| {
      GoesOn(ram, addr, xs, |ys| - 1);
    } else if |xs| < |ys| {
      GoesOn(ram, addr, ys, |xs| - 1);
      NotReportedEarly(ram, addr, xs, ys);
    }
  }

  lemma WalksPrefix(ram: seq<Word>, addr: nat, xs: seq<nat>, ys: seq<nat>, n: nat)
    requires IsWalk(ram, addr, xs) && IsWalk(ram, addr, ys) && n < |xs| && n < |ys|
    ensures Reports(xs, n) == Reports(ys, n)
  {
    forall i | 0 <= i <= n ensures xs[i] == ys[i] { WalksAgree(ram, addr, xs, ys, i); }
    assert xs[..n] == ys[..n];
  }

  /** A list that loops with a single step of some kind is left at the latest after the second round. */
  lemma LoneLoopLeft(ram: seq<Word>, addr: nat, size: nat, xs: seq<nat>, ys: seq<nat>, tail: nat, len: nat)
    requires Measured(ram, addr, size, xs) && IsWalk(ram, addr, ys) && Cyclic(ys, tail, len) && tail + 2 * len < |ys|
    requires Steps(ys, tail, len, true) == 1 || Steps(ys, tail, len, false) == 1
    ensures |xs| <= tail + 2 * len
  {
    WalkInRam(ram, addr, ys);
    var n := LoneStepReported(ys, tail, len, Steps(ys, tail, len, true) == 1);
    if |xs| > tail + 2 * len { WalksPrefix(ram, addr, xs, ys, n); }
  }

  /** Any other loop is left only when more nodes than allowed have been visited. */
  lemma MixedLoopRunsOut(ram: seq<Word>, addr: nat, size: nat, xs: seq<nat>, ys: seq<nat>, tail: nat, len: nat)
    requires Measured(ram, addr, size, xs) && IsWalk(ram, addr, ys) && |ys| == MAX_COMMANDS + 2
    requires Cyclic(ys, tail, len) && tail + len < |ys|
    requires Steps(ys, tail, len, true) != 1 && Steps(ys, tail, len, false) != 1
    ensures |xs| == MAX_COMMANDS + 1
  {
    WalkInRam(ram, addr, ys);
    BothKinds(ys, tail, len);
    MixedStepsUnreported(ys, tail, len, |xs|);
    GoesOn(ram, addr, ys, |xs| - 1);
    forall i | 0 <= i < |xs| ensures xs[i] == ys[i] { WalksAgree(ram, addr, xs, ys, i); }
    NotReportedEarly(ram, addr, xs, ys);
  }

  /** A memory whose list loops over the words at 0, 8, 4 and 12, and its walk. */
  function LoopMemory(): (ram: seq<Word>)
    ensures |ram| == RAM_WORDS
  {
    seq(RAM_WORDS, i => if i == 0 then 8 else if i == 2 then 4 else if i == 1 then 12 else 0)
  }

  function LoopAt(i: nat): nat {
    if i < 4 then [0, 8, 4, 12][i] else LoopAt(i - 4)
  }

  function LoopWalk(n: nat): seq<nat> {
    seq(n, i requires 0 <= i < n => LoopAt(i))
  }

  lemma {:induction false} LoopStep(i: nat)
    ensures LoopAt(i) / 4 < RAM_WORDS && Linked(LoopMemory(), LoopAt(i), LoopAt(i + 1))
  {
    if i >= 4 {
      LoopStep(i - 4);
    } else {
      assert LoopAt(4) == LoopAt(0);
    }
  }

  lemma LoopWalks(n: nat)
    requires n > 8
    ensures IsWalk(LoopMemory(), 0, LoopWalk(n))
  {
    var ram, xs := LoopMemory(), LoopWalk(n);
    forall i | 0 <= i < |xs| ensures xs[i] / 4 < |ram| { LoopStep(i); }
    forall i {:trigger xs[i]} | 0 < i < |xs| ensures Linked(ram, xs[i - 1], xs[i]) {
      LoopStep(i - 1);
    }
  }

  lemma LoopCyclic(xs: seq<nat>)
    requires |xs| > 8 && forall i :: 0 <= i < |xs| ==> xs[i] == LoopAt(i)
    ensures Cyclic(xs, 0, 4)
  {
    assert xs[0] == 0 && xs[1] == 8 && xs[2] == 4 && xs[3] == 12;
    forall i, j | 0 <= i < j < 4 ensures xs[i] != xs[j] {
      assert i == 0 || i == 1 || i == 2;
    }
  }

  lemma LoopKinds(xs: seq<nat>)
    requires |xs| > 8 && xs[0] == 0 && xs[1] == 8 && xs[2] == 4 && xs[3] == 12 && xs[4] == 0
    ensures Steps(xs, 0, 4, true) == 2 == Steps(xs, 0, 4, false)
  {
    assert Down(xs, 4) && !Down(xs, 3) && Down(xs, 2) && !Down(xs, 1);
    assert Count(xs, 1, 2, true) == 0 && Count(xs, 1, 2, false) == 1;
    assert Count(xs, 1, 3, true) == 1 && Count(xs, 1, 3, false) == 1;
    assert Count(xs, 1, 4, true) == 1 && Count(xs, 1, 4, false) == 2;
  }

  /** The walk over that memory is never reported: it runs into the limit. */
  lemma UnreportedLoop(size: nat, xs: seq<nat>)
    requires Measured(LoopMemory(), 0, size, xs)
    ensures |xs| == MAX_COMMANDS + 1 && forall n :: 0 <= n < |xs| ==> !Reports(xs, n)
  {
    LoopWalks(MAX_COMMANDS + 2);
    LoopCyclic(LoopWalk(MAX_COMMANDS + 2));
    LoopKinds(LoopWalk(MAX_COMMANDS + 2));
    MixedLoopRunsOut(LoopMemory(), 0, size, xs, LoopWalk(MAX_COMMANDS + 2), 0, 4);
  }

  /** `CheckForEndlessLoop` (src/psxdma.cpp:100-110). */
  method CheckForEndlessLoop(laddr: nat, lUsedAddr: array<nat>, ghost xs: seq<nat>) returns (loop: bool)
    requires lUsedAddr.Length == 3
    requires Used(lUsedAddr[0], lUsedAddr[1], lUsedAddr[2]) == UsedAfter(xs)
    modifies lUsedAddr
    ensures loop <==> Reports(xs + [laddr], |xs|)
    ensures !loop ==> Used(lUsedAddr[0], lUsedAddr[1], lUsedAddr[2]) == UsedAfter(xs + [laddr])
  {
    assert (xs + [laddr])[..|xs|] == xs;
    if laddr == lUsedAddr[1] { return true; }
    if laddr == lUsedAddr[2] { return true; }
    if laddr < lUsedAddr[0] {
      lUsedAddr[1] := laddr;
    } else {
      lUsedAddr[2] := laddr;
    }
    lUsedAddr[0] := laddr;
    return false;
  }

  /** Between nodes: `xs` have been visited and counted, and the next is at `addr`. */
  ghost predicate Walking(ram: seq<Word>, start: nat, xs: seq<nat>, addr: nat, size: nat) {
    && |ram| == RAM_WORDS && |xs| <= MAX_COMMANDS + 1
    && (if xs == [] then addr == start
        else IsWalk(ram, start, xs) && addr == Pointer(ram, xs[|xs| - 1]))
    && (forall i :: 0 <= i < |xs| ==> xs[i] / 4 < |ram|)
    && size == 1 + Words(ram, xs)
    && (forall n :: 0 <= n < |xs| ==> !Reports(xs, n))
  }

  lemma MaskedInRam(addr: nat)
    ensures Masked(addr) / 4 < RAM_WORDS
  {
  }

  lemma WalkOn(ram: seq<Word>, start: nat, xs: seq<nat>, x: nat)
    requires x / 4 < |ram| == RAM_WORDS
    requires if xs == [] then x == Masked(start) else IsWalk(ram, start, xs) && Linked(ram, xs[|xs| - 1], x)
    ensures IsWalk(ram, start, xs + [x])
  {
    var ys := xs + [x];
    forall i {:trigger ys[i]} | 0 < i < |ys| ensures Linked(ram, ys[i - 1], ys[i]) {
      if i < |xs| {
        assert ys[i - 1] == xs[i - 1] && ys[i] == xs[i];
      }
    }
  }

  lemma UnreportedOn(xs: seq<nat>, x: nat)
    requires forall n :: 0 <= n < |xs| ==> !Reports(xs, n)
    requires !Reports(xs + [x], |xs|)
    ensures forall n :: 0 <= n <= |xs| ==> !Reports(xs + [x], n)
  {
    forall n | 0 <= n < |xs| ensures !Reports(xs + [x], n) {
      assert (xs + [x])[..n] == xs[..n] && (xs + [x])[n] == xs[n];
      assert !Reports(xs, n);
    }
  }

  lemma VisitOne(ram: seq<Word>, start: nat, xs: seq<nat>, addr: nat, size: nat, x: nat)
    requires Walking(ram, start, xs, addr, size) && x == Masked(addr) && |xs| <= MAX_COMMANDS
    requires xs != [] ==> addr != END_OF_LIST
    requires !Reports(xs + [x], |xs|)
    ensures x / 4 < |ram|
    ensures Walking(ram, start, xs + [x], Pointer(ram, x), size + Carries(ram, x) + 1)
  {
    MaskedInRam(addr);
    WalkOn(ram, start, xs, x);
    UnreportedOn(xs, x);
    assert (xs + [x])[..|xs|] == xs;
  }

  /** `gpuDmaChainSize` (src/psxdma.cpp:112-137). */
  method GpuDmaChainSize(ram: array<Word>, start: nat) returns (size: nat, ghost xs: seq<nat>)
    requires ram.Length == RAM_WORDS
    ensures Measured(ram[..], start, size, xs)
  {
    var lUsedAddr := new nat[3](_ => END_OF_LIST);
    ghost var mem := ram[..];
    var addr, dmaCommandCounter := start, 0;
    size, xs := 1, [];
    while true
      invariant fresh(lUsedAddr) && lUsedAddr.Length == 3 && ram[..] == mem
      invariant Used(lUsedAddr[0], lUsedAddr[1], lUsedAddr[2]) == UsedAfter(xs)
      invariant Walking(mem, start, xs, addr, size) && dmaCommandCounter == |xs|
      invariant xs != [] ==> addr != END_OF_LIST
      decreases MAX_COMMANDS + 1 - dmaCommandCounter
    {
      ghost var before := addr;
      addr := Masked(addr);
      if dmaCommandCounter > MAX_COMMANDS { break; }
      dmaCommandCounter := dmaCommandCounter + 1;
      var loop := CheckForEndlessLoop(addr, lUsedAddr, xs);
      if loop { break; }
      assert (xs + [addr])[..|xs|] == xs;
      VisitOne(mem, start, xs, before, size, addr);
      xs := xs + [addr];
      size := size + ram[addr / 4] / 0x100_0000;
      addr := ram[addr / 4] % 0x100_0000;
      size := size + 1;
      if addr == END_OF_LIST { break; }
    }
  }

  // ---------------------------------------------------------------------------
  // Ordering tables
  // ---------------------------------------------------------------------------

  /** The word of the ordering table `i` words below its head. */
  function TableWord(madr: nat, bcr: nat, i: nat): Word {
    if i + 1 == bcr then END_OF_LIST else (madr + 0x1_0000_0000 - 4 * (i + 1)) % 0x100_0000
  }

  /** `psxDma6` (src/psxdma.cpp:234-266), for a word-aligned address and a table inside RAM: `bcr` words from the head
      down, each pointing to the one below, the last one ending the list.  With `bcr` 0 it ends the list in the
      word above the head. */
  method PsxDma6(ram: array<Word>, madr: nat, bcr: nat)
    requires ram.Length == RAM_WORDS && madr < 0x1_0000_0000 && madr % 4 == 0
    requires bcr <= madr % 0x20_0000 / 4 + 1 && (bcr == 0 ==> madr % 0x20_0000 / 4 + 1 < RAM_WORDS)
    modifies ram
    ensures var head := madr % 0x20_0000 / 4;
            if bcr == 0 then ram[..] == old(ram[..])[head + 1 := END_OF_LIST]
            else forall k :: 0 <= k < RAM_WORDS ==>
                   ram[k] == if head - bcr < k <= head then TableWord(madr, bcr, head - k) else old(ram[k])
  {
    var head := madr % 0x20_0000 / 4;
    var mem: int, adr: int, left := head, madr, bcr;
    while left != 0
      invariant 0 <= left <= bcr && mem == head - (bcr - left) && adr == madr - 4 * (bcr - left)
      invariant forall k :: 0 <= k < RAM_WORDS ==>
                  ram[k] == if mem < k <= head then (madr + 0x1_0000_0000 - 4 * (head - k + 1)) % 0x100_0000
                            else old(ram[k])
    {
      left := left - 1;
      ram[mem] := (adr + 0x1_0000_0000 - 4) % 0x100_0000;
      mem := mem - 1;
      adr := adr - 4;
    }
    mem := mem + 1;
    ram[mem] := END_OF_LIST;
  }

  /** The addresses of an ordering table. */
  function TableWalk(head: nat, bcr: nat): seq<nat>
    requires bcr <= head + 1
  {
    seq(bcr, i requires 0 <= i < bcr => 4 * (head - i))
  }

  /** The pointer word leads one word down. */
  lemma TablePointer(madr: nat, i: nat)
    requires madr < 0x1_0000_0000 && madr % 4 == 0 && i + 1 <= madr % 0x20_0000 / 4
    ensures var w := (madr + 0x1_0000_0000 - 4 * (i + 1)) % 0x100_0000;
            w != END_OF_LIST && Masked(w) == 4 * (madr % 0x20_0000 / 4 - (i + 1))
  {
    var q, head := madr / 0x20_0000, madr % 0x20_0000 / 4;
    assert madr == 0x20_0000 * q + 4 * head;
    var a, b, low := (q + 2048) / 8, (q + 2048) % 8, 4 * (head - (i + 1));
    assert madr + 0x1_0000_0000 - 4 * (i + 1) == 0x100_0000 * a + (0x20_0000 * b + low);
    var w := 0x20_0000 * b + low;
    assert (0x100_0000 * a + w) % 0x100_0000 == w;
    assert w % 0x20_0000 == low;
  }

  lemma TableLinked(ram: seq<Word>, madr: nat, bcr: nat, i: nat)
    requires |ram| == RAM_WORDS && madr < 0x1_0000_0000 && madr % 4 == 0
    requires 0 < i < bcr <= madr % 0x20_0000 / 4 + 1
    requires var head := madr % 0x20_0000 / 4; ram[head - (i - 1)] == TableWord(madr, bcr, i - 1)
    ensures var head := madr % 0x20_0000 / 4; Linked(ram, 4 * (head - (i - 1)), 4 * (head - i))
  {
    TablePointer(madr, i - 1);
  }

  /** No node of an ordering table carries anything. */
  lemma {:induction false} TableEmpty(ram: seq<Word>, madr: nat, bcr: nat, n: nat)
    requires |ram| == RAM_WORDS && n <= bcr <= madr % 0x20_0000 / 4 + 1 && madr < 0x1_0000_0000
    requires var head := madr % 0x20_0000 / 4;
             forall k :: head - bcr < k <= head ==> ram[k] == TableWord(madr, bcr, head - k)
    ensures var ys := TableWalk(madr % 0x20_0000 / 4, bcr)[..n];
            (forall i :: 0 <= i < |ys| ==> ys[i] / 4 < |ram|) && Words(ram, ys) == n
  {
    var head := madr % 0x20_0000 / 4;
    var ys := TableWalk(head, bcr)[..n];
    if n > 0 {
      TableEmpty(ram, madr, bcr, n - 1);
      assert ys[..n - 1] == TableWalk(head, bcr)[..n - 1];
      assert ys[n - 1] == 4 * (head - (n - 1)) && ys[n - 1] / 4 == head - (n - 1);
      assert Carries(ram, ys[n - 1]) == 0;
    }
  }

  lemma TableShape(ram: seq<Word>, madr: nat, bcr: nat, head: nat, ys: seq<nat>)
    requires |ram| == RAM_WORDS && madr % 4 == 0 && head == madr % 0x20_0000 / 4
    requires 1 <= bcr <= head + 1 && ys == TableWalk(head, bcr)
    requires ram[head - (bcr - 1)] == TableWord(madr, bcr, bcr - 1)
    ensures ys[0] == Masked(madr) && forall i :: 0 <= i < |ys| ==> ys[i] / 4 < |ram|
    ensures Pointer(ram, ys[bcr - 1]) == END_OF_LIST
  {
    assert ys[bcr - 1] / 4 == head - (bcr - 1);
  }

  /** An ordering table is a list that ends after `bcr` nodes, all empty. */
  lemma TableEnds(ram: seq<Word>, madr: nat, bcr: nat)
    requires |ram| == RAM_WORDS && madr < 0x1_0000_0000 && madr % 4 == 0
    requires 1 <= bcr <= madr % 0x20_0000 / 4 + 1
    requires var head := madr % 0x20_0000 / 4;
             forall k :: head - bcr < k <= head ==> ram[k] == TableWord(madr, bcr, head - k)
    ensures var ys := TableWalk(madr % 0x20_0000 / 4, bcr);
            Ends(ram, madr, ys) && Words(ram, ys) == bcr
  {
    hide TableWord, Linked;
    var head := madr % 0x20_0000 / 4;
    var ys := TableWalk(head, bcr);
    forall i {:trigger ys[i]} | 0 < i < |ys| ensures Linked(ram, ys[i - 1], ys[i]) {
      TableLinked(ram, madr, bcr, i);
    }
    TableShape(ram, madr, bcr, head, ys);
    TableEmpty(ram, madr, bcr, bcr);
    assert ys[..bcr] == ys;
  }

  /** So the walk over it counts `bcr` pointers and the one that led to it. */
  lemma TableMeasured(ram: seq<Word>, madr: nat, bcr: nat, size: nat, xs: seq<nat>)
    requires |ram| == RAM_WORDS && madr < 0x1_0000_0000 && madr % 4 == 0
    requires 1 <= bcr <= madr % 0x20_0000 / 4 + 1
    requires var head := madr % 0x20_0000 / 4;
             forall k :: head - bcr < k <= head ==> ram[k] == TableWord(madr, bcr, head - k)
    requires Measured(ram, madr, size, xs)
    ensures size == bcr + 1 && |xs| == bcr
  {
    TableEnds(ram, madr, bcr);
    EndingMeasured(ram, madr, size, xs, TableWalk(madr % 0x20_0000 / 4, bcr));
  }
}
