/** The HLE BIOS heap: `InitHeap`, `malloc` and `free` (src/psxbios.cpp:824-989).

    RAM is an array of 32-bit words.  A chunk is a header word followed by its
    payload; the header is the payload size in bytes, a multiple of four, with
    bit 0 set while the chunk is free.  Addresses and sizes below count words. */
module BiosHeap {

  type Word = x: int | 0 <= x < 0x1_0000_0000

  const RAM_WORDS: nat := 0x80000

  datatype Chunk = Chunk(free: bool, words: nat)

  function Header(c: Chunk): int {
    4 * c.words + if c.free then 1 else 0
  }

  lemma HeaderSize(c: Chunk)
    ensures Header(c) / 4 == c.words
    ensures Header(c) % 4 == if c.free then 1 else 0
  {
  }

  lemma HeaderFlag(c: Chunk)
    ensures Header(c) % 2 == if c.free then 1 else 0
  {
    var h := Header(c);
    assert h / 2 == 2 * c.words;
    assert h == h / 2 * 2 + h % 2;
  }

  /** The fields `malloc` reads back from a header. */
  lemma HeaderFields(c: Chunk)
    ensures Header(c) / 4 == c.words
    ensures Header(c) % 4 == if c.free then 1 else 0
    ensures Header(c) % 2 == if c.free then 1 else 0
  {
    HeaderFlag(c);
    HeaderSize(c);
  }

  /** The words taken by a list of chunks, headers included. */
  function Span(cs: seq<Chunk>): nat {
    if cs == [] then 0 else 1 + cs[0].words + Span(cs[1..])
  }

  /** The headers found from `at` on are those of `cs`, and they end exactly at `end`. */
  ghost predicate Tiles(m: seq<Word>, at: nat, end: nat, cs: seq<Chunk>)
    decreases |cs|
  {
    if cs == [] then at == end
    else at < end <= |m| && m[at] == Header(cs[0]) && Tiles(m, at + 1 + cs[0].words, end, cs[1..])
  }

  /** No chunk has the header 0, which `malloc` takes for a heap not yet laid out. */
  ghost predicate NoZeroHeader(cs: seq<Chunk>) {
    forall k :: 0 <= k < |cs| ==> Header(cs[k]) != 0
  }

  /** A first header of 0 is a heap still to be laid out, as one free chunk. */
  ghost function LaidOut(m: seq<Word>, at: nat, end: nat): seq<Word>
    requires at < end <= |m| <= RAM_WORDS
  {
    if m[at] == 0 then m[at := Header(Chunk(true, end - at - 1))] else m
  }

  /** `cs` is what the heap [at, end) holds. */
  ghost predicate Represents(m: seq<Word>, at: nat, end: nat, cs: seq<Chunk>) {
    && at < end <= |m| <= RAM_WORDS
    && Tiles(LaidOut(m, at, end), at, end, cs) && NoZeroHeader(cs)
  }

  /** Word `p` belongs to an allocated chunk, as its header or in its payload. */
  ghost predicate Protected(cs: seq<Chunk>, at: nat, p: nat) {
    cs != [] && ((!cs[0].free && at <= p <= at + cs[0].words) || Protected(cs[1..], at + 1 + cs[0].words, p))
  }

  /** The allocated blocks: payload address to payload size. */
  ghost function Blocks(cs: seq<Chunk>, at: nat): map<nat, nat> {
    if cs == [] then map[]
    else
      var rest := Blocks(cs[1..], at + 1 + cs[0].words);
      if cs[0].free then rest else rest[at + 1 := cs[0].words]
  }

  // ---------------------------------------------------------------------------
  // Lists of chunks
  // ---------------------------------------------------------------------------

  lemma {:induction false} SpanConcat(x: seq<Chunk>, y: seq<Chunk>)
    ensures Span(x + y) == Span(x) + Span(y)
  {
    if x == [] {
      assert x + y == y;
    } else {
      assert (x + y)[1..] == x[1..] + y;
      SpanConcat(x[1..], y);
    }
  }

  lemma {:induction false} TilesSpan(m: seq<Word>, at: nat, end: nat, cs: seq<Chunk>)
    requires Tiles(m, at, end, cs)
    ensures end == at + Span(cs)
    decreases |cs|
  {
    if cs != [] { TilesSpan(m, at + 1 + cs[0].words, end, cs[1..]); }
  }

  lemma {:induction false} TilesConcat(m: seq<Word>, at: nat, end: nat, x: seq<Chunk>, y: seq<Chunk>)
    requires end <= |m|
    ensures Tiles(m, at, end, x + y) <==>
            Tiles(m, at, at + Span(x), x) && Tiles(m, at + Span(x), end, y)
    decreases |x|
  {
    if x == [] {
      assert x + y == y;
    } else {
      assert (x + y)[1..] == x[1..] + y;
      var next := at + 1 + x[0].words;
      TilesConcat(m, next, end, x[1..], y);
      if Tiles(m, at + Span(x), end, y) { TilesSpan(m, at + Span(x), end, y); }
    }
  }

  lemma {:induction false} TilesFrame(m: seq<Word>, m': seq<Word>, at: nat, end: nat, cs: seq<Chunk>)
    requires Tiles(m, at, end, cs) && |m| == |m'|
    requires forall p :: at <= p < end && p < |m| ==> m[p] == m'[p]
    ensures Tiles(m', at, end, cs)
    decreases |cs|
  {
    if cs != [] { TilesFrame(m, m', at + 1 + cs[0].words, end, cs[1..]); }
  }

  lemma {:induction false} ProtectedConcat(x: seq<Chunk>, y: seq<Chunk>, at: nat, p: nat)
    ensures Protected(x + y, at, p) <==> Protected(x, at, p) || Protected(y, at + Span(x), p)
    decreases |x|
  {
    if x == [] {
      assert x + y == y;
    } else {
      assert (x + y)[1..] == x[1..] + y;
      ProtectedConcat(x[1..], y, at + 1 + x[0].words, p);
    }
  }

  /** Protected words lie inside the span of the list. */
  lemma {:induction false} ProtectedBounds(cs: seq<Chunk>, at: nat, p: nat)
    ensures Protected(cs, at, p) ==> at <= p < at + Span(cs)
    decreases |cs|
  {
    if cs != [] { ProtectedBounds(cs[1..], at + 1 + cs[0].words, p); }
  }

  lemma {:induction false} BlocksConcat(x: seq<Chunk>, y: seq<Chunk>, at: nat)
    ensures Blocks(x + y, at) == Blocks(y, at + Span(x)) + Blocks(x, at)
    decreases |x|
  {
    if x == [] {
      assert x + y == y;
    } else {
      assert (x + y)[1..] == x[1..] + y;
      BlocksConcat(x[1..], y, at + 1 + x[0].words);
    }
  }

  /** Blocks lie inside the span of their list, header included, and apart from one another. */
  lemma {:induction false} BlocksApart(cs: seq<Chunk>, at: nat)
    ensures forall a :: a in Blocks(cs, at) ==> at < a && a + Blocks(cs, at)[a] <= at + Span(cs)
    ensures forall a, b :: a in Blocks(cs, at) && b in Blocks(cs, at) && a < b ==> a + Blocks(cs, at)[a] < b
    decreases |cs|
  {
    if cs != [] { BlocksApart(cs[1..], at + 1 + cs[0].words); }
  }

  /** Word `p` is the header or a payload word of one of the blocks. */
  ghost predicate Covers(blocks: map<nat, nat>, p: nat) {
    exists a :: a in blocks && a - 1 <= p < a + blocks[a]
  }

  /** A word is protected exactly when a block covers it. */
  lemma {:induction false} ProtectedIsBlock(cs: seq<Chunk>, at: nat, p: nat)
    ensures Protected(cs, at, p) <==> Covers(Blocks(cs, at), p)
    decreases |cs|
  {
    if cs != [] {
      var next := at + 1 + cs[0].words;
      var all, rest := Blocks(cs, at), Blocks(cs[1..], next);
      ProtectedIsBlock(cs[1..], next, p);
      BlocksApart(cs[1..], next);
      if Covers(rest, p) {
        var a :| a in rest && a - 1 <= p < a + rest[a];
        assert a in all && a - 1 <= p < a + all[a];
      }
      if Covers(all, p) {
        var a :| a in all && a - 1 <= p < a + all[a];
        assert a in rest ==> rest[a] == all[a];
        assert Protected(cs, at, p);
      }
      if !cs[0].free && at <= p <= at + cs[0].words {
        assert at + 1 in all && all[at + 1] == cs[0].words;
      }
    }
  }

  /** Word `p` is a payload word of one of the blocks. */
  ghost predicate InPayload(blocks: map<nat, nat>, p: nat) {
    exists a :: a in blocks && a <= p < a + blocks[a]
  }

  /** Memory changed inside the heap [at, end) only in the payload of the blocks, and outside anywhere. */
  ghost predicate PayloadOnly(m: seq<Word>, m': seq<Word>, cs: seq<Chunk>, at: nat, end: nat) {
    && |m| == |m'|
    && forall p :: at <= p < end && p < |m| && m'[p] != m[p] ==> InPayload(Blocks(cs, at), p)
  }

  lemma PayloadOnlyRest(m: seq<Word>, m': seq<Word>, cs: seq<Chunk>, at: nat, end: nat)
    requires cs != [] && at < end <= |m| && PayloadOnly(m, m', cs, at, end)
    ensures m'[at] == m[at] && PayloadOnly(m, m', cs[1..], at + 1 + cs[0].words, end)
  {
    var next, all := at + 1 + cs[0].words, Blocks(cs, at);
    var rest := Blocks(cs[1..], next);
    BlocksApart(cs, at);
    assert !InPayload(all, at);
    forall p | next <= p < end && m'[p] != m[p] ensures InPayload(rest, p) {
      var a :| a in all && a <= p < a + all[a];
      assert a in rest && rest[a] == all[a];
    }
  }

  lemma {:induction false} PayloadKeepsTiles(m: seq<Word>, m': seq<Word>, at: nat, end: nat, cs: seq<Chunk>)
    requires Tiles(m, at, end, cs) && PayloadOnly(m, m', cs, at, end)
    ensures Tiles(m', at, end, cs)
    decreases |cs|
  {
    if cs != [] {
      PayloadOnlyRest(m, m', cs, at, end);
      PayloadKeepsTiles(m, m', at + 1 + cs[0].words, end, cs[1..]);
    }
  }

  lemma LaidOutAlone(m: seq<Word>, at: nat, end: nat, cs: seq<Chunk>)
    requires Represents(m, at, end, cs) && m[at] == 0
    ensures Blocks(cs, at) == map[]
  {
    HeaderSize(cs[0]);
    HeaderSize(Chunk(true, end - at - 1));
    assert cs[0] == Chunk(true, end - at - 1);
    assert Tiles(LaidOut(m, at, end), end, end, cs[1..]);
    assert cs[1..] == [] && Blocks(cs[1..], end) == map[];
  }

  /** Whatever clients write into the payload of their blocks, and anyone outside the heap, the heap stays what it
      is. */
  lemma ClientWritesKeepHeap(m: seq<Word>, m': seq<Word>, at: nat, end: nat, cs: seq<Chunk>)
    requires Represents(m, at, end, cs) && PayloadOnly(m, m', cs, at, end)
    ensures Represents(m', at, end, cs)
  {
    PayloadOnlyRest(m, m', cs, at, end);
    if m[at] == 0 {
      LaidOutAlone(m, at, end, cs);
      TilesFrame(LaidOut(m, at, end), LaidOut(m', at, end), at, end, cs);
    } else {
      PayloadKeepsTiles(m, m', at, end, cs);
    }
  }

  /** Memory changed only inside the heap [at, end), and there only in its free chunks. */
  ghost predicate FreeOnly(m: seq<Word>, m': seq<Word>, cs: seq<Chunk>, at: nat, end: nat) {
    && |m| == |m'|
    && forall p :: 0 <= p < |m| && m'[p] != m[p] ==> at <= p < end && !Protected(cs, at, p)
  }

  lemma FreeOnlyChain(m: seq<Word>, m': seq<Word>, m'': seq<Word>, cs: seq<Chunk>, at: nat, end: nat)
    requires FreeOnly(m, m', cs, at, end) && FreeOnly(m', m'', cs, at, end)
    ensures FreeOnly(m, m'', cs, at, end)
  {
  }

  // ---------------------------------------------------------------------------
  // Coalescing
  // ---------------------------------------------------------------------------

  /** The list with its first two chunks merged. */
  function MergeFirst(cs: seq<Chunk>): (ms: seq<Chunk>)
    requires |cs| >= 2
  {
    [Chunk(true, cs[0].words + 1 + cs[1].words)] + cs[2..]
  }

  /** What the first pass of `malloc` makes of the list: adjacent free chunks become one,
      their headers joining the payload. */
  function Coalesce(cs: seq<Chunk>): seq<Chunk>
    decreases |cs|
  {
    if |cs| < 2 then cs
    else if cs[0].free && cs[1].free then
      Coalesce(MergeFirst(cs))
    else [cs[0]] + Coalesce(cs[1..])
  }

  ghost predicate NoFreeNeighbours(cs: seq<Chunk>) {
    forall k :: 0 <= k < |cs| - 1 ==> !(cs[k].free && cs[k + 1].free)
  }

  lemma {:induction false} CoalesceHasNoFreeNeighbours(cs: seq<Chunk>)
    ensures NoFreeNeighbours(Coalesce(cs))
    ensures cs != [] ==> Coalesce(cs) != [] && Coalesce(cs)[0].free == cs[0].free
    decreases |cs|
  {
    if |cs| >= 2 {
      if cs[0].free && cs[1].free {
        CoalesceHasNoFreeNeighbours(MergeFirst(cs));
      } else {
        CoalesceHasNoFreeNeighbours(cs[1..]);
      }
    }
  }

  /** Coalescing keeps the extent of the heap and every allocated block where it is. */
  lemma {:induction false} CoalesceKeeps(cs: seq<Chunk>, at: nat)
    ensures Span(Coalesce(cs)) == Span(cs)
    ensures Blocks(Coalesce(cs), at) == Blocks(cs, at)
    ensures NoZeroHeader(cs) ==> NoZeroHeader(Coalesce(cs))
    decreases |cs|
  {
    if |cs| >= 2 {
      if cs[0].free && cs[1].free {
        var merged := MergeFirst(cs);
        CoalesceKeeps(merged, at);
        assert merged[1..] == cs[2..] == cs[1..][1..];
      } else {
        CoalesceKeeps(cs[1..], at + 1 + cs[0].words);
        assert Coalesce(cs)[1..] == Coalesce(cs[1..]);
        assert NoZeroHeader(cs) ==> NoZeroHeader(cs[1..]);
      }
    }
  }

  lemma CoalesceKeepsProtected(cs: seq<Chunk>, at: nat, p: nat)
    ensures Protected(Coalesce(cs), at, p) == Protected(cs, at, p)
  {
    CoalesceKeeps(cs, at);
    ProtectedIsBlock(cs, at, p);
    ProtectedIsBlock(Coalesce(cs), at, p);
  }

  /** Chunks [i, j) of the list are all free, and merged they would have `words` payload words. */
  ghost predicate FreeRun(cs: seq<Chunk>, i: nat, j: nat, words: nat) {
    && i < j <= |cs|
    && (forall k :: i <= k < j ==> cs[k].free)
    && Span(cs[i..j]) == 1 + words
  }

  ghost predicate HasRun(cs: seq<Chunk>, d: nat) {
    exists i: nat, j: nat, w: nat :: FreeRun(cs, i, j, w) && d <= w
  }

  ghost predicate HasFit(cs: seq<Chunk>, d: nat) {
    exists k :: 0 <= k < |cs| && cs[k].free && d <= cs[k].words
  }

  lemma SpanSlice(cs: seq<Chunk>, i: nat, j: nat, k: nat)
    requires i <= j <= k <= |cs|
    ensures Span(cs[i..k]) == Span(cs[i..j]) + Span(cs[j..k])
  {
    assert cs[i..k] == cs[i..j] + cs[j..k];
    SpanConcat(cs[i..j], cs[j..k]);
  }

  lemma MergeFirstSpan(cs: seq<Chunk>, j: nat)
    requires |cs| >= 2 && 1 <= j < |cs|
    ensures Span(MergeFirst(cs)[0..j]) == Span(cs[0..j + 1])
  {
    var ms := MergeFirst(cs);
    assert ms[0..j] == [ms[0]] + cs[2..j + 1] && cs[0..j + 1] == [cs[0], cs[1]] + cs[2..j + 1];
    SpanConcat([ms[0]], cs[2..j + 1]);
    SpanConcat([cs[0], cs[1]], cs[2..j + 1]);
    assert [cs[0], cs[1]][1..] == [cs[1]] && [cs[1]][1..] == [] && [ms[0]][1..] == [];
  }

  lemma MergedTail(cs: seq<Chunk>, i: nat, j: nat)
    requires |cs| >= 2 && 1 <= i <= j < |cs|
    ensures MergeFirst(cs)[i..j] == cs[i + 1..j + 1]
  {
    var x, y := MergeFirst(cs)[i..j], cs[i + 1..j + 1];
    forall k | 0 <= k < j - i ensures x[k] == y[k] {
      assert x[k] == MergeFirst(cs)[i + k] == cs[2..][i + k - 1] == cs[i + k + 1];
    }
  }

  lemma RunUnmerge(cs: seq<Chunk>, i: nat, j: nat, w: nat)
    requires |cs| >= 2 && cs[0].free && cs[1].free
    requires FreeRun(MergeFirst(cs), i, j, w)
    ensures FreeRun(cs, if i == 0 then 0 else i + 1, j + 1, w)
  {
    var ms := MergeFirst(cs);
    if i > 0 {
      MergedTail(cs, i, j);
    } else {
      MergeFirstSpan(cs, j);
    }
    forall k | (if i == 0 then 0 else i + 1) <= k < j + 1 ensures cs[k].free {
      if k >= 2 { assert ms[k - 1].free; }
    }
  }

  lemma RunRemerge(cs: seq<Chunk>, i: nat, j: nat, w: nat) returns (w': nat)
    requires |cs| >= 2 && cs[0].free && cs[1].free
    requires FreeRun(cs, i, j, w)
    ensures w <= w'
    ensures FreeRun(MergeFirst(cs), if i < 2 then 0 else i - 1, if j < 2 then 1 else j - 1, w')
  {
    var ms := MergeFirst(cs);
    forall k | 1 <= k < |ms| && i <= k + 1 < j ensures ms[k].free { assert cs[k + 1].free; }
    if i >= 2 {
      w' := w;
      MergedTail(cs, i - 1, j - 1);
    } else {
      var J := if j < 2 then 2 else j;
      SpanSlice(cs, 0, i, J);
      SpanSlice(cs, i, j, J);
      MergeFirstSpan(cs, J - 1);
      w' := Span(cs[0..J]) - 1;
    }
  }

  /** Merging the first two chunks neither loses nor gains room for a request. */
  lemma RunMerge(cs: seq<Chunk>, d: nat)
    requires |cs| >= 2 && cs[0].free && cs[1].free
    ensures HasRun(MergeFirst(cs), d) <==> HasRun(cs, d)
  {
    if HasRun(MergeFirst(cs), d) {
      var i: nat, j: nat, w: nat :| FreeRun(MergeFirst(cs), i, j, w) && d <= w;
      RunUnmerge(cs, i, j, w);
    }
    if HasRun(cs, d) {
      var i: nat, j: nat, w: nat :| FreeRun(cs, i, j, w) && d <= w;
      var w' := RunRemerge(cs, i, j, w);
    }
  }

  lemma SliceTail(cs: seq<Chunk>, i: nat, j: nat)
    requires 0 < i <= j <= |cs|
    ensures cs[i..j] == cs[1..][i - 1..j - 1]
  {
    var x, y := cs[i..j], cs[1..][i - 1..j - 1];
    forall k | 0 <= k < j - i ensures x[k] == y[k] {
      assert x[k] == cs[i + k] && y[k] == cs[1..][i - 1 + k];
    }
  }

  /** A run of a list whose first chunk has no free neighbour is that chunk alone or a run of the rest. */
  lemma RunUncons(cs: seq<Chunk>, i: nat, j: nat, w: nat)
    requires cs != [] && (|cs| >= 2 ==> !(cs[0].free && cs[1].free))
    requires FreeRun(cs, i, j, w)
    ensures if i == 0 then cs[0].free && w == cs[0].words else FreeRun(cs[1..], i - 1, j - 1, w)
  {
    if i == 0 {
      assert cs[0].free && j < 2;
      assert cs[i..j] == [cs[0]];
      assert Span([cs[0]]) == 1 + cs[0].words;
    } else {
      SliceTail(cs, i, j);
    }
  }

  /** A run of the tail is a run of the list. */
  lemma RunShift(cs: seq<Chunk>, c: Chunk, i: nat, j: nat, w: nat)
    requires FreeRun(cs, i, j, w)
    ensures FreeRun([c] + cs, i + 1, j + 1, w)
  {
    var ds := [c] + cs;
    assert ds[i + 1..j + 1] == cs[i..j];
    forall k | i + 1 <= k < j + 1 ensures ds[k].free { assert cs[k - 1].free; }
  }

  /** A chunk without a free neighbour is a run of its own. */
  lemma RunCons(cs: seq<Chunk>, d: nat)
    requires cs != [] && (|cs| >= 2 ==> !(cs[0].free && cs[1].free))
    ensures HasRun(cs, d) <==> (cs[0].free && d <= cs[0].words) || HasRun(cs[1..], d)
  {
    if cs[0].free && d <= cs[0].words {
      assert cs[0..1] == [cs[0]] && [cs[0]][1..] == [];
      assert FreeRun(cs, 0, 1, cs[0].words);
    }
    if HasRun(cs[1..], d) {
      var i: nat, j: nat, w: nat :| FreeRun(cs[1..], i, j, w) && d <= w;
      RunShift(cs[1..], cs[0], i, j, w);
      assert [cs[0]] + cs[1..] == cs;
      assert FreeRun(cs, i + 1, j + 1, w);
    }
    if HasRun(cs, d) {
      var i: nat, j: nat, w: nat :| FreeRun(cs, i, j, w) && d <= w;
      RunUncons(cs, i, j, w);
    }
  }

  lemma FitCons(c: Chunk, cs: seq<Chunk>, d: nat)
    ensures HasFit([c] + cs, d) <==> (c.free && d <= c.words) || HasFit(cs, d)
  {
    var ds := [c] + cs;
    if c.free && d <= c.words { assert ds[0].free && d <= ds[0].words; }
    if HasFit(cs, d) {
      var k :| 0 <= k < |cs| && cs[k].free && d <= cs[k].words;
      assert ds[k + 1].free && d <= ds[k + 1].words;
    }
  }

  /** After coalescing, some chunk can hold a request exactly when some run of adjacent
      free chunks, headers merged, could hold it before. */
  lemma {:induction false} FitIsRun(cs: seq<Chunk>, d: nat)
    ensures HasFit(Coalesce(cs), d) <==> HasRun(cs, d)
    decreases |cs|
  {
    if cs == [] {
    } else if |cs| == 1 {
      RunCons(cs, d);
      assert !HasRun(cs[1..], d);
    } else if cs[0].free && cs[1].free {
      FitIsRun(MergeFirst(cs), d);
      RunMerge(cs, d);
    } else {
      FitIsRun(cs[1..], d);
      RunCons(cs, d);
      var r := Coalesce(cs[1..]);
      assert Coalesce(cs) == [cs[0]] + r;
      FitCons(cs[0], r, d);
    }
  }

  // ---------------------------------------------------------------------------
  // First fit
  // ---------------------------------------------------------------------------

  /** The first free chunk that can hold `d` words, or the length of the list. */
  function FirstFit(cs: seq<Chunk>, d: nat): (k: nat)
    ensures k <= |cs|
    ensures k < |cs| ==> cs[k].free && d <= cs[k].words
    ensures forall q :: 0 <= q < k ==> !(cs[q].free && d <= cs[q].words)
  {
    if cs == [] then 0
    else if cs[0].free && d <= cs[0].words then 0
    else 1 + FirstFit(cs[1..], d)
  }

  /** Chunk `k` gives `d` words to a block; what is left of it, if anything, is a free chunk after it. */
  function Take(cs: seq<Chunk>, k: nat, d: nat): seq<Chunk>
    requires k < |cs| && d <= cs[k].words
  {
    cs[..k] + (if d == cs[k].words then [Chunk(false, d)]
               else [Chunk(false, d), Chunk(true, cs[k].words - d - 1)]) + cs[k + 1..]
  }

  lemma MapsAssoc(p: map<nat, nat>, q: map<nat, nat>, r: map<nat, nat>)
    ensures p + (q + r) == p + q + r
  {
  }

  /** The blocks of a list around some of its chunks. */
  lemma ReplaceChunk(x: seq<Chunk>, mid: seq<Chunk>, y: seq<Chunk>, at: nat)
    ensures Span(x + mid + y) == Span(x) + Span(mid) + Span(y)
    ensures Blocks(x + mid + y, at) ==
            Blocks(y, at + Span(x) + Span(mid)) + Blocks(mid, at + Span(x)) + Blocks(x, at)
  {
    SpanConcat(x + mid, y);
    SpanConcat(x, mid);
    BlocksConcat(x + mid, y, at);
    BlocksConcat(x, mid, at);
    MapsAssoc(Blocks(y, at + Span(x) + Span(mid)), Blocks(mid, at + Span(x)), Blocks(x, at));
  }

  lemma Middle(cs: seq<Chunk>, k: nat)
    requires k < |cs|
    ensures cs == cs[..k] + [cs[k]] + cs[k + 1..]
  {
  }

  lemma SpanOne(c: Chunk)
    ensures Span([c]) == 1 + c.words
  {
    assert [c][1..] == [];
  }

  /** No block of the lists around a chunk begins at the chunk's payload. */
  lemma Outside(x: seq<Chunk>, y: seq<Chunk>, at: nat, b: nat, words: nat)
    requires b == at + Span(x)
    ensures b + 1 !in Blocks(x, at) && b + 1 !in Blocks(y, b + 1 + words)
  {
    BlocksApart(x, at);
    BlocksApart(y, b + 1 + words);
  }

  /** Replacing one chunk by others of the same extent changes the blocks of that extent only. */
  lemma ReplacedBlocks(cs: seq<Chunk>, k: nat, mid: seq<Chunk>, at: nat, cs': seq<Chunk>)
    requires k < |cs| && Span(mid) == 1 + cs[k].words && cs' == cs[..k] + mid + cs[k + 1..]
    ensures Span(cs') == Span(cs)
    ensures var b := at + Span(cs[..k]);
            var front, rest := Blocks(cs[..k], at), Blocks(cs[k + 1..], b + 1 + cs[k].words);
            && Blocks(cs, at) == rest + Blocks([cs[k]], b) + front && Blocks(cs', at) == rest + Blocks(mid, b) + front
            && b + 1 !in front && b + 1 !in rest
  {
    hide Span, Blocks;
    var x, y, b := cs[..k], cs[k + 1..], at + Span(cs[..k]);
    Middle(cs, k);
    SpanOne(cs[k]);
    ReplaceChunk(x, [cs[k]], y, at);
    ReplaceChunk(x, mid, y, at);
    Outside(x, y, at, b, cs[k].words);
  }

  lemma TakenSpan(c: Chunk, d: nat, at: nat)
    requires d <= c.words
    ensures Span(Take([c], 0, d)) == Span([c]) == 1 + c.words
    ensures Blocks(Take([c], 0, d), at) == map[at + 1 := d]
  {
    assert [c][1..] == [];
    var t := Take([c], 0, d);
    if d == c.words {
      assert t == [Chunk(false, d)] && t[1..] == [];
    } else {
      assert t == [Chunk(false, d), Chunk(true, c.words - d - 1)];
      assert t[1..] == [t[1]] && t[1..][1..] == [];
      assert Blocks(t[1..], at + 1 + d) == map[];
    }
  }

  /** A chunk on its own, allocated and free. */
  lemma OneBlock(words: nat, at: nat)
    ensures Span([Chunk(false, words)]) == 1 + words == Span([Chunk(true, words)])
    ensures Blocks([Chunk(false, words)], at) == map[at + 1 := words] && Blocks([Chunk(true, words)], at) == map[]
  {
    assert [Chunk(false, words)][1..] == [] && [Chunk(true, words)][1..] == [];
  }

  lemma InsertBetween(x: map<nat, nat>, y: map<nat, nat>, k: nat, v: nat)
    requires k !in x
    ensures y + map[k := v] + x == (y + map[] + x)[k := v]
  {
  }

  lemma TakeIs(cs: seq<Chunk>, k: nat, d: nat)
    requires k < |cs| && d <= cs[k].words
    ensures Take(cs, k, d) == cs[..k] + Take([cs[k]], 0, d) + cs[k + 1..]
  {
  }

  /** Taking a block adds just that block and keeps the extent of the heap. */
  lemma TakeAddsBlock(cs: seq<Chunk>, at: nat, k: nat, d: nat)
    requires k < |cs| && cs[k].free && d <= cs[k].words
    ensures Span(Take(cs, k, d)) == Span(cs)
    ensures Blocks(Take(cs, k, d), at) == Blocks(cs, at)[at + Span(cs[..k]) + 1 := d]
    ensures at + Span(cs[..k]) + 1 !in Blocks(cs, at)
  {
    hide Span, Blocks;
    var b, mid := at + Span(cs[..k]), Take([cs[k]], 0, d);
    TakenSpan(cs[k], d, b);
    OneBlock(cs[k].words, b);
    TakeIs(cs, k, d);
    ReplacedBlocks(cs, k, mid, at, Take(cs, k, d));
    assert cs[k] == Chunk(true, cs[k].words);
    InsertBetween(Blocks(cs[..k], at), Blocks(cs[k + 1..], b + 1 + cs[k].words), b + 1, d);
  }

  /** The remainder of a split chunk never meets another free chunk. */
  lemma TakeHasNoFreeNeighbours(cs: seq<Chunk>, k: nat, d: nat)
    requires k < |cs| && cs[k].free && d <= cs[k].words && NoFreeNeighbours(cs)
    ensures NoFreeNeighbours(Take(cs, k, d))
  {
    var ts := Take(cs, k, d);
    var split := if d == cs[k].words then 0 else 1;
    forall q | 0 <= q < |ts| - 1 ensures !(ts[q].free && ts[q + 1].free) {
      if q + 1 < k { assert ts[q] == cs[q] && ts[q + 1] == cs[q + 1]; }
      if q > k + split { assert ts[q] == cs[q - split] && ts[q + 1] == cs[q + 1 - split]; }
      if q == k + split && split == 1 { assert ts[q + 1] == cs[k + 1] && !(cs[k].free && cs[k + 1].free); }
    }
  }

  /** A heap stays without zero headers unless a block of no words at all is taken. */
  lemma TakeZero(cs: seq<Chunk>, k: nat, d: nat)
    requires k < |cs| && d <= cs[k].words && NoZeroHeader(cs)
    ensures NoZeroHeader(Take(cs, k, d)) <==> d != 0
  {
    var ts := Take(cs, k, d);
    assert Header(ts[k]) == 4 * d;
    forall q | 0 <= q < |ts| && q != k ensures Header(ts[q]) != 0 {
      if q < k { assert ts[q] == cs[q]; }
      if q >= k + 1 + (|ts| - |cs|) { assert ts[q] == cs[q - (|ts| - |cs|)]; }
    }
  }

  // ---------------------------------------------------------------------------
  // Runs of malloc and free
  // ---------------------------------------------------------------------------

  /** The size `malloc` works with: the request plus three, in 32 bits, in whole words. */
  function RequestWords(a0: Word): nat {
    (a0 + 3) % 0x1_0000_0000 / 4
  }

  /** The chunks after a request for `d` words. */
  function MallocChunks(cs: seq<Chunk>, d: nat): seq<Chunk> {
    var c := Coalesce(cs);
    var k := FirstFit(c, d);
    if k == |c| then c else Take(c, k, d)
  }

  /** The block handed out for a request of `d` words, as the word address of its payload; 0 for failure. */
  function MallocBlock(cs: seq<Chunk>, at: nat, d: nat): nat {
    var c := Coalesce(cs);
    var k := FirstFit(c, d);
    if k == |c| then 0 else at + Span(c[..k]) + 1
  }

  /** A request fails exactly when no run of adjacent free chunks, headers merged, can hold it. */
  lemma MallocFailsOnlyWithoutRoom(cs: seq<Chunk>, at: nat, d: nat)
    ensures MallocBlock(cs, at, d) == 0 <==> !HasRun(cs, d)
  {
    FitIsRun(cs, d);
  }

  /** A request rounded to no words fails exactly when nothing at all is free. */
  lemma NoWordsFail(cs: seq<Chunk>, at: nat)
    ensures MallocBlock(cs, at, 0) == 0 <==> forall k :: 0 <= k < |cs| ==> !cs[k].free
  {
    MallocFailsOnlyWithoutRoom(cs, at, 0);
    if k :| 0 <= k < |cs| && cs[k].free {
      assert cs[k..k + 1] == [cs[k]] && [cs[k]][1..] == [];
      assert FreeRun(cs, k, k + 1, cs[k].words);
    }
    if HasRun(cs, 0) {
      var i: nat, j: nat, w: nat :| FreeRun(cs, i, j, w) && 0 <= w;
      assert cs[i].free;
    }
  }

  /** After any request no two neighbouring chunks are both free. */
  lemma MallocLeavesNoFreeNeighbours(cs: seq<Chunk>, d: nat)
    ensures NoFreeNeighbours(MallocChunks(cs, d))
  {
    CoalesceHasNoFreeNeighbours(cs);
    var c := Coalesce(cs);
    if FirstFit(c, d) < |c| { TakeHasNoFreeNeighbours(c, FirstFit(c, d), d); }
  }

  /** A request adds the block it hands out and disturbs nothing else. */
  lemma MallocAddsBlock(cs: seq<Chunk>, at: nat, d: nat)
    ensures Span(MallocChunks(cs, d)) == Span(cs)
    ensures var b := MallocBlock(cs, at, d);
            if b == 0 then Blocks(MallocChunks(cs, d), at) == Blocks(cs, at)
            else b !in Blocks(cs, at) && Blocks(MallocChunks(cs, d), at) == Blocks(cs, at)[b := d]
    ensures NoZeroHeader(cs) && d != 0 ==> NoZeroHeader(MallocChunks(cs, d))
  {
    CoalesceKeeps(cs, at);
    var c := Coalesce(cs);
    var k := FirstFit(c, d);
    if k < |c| {
      TakeAddsBlock(c, at, k, d);
      if NoZeroHeader(cs) { TakeZero(c, k, d); }
    }
  }

  /** The chunk whose payload is at `block`. */
  ghost predicate BlockAt(cs: seq<Chunk>, at: nat, k: nat, block: nat) {
    k < |cs| && !cs[k].free && block == at + Span(cs[..k]) + 1
  }

  lemma FreedHeaders(cs: seq<Chunk>, k: nat)
    requires k < |cs|
    ensures NoZeroHeader(cs) ==> NoZeroHeader(cs[k := Chunk(true, cs[k].words)])
  {
  }

  lemma RemoveBetween(x: map<nat, nat>, y: map<nat, nat>, k: nat, v: nat)
    requires k !in x && k !in y
    ensures y + map[] + x == (y + map[k := v] + x) - {k}
  {
  }

  /** Freeing a block removes it and disturbs nothing else. */
  lemma FreeRemovesBlock(cs: seq<Chunk>, at: nat, k: nat, block: nat)
    requires BlockAt(cs, at, k, block)
    ensures var cs' := cs[k := Chunk(true, cs[k].words)];
            && Span(cs') == Span(cs)
            && block in Blocks(cs, at) && Blocks(cs', at) == Blocks(cs, at) - {block}
            && (NoZeroHeader(cs) ==> NoZeroHeader(cs'))
  {
    hide Span, Blocks;
    var b, c := at + Span(cs[..k]), Chunk(true, cs[k].words);
    OneBlock(c.words, b);
    assert cs[k := c] == cs[..k] + [c] + cs[k + 1..];
    ReplacedBlocks(cs, k, [c], at, cs[k := c]);
    assert cs[k] == Chunk(false, c.words);
    RemoveBetween(Blocks(cs[..k], at), Blocks(cs[k + 1..], b + 1 + c.words), b + 1, c.words);
    FreedHeaders(cs, k);
  }

  /** Every block of the list is the payload of some chunk. */
  lemma {:induction false} BlockHasChunk(cs: seq<Chunk>, at: nat, block: nat) returns (k: nat)
    requires block in Blocks(cs, at)
    ensures BlockAt(cs, at, k, block)
    decreases |cs|
  {
    if !cs[0].free && block == at + 1 {
      k := 0;
    } else {
      var q := BlockHasChunk(cs[1..], at + 1 + cs[0].words, block);
      assert cs[..q + 1] == [cs[0]] + cs[1..][..q];
      SpanConcat([cs[0]], cs[1..][..q]);
      assert Span([cs[0]]) == 1 + cs[0].words;
      k := q + 1;
    }
  }

  /** A wrapped request is served with a block of no words, whose header reads as a heap not laid out. */
  lemma WrappedRequest(at: nat)
    ensures var cs, d := [Chunk(true, 5)], RequestWords(0xffff_ffff);
            && MallocBlock(cs, at, d) == at + 1
            && MallocChunks(cs, d) == [Chunk(false, 0), Chunk(true, 4)]
            && NoZeroHeader(cs) && !NoZeroHeader(MallocChunks(cs, d))
  {
    var c := Chunk(true, 5);
    assert Take([c], 0, 0) == [Chunk(false, 0), Chunk(true, 4)];
    assert Header([Chunk(false, 0), Chunk(true, 4)][0]) == 0;
  }

  datatype Op = Malloc(words: nat) | Free(block: nat)

  /** The heap's chunks, and what its client holds: the blocks handed out and not yet freed. */
  datatype World = World(chunks: seq<Chunk>, live: map<nat, nat>)

  /** A request is for at least one word, and only live blocks are freed. */
  predicate Legal(w: World, op: Op) {
    match op
    case Malloc(d) => d != 0
    case Free(block) => block in w.live
  }

  ghost predicate Steps(w: World, w': World, at: nat, op: Op) {
    match op
    case Malloc(d) =>
      var b := MallocBlock(w.chunks, at, d);
      w' == World(MallocChunks(w.chunks, d), if b == 0 then w.live else w.live[b := d])
    case Free(block) =>
      exists k: nat :: BlockAt(w.chunks, at, k, block)
                  && w' == World(w.chunks[k := Chunk(true, w.chunks[k].words)], w.live - {block})
  }

  /** A run of legal operations on a heap of `size` words at `at`, from the heap's first layout. */
  ghost predicate Runs(ws: seq<World>, at: nat, size: nat, ops: seq<Op>) {
    && 0 < size && |ws| == |ops| + 1
    && ws[0] == World([Chunk(true, size - 1)], map[])
    && forall i :: 0 <= i < |ops| ==> Legal(ws[i], ops[i]) && Steps(ws[i], ws[i + 1], at, ops[i])
  }

  lemma StepKeepsBlocks(w: World, w': World, at: nat, op: Op)
    requires Legal(w, op) && Steps(w, w', at, op)
    requires Blocks(w.chunks, at) == w.live && NoZeroHeader(w.chunks)
    ensures Blocks(w'.chunks, at) == w'.live && NoZeroHeader(w'.chunks) && Span(w'.chunks) == Span(w.chunks)
  {
    match op {
      case Malloc(d) => MallocAddsBlock(w.chunks, at, d);
      case Free(block) =>
        var k: nat :| BlockAt(w.chunks, at, k, block)
                 && w' == World(w.chunks[k := Chunk(true, w.chunks[k].words)], w.live - {block});
        FreeRemovesBlock(w.chunks, at, k, block);
    }
  }

  /** Over every run, the allocated chunks are exactly the blocks the client holds, each where and as
      large as it was handed out, pairwise apart with room for their headers; the chunks fill the heap
      exactly, and no header reads as 0. */
  lemma {:induction false} RunKeepsBlocks(ws: seq<World>, at: nat, size: nat, ops: seq<Op>)
    requires Runs(ws, at, size, ops)
    ensures var w := ws[|ops|];
            && Blocks(w.chunks, at) == w.live
            && Span(w.chunks) == size && NoZeroHeader(w.chunks)
            && (forall a :: a in w.live ==> at < a && a + w.live[a] <= at + size)
            && (forall a, b :: a in w.live && b in w.live && a < b ==> a + w.live[a] < b)
    decreases |ops|
  {
    hide Legal, Steps;
    if ops == [] {
      assert ws[0].chunks[1..] == [];
    } else {
      var n := |ops| - 1;
      RunKeepsBlocks(ws[..n + 1], at, size, ops[..n]);
      StepKeepsBlocks(ws[n], ws[n + 1], at, ops[n]);
    }
    BlocksApart(ws[|ops|].chunks, at);
  }

  /** Every legal operation can be carried out. */
  lemma RunContinues(ws: seq<World>, at: nat, size: nat, ops: seq<Op>, op: Op) returns (w': World)
    requires Runs(ws, at, size, ops) && Legal(ws[|ops|], op)
    ensures Steps(ws[|ops|], w', at, op)
  {
    var w := ws[|ops|];
    RunKeepsBlocks(ws, at, size, ops);
    match op {
      case Malloc(d) =>
        var b := MallocBlock(w.chunks, at, d);
        w' := World(MallocChunks(w.chunks, d), if b == 0 then w.live else w.live[b := d]);
      case Free(block) =>
        var k := BlockHasChunk(w.chunks, at, block);
        w' := World(w.chunks[k := Chunk(true, w.chunks[k].words)], w.live - {block});
    }
  }

  // ---------------------------------------------------------------------------
  // The heap in memory
  // ---------------------------------------------------------------------------

  /** Only a request within three bytes of 2^32 wraps to no words at all. */
  lemma RequestWraps(a0: Word)
    requires a0 != 0
    ensures RequestWords(a0) == 0 <==> a0 > 0xffff_fffc
  {
  }

  /** The guest address of word `p` of RAM, in the cached segment. */
  function Address(p: nat): nat {
    0x8000_0000 + 4 * p
  }

  /** Some run of adjacent free chunks, headers merged, has room for `bytes` bytes. */
  ghost predicate HasRoom(cs: seq<Chunk>, bytes: nat) {
    exists i: nat, j: nat, w: nat :: FreeRun(cs, i, j, w) && bytes <= 4 * w
  }

  /** A new block of the fewest words that hold `bytes` bytes. */
  ghost predicate HandedOut(bs: map<nat, nat>, bs': map<nat, nat>, bytes: nat, block: nat, w: nat) {
    bytes <= 4 * w < bytes + 4 && block !in bs && bs' == bs[block := w]
  }

  /** What a request for `bytes` bytes comes to: the address of a new block of the fewest words that hold them, or 0,
      exactly if there is no room for them. */
  ghost predicate Served(cs: seq<Chunk>, cs': seq<Chunk>, at: nat, bytes: nat, address: nat) {
    if HasRoom(cs, bytes) then
      exists block: nat, w: nat ::
        address == 0x8000_0000 + 4 * block && HandedOut(Blocks(cs, at), Blocks(cs', at), bytes, block, w)
    else address == 0 && Blocks(cs', at) == Blocks(cs, at)
  }

  lemma RoomIsRun(cs: seq<Chunk>, bytes: nat, d: nat)
    requires bytes <= 4 * d < bytes + 4
    ensures HasRoom(cs, bytes) <==> HasRun(cs, d)
  {
    if i: nat, j: nat, w: nat :| FreeRun(cs, i, j, w) && bytes <= 4 * w {
      assert d <= w;
    }
    if i: nat, j: nat, w: nat :| FreeRun(cs, i, j, w) && d <= w {
      assert bytes <= 4 * w;
    }
  }

  lemma RequestServed(cs: seq<Chunk>, at: nat, a0: Word)
    requires 0 < a0 <= 0xffff_fffc
    ensures var d := RequestWords(a0); var block := MallocBlock(cs, at, d);
            Served(cs, MallocChunks(cs, d), at, a0, if block == 0 then 0 else Address(block))
  {
    var d := RequestWords(a0);
    assert a0 <= 4 * d < a0 + 4;
    var block := MallocBlock(cs, at, d);
    RoomIsRun(cs, a0, d);
    MallocFailsOnlyWithoutRoom(cs, at, d);
    MallocAddsBlock(cs, at, d);
    assert block != 0 ==> HandedOut(Blocks(cs, at), Blocks(MallocChunks(cs, d), at), a0, block, d);
  }

  /** Rewriting the memory of one chunk of a list as other chunks of the same extent. */
  lemma TilesReplace(m: seq<Word>, m': seq<Word>, at: nat, end: nat, x: seq<Chunk>, mid: seq<Chunk>, y: seq<Chunk>)
    requires Tiles(m, at, at + Span(x), x) && Tiles(m, at + Span(x) + Span(mid), end, y)
    requires |m| == |m'| && end <= |m|
    requires Tiles(m', at + Span(x), at + Span(x) + Span(mid), mid)
    requires forall p :: 0 <= p < |m| && !(at + Span(x) <= p < at + Span(x) + Span(mid)) ==> m'[p] == m[p]
    ensures Tiles(m', at, end, x + mid + y)
  {
    TilesFrame(m, m', at, at + Span(x), x);
    TilesFrame(m, m', at + Span(x) + Span(mid), end, y);
    TilesSpan(m', at + Span(x) + Span(mid), end, y);
    SpanConcat(x, mid);
    TilesConcat(m', at, at + Span(x) + Span(mid), x, mid);
    TilesConcat(m', at, end, x + mid, y);
  }

  /** The memory after `malloc` took `d` words of chunk `k`. */
  ghost predicate TakeWritten(m: seq<Word>, m': seq<Word>, at: nat, c: Chunk, d: nat) {
    && |m| == |m'| && at + c.words < |m| && d <= c.words
    && m'[at] == 4 * d
    && (d < c.words ==> m'[at + 1 + d] == 4 * (c.words - d - 1) + 1)
    && (forall p :: 0 <= p < |m| && p != at && (d == c.words || p != at + 1 + d) ==> m'[p] == m[p])
  }

  lemma TakenTiles(m: seq<Word>, m': seq<Word>, at: nat, c: Chunk, d: nat, mid: seq<Chunk>)
    requires TakeWritten(m, m', at, c, d) && mid == Take([c], 0, d)
    ensures Tiles(m', at, at + 1 + c.words, mid)
  {
    if d == c.words {
      assert mid == [Chunk(false, d)] && mid[1..] == [];
    } else {
      var r := Chunk(true, c.words - d - 1);
      assert mid == [Chunk(false, d), r] && mid[1..] == [r] && [r][1..] == [];
      assert Tiles(m', at + 1 + d, at + 1 + c.words, [r]);
    }
  }

  /** What lies before and after a chunk. */
  lemma Around(m: seq<Word>, at: nat, end: nat, cs: seq<Chunk>, k: nat)
    requires Tiles(m, at, end, cs) && end <= |m| && k < |cs|
    ensures var b := at + Span(cs[..k]); Tiles(m, at, b, cs[..k]) && Tiles(m, b + 1 + cs[k].words, end, cs[k + 1..])
  {
    var x, y := cs[..k], cs[k + 1..];
    assert cs == x + ([cs[k]] + y);
    TilesConcat(m, at, end, x, [cs[k]] + y);
    assert ([cs[k]] + y)[1..] == y;
  }

  lemma TakeTiles(m: seq<Word>, m': seq<Word>, at: nat, end: nat, cs: seq<Chunk>, k: nat, d: nat)
    requires Tiles(m, at, end, cs) && end <= |m| && k < |cs|
    requires TakeWritten(m, m', at + Span(cs[..k]), cs[k], d)
    ensures Tiles(m', at, end, Take(cs, k, d))
  {
    var x, c, y := cs[..k], cs[k], cs[k + 1..];
    var b, mid := at + Span(x), Take([c], 0, d);
    Around(m, at, end, cs, k);
    TakenSpan(c, d, b);
    TakenTiles(m, m', b, c, d, mid);
    TilesReplace(m, m', at, end, x, mid, y);
    TakeIs(cs, k, d);
  }

  /** What `malloc` writes in a free chunk touches no allocated one. */
  lemma FreeUnprotected(cs: seq<Chunk>, at: nat, k: nat, p: nat)
    requires k < |cs| && cs[k].free
    requires at + Span(cs[..k]) <= p <= at + Span(cs[..k]) + cs[k].words
    ensures !Protected(cs, at, p)
  {
    var x, c, y := cs[..k], cs[k], cs[k + 1..];
    assert cs == x + ([c] + y);
    ProtectedConcat(x, [c] + y, at, p);
    ProtectedBounds(x, at, p);
    ProtectedBounds(y, at + Span(x) + 1 + c.words, p);
    assert ([c] + y)[1..] == y;
  }

  lemma TakeInFree(m: seq<Word>, m': seq<Word>, cs0: seq<Chunk>, cs: seq<Chunk>, at: nat, end: nat, k: nat, d: nat)
    requires cs == Coalesce(cs0) && k < |cs| && cs[k].free && at + Span(cs[..k]) + 1 + cs[k].words <= end
    requires TakeWritten(m, m', at + Span(cs[..k]), cs[k], d)
    ensures FreeOnly(m, m', cs0, at, end)
  {
    forall p | 0 <= p < |m| && m'[p] != m[p] ensures at <= p < end && !Protected(cs0, at, p) {
      FreeUnprotected(cs, at, k, p);
      CoalesceKeepsProtected(cs0, at, p);
    }
  }

  /** The word index of an address inside RAM. */
  lemma AddressBack(p: nat)
    requires p < RAM_WORDS
    ensures Address(p) % 0x20_0000 / 4 == p
  {
    assert 0x8000_0000 == 0x400 * 0x20_0000;
  }

  /** Where chunk `k` is in memory. */
  lemma ChunkAt(m: seq<Word>, at: nat, end: nat, cs: seq<Chunk>, k: nat)
    requires end <= |m| && Tiles(m, at, end, cs) && k < |cs|
    ensures var p := at + Span(cs[..k]);
            p + 1 + cs[k].words <= end && m[p] == Header(cs[k]) && Tiles(m, p, end, cs[k..])
  {
    assert cs == cs[..k] + cs[k..];
    TilesConcat(m, at, end, cs[..k], cs[k..]);
    TilesSpan(m, at + Span(cs[..k]) + 1 + cs[k].words, end, cs[k..][1..]);
  }

  /** Setting the free bit of a header frees that chunk. */
  lemma FreeTiles(m: seq<Word>, m': seq<Word>, at: nat, end: nat, cs: seq<Chunk>, k: nat)
    requires Tiles(m, at, end, cs) && end <= |m| == |m'| && k < |cs| && NoZeroHeader(cs)
    requires forall p :: 0 <= p < |m| && p != at + Span(cs[..k]) ==> m'[p] == m[p]
    requires at + Span(cs[..k]) < |m'| && m'[at + Span(cs[..k])] == 4 * cs[k].words + 1
    ensures Tiles(m', at, end, cs[k := Chunk(true, cs[k].words)])
    ensures NoZeroHeader(cs[k := Chunk(true, cs[k].words)])
  {
    var x, y, c := cs[..k], cs[k + 1..], Chunk(true, cs[k].words);
    ChunkAt(m, at, end, cs, k);
    TilesConcat(m, at, end, x, cs[k..]);
    assert cs == x + cs[k..] && cs[k..][1..] == y && [c][1..] == [];
    assert Span([c]) == 1 + c.words;
    assert m'[at + Span(x)] == Header(c);
    assert Tiles(m', at + Span(x) + 1 + c.words, at + Span(x) + 1 + c.words, []);
    assert Tiles(m', at + Span(x), at + Span(x) + Span([c]), [c]);
    TilesReplace(m, m', at, end, x, [c], y);
    assert cs[k := c] == x + [c] + y;
  }

  /** The state of the scan of `malloc`'s first pass: `done` is laid out up to `start`, the run being
      collected (if any) reaches from `start` to `chunk`, and `rest` lies ahead. */
  ghost predicate Scan(m: seq<Word>, at: nat, end: nat, cs: seq<Chunk>, start: nat, chunk: nat,
                       run: seq<Chunk>, done: seq<Chunk>, rest: seq<Chunk>) {
    && at <= start <= chunk <= end <= |m|
    && (if run == [] then start == chunk else |run| == 1 && run[0].free && start + 1 + run[0].words == chunk)
    && Tiles(m, at, start, done)
    && Tiles(m, chunk, end, rest) && NoZeroHeader(rest)
    && Coalesce(cs) == done + Coalesce(run + rest)
  }

  /** `m'` is `m` with the header of the run being collected, if any, written at `start`. */
  ghost predicate RunWritten(m: seq<Word>, m': seq<Word>, start: nat, run: seq<Chunk>) {
    if run == [] then m' == m
    else
      && |m'| == |m| && start < |m|
      && (forall p :: 0 <= p < |m| && p != start ==> m'[p] == m[p])
      && m'[start] == Header(run[0])
  }

  /** The header of the run being collected is not part of any allocated chunk. */
  lemma ScanUnprotected(m: seq<Word>, at: nat, end: nat, cs: seq<Chunk>, start: nat, chunk: nat,
                        run: seq<Chunk>, done: seq<Chunk>, rest: seq<Chunk>)
    requires Scan(m, at, end, cs, start, chunk, run, done, rest) && run != []
    ensures !Protected(cs, at, start)
  {
    TilesSpan(m, at, start, done);
    CoalesceKeepsProtected(cs, at, start);
    ProtectedConcat(done, Coalesce(run + rest), at, start);
    ProtectedBounds(done, at, start);
    CoalesceKeepsProtected(run + rest, start, start);
    ProtectedConcat(run, rest, start, start);
    ProtectedBounds(rest, start + Span(run), start);
    assert run[1..] == [];
  }

  /** A free chunk starts a run or joins the one being collected. */
  lemma ScanFree(m: seq<Word>, at: nat, end: nat, cs: seq<Chunk>, start: nat, chunk: nat,
                 run: seq<Chunk>, done: seq<Chunk>, rest: seq<Chunk>)
    requires Scan(m, at, end, cs, start, chunk, run, done, rest)
    requires rest != [] && rest[0].free
    ensures Scan(m, at, end, cs, start, chunk + 1 + rest[0].words,
                 [Chunk(true, if run == [] then rest[0].words else run[0].words + 1 + rest[0].words)], done, rest[1..])
  {
    TilesSpan(m, chunk + 1 + rest[0].words, end, rest[1..]);
    if run == [] {
      assert run + rest == [rest[0]] + rest[1..];
    } else {
      assert MergeFirst(run + rest) == [Chunk(true, run[0].words + 1 + rest[0].words)] + rest[1..];
    }
  }

  lemma DoneExtends(m: seq<Word>, m': seq<Word>, at: nat, start: nat, chunk: nat, run: seq<Chunk>, done: seq<Chunk>)
    requires at <= start <= chunk <= |m| && Tiles(m, at, start, done)
    requires if run == [] then start == chunk else |run| == 1 && start + 1 + run[0].words == chunk
    requires RunWritten(m, m', start, run)
    ensures Tiles(m', at, chunk, done + run)
  {
    TilesFrame(m, m', at, start, done);
    TilesSpan(m, at, start, done);
    assert run != [] ==> run[1..] == [];
    assert Tiles(m', start, chunk, run);
    TilesConcat(m', at, chunk, done, run);
  }

  lemma UsedExtends(m: seq<Word>, at: nat, chunk: nat, done: seq<Chunk>, c: Chunk)
    requires Tiles(m, at, chunk, done) && chunk + 1 + c.words <= |m| && m[chunk] == Header(c)
    ensures Tiles(m, at, chunk + 1 + c.words, done + [c])
  {
    TilesSpan(m, at, chunk, done);
    assert [c][1..] == [];
    TilesConcat(m, at, chunk + 1 + c.words, done, [c]);
  }

  lemma CoalesceHead(cs: seq<Chunk>)
    requires cs != [] && (|cs| >= 2 ==> !(cs[0].free && cs[1].free))
    ensures Coalesce(cs) == [cs[0]] + Coalesce(cs[1..])
  {
  }

  lemma CoalescePastUsed(run: seq<Chunk>, rest: seq<Chunk>)
    requires |run| <= 1 && rest != [] && !rest[0].free
    ensures Coalesce(run + rest) == run + [rest[0]] + Coalesce(rest[1..])
  {
    CoalesceHead(rest);
    if run == [] {
      assert run + rest == rest;
    } else {
      var all := run + rest;
      assert all[1..] == rest && all[0] == run[0] && all[1] == rest[0];
      CoalesceHead(all);
      assert run == [run[0]];
    }
  }

  lemma CoalesceUsed(ms: seq<Chunk>, done: seq<Chunk>, run: seq<Chunk>, rest: seq<Chunk>)
    requires |run| <= 1 && rest != [] && !rest[0].free && ms == done + Coalesce(run + rest)
    ensures ms == done + run + [rest[0]] + Coalesce([] + rest[1..])
  {
    hide Coalesce;
    CoalescePastUsed(run, rest);
    assert [] + rest[1..] == rest[1..];
  }

  /** An allocated chunk ends the run being collected, whose header is then written. */
  lemma ScanUsed(m: seq<Word>, m': seq<Word>, at: nat, end: nat, cs: seq<Chunk>, start: nat, chunk: nat,
                 run: seq<Chunk>, done: seq<Chunk>, rest: seq<Chunk>)
    requires Scan(m, at, end, cs, start, chunk, run, done, rest)
    requires rest != [] && !rest[0].free
    requires RunWritten(m, m', start, run)
    ensures var next := chunk + 1 + rest[0].words;
            Scan(m', at, end, cs, next, next, [], done + run + [rest[0]], rest[1..])
  {
    var next, done' := chunk + 1 + rest[0].words, done + run + [rest[0]];
    TilesSpan(m, next, end, rest[1..]);
    TilesFrame(m, m', chunk, end, rest);
    assert Tiles(m', at, next, done') by {
      DoneExtends(m, m', at, start, chunk, run, done);
      UsedExtends(m', at, chunk, done + run, rest[0]);
    }
    CoalesceUsed(Coalesce(cs), done, run, rest);
  }

  /** At the end of the heap the last run is written, and the heap is laid out coalesced. */
  lemma ScanEnd(m: seq<Word>, m': seq<Word>, at: nat, end: nat, cs: seq<Chunk>, start: nat,
                run: seq<Chunk>, done: seq<Chunk>, rest: seq<Chunk>)
    requires Scan(m, at, end, cs, start, end, run, done, rest)
    requires RunWritten(m, m', start, run)
    ensures Tiles(m', at, end, Coalesce(cs))
  {
    assert rest == [];
    assert run + rest == run && Coalesce(run) == run;
    DoneExtends(m, m', at, start, end, run, done);
  }

  /** Past chunk `k` lies chunk `k + 1`. */
  lemma NextChunk(cs: seq<Chunk>, k: nat)
    requires k < |cs|
    ensures Span(cs[..k + 1]) == Span(cs[..k]) + 1 + cs[k].words
    ensures cs[k..][1..] == cs[k + 1..]
  {
    assert cs[..k + 1] == cs[..k] + [cs[k]] && [cs[k]][1..] == [];
    SpanConcat(cs[..k], [cs[k]]);
  }

  /** A heap whose headers are all in place needs no laying out. */
  lemma LaidOutTiles(m: seq<Word>, at: nat, end: nat, cs: seq<Chunk>)
    requires at < end <= |m| <= RAM_WORDS && Tiles(m, at, end, cs) && NoZeroHeader(cs)
    ensures Represents(m, at, end, cs)
  {
    assert cs != [] && m[at] == Header(cs[0]) != 0;
  }

  /** The size of the heap in bytes (src/psxbios.cpp:976-979), the sum formed in 32 bits. */
  function InitSize(offset: nat, a1: Word): nat
    requires offset < 0x20_0000 && offset % 4 == 0
  {
    var size := if (offset + a1) % 0x1_0000_0000 >= 0x20_0000 then 0x1f_fffc - offset else a1;
    size - size % 4
  }

  lemma InitEnd(offset: nat, a1: Word, addr: nat, end: nat)
    requires offset < 0x20_0000 && offset % 4 == 0 && addr == offset / 4 && end == addr + InitSize(offset, a1) / 4
    ensures end <= RAM_WORDS <==> offset + a1 < 0x1_0000_0000
    ensures end <= RAM_WORDS ==> end == if offset + a1 >= 0x20_0000 then RAM_WORDS - 1 else addr + a1 / 4
  {
    if offset + a1 >= 0x1_0000_0000 {
      assert (offset + a1) % 0x1_0000_0000 == offset + a1 - 0x1_0000_0000;
    }
  }

  /** Four bytes into RAM, a length of 2^32 - 4 wraps the sum to 0, and the heap ends far outside. */
  lemma WrappedInit()
    ensures InitSize(4, 0xffff_fffc) == 0xffff_fffc && 4 / 4 + InitSize(4, 0xffff_fffc) / 4 > RAM_WORDS
  {
  }

  class Heap {
    var ram: array<Word>
    var heapAddr: nat
    var heapEnd: nat
    ghost var chunks: seq<Chunk>

    ghost predicate Placed()
      reads this
    {
      heapAddr < heapEnd <= ram.Length == RAM_WORDS
    }

    ghost predicate Valid()
      reads this, ram
    {
      Placed() && Represents(ram[..], heapAddr, heapEnd, chunks)
    }

    constructor (ram: array<Word>)
      requires ram.Length == RAM_WORDS
      ensures this.ram == ram
    {
      this.ram := ram;
      heapAddr, heapEnd := 0, 0;
      chunks := [];
    }

    /** `psxBios_InitHeap` (src/psxbios.cpp:968-989) at a word-aligned address.  The heap ends inside RAM
        exactly when the sum of offset and length, formed in 32 bits, does not wrap. */
    method InitHeap(a0: Word, a1: Word)
      requires ram.Length == RAM_WORDS && a0 % 4 == 0
      modifies `heapAddr, `heapEnd, `chunks
      ensures heapAddr == a0 % 0x20_0000 / 4
      ensures heapEnd <= RAM_WORDS <==> a0 % 0x20_0000 + a1 < 0x1_0000_0000
      ensures heapEnd <= RAM_WORDS ==>
                heapEnd == if a0 % 0x20_0000 + a1 >= 0x20_0000 then RAM_WORDS - 1 else heapAddr + a1 / 4
      ensures Placed() && ram[heapAddr] == 0 ==> Valid()
    {
      var offset := a0 % 0x20_0000;
      var size := InitSize(offset, a1);
      heapAddr := offset / 4;
      heapEnd := heapAddr + size / 4;
      InitEnd(offset, a1, heapAddr, heapEnd);
      chunks := if heapAddr < heapEnd then [Chunk(true, heapEnd - heapAddr - 1)] else [];
    }

    /** Write the header of the run being collected, if there is one. */
    method CloseRun(colflag: bool, newchunk: nat, dsize: nat,
                    ghost g: seq<Word>, ghost cs: seq<Chunk>, ghost start: nat, ghost at: nat,
                    ghost run: seq<Chunk>, ghost done: seq<Chunk>, ghost rest: seq<Chunk>)
      requires Placed() && Scan(g, heapAddr, heapEnd, cs, start, at, run, done, rest)
      requires colflag <==> run != []
      requires colflag ==> newchunk == start && dsize == run[0].words
      requires |g| == ram.Length && forall p :: 0 <= p < |g| && (p != start || run == []) ==> g[p] == ram[p]
      modifies ram
      ensures RunWritten(g, ram[..], start, run)
      ensures FreeOnly(old(ram[..]), ram[..], cs, heapAddr, heapEnd)
    {
      if colflag {
        ScanUnprotected(g, heapAddr, heapEnd, cs, start, at, run, done, rest);
        ram[newchunk] := 4 * dsize + 1;
      }
    }

    /** An allocated chunk ends the run being collected (src/psxbios.cpp:863-869). */
    method PassUsed(colflag: bool, newchunk: nat, dsize: nat,
                    ghost g: seq<Word>, ghost cs: seq<Chunk>, ghost start: nat, ghost at: nat,
                    ghost run: seq<Chunk>, ghost done: seq<Chunk>, ghost rest: seq<Chunk>, ghost m0: seq<Word>)
      requires Placed() && g == ram[..] && Scan(g, heapAddr, heapEnd, cs, start, at, run, done, rest)
      requires colflag <==> run != []
      requires colflag ==> newchunk == start && dsize == run[0].words
      requires rest != [] && !rest[0].free && FreeOnly(m0, ram[..], cs, heapAddr, heapEnd)
      modifies ram
      ensures var next := at + 1 + rest[0].words;
              Scan(ram[..], heapAddr, heapEnd, cs, next, next, [], done + run + [rest[0]], rest[1..])
      ensures FreeOnly(m0, ram[..], cs, heapAddr, heapEnd)
    {
      CloseRun(colflag, newchunk, dsize, g, cs, start, at, run, done, rest);
      FreeOnlyChain(m0, g, ram[..], cs, heapAddr, heapEnd);
      ScanUsed(g, ram[..], heapAddr, heapEnd, cs, start, at, run, done, rest);
    }

    /** The end of the heap ends the run being collected too (src/psxbios.cpp:874-876). */
    method CombineEnd(colflag: bool, newchunk: nat, dsize: nat,
                      ghost g: seq<Word>, ghost cs: seq<Chunk>, ghost start: nat,
                      ghost run: seq<Chunk>, ghost done: seq<Chunk>, ghost rest: seq<Chunk>, ghost m0: seq<Word>)
      requires Placed() && Scan(g, heapAddr, heapEnd, cs, start, heapEnd, run, done, rest)
      requires colflag <==> run != []
      requires colflag ==> newchunk == start && dsize == run[0].words
      requires |g| == ram.Length && forall p :: 0 <= p < |g| && (p != start || run == []) ==> g[p] == ram[p]
      requires chunks == cs && NoZeroHeader(cs) && FreeOnly(m0, ram[..], cs, heapAddr, heapEnd)
      modifies ram, `chunks
      ensures Placed() && chunks == Coalesce(cs)
      ensures Tiles(ram[..], heapAddr, heapEnd, chunks) && NoZeroHeader(chunks)
      ensures FreeOnly(m0, ram[..], cs, heapAddr, heapEnd)
    {
      ghost var m := ram[..];
      CloseRun(colflag, newchunk, dsize, g, cs, start, heapEnd, run, done, rest);
      FreeOnlyChain(m0, m, ram[..], cs, heapAddr, heapEnd);
      ScanEnd(g, ram[..], heapAddr, heapEnd, cs, start, run, done, rest);
      CoalesceKeeps(cs, heapAddr);
      chunks := Coalesce(cs);
    }

    /** The first pass of `malloc` (src/psxbios.cpp:837-876): scan the heap and combine free chunks. */
    method Combine()
      requires Valid()
      modifies ram, `chunks
      ensures Placed() && chunks == Coalesce(old(chunks))
      ensures Tiles(ram[..], heapAddr, heapEnd, chunks) && NoZeroHeader(chunks)
      ensures FreeOnly(old(ram[..]), ram[..], old(chunks), heapAddr, heapEnd)
    {
      hide Coalesce, Protected;
      ghost var cs, m0, g := chunks, ram[..], LaidOut(ram[..], heapAddr, heapEnd);
      var chunk: nat, newchunk: nat, dsize: nat, colflag := heapAddr, heapAddr, 0, false;
      ghost var done: seq<Chunk>, run: seq<Chunk>, rest: seq<Chunk>, start, at := [], [], cs, heapAddr, heapAddr;
      assert [] + cs == cs && [] + Coalesce(cs) == Coalesce(cs);
      while chunk < heapEnd
        invariant chunks == cs && (colflag <==> run != []) && heapAddr <= start && at == chunk
        invariant colflag ==> newchunk == start && dsize == run[0].words
        invariant g == ram[..] || (chunk == heapAddr && !colflag
          && m0 == ram[..] && g == LaidOut(m0, heapAddr, heapEnd))
        invariant Scan(g, heapAddr, heapEnd, cs, start, at, run, done, rest)
        invariant FreeOnly(m0, ram[..], cs, heapAddr, heapEnd)
        decreases heapEnd - chunk
      {
        var csize, cstat := ram[chunk] / 4, ram[chunk] % 2;
        assert g[chunk] == Header(rest[0]);
        HeaderFields(rest[0]);
        if ram[chunk] == 0 {
          newchunk, dsize, colflag := chunk, heapEnd - chunk - 1, true;
          ScanFree(g, heapAddr, heapEnd, cs, start, at, run, done, rest);
          start, at, run, rest := chunk, heapEnd, [Chunk(true, dsize)], rest[1..];
          break;
        }
        assert g == ram[..];
        if cstat == 1 {
          ScanFree(g, heapAddr, heapEnd, cs, start, at, run, done, rest);
          if !colflag {
            newchunk, dsize, colflag := chunk, csize, true;
          } else {
            dsize := dsize + csize + 1;
          }
          start, run, rest := newchunk, [Chunk(true, dsize)], rest[1..];
        } else {
          PassUsed(colflag, newchunk, dsize, g, cs, start, at, run, done, rest, m0);
          colflag := false;
          g, start, done, run, rest := ram[..], chunk + csize + 1, done + run + [rest[0]], [], rest[1..];
        }
        chunk := chunk + csize + 1;
        at := chunk;
      }
      CombineEnd(colflag, newchunk, dsize, g, cs, start, run, done, rest, m0);
    }

    /** `psxBios_malloc` (src/psxbios.cpp:824-926). */
    method Malloc(a0: Word) returns (v0: nat)
      requires Valid()
      modifies ram, `chunks
      ensures Placed()
      ensures a0 == 0 ==> v0 == 0 && chunks == old(chunks) && ram[..] == old(ram[..])
      ensures a0 != 0 ==>
                var d, block := RequestWords(a0), MallocBlock(old(chunks), heapAddr, RequestWords(a0));
                v0 == (if block == 0 then 0 else Address(block)) && chunks == MallocChunks(old(chunks), d)
      ensures 0 < a0 <= 0xffff_fffc ==> Served(old(chunks), chunks, heapAddr, a0, v0)
      ensures Valid() <==> a0 <= 0xffff_fffc || forall k :: 0 <= k < |old(chunks)| ==> !old(chunks)[k].free
      ensures FreeOnly(old(ram[..]), ram[..], old(chunks), heapAddr, heapEnd)
    {
      if a0 == 0 {
        v0 := 0;
        return;
      }
      ghost var m0, cs0 := ram[..], chunks;
      Combine();
      var dsize := RequestWords(a0);
      RequestWraps(a0);
      NoWordsFail(cs0, heapAddr);
      assert 0 < a0 <= 0xffff_fffc ==>
               var block := MallocBlock(cs0, heapAddr, dsize);
               Served(cs0, MallocChunks(cs0, dsize), heapAddr, a0, if block == 0 then 0 else Address(block)) by {
        if a0 <= 0xffff_fffc { RequestServed(cs0, heapAddr, a0); }
      }
      hide Served;
      var chunk, csize;
      ghost var k;
      chunk, csize, k := Search(dsize);
      if chunk >= heapEnd {
        LaidOutTiles(ram[..], heapAddr, heapEnd, chunks);
        v0 := 0;
        return;
      }
      Allocate(m0, cs0, k, chunk, csize, dsize);
      v0 := Address(chunk + 1);
    }

    /** The search of `malloc` (src/psxbios.cpp:878-905) for the first free chunk big enough. */
    method Search(dsize: nat) returns (chunk: nat, csize: nat, ghost k: nat)
      requires Placed() && Tiles(ram[..], heapAddr, heapEnd, chunks)
      ensures k == FirstFit(chunks, dsize)
      ensures if k == |chunks| then chunk >= heapEnd
              else chunk == heapAddr + Span(chunks[..k]) < heapEnd && csize == chunks[k].words
    {
      ghost var m, cs := ram[..], chunks;
      chunk, k := heapAddr, 0;
      assert cs[0..] == cs && cs[..0] == [];
      HeaderFields(cs[0]);
      var cstat;
      csize, cstat := ram[chunk] / 4, ram[chunk] % 2;
      while (dsize > csize || cstat == 0) && chunk < heapEnd
        invariant k < |cs| && chunk == heapAddr + Span(cs[..k]) < heapEnd
        invariant Tiles(m, chunk, heapEnd, cs[k..])
        invariant csize == cs[k].words && (cstat == 0 <==> !cs[k].free)
        invariant forall q :: 0 <= q < k ==> !(cs[q].free && dsize <= cs[q].words)
        decreases heapEnd - chunk
      {
        chunk := chunk + csize + 1;
        NextChunk(cs, k);
        k := k + 1;
        if chunk >= heapEnd {
          return;
        }
        HeaderFields(cs[k]);
        csize, cstat := ram[chunk] / 4, ram[chunk] % 2;
      }
    }

    /** The headers `malloc` writes (src/psxbios.cpp:908-919). */
    method WriteHeaders(ghost c: Chunk, chunk: nat, csize: nat, dsize: nat)
      requires chunk + 1 + c.words <= ram.Length && ram[chunk] == Header(c) && csize == c.words
      requires dsize <= csize < 0x4000_0000
      modifies ram
      ensures TakeWritten(old(ram[..]), ram[..], chunk, c, dsize)
    {
      if dsize == csize {
        HeaderFields(c);
        ram[chunk] := ram[chunk] - ram[chunk] % 4;
      } else {
        ram[chunk] := 4 * dsize;
        var newchunk := chunk + dsize + 1;
        ram[newchunk] := 4 * (csize - dsize - 1) + 1;
      }
    }

    /** The last part of `malloc` (src/psxbios.cpp:907-919): take `dsize` words of the chunk found. */
    method Allocate(ghost m0: seq<Word>, ghost cs0: seq<Chunk>, ghost k: nat, chunk: nat, csize: nat, dsize: nat)
      requires Placed() && |m0| == ram.Length && chunks == Coalesce(cs0)
      requires Tiles(ram[..], heapAddr, heapEnd, chunks) && NoZeroHeader(chunks)
      requires k < |chunks| && chunk == heapAddr + Span(chunks[..k]) && csize == chunks[k].words
      requires chunks[k].free && dsize <= csize
      requires FreeOnly(m0, ram[..], cs0, heapAddr, heapEnd)
      modifies ram, `chunks
      ensures Placed() && chunks == Take(old(chunks), k, dsize)
      ensures Valid() <==> dsize != 0
      ensures FreeOnly(m0, ram[..], cs0, heapAddr, heapEnd)
    {
      ghost var m, cs := ram[..], chunks;
      ChunkAt(m, heapAddr, heapEnd, cs, k);
      WriteHeaders(cs[k], chunk, csize, dsize);
      TakeTiles(m, ram[..], heapAddr, heapEnd, cs, k, dsize);
      TakeZero(cs, k, dsize);
      TakeInFree(m, ram[..], cs0, cs, heapAddr, heapEnd, k, dsize);
      FreeOnlyChain(m0, m, ram[..], cs0, heapAddr, heapEnd);
      chunks := Take(cs, k, dsize);
      if dsize != 0 {
        LaidOutTiles(ram[..], heapAddr, heapEnd, chunks);
      }
    }

    /** `psxBios_free` (src/psxbios.cpp:928-939) of a live block, or of null. */
    method Free(a0: nat, ghost k: nat)
      requires Valid()
      requires a0 != 0 ==> k < |chunks| && !chunks[k].free && a0 == Address(heapAddr + Span(chunks[..k]) + 1)
      modifies ram, `chunks
      ensures Valid()
      ensures chunks == if a0 == 0 then old(chunks) else old(chunks)[k := Chunk(true, old(chunks)[k].words)]
      ensures forall p :: 0 <= p < ram.Length && (a0 == 0 || p != heapAddr + Span(old(chunks)[..k])) ==>
                ram[p] == old(ram[p])
    {
      if a0 != 0 {
        ghost var m, cs, p0 := ram[..], chunks, heapAddr + Span(chunks[..k]);
        ghost var g := LaidOut(m, heapAddr, heapEnd);
        ChunkAt(g, heapAddr, heapEnd, cs, k);
        HeaderFields(cs[k]);
        AddressBack(p0 + 1);
        var p := a0 % 0x20_0000 / 4 - 1;
        ram[p] := ram[p] + 1 - ram[p] % 2;
        FreeTiles(g, ram[..], heapAddr, heapEnd, cs, k);
        chunks := chunks[k := Chunk(true, chunks[k].words)];
        LaidOutTiles(ram[..], heapAddr, heapEnd, chunks);
      }
    }
  }
}
