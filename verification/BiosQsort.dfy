/** The HLE BIOS `qsort` (src/psxbios.cpp:718-822).

    A table of `n` records of `w` bytes starts at byte `base` of the memory.  A
    C pointer into the table is modelled by a record index: index `k` stands for
    the byte offset `base + Off(w, k)`.  The exchanges work on bytes, one at a time;
    everything above them is stated on the table of records. */
module BiosQsort {

  type Byte = b: int | 0 <= b < 0x100

  type Record = seq<Byte>

  /** The guest's comparison routine, as the sign of its result. */
  type Order = (Record, Record) -> int

  /** The result of the guest's comparison routine. */
  function Compare(cmp: Order, x: Record, y: Record): int {
    cmp(x, y)
  }

  ghost predicate Le(cmp: Order, x: Record, y: Record) {
    Compare(cmp, x, y) <= 0
  }

  /** `cmp` is a total preorder on records of width `w`. */
  ghost predicate TotalPreorder(cmp: Order, w: nat) {
    && (forall x: Record, y: Record {:trigger Le(cmp, x, y)} | |x| == w && |y| == w ::
          (Compare(cmp, x, y) < 0 <==> Compare(cmp, y, x) > 0) && (Compare(cmp, x, y) > 0 <==> Compare(cmp, y, x) < 0))
    && (forall x: Record, y: Record, z: Record {:trigger Le(cmp, x, y), Le(cmp, y, z)}
          | |x| == w && |y| == w && |z| == w :: Le(cmp, x, y) && Le(cmp, y, z) ==> Le(cmp, x, z))
  }

  // ---------------------------------------------------------------------------
  // Bytes and records
  // ---------------------------------------------------------------------------

  /** The byte offset of record `k`, as repeated pointer increments reach it. */
  function Off(w: nat, k: nat): (o: nat)
  {
    if k == 0 then 0 else Off(w, k - 1) + w
  }

  /** Distinct records of a table occupy disjoint byte ranges. */
  lemma RecordsApart(w: nat, i: nat, j: nat)
    requires i < j
    ensures Off(w, i) + w <= Off(w, j)
  {
    if i + 1 < j { RecordsApart(w, i, j - 1); }
  }

  ghost predicate Fits(m: seq<Byte>, base: nat, w: nat, n: nat) {
    base + Off(w, n) <= |m|
  }

  ghost function RecordAt(m: seq<Byte>, base: nat, w: nat, n: nat, k: nat): (r: Record)
    requires Fits(m, base, w, n) && k < n
    ensures |r| == w
  {
    RecordsApart(w, k, n);
    m[base + Off(w, k)..base + Off(w, k) + w]
  }

  ghost function Table(m: seq<Byte>, base: nat, w: nat, n: nat): (t: seq<Record>)
    requires Fits(m, base, w, n)
    ensures |t| == n
    ensures forall k :: 0 <= k < n ==> |t[k]| == w
  {
    seq(n, k requires 0 <= k < n => RecordAt(m, base, w, n, k))
  }

  /** The memory holds table `t`. */
  ghost predicate Holds(m: seq<Byte>, base: nat, w: nat, n: nat, t: seq<Record>) {
    && Fits(m, base, w, n) && |t| == n
    && forall k {:trigger RecordAt(m, base, w, n, k)} :: 0 <= k < n ==> RecordAt(m, base, w, n, k) == t[k]
  }

  lemma HoldsTable(m: seq<Byte>, base: nat, w: nat, n: nat, t: seq<Record>)
    requires Fits(m, base, w, n)
    ensures Holds(m, base, w, n, t) <==> t == Table(m, base, w, n)
  {
    var u := Table(m, base, w, n);
    assert forall k :: 0 <= k < n ==> u[k] == RecordAt(m, base, w, n, k);
  }

  /** The bytes outside records [a, l) of the table are the same in `m` and `m'`. */
  ghost predicate SameOutside(m: seq<Byte>, m': seq<Byte>, base: nat, w: nat, a: nat, l: nat) {
    && |m| == |m'|
    && forall p :: 0 <= p < |m| && !(base + Off(w, a) <= p < base + Off(w, l)) ==> m[p] == m'[p]
  }

  lemma SameOutsideWiden(m: seq<Byte>, m': seq<Byte>, base: nat, w: nat, a: nat, l: nat, a': nat, l': nat)
    requires SameOutside(m, m', base, w, a', l')
    requires a <= a' && l' <= l
    ensures SameOutside(m, m', base, w, a, l)
  {
    if a < a' { RecordsApart(w, a, a'); }
    if l' < l { RecordsApart(w, l', l); }
  }

  lemma SameOutsideChain(m: seq<Byte>, m': seq<Byte>, m'': seq<Byte>, base: nat, w: nat, a: nat, l: nat, x: nat, y: nat)
    requires SameOutside(m, m', base, w, a, l)
    requires SameOutside(m', m'', base, w, x, y)
    requires a <= x && y <= l
    ensures SameOutside(m, m'', base, w, a, l)
  {
    SameOutsideWiden(m', m'', base, w, a, l, x, y);
  }

  lemma SameRecord(m: seq<Byte>, m': seq<Byte>, base: nat, w: nat, n: nat, k: nat)
    requires Fits(m, base, w, n) && |m| == |m'| && k < n
    requires forall p :: base + Off(w, k) <= p < base + Off(w, k) + w && p < |m| ==> m[p] == m'[p]
    ensures RecordAt(m, base, w, n, k) == RecordAt(m', base, w, n, k)
  {
    RecordsApart(w, k, n);
  }

  function Swapped<T>(s: seq<T>, i: nat, j: nat): (t: seq<T>)
    requires i < |s| && j < |s|
    ensures |t| == |s|
  {
    seq(|s|, q requires 0 <= q < |s| => if q == i then s[j] else if q == j then s[i] else s[q])
  }

  /** i takes the old k, k takes the old j, j takes the old i. */
  function Rotated<T>(s: seq<T>, i: nat, j: nat, k: nat): (t: seq<T>)
    requires i < |s| && j < |s| && k < |s|
    ensures |t| == |s|
  {
    seq(|s|, q requires 0 <= q < |s| =>
      if q == i then s[k] else if q == j then s[i] else if q == k then s[j] else s[q])
  }

  /** The first `c` bytes at `i` and `j` have changed places. */
  ghost predicate BytesSwapped(m: seq<Byte>, m': seq<Byte>, i: nat, j: nat, c: nat) {
    && |m'| == |m| && i + c <= |m| && j + c <= |m|
    && (forall p :: i <= p < i + c ==> m'[p] == m[p - i + j])
    && (forall p :: j <= p < j + c ==> m'[p] == m[p - j + i])
    && (forall p :: 0 <= p < |m| && !(i <= p < i + c) && !(j <= p < j + c) ==> m'[p] == m[p])
  }

  lemma ByteSwapped(m: seq<Byte>, m': seq<Byte>, m'': seq<Byte>, w: nat, i: nat, j: nat, c: nat)
    requires BytesSwapped(m, m', i, j, c) && c < w
    requires i + w <= |m| && j + w <= |m| && (i == j || i + w <= j || j + w <= i)
    requires m'' == m'[i + c := m'[j + c]][j + c := m'[i + c]]
    ensures BytesSwapped(m, m'', i, j, c + 1)
  {
  }

  /** `qexchange` (src/psxbios.cpp:732-741) on byte offsets. */
  method Qexchange(m: array<Byte>, w: nat, i: nat, j: nat)
    requires 0 < w
    requires i + w <= m.Length && j + w <= m.Length
    requires i == j || i + w <= j || j + w <= i
    modifies m
    ensures BytesSwapped(old(m[..]), m[..], i, j, w)
  {
    var n := w;
    var pi, pj := i, j;
    ghost var before := m[..];
    while n != 0
      invariant 0 <= n <= w && pi == i + (w - n) && pj == j + (w - n)
      invariant BytesSwapped(before, m[..], i, j, w - n)
    {
      ghost var now := m[..];
      var t := m[pi];
      m[pi] := m[pj];
      m[pj] := t;
      ByteSwapped(before, now, m[..], w, i, j, w - n);
      pi, pj, n := pi + 1, pj + 1, n - 1;
    }
  }

  /** The first `c` bytes at `i`, `j` and `k` have changed places in a round. */
  ghost predicate BytesRotated(m: seq<Byte>, m': seq<Byte>, i: nat, j: nat, k: nat, c: nat) {
    && |m'| == |m| && i + c <= |m| && j + c <= |m| && k + c <= |m|
    && (forall p :: i <= p < i + c ==> m'[p] == m[p - i + k])
    && (forall p :: j <= p < j + c ==> m'[p] == m[p - j + i])
    && (j != k ==> forall p :: k <= p < k + c ==> m'[p] == m[p - k + j])
    && (forall p :: 0 <= p < |m| && !(i <= p < i + c) && !(j <= p < j + c) && !(k <= p < k + c) ==> m'[p] == m[p])
  }

  lemma ByteRotated(m: seq<Byte>, m': seq<Byte>, m'': seq<Byte>, w: nat, i: nat, j: nat, k: nat, c: nat)
    requires BytesRotated(m, m', i, j, k, c) && c < w
    requires i + w <= |m| && j + w <= |m| && k + w <= |m|
    requires (i + w <= j || j + w <= i) && (i + w <= k || k + w <= i) && (j == k || j + w <= k || k + w <= j)
    requires m'' == m'[i + c := m'[k + c]][k + c := m'[j + c]][j + c := m'[i + c]]
    ensures BytesRotated(m, m'', i, j, k, c + 1)
  {
    assert m'[i + c] == m[i + c] && m'[j + c] == m[j + c] && m'[k + c] == m[k + c];
    assert m''[i + c] == m[k + c] && m''[j + c] == m[i + c] && (j != k ==> m''[k + c] == m[j + c]);
    assert forall p :: 0 <= p < |m| && p != i + c && p != j + c && p != k + c ==> m''[p] == m'[p];
  }

  /** Byte `c` of each range changes place. */
  method RotateByte(m: array<Byte>, pi: nat, pj: nat, pk: nat, ghost before: seq<Byte>,
                    ghost w: nat, ghost i: nat, ghost j: nat, ghost k: nat, ghost c: nat)
    requires BytesRotated(before, m[..], i, j, k, c) && c < w && pi == i + c && pj == j + c && pk == k + c
    requires i + w <= m.Length && j + w <= m.Length && k + w <= m.Length
    requires (i + w <= j || j + w <= i) && (i + w <= k || k + w <= i) && (j == k || j + w <= k || k + w <= j)
    modifies m
    ensures BytesRotated(before, m[..], i, j, k, c + 1)
  {
    ghost var now := m[..];
    var t := m[pi];
    m[pi] := m[pk];
    m[pk] := m[pj];
    m[pj] := t;
    ByteRotated(before, now, m[..], w, i, j, k, c);
  }

  /** `q3exchange` (src/psxbios.cpp:743-753).  The sort calls it with `j == k` too. */
  method Q3exchange(m: array<Byte>, w: nat, i: nat, j: nat, k: nat)
    requires 0 < w
    requires i + w <= m.Length && j + w <= m.Length && k + w <= m.Length
    requires i + w <= j || j + w <= i
    requires i + w <= k || k + w <= i
    requires j == k || j + w <= k || k + w <= j
    modifies m
    ensures BytesRotated(old(m[..]), m[..], i, j, k, w)
  {
    var n := w;
    var pi, pj, pk := i, j, k;
    ghost var before := m[..];
    assert BytesRotated(before, m[..], i, j, k, 0);
    hide BytesRotated;
    while n != 0
      invariant 0 <= n <= w && pi == i + (w - n) && pj == j + (w - n) && pk == k + (w - n)
      invariant BytesRotated(before, m[..], i, j, k, w - n)
    {
      RotateByte(m, pi, pj, pk, before, w, i, j, k, w - n);
      pi, pj, pk, n := pi + 1, pj + 1, pk + 1, n - 1;
    }
  }

  /** The `w` bytes at `to` in `m'` are the `w` bytes at `from` in `m`. */
  ghost predicate BlockMoved(m: seq<Byte>, m': seq<Byte>, w: nat, from: nat, to: nat) {
    && |m| == |m'| && from + w <= |m| && to + w <= |m|
    && forall p :: to <= p < to + w ==> m'[p] == m[p - to + from]
  }

  /** Records lie apart or are the same, and inside their table. */
  lemma RecordOffsets(w: nat, n: nat, i: nat, j: nat)
    requires i < n && j < n
    ensures Off(w, i) + w <= Off(w, n)
    ensures i == j || Off(w, i) + w <= Off(w, j) || Off(w, j) + w <= Off(w, i)
  {
    RecordsApart(w, i, n);
    if i < j { RecordsApart(w, i, j); } else if j < i { RecordsApart(w, j, i); }
  }

  lemma SameSlice(m: seq<Byte>, m': seq<Byte>, w: nat, x: nat, y: nat)
    requires BlockMoved(m, m', w, x, y)
    ensures m'[y..y + w] == m[x..x + w]
  {
    var s, t := m'[y..y + w], m[x..x + w];
    forall q | 0 <= q < w ensures s[q] == t[q] {
      assert m'[y + q] == m[y + q - y + x];
    }
  }

  /** A moved block is a moved record. */
  lemma RecordMoved(m: seq<Byte>, m': seq<Byte>, base: nat, w: nat, n: nat, i: nat, j: nat)
    requires Fits(m, base, w, n) && |m| == |m'| && i < n && j < n
    requires BlockMoved(m, m', w, base + Off(w, i), base + Off(w, j))
    ensures RecordAt(m', base, w, n, j) == RecordAt(m, base, w, n, i)
  {
    hide BlockMoved;
    RecordOffsets(w, n, i, j);
    RecordOffsets(w, n, j, i);
    SameSlice(m, m', w, base + Off(w, i), base + Off(w, j));
  }

  /** Bytes that change only inside the records of `touched` leave every other record alone. */
  lemma OtherRecords(m: seq<Byte>, m': seq<Byte>, base: nat, w: nat, n: nat, touched: set<nat>, a: nat, l: nat)
    requires Fits(m, base, w, n) && |m| == |m'|
    requires forall t :: t in touched ==> a <= t < l <= n
    requires forall p :: 0 <= p < |m| && (forall t :: t in touched ==> !(base + Off(w, t) <= p < base + Off(w, t) + w))
               ==> m'[p] == m[p]
    ensures forall k :: 0 <= k < n && k !in touched ==> RecordAt(m', base, w, n, k) == RecordAt(m, base, w, n, k)
    ensures SameOutside(m, m', base, w, a, l)
  {
    forall k | 0 <= k < n && k !in touched
      ensures RecordAt(m', base, w, n, k) == RecordAt(m, base, w, n, k)
    {
      forall p | base + Off(w, k) <= p < base + Off(w, k) + w && p < |m| ensures m[p] == m'[p] {
        forall t | t in touched ensures !(base + Off(w, t) <= p < base + Off(w, t) + w) {
          RecordOffsets(w, n, k, t);
        }
      }
      SameRecord(m, m', base, w, n, k);
    }
    forall p | 0 <= p < |m| && !(base + Off(w, a) <= p < base + Off(w, l)) ensures m[p] == m'[p] {
      forall t | t in touched ensures !(base + Off(w, t) <= p < base + Off(w, t) + w) {
        RecordsApart(w, t, l);
        if a < t { RecordsApart(w, a, t); }
      }
    }
  }

  lemma SwappedBlocks(m: seq<Byte>, m': seq<Byte>, w: nat, x: nat, y: nat)
    requires BytesSwapped(m, m', x, y, w)
    ensures BlockMoved(m, m', w, x, y) && BlockMoved(m, m', w, y, x)
  {
  }

  lemma SwappedOthers(m: seq<Byte>, m': seq<Byte>, base: nat, w: nat, n: nat, i: nat, j: nat, a: nat, l: nat)
    requires Fits(m, base, w, n) && |m| == |m'| && a <= i < l <= n && a <= j < l
    requires BytesSwapped(m, m', base + Off(w, i), base + Off(w, j), w)
    ensures forall q :: 0 <= q < n && q !in {i, j} ==> RecordAt(m', base, w, n, q) == RecordAt(m, base, w, n, q)
    ensures SameOutside(m, m', base, w, a, l)
  {
    forall p | 0 <= p < |m| && (forall t :: t in {i, j} ==> !(base + Off(w, t) <= p < base + Off(w, t) + w))
      ensures m'[p] == m[p]
    {
      assert i in {i, j} && j in {i, j};
    }
    OtherRecords(m, m', base, w, n, {i, j}, a, l);
  }

  lemma SwappedTable(m: seq<Byte>, m': seq<Byte>, base: nat, w: nat, n: nat, i: nat, j: nat, a: nat, l: nat,
                     t: seq<Record>)
    requires Holds(m, base, w, n, t) && |m| == |m'| && a <= i < l <= n && a <= j < l
    requires BytesSwapped(m, m', base + Off(w, i), base + Off(w, j), w)
    ensures Holds(m', base, w, n, Swapped(t, i, j))
    ensures SameOutside(m, m', base, w, a, l)
  {
    hide BytesSwapped, BlockMoved, SameOutside, RecordAt;
    SwappedBlocks(m, m', w, base + Off(w, i), base + Off(w, j));
    RecordMoved(m, m', base, w, n, i, j);
    RecordMoved(m, m', base, w, n, j, i);
    SwappedOthers(m, m', base, w, n, i, j, a, l);
  }

  /** A byte-wise exchange of two records swaps two entries of the table. */
  method ExchangeRecords(m: array<Byte>, base: nat, w: nat, n: nat, i: nat, j: nat,
                          ghost a: nat, ghost l: nat, ghost t: seq<Record>, ghost m0: seq<Byte>)
    requires 0 < w && Holds(m[..], base, w, n, t) && a <= i < l <= n && a <= j < l
    requires SameOutside(m0, m[..], base, w, a, l)
    modifies m
    ensures Holds(m[..], base, w, n, Swapped(t, i, j))
    ensures SameOutside(m0, m[..], base, w, a, l)
  {
    ghost var before := m[..];
    RecordOffsets(w, n, i, j);
    RecordOffsets(w, n, j, i);
    Qexchange(m, w, base + Off(w, i), base + Off(w, j));
    ghost var after := m[..];
    SwappedTable(before, after, base, w, n, i, j, a, l, t);
    SameOutsideChain(m0, before, after, base, w, a, l, a, l);
  }

  lemma RotatedOthers(m: seq<Byte>, m': seq<Byte>, base: nat, w: nat, n: nat, i: nat, j: nat, k: nat, a: nat, l: nat)
    requires Fits(m, base, w, n) && |m| == |m'| && a <= i < l <= n && a <= j < l && a <= k < l
    requires BytesRotated(m, m', base + Off(w, i), base + Off(w, j), base + Off(w, k), w)
    ensures forall q :: 0 <= q < n && q !in {i, j, k} ==> RecordAt(m', base, w, n, q) == RecordAt(m, base, w, n, q)
    ensures SameOutside(m, m', base, w, a, l)
  {
    forall p | 0 <= p < |m| && (forall t :: t in {i, j, k} ==> !(base + Off(w, t) <= p < base + Off(w, t) + w))
      ensures m'[p] == m[p]
    {
      assert i in {i, j, k} && j in {i, j, k} && k in {i, j, k};
    }
    OtherRecords(m, m', base, w, n, {i, j, k}, a, l);
  }

  lemma RotatedBlocks(m: seq<Byte>, m': seq<Byte>, w: nat, x: nat, y: nat, z: nat)
    requires BytesRotated(m, m', x, y, z, w)
    ensures BlockMoved(m, m', w, z, x) && BlockMoved(m, m', w, x, y)
    ensures y != z || w == 0 ==> BlockMoved(m, m', w, y, z)
  {
  }

  lemma RotatedTable(
      m: seq<Byte>, m': seq<Byte>, base: nat, w: nat, n: nat, i: nat, j: nat, k: nat, a: nat, l: nat, t: seq<Record>)
    requires Holds(m, base, w, n, t) && |m| == |m'| && a <= i < l <= n && a <= j < l && a <= k < l
    requires i != j && i != k
    requires BytesRotated(m, m', base + Off(w, i), base + Off(w, j), base + Off(w, k), w)
    ensures Holds(m', base, w, n, Rotated(t, i, j, k))
    ensures SameOutside(m, m', base, w, a, l)
  {
    hide BytesRotated, BlockMoved, SameOutside, RecordAt;
    RotatedBlocks(m, m', w, base + Off(w, i), base + Off(w, j), base + Off(w, k));
    RecordMoved(m, m', base, w, n, k, i);
    RecordMoved(m, m', base, w, n, i, j);
    if j != k {
      RecordOffsets(w, n, j, k);
      RecordMoved(m, m', base, w, n, j, k);
    }
    RotatedOthers(m, m', base, w, n, i, j, k, a, l);
  }

  /** A byte-wise three-way exchange rotates three entries of the table. */
  method RotateRecords(m: array<Byte>, base: nat, w: nat, n: nat, i: nat, j: nat, k: nat,
                          ghost a: nat, ghost l: nat, ghost t: seq<Record>, ghost m0: seq<Byte>)
    requires 0 < w && Holds(m[..], base, w, n, t) && a <= i < l <= n && a <= j < l && a <= k < l
    requires i != j && i != k
    requires SameOutside(m0, m[..], base, w, a, l)
    modifies m
    ensures Holds(m[..], base, w, n, Rotated(t, i, j, k))
    ensures SameOutside(m0, m[..], base, w, a, l)
  {
    ghost var before := m[..];
    RecordOffsets(w, n, i, j);
    RecordOffsets(w, n, j, k);
    RecordOffsets(w, n, k, i);
    Q3exchange(m, w, base + Off(w, i), base + Off(w, j), base + Off(w, k));
    ghost var after := m[..];
    RotatedTable(before, after, base, w, n, i, j, k, a, l, t);
    SameOutsideChain(m0, before, after, base, w, a, l, a, l);
  }

  // ---------------------------------------------------------------------------
  // Tables of records
  // ---------------------------------------------------------------------------

  /** `t'` is `t` with the entries of [a, l) rearranged. */
  ghost predicate Shuffled<T>(t: seq<T>, t': seq<T>, a: nat, l: nat) {
    && |t| == |t'| && a <= l <= |t|
    && (forall q :: 0 <= q < |t| && !(a <= q < l) ==> t'[q] == t[q])
    && multiset(t') == multiset(t)
  }

  lemma SwapShuffles<T>(t: seq<T>, i: nat, j: nat, a: nat, l: nat)
    requires a <= i < l <= |t| && a <= j < l
    ensures Shuffled(t, Swapped(t, i, j), a, l)
  {
    assert Swapped(t, i, j) == t[i := t[j]][j := t[i]];
  }

  lemma RotateShuffles<T>(t: seq<T>, i: nat, j: nat, k: nat, a: nat, l: nat)
    requires a <= i < l <= |t| && a <= j < l && a <= k < l && i != j && i != k
    ensures Shuffled(t, Rotated(t, i, j, k), a, l)
  {
    SwapShuffles(t, i, k, a, l);
    if j == k {
      assert Rotated(t, i, j, k) == Swapped(t, i, k);
    } else {
      SwapShuffles(Swapped(t, i, k), k, j, a, l);
      assert Rotated(t, i, j, k) == Swapped(Swapped(t, i, k), k, j);
    }
  }

  lemma MultisetOfParts<T>(t: seq<T>, a: nat, l: nat)
    requires a <= l <= |t|
    ensures multiset(t) == multiset(t[..a]) + multiset(t[a..l]) + multiset(t[l..])
  {
    assert t == t[..a] + t[a..l] + t[l..];
  }

  lemma ShuffledTwice<T>(t: seq<T>, t': seq<T>, t'': seq<T>, a: nat, l: nat)
    requires Shuffled(t, t', a, l) && Shuffled(t', t'', a, l)
    ensures Shuffled(t, t'', a, l)
  {
  }

  /** Every entry of a rearranged range was an entry of the range before. */
  lemma ShuffledFrom<T>(t: seq<T>, t': seq<T>, a: nat, l: nat, q: nat) returns (p: nat)
    requires Shuffled(t, t', a, l) && q < |t|
    ensures p < |t| && t'[q] == t[p]
    ensures a <= q < l <==> a <= p < l
    ensures !(a <= q < l) ==> p == q
  {
    if a <= q < l {
      assert t'[..a] == t[..a] && t'[l..] == t[l..];
      MultisetOfParts(t, a, l);
      MultisetOfParts(t', a, l);
      var x := t'[q];
      assert x == t'[a..l][q - a];
      assert x in t'[a..l];
      assert multiset(t)[x] == multiset(t[..a])[x] + multiset(t[a..l])[x] + multiset(t[l..])[x];
      assert multiset(t')[x] == multiset(t[..a])[x] + multiset(t'[a..l])[x] + multiset(t[l..])[x];
      assert x in t[a..l];
      var r :| 0 <= r < |t[a..l]| && t[a..l][r] == x;
      p := a + r;
    } else {
      p := q;
    }
  }

  /** Exchanging the operands of a comparison flips its sign. */
  lemma Flip(cmp: Order, w: nat, x: Record, y: Record)
    requires TotalPreorder(cmp, w) && |x| == w && |y| == w
    ensures Compare(cmp, x, y) < 0 <==> Compare(cmp, y, x) > 0
    ensures Compare(cmp, x, y) > 0 <==> Compare(cmp, y, x) < 0
  {
    assert Le(cmp, x, y) || !Le(cmp, x, y);
  }

  /** Replacing an operand by an equivalent one keeps the sign of a comparison. */
  lemma SameSign(cmp: Order, w: nat, x: Record, y: Record, z: Record)
    requires TotalPreorder(cmp, w) && |x| == w && |y| == w && |z| == w
    requires Compare(cmp, y, z) == 0
    ensures Compare(cmp, x, y) < 0 <==> Compare(cmp, x, z) < 0
    ensures Compare(cmp, x, y) > 0 <==> Compare(cmp, x, z) > 0
    ensures Compare(cmp, y, x) < 0 <==> Compare(cmp, z, x) < 0
    ensures Compare(cmp, y, x) > 0 <==> Compare(cmp, z, x) > 0
  {
    Flip(cmp, w, y, z);
    Flip(cmp, w, x, y);
    Flip(cmp, w, x, z);
    assert Le(cmp, y, z) && Le(cmp, z, y);
    assert Le(cmp, x, y) == Le(cmp, x, z);
    assert Le(cmp, y, x) == Le(cmp, z, x);
  }

  /** The five regions of a partition in progress, `pivot` being the value sorted about:
      less in [a, i), equal in [lp, hp], greater in (j, l), unknown in between. */
  ghost predicate Regions(t: seq<Record>, cmp: Order, pivot: Record,
                          a: nat, i: nat, lp: nat, hp: nat, j: nat, l: nat) {
    && a <= i <= lp <= hp <= j < l <= |t|
    && (forall q :: a <= q < i ==> Compare(cmp, t[q], pivot) < 0)
    && (forall q :: lp <= q <= hp ==> Compare(cmp, t[q], pivot) == 0)
    && (forall q :: j < q < l ==> Compare(cmp, t[q], pivot) > 0)
  }

  /** Every pair of entries of [A, L) with an entry outside [a, l) is in order. */
  ghost predicate OrderedOutside(t: seq<Record>, cmp: Order, A: nat, L: nat, a: nat, l: nat) {
    L <= |t|
    && forall p, q :: A <= p < q < L && !(a <= p && q < l) ==> Compare(cmp, t[p], t[q]) <= 0
  }

  ghost predicate Sorted(t: seq<Record>, cmp: Order, a: nat, l: nat) {
    l <= |t| && forall p, q :: a <= p < q < l ==> Compare(cmp, t[p], t[q]) <= 0
  }

  // ---------------------------------------------------------------------------
  // The sort
  // ---------------------------------------------------------------------------

  /** `qscmp` (src/psxbios.cpp:720-730). */
  method Qscmp(m: array<Byte>, base: nat, w: nat, n: nat, cmp: Order, i: nat, j: nat, ghost t: seq<Record>)
    returns (c: int)
    requires Holds(m[..], base, w, n, t) && i < n && j < n
    ensures c == Compare(cmp, t[i], t[j])
  {
    assert t[i] == RecordAt(m[..], base, w, n, i) && t[j] == RecordAt(m[..], base, w, n, j);
    RecordOffsets(w, n, i, j);
    RecordOffsets(w, n, j, i);
    c := Compare(cmp, m[base + Off(w, i)..base + Off(w, i) + w], m[base + Off(w, j)..base + Off(w, j) + w]);
  }

  /** What the partitioning loop keeps. */
  ghost predicate Partial(t0: seq<Record>, t: seq<Record>, cmp: Order, w: nat, pivot: Record,
                          a: nat, i: nat, lp: nat, hp: nat, j: nat, l: nat) {
    && Shuffled(t0, t, a, l)
    && Regions(t, cmp, pivot, a, i, lp, hp, j, l)
    && |pivot| == w && (forall k :: 0 <= k < |t| ==> |t[k]| == w)
  }

  /** A lesser entry on the left stays where it is. */
  lemma LesserStays(t0: seq<Record>, t: seq<Record>, cmp: Order, w: nat, pivot: Record,
                    a: nat, i: nat, lp: nat, hp: nat, j: nat, l: nat)
    requires TotalPreorder(cmp, w)
    requires Partial(t0, t, cmp, w, pivot, a, i, lp, hp, j, l)
    requires i < lp && Compare(cmp, t[i], t[lp]) < 0
    ensures Partial(t0, t, cmp, w, pivot, a, i + 1, lp, hp, j, l)
  {
    SameSign(cmp, w, t[i], t[lp], pivot);
  }

  /** A greater entry on the right stays where it is. */
  lemma GreaterStays(t0: seq<Record>, t: seq<Record>, cmp: Order, w: nat, pivot: Record,
                     a: nat, i: nat, lp: nat, hp: nat, j: nat, l: nat)
    requires TotalPreorder(cmp, w)
    requires Partial(t0, t, cmp, w, pivot, a, i, lp, hp, j, l)
    requires hp < j && Compare(cmp, t[hp], t[j]) < 0
    ensures Partial(t0, t, cmp, w, pivot, a, i, lp, hp, j - 1, l)
  {
    SameSign(cmp, w, t[j], t[hp], pivot);
    Flip(cmp, w, t[hp], t[j]);
  }

  /** An entry found equal to the left edge of the equal region joins it. */
  lemma EqualFromLeft(t0: seq<Record>, t: seq<Record>, cmp: Order, w: nat, pivot: Record,
                      a: nat, i: nat, lp: nat, hp: nat, j: nat, l: nat)
    requires TotalPreorder(cmp, w)
    requires Partial(t0, t, cmp, w, pivot, a, i, lp, hp, j, l)
    requires i < lp && Compare(cmp, t[i], t[lp]) == 0
    ensures Partial(t0, Swapped(t, i, lp - 1), cmp, w, pivot, a, i, lp - 1, hp, j, l)
  {
    SameSign(cmp, w, t[i], t[lp], pivot);
    SwapShuffles(t, i, lp - 1, a, l);
  }

  /** An entry found equal to the right edge of the equal region joins it. */
  lemma EqualFromRight(t0: seq<Record>, t: seq<Record>, cmp: Order, w: nat, pivot: Record,
                       a: nat, i: nat, lp: nat, hp: nat, j: nat, l: nat)
    requires TotalPreorder(cmp, w)
    requires Partial(t0, t, cmp, w, pivot, a, i, lp, hp, j, l)
    requires hp < j && Compare(cmp, t[hp], t[j]) == 0
    ensures Partial(t0, Swapped(t, hp + 1, j), cmp, w, pivot, a, i, lp, hp + 1, j, l)
  {
    SameSign(cmp, w, t[j], t[hp], pivot);
    Flip(cmp, w, t[hp], t[j]);
    SwapShuffles(t, hp + 1, j, a, l);
  }

  /** With nothing unknown on the left, the equal region moves up one place around a lesser entry. */
  lemma SlideUp(t0: seq<Record>, t: seq<Record>, cmp: Order, w: nat, pivot: Record,
                a: nat, lp: nat, hp: nat, j: nat, l: nat)
    requires TotalPreorder(cmp, w)
    requires Partial(t0, t, cmp, w, pivot, a, lp, lp, hp, j, l)
    requires hp < j && Compare(cmp, t[hp], t[j]) > 0
    ensures Partial(t0, Rotated(t, lp, hp + 1, j), cmp, w, pivot, a, lp + 1, lp + 1, hp + 1, j, l)
  {
    SameSign(cmp, w, t[j], t[hp], pivot);
    Flip(cmp, w, t[hp], t[j]);
    RotateShuffles(t, lp, hp + 1, j, a, l);
  }

  /** A greater entry on the left and a lesser one on the right change places. */
  lemma ExchangeSides(t0: seq<Record>, t: seq<Record>, cmp: Order, w: nat, pivot: Record,
                      a: nat, i: nat, lp: nat, hp: nat, j: nat, l: nat)
    requires TotalPreorder(cmp, w)
    requires Partial(t0, t, cmp, w, pivot, a, i, lp, hp, j, l)
    requires i < lp && Compare(cmp, t[i], pivot) > 0
    requires hp < j && Compare(cmp, t[hp], t[j]) > 0
    ensures Partial(t0, Swapped(t, i, j), cmp, w, pivot, a, i + 1, lp, hp, j - 1, l)
  {
    SameSign(cmp, w, t[j], t[hp], pivot);
    Flip(cmp, w, t[hp], t[j]);
    SwapShuffles(t, i, j, a, l);
  }

  /** With nothing unknown on the right, the equal region moves down one place around a greater entry. */
  lemma SlideDown(t0: seq<Record>, t: seq<Record>, cmp: Order, w: nat, pivot: Record,
                  a: nat, i: nat, lp: nat, hp: nat, j: nat, l: nat)
    requires TotalPreorder(cmp, w)
    requires Partial(t0, t, cmp, w, pivot, a, i, lp, hp, j, l)
    requires j == hp && i < lp && Compare(cmp, t[i], pivot) > 0
    ensures Partial(t0, Rotated(t, j, lp - 1, i), cmp, w, pivot, a, i, lp - 1, hp - 1, hp - 1, l)
  {
    hide Shuffled;
    RotateShuffles(t, j, lp - 1, i, a, l);
    ShuffledTwice(t0, t, Rotated(t, j, lp - 1, i), a, l);
  }

  /** A record equal to the pivot joins the equal region, from the left or from the right. */
  method PullLeft(m: array<Byte>, base: nat, w: nat, n: nat, ghost cmp: Order, ghost a: nat, ghost l: nat,
                  i: nat, lp0: nat, ghost hp: nat, ghost j: nat,
                  ghost t0: seq<Record>, ghost t1: seq<Record>, ghost pivot: Record, ghost m0: seq<Byte>)
    returns (lp: nat, ghost t: seq<Record>)
    requires 0 < w && l <= n && Holds(m[..], base, w, n, t1) && SameOutside(m0, m[..], base, w, a, l)
    requires TotalPreorder(cmp, w) && Partial(t0, t1, cmp, w, pivot, a, i, lp0, hp, j, l)
    requires i < lp0 && Compare(cmp, t1[i], t1[lp0]) == 0
    modifies m
    ensures Holds(m[..], base, w, n, t) && SameOutside(m0, m[..], base, w, a, l)
    ensures lp == lp0 - 1 && Partial(t0, t, cmp, w, pivot, a, i, lp, hp, j, l)
  {
    EqualFromLeft(t0, t1, cmp, w, pivot, a, i, lp0, hp, j, l);
    lp := lp0 - 1;
    ExchangeRecords(m, base, w, n, i, lp, a, l, t1, m0);
    t := Swapped(t1, i, lp);
  }

  method PullRight(m: array<Byte>, base: nat, w: nat, n: nat, ghost cmp: Order, ghost a: nat, ghost l: nat,
                   ghost i: nat, ghost lp: nat, hp0: nat, j: nat,
                   ghost t0: seq<Record>, ghost t1: seq<Record>, ghost pivot: Record, ghost m0: seq<Byte>)
    returns (hp: nat, ghost t: seq<Record>)
    requires 0 < w && l <= n && Holds(m[..], base, w, n, t1) && SameOutside(m0, m[..], base, w, a, l)
    requires TotalPreorder(cmp, w) && Partial(t0, t1, cmp, w, pivot, a, i, lp, hp0, j, l)
    requires hp0 < j && Compare(cmp, t1[hp0], t1[j]) == 0
    modifies m
    ensures Holds(m[..], base, w, n, t) && SameOutside(m0, m[..], base, w, a, l)
    ensures hp == hp0 + 1 && Partial(t0, t, cmp, w, pivot, a, i, lp, hp, j, l)
    ensures i < lp ==> t[i] == t1[i]
  {
    hide Holds, SameOutside, Shuffled;
    EqualFromRight(t0, t1, cmp, w, pivot, a, i, lp, hp0, j, l);
    hp := hp0 + 1;
    ExchangeRecords(m, base, w, n, hp, j, a, l, t1, m0);
    t := Swapped(t1, hp, j);
  }

  /** The top of the partitioning loop (src/psxbios.cpp:767-777), up to the first greater record on the left. */
  method ScanLeft(m: array<Byte>, base: nat, w: nat, n: nat, cmp: Order, ghost a: nat, ghost l: nat,
                  i0: nat, lp0: nat, ghost hp: nat, ghost j: nat,
                  ghost t0: seq<Record>, ghost t1: seq<Record>, ghost pivot: Record, ghost m0: seq<Byte>)
    returns (i: nat, lp: nat, ghost t: seq<Record>)
    requires 0 < w && l <= n && Holds(m[..], base, w, n, t1) && SameOutside(m0, m[..], base, w, a, l)
    requires TotalPreorder(cmp, w)
    requires Partial(t0, t1, cmp, w, pivot, a, i0, lp0, hp, j, l)
    modifies m
    ensures Holds(m[..], base, w, n, t) && SameOutside(m0, m[..], base, w, a, l)
    ensures Partial(t0, t, cmp, w, pivot, a, i, lp, hp, j, l)
    ensures lp - i <= lp0 - i0 && (i == lp || Compare(cmp, t[i], pivot) > 0)
  {
    i, lp, t := i0, lp0, t1;
    while i < lp
      invariant Holds(m[..], base, w, n, t)
      invariant SameOutside(m0, m[..], base, w, a, l)
      invariant Partial(t0, t, cmp, w, pivot, a, i, lp, hp, j, l)
      invariant lp - i <= lp0 - i0
      decreases lp - i
    {
      var c := Qscmp(m, base, w, n, cmp, i, lp, t);
      if c == 0 {
        lp, t := PullLeft(m, base, w, n, cmp, a, l, i, lp, hp, j, t0, t, pivot, m0);
      } else if c < 0 {
        LesserStays(t0, t, cmp, w, pivot, a, i, lp, hp, j, l);
        i := i + 1;
      } else {
        SameSign(cmp, w, t[i], t[lp], pivot);
        return;
      }
    }
  }

  /** A lesser record on the right with nothing unknown on the left (src/psxbios.cpp:786-790). */
  method PushUp(m: array<Byte>, base: nat, w: nat, n: nat, ghost cmp: Order, ghost a: nat, ghost l: nat,
                lp0: nat, hp0: nat, j: nat,
                ghost t0: seq<Record>, ghost t1: seq<Record>, ghost pivot: Record, ghost m0: seq<Byte>)
    returns (lp: nat, hp: nat, ghost t: seq<Record>)
    requires 0 < w && l <= n && Holds(m[..], base, w, n, t1) && SameOutside(m0, m[..], base, w, a, l)
    requires TotalPreorder(cmp, w) && Partial(t0, t1, cmp, w, pivot, a, lp0, lp0, hp0, j, l)
    requires hp0 < j && Compare(cmp, t1[hp0], t1[j]) > 0
    modifies m
    ensures Holds(m[..], base, w, n, t) && SameOutside(m0, m[..], base, w, a, l)
    ensures lp == lp0 + 1 && hp == hp0 + 1 && Partial(t0, t, cmp, w, pivot, a, lp, lp, hp, j, l)
  {
    hide Holds, SameOutside, Shuffled;
    SlideUp(t0, t1, cmp, w, pivot, a, lp0, hp0, j, l);
    hp := hp0 + 1;
    RotateRecords(m, base, w, n, lp0, hp, j, a, l, t1, m0);
    t := Rotated(t1, lp0, hp, j);
    lp := lp0 + 1;
  }

  /** A lesser record on the right changes places with the greater one on the left (src/psxbios.cpp:791-794). */
  method ExchangeOver(m: array<Byte>, base: nat, w: nat, n: nat, ghost cmp: Order, ghost a: nat, ghost l: nat,
                      i0: nat, ghost lp: nat, ghost hp: nat, j0: nat,
                      ghost t0: seq<Record>, ghost t1: seq<Record>, ghost pivot: Record, ghost m0: seq<Byte>)
    returns (i: nat, j: nat, ghost t: seq<Record>)
    requires 0 < w && l <= n && Holds(m[..], base, w, n, t1) && SameOutside(m0, m[..], base, w, a, l)
    requires TotalPreorder(cmp, w) && Partial(t0, t1, cmp, w, pivot, a, i0, lp, hp, j0, l)
    requires i0 < lp && Compare(cmp, t1[i0], pivot) > 0
    requires hp < j0 && Compare(cmp, t1[hp], t1[j0]) > 0
    modifies m
    ensures Holds(m[..], base, w, n, t) && SameOutside(m0, m[..], base, w, a, l)
    ensures i == i0 + 1 && j == j0 - 1 && Partial(t0, t, cmp, w, pivot, a, i, lp, hp, j, l)
  {
    ExchangeSides(t0, t1, cmp, w, pivot, a, i0, lp, hp, j0, l);
    ExchangeRecords(m, base, w, n, i0, j0, a, l, t1, m0);
    t := Swapped(t1, i0, j0);
    j := j0 - 1;
    i := i0 + 1;
  }

  /** The inner loop of the partition, at label `loop` (src/psxbios.cpp:779-798).  It ends with nothing
      unknown on the right, or with one record of each side exchanged and both sides to be scanned again. */
  method ScanRight(m: array<Byte>, base: nat, w: nat, n: nat, cmp: Order, ghost a: nat, ghost l: nat,
                   i0: nat, lp0: nat, hp0: nat, j0: nat,
                   ghost t0: seq<Record>, ghost t1: seq<Record>, ghost pivot: Record, ghost m0: seq<Byte>)
    returns (i: nat, lp: nat, hp: nat, j: nat, again: bool, ghost t: seq<Record>)
    requires 0 < w && l <= n && Holds(m[..], base, w, n, t1) && SameOutside(m0, m[..], base, w, a, l)
    requires TotalPreorder(cmp, w)
    requires Partial(t0, t1, cmp, w, pivot, a, i0, lp0, hp0, j0, l)
    requires i0 == lp0 || Compare(cmp, t1[i0], pivot) > 0
    modifies m
    ensures Holds(m[..], base, w, n, t) && SameOutside(m0, m[..], base, w, a, l)
    ensures Partial(t0, t, cmp, w, pivot, a, i, lp, hp, j, l)
    ensures if again then (lp - i) + (j - hp) < (lp0 - i0) + (j0 - hp0)
            else j == hp && lp - i <= lp0 - i0 && (i == lp || Compare(cmp, t[i], pivot) > 0)
  {
    i, lp, hp, j, t, again := i0, lp0, hp0, j0, t1, false;
    while j > hp
      invariant Holds(m[..], base, w, n, t)
      invariant SameOutside(m0, m[..], base, w, a, l)
      invariant Partial(t0, t, cmp, w, pivot, a, i, lp, hp, j, l)
      invariant i == lp || Compare(cmp, t[i], pivot) > 0
      invariant lp - i == lp0 - i0 && j - hp <= j0 - hp0
      decreases j - hp
    {
      var c := Qscmp(m, base, w, n, cmp, hp, j, t);
      if c == 0 {
        hp, t := PullRight(m, base, w, n, cmp, a, l, i, lp, hp, j, t0, t, pivot, m0);
      } else if c > 0 {
        if i < lp {
          i, j, t := ExchangeOver(m, base, w, n, cmp, a, l, i, lp, hp, j, t0, t, pivot, m0);
          again := true;
          return;
        }
        lp, hp, t := PushUp(m, base, w, n, cmp, a, l, lp, hp, j, t0, t, pivot, m0);
        i := lp;
      } else {
        GreaterStays(t0, t, cmp, w, pivot, a, i, lp, hp, j, l);
        j := j - 1;
      }
    }
  }

  /** A greater record on the left with nothing unknown on the right (src/psxbios.cpp:811-812). */
  method PushDown(m: array<Byte>, base: nat, w: nat, n: nat, ghost cmp: Order, ghost a: nat, ghost l: nat,
                  i: nat, lp0: nat, j: nat,
                  ghost t0: seq<Record>, ghost t1: seq<Record>, ghost pivot: Record, ghost m0: seq<Byte>)
    returns (lp: nat, hp: nat, ghost t: seq<Record>)
    requires 0 < w && l <= n && Holds(m[..], base, w, n, t1) && SameOutside(m0, m[..], base, w, a, l)
    requires TotalPreorder(cmp, w) && Partial(t0, t1, cmp, w, pivot, a, i, lp0, j, j, l)
    requires i < lp0 && Compare(cmp, t1[i], pivot) > 0
    modifies m
    ensures Holds(m[..], base, w, n, t) && SameOutside(m0, m[..], base, w, a, l)
    ensures lp == lp0 - 1 && hp == j - 1 && Partial(t0, t, cmp, w, pivot, a, i, lp, hp, hp, l)
  {
    SlideDown(t0, t1, cmp, w, pivot, a, i, lp0, j, j, l);
    lp := lp0 - 1;
    RotateRecords(m, base, w, n, j, lp, i, a, l, t1, m0);
    t := Rotated(t1, j, lp, i);
    hp := j - 1;
  }

  /** One turn of the partitioning loop (src/psxbios.cpp:767-798 and 811-812). */
  method PartitionTurn(m: array<Byte>, base: nat, w: nat, n: nat, cmp: Order, ghost a: nat, ghost l: nat,
                       i0: nat, lp0: nat, hp0: nat, j0: nat,
                       ghost t0: seq<Record>, ghost t1: seq<Record>, ghost pivot: Record, ghost m0: seq<Byte>)
    returns (i: nat, lp: nat, hp: nat, j: nat, done: bool, ghost t: seq<Record>)
    requires 0 < w && l <= n && Holds(m[..], base, w, n, t1) && SameOutside(m0, m[..], base, w, a, l)
    requires TotalPreorder(cmp, w)
    requires Partial(t0, t1, cmp, w, pivot, a, i0, lp0, hp0, j0, l)
    modifies m
    ensures Holds(m[..], base, w, n, t) && SameOutside(m0, m[..], base, w, a, l)
    ensures Partial(t0, t, cmp, w, pivot, a, i, lp, hp, j, l)
    ensures if done then i == lp && j == hp && (lp - i) + (j - hp) <= (lp0 - i0) + (j0 - hp0)
            else (lp - i) + (j - hp) < (lp0 - i0) + (j0 - hp0)
  {
    done := false;
    i, lp, t := ScanLeft(m, base, w, n, cmp, a, l, i0, lp0, hp0, j0, t0, t1, pivot, m0);
    var again;
    i, lp, hp, j, again, t := ScanRight(m, base, w, n, cmp, a, l, i, lp, hp0, j0, t0, t, pivot, m0);
    if again { return; }
    if i == lp {
      done := true;
      return;
    }
    lp, hp, t := PushDown(m, base, w, n, cmp, a, l, i, lp, j, t0, t, pivot, m0);
    j := hp;
  }

  /** The partitioning loop of `qsort_main` (src/psxbios.cpp:763-798 and 811-812). */
  method Partition(m: array<Byte>, base: nat, w: nat, n: nat, cmp: Order, a: nat, l: nat, ghost t0: seq<Record>)
    returns (lp: nat, hp: nat, ghost t: seq<Record>)
    requires 0 < w && Holds(m[..], base, w, n, t0) && a + 2 <= l <= n
    requires TotalPreorder(cmp, w) && forall k :: 0 <= k < n ==> |t0[k]| == w
    modifies m
    ensures SameOutside(old(m[..]), m[..], base, w, a, l)
    ensures a <= lp <= hp < l
    ensures Holds(m[..], base, w, n, t)
    ensures Partial(t0, t, cmp, w, t0[a + (l - a) / 2], a, lp, lp, hp, hp, l)
  {
    ghost var m0 := m[..];
    t := t0;
    lp := a + (l - a) / 2;
    hp := lp;
    ghost var pivot := t0[lp];
    var i: nat, j: nat := a, l - 1;
    Flip(cmp, w, pivot, pivot);
    var done := false;
    while !done
      invariant Holds(m[..], base, w, n, t)
      invariant SameOutside(m0, m[..], base, w, a, l)
      invariant Partial(t0, t, cmp, w, pivot, a, i, lp, hp, j, l)
      invariant done ==> i == lp && j == hp
      decreases (lp - i) + (j - hp), !done
    {
      i, lp, hp, j, done, t := PartitionTurn(m, base, w, n, cmp, a, l, i, lp, hp, j, t0, t, pivot, m0);
    }
  }

  // ---------------------------------------------------------------------------
  // Recursion
  // ---------------------------------------------------------------------------

  function Pow2(k: nat): nat {
    if k == 0 then 1 else 2 * Pow2(k - 1)
  }

  /** Entries that satisfy a bound still do after their range is rearranged. */
  lemma OrderedOutsideShuffle(t: seq<Record>, t': seq<Record>, cmp: Order,
                              A: nat, L: nat, a: nat, l: nat, x: nat, y: nat)
    requires OrderedOutside(t, cmp, A, L, a, l)
    requires A <= a <= x <= y <= l <= L
    requires Shuffled(t, t', x, y)
    ensures OrderedOutside(t', cmp, A, L, a, l)
  {
    forall p, q | A <= p < q < L && !(a <= p && q < l) ensures Compare(cmp, t'[p], t'[q]) <= 0 {
      var p0 := ShuffledFrom(t, t', x, y, p);
      var q0 := ShuffledFrom(t, t', x, y, q);
      assert p0 < q0 && !(a <= p0 && q0 < l);
    }
  }

  /** Once [a, l) is partitioned about a pivot, only its two outer parts remain to be ordered. */
  lemma OrderedOutsideParts(t: seq<Record>, cmp: Order, w: nat, pivot: Record,
                            A: nat, L: nat, a: nat, lp: nat, hp: nat, l: nat)
    requires OrderedOutside(t, cmp, A, L, a, l) && A <= a && l <= L
    requires TotalPreorder(cmp, w) && |pivot| == w && forall k :: 0 <= k < |t| ==> |t[k]| == w
    requires Regions(t, cmp, pivot, a, lp, lp, hp, hp, l)
    ensures Sorted(t, cmp, hp + 1, l) ==> OrderedOutside(t, cmp, A, L, a, lp)
    ensures Sorted(t, cmp, a, lp) ==> OrderedOutside(t, cmp, A, L, hp + 1, l)
  {
    forall p, q | a <= p < q < l && !(q < lp) && !(hp < p) ensures Compare(cmp, t[p], t[q]) <= 0 {
      assert Le(cmp, t[p], pivot);
      Flip(cmp, w, t[q], pivot);
      assert Le(cmp, pivot, t[q]);
      assert Le(cmp, t[p], t[q]);
    }
  }

  /** Rearranging an outer part of a partition leaves it a partition. */
  lemma RegionsShuffle(t: seq<Record>, t': seq<Record>, cmp: Order, pivot: Record,
                       a: nat, lp: nat, hp: nat, l: nat, x: nat, y: nat)
    requires Regions(t, cmp, pivot, a, lp, lp, hp, hp, l)
    requires (x == a && y == lp) || (x == hp + 1 && y == l)
    requires Shuffled(t, t', x, y)
    ensures Regions(t', cmp, pivot, a, lp, lp, hp, hp, l)
  {
    forall q | a <= q < l
      ensures q < lp ==> Compare(cmp, t'[q], pivot) < 0
      ensures lp <= q <= hp ==> Compare(cmp, t'[q], pivot) == 0
      ensures hp < q ==> Compare(cmp, t'[q], pivot) > 0
    {
      var p := ShuffledFrom(t, t', x, y, q);
    }
  }

  /** One turn of the outer loop: [a, l) is partitioned, one of its outer parts [x, y) is sorted,
      and the other, [a', l'), is what remains. */
  lemma TurnDone(t0: seq<Record>, t1: seq<Record>, t2: seq<Record>, t3: seq<Record>, cmp: Order, w: nat,
                 pivot: Record, A: nat, L: nat, a: nat, lp: nat, hp: nat, l: nat, right: bool)
    requires OrderedOutside(t1, cmp, A, L, a, l) && A <= a <= l <= L <= |t0|
    requires Shuffled(t0, t1, A, L)
    requires TotalPreorder(cmp, w)
    requires Partial(t1, t2, cmp, w, pivot, a, lp, lp, hp, hp, l)
    requires Shuffled(t2, t3, if right then hp + 1 else a, if right then l else lp)
    requires Sorted(t3, cmp, if right then hp + 1 else a, if right then l else lp)
    requires forall k :: 0 <= k < |t3| ==> |t3[k]| == w
    ensures Shuffled(t0, t3, A, L)
    ensures OrderedOutside(t3, cmp, A, L, if right then a else hp + 1, if right then lp else l)
  {
    var x, y := if right then hp + 1 else a, if right then l else lp;
    OrderedOutsideShuffle(t1, t2, cmp, A, L, a, l, a, l);
    OrderedOutsideShuffle(t2, t3, cmp, A, L, a, l, x, y);
    RegionsShuffle(t2, t3, cmp, pivot, a, lp, hp, l, x, y);
    OrderedOutsideParts(t3, cmp, w, pivot, A, L, a, lp, hp, l);
  }

  /** A range of `size` records allows `depth` levels of calls: 2^depth <= size. */
  ghost predicate DepthFits(depth: nat, size: nat) {
    if size == 0 then depth == 0 else Pow2(depth) <= size
  }

  /** One more call, below a part of at most half the size, costs one more level. */
  lemma DepthStep(depth: nat, d: nat, x: nat, y: nat, first: nat, last: nat)
    requires first <= x <= y <= last
    requires DepthFits(d, y - x) && DepthFits(depth, last - first)
    requires 2 * (y - x) + 1 <= last - first && 2 <= last - first
    ensures DepthFits(if 1 + d > depth then 1 + d else depth, last - first)
  {
  }

  /** The state between turns: of the rearranged range [first, last) only [a, l) is still to be ordered. */
  ghost predicate Sorting(t0: seq<Record>, t: seq<Record>, cmp: Order, w: nat, first: nat, last: nat,
                          a: nat, l: nat, depth: nat) {
    && first <= a <= l <= last <= |t0|
    && Shuffled(t0, t, first, last) && OrderedOutside(t, cmp, first, last, a, l)
    && (forall k :: 0 <= k < |t| ==> |t[k]| == w)
    && DepthFits(depth, last - first)
  }

  /** A turn sorts the outer part that is not larger, on the right or on the left, and keeps to the other. */
  lemma SortingTurn(t0: seq<Record>, t: seq<Record>, t2: seq<Record>, t3: seq<Record>, cmp: Order, w: nat,
                    pivot: Record, first: nat, last: nat, a: nat, lp: nat, hp: nat, l: nat, depth: nat, d: nat,
                    right: bool)
    requires Sorting(t0, t, cmp, w, first, last, a, l, depth) && l - a > 1 && TotalPreorder(cmp, w)
    requires Partial(t, t2, cmp, w, pivot, a, lp, lp, hp, hp, l) && a <= lp <= hp < l
    requires right <==> lp - a >= l - hp
    requires Shuffled(t2, t3, if right then hp + 1 else a, if right then l else lp)
    requires Sorted(t3, cmp, if right then hp + 1 else a, if right then l else lp)
    requires DepthFits(d, if right then l - (hp + 1) else lp - a)
    requires forall k :: 0 <= k < |t3| ==> |t3[k]| == w
    ensures Sorting(t0, t3, cmp, w, first, last, if right then a else hp + 1, if right then lp else l,
                    if 1 + d > depth then 1 + d else depth)
  {
    TurnDone(t0, t, t2, t3, cmp, w, pivot, first, last, a, lp, hp, l, right);
    DepthStep(depth, d, if right then hp + 1 else a, if right then l else lp, first, last);
  }

  lemma {:induction false} NoWidth(k: nat)
    ensures Off(0, k) == 0
  {
    if k > 0 { NoWidth(k - 1); }
  }

  /** The guard of `qsort_main`, on bytes: more than one record of some width. */
  lemma MoreThanOne(w: nat, a: nat, l: nat)
    requires a <= l
    ensures Off(w, l) - Off(w, a) > w <==> w > 0 && l - a > 1
  {
    if a < l { RecordsApart(w, a, l); }
    if a + 1 < l { RecordsApart(w, a + 1, l); }
    NoWidth(l);
    NoWidth(a);
  }

  /** Records of no width are all alike. */
  lemma NoWidthSorted(t: seq<Record>, cmp: Order, first: nat, last: nat)
    requires TotalPreorder(cmp, 0) && last <= |t| && forall k :: 0 <= k < |t| ==> |t[k]| == 0
    ensures Sorted(t, cmp, first, last)
  {
    forall p, q | first <= p < q < last ensures Compare(cmp, t[p], t[q]) <= 0 {
      assert t[p] == t[q];
      Flip(cmp, 0, t[p], t[p]);
    }
  }

  /** What is left when the guard fails is in order. */
  lemma SortingDone(t0: seq<Record>, t: seq<Record>, cmp: Order, w: nat, first: nat, last: nat,
                    a: nat, l: nat, depth: nat)
    requires Sorting(t0, t, cmp, w, first, last, a, l, depth) && TotalPreorder(cmp, w) && (w == 0 || l - a <= 1)
    ensures Sorted(t, cmp, first, last)
  {
    if w == 0 { NoWidthSorted(t, cmp, first, last); }
  }

  /** `qsort_main` (src/psxbios.cpp:755-814).  `depth` is the deepest nesting of recursive calls. */
  method QsortMain(m: array<Byte>, base: nat, w: nat, n: nat, cmp: Order, first: nat, last: nat,
                   ghost t0: seq<Record>)
    returns (ghost t: seq<Record>, ghost depth: nat)
    requires Holds(m[..], base, w, n, t0) && first <= last <= n
    requires TotalPreorder(cmp, w) && forall k :: 0 <= k < n ==> |t0[k]| == w
    modifies m
    ensures SameOutside(old(m[..]), m[..], base, w, first, last)
    ensures Holds(m[..], base, w, n, t)
    ensures Shuffled(t0, t, first, last) && Sorted(t, cmp, first, last)
    ensures forall k :: 0 <= k < n ==> |t[k]| == w
    ensures DepthFits(depth, last - first)
    decreases last - first, 1
  {
    var a, l := first, last;
    depth, t := 0, t0;
    ghost var m0 := m[..];
    MoreThanOne(w, a, l);
    while Off(w, l) - Off(w, a) > w
      invariant Holds(m[..], base, w, n, t)
      invariant SameOutside(m0, m[..], base, w, first, last)
      invariant Sorting(t0, t, cmp, w, first, last, a, l, depth)
      invariant Off(w, l) - Off(w, a) > w <==> w > 0 && l - a > 1
      decreases l - a
    {
      a, l, t, depth := QsortTurn(m, base, w, n, cmp, first, last, a, l, t0, t, depth, m0);
      MoreThanOne(w, a, l);
    }
    SortingDone(t0, t, cmp, w, first, last, a, l, depth);
  }

  /** One turn of the outer loop of `qsort_main` (src/psxbios.cpp:760-809). */
  method QsortTurn(m: array<Byte>, base: nat, w: nat, n: nat, cmp: Order, ghost first: nat, ghost last: nat,
                   a: nat, l: nat, ghost t0: seq<Record>, ghost t: seq<Record>, ghost depth: nat, ghost m0: seq<Byte>)
    returns (a': nat, l': nat, ghost t': seq<Record>, ghost depth': nat)
    requires 0 < w && Holds(m[..], base, w, n, t) && last <= n && |t0| == n
    requires TotalPreorder(cmp, w) && SameOutside(m0, m[..], base, w, first, last)
    requires Sorting(t0, t, cmp, w, first, last, a, l, depth) && l - a > 1
    modifies m
    ensures Holds(m[..], base, w, n, t') && SameOutside(m0, m[..], base, w, first, last)
    ensures Sorting(t0, t', cmp, w, first, last, a', l', depth') && l' - a' < l - a
    decreases last - first, 0
  {
    hide Holds, SameOutside, OrderedOutside, Regions, DepthFits, Compare;
    ghost var m1, pivot := m[..], t[a + (l - a) / 2];
    ghost var d;
    var lp, hp;
    ghost var t2;
    lp, hp, t2 := Partition(m, base, w, n, cmp, a, l, t);
    ghost var m2 := m[..];
    SameOutsideChain(m0, m1, m2, base, w, first, last, a, l);
    if lp - a >= l - hp {
      t', d := QsortMain(m, base, w, n, cmp, hp + 1, l, t2);
      SameOutsideChain(m0, m2, m[..], base, w, first, last, hp + 1, l);
      a', l', depth' := a, lp, if 1 + d > depth then 1 + d else depth;
      SortingTurn(t0, t, t2, t', cmp, w, pivot, first, last, a, lp, hp, l, depth, d, true);
    } else {
      t', d := QsortMain(m, base, w, n, cmp, a, lp, t2);
      SameOutsideChain(m0, m2, m[..], base, w, first, last, a, lp);
      a', l', depth' := hp + 1, l, if 1 + d > depth then 1 + d else depth;
      SortingTurn(t0, t, t2, t', cmp, w, pivot, first, last, a, lp, hp, l, depth, d, false);
    }
  }

  /** `psxBios_qsort` (src/psxbios.cpp:816-822): the whole table, and nothing but the table.  Records of
      no width take no bytes. */
  method PsxBiosQsort(m: array<Byte>, base: nat, n: nat, w: nat, cmp: Order)
    returns (ghost depth: nat)
    requires Fits(m[..], base, w, n)
    requires TotalPreorder(cmp, w)
    modifies m
    ensures forall p :: 0 <= p < m.Length && !(base <= p < base + Off(w, n)) ==> m[p] == old(m[p])
    ensures var before, after := old(Table(m[..], base, w, n)), Table(m[..], base, w, n);
            multiset(after) == multiset(before) && forall p, q :: 0 <= p < q < n ==> cmp(after[p], after[q]) <= 0
    ensures DepthFits(depth, n)
  {
    ghost var m0, t0 := m[..], Table(m[..], base, w, n);
    HoldsTable(m0, base, w, n, t0);
    ghost var t;
    t, depth := QsortMain(m, base, w, n, cmp, 0, n, t0);
    HoldsTable(m[..], base, w, n, t);
    assert SameOutside(m0, m[..], base, w, 0, n);
    forall p | 0 <= p < m.Length && !(base <= p < base + Off(w, n)) ensures m[p] == old(m[p]) {
      assert m0[p] == m[..][p];
    }
  }
}
