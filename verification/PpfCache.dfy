/** The PPF patch cache (src/ppf.cpp:26-178 and 313-361): the loop that reads a file's patches, patch records in a
    sorted linked list, an index of the sectors they patch, and the binary search that finds a sector's records. */
module PpfCache {

  const CD_FRAMESIZE_RAW: nat := 2352

  /** The bytes before the part of a raw sector that is patched (`CD_FRAMESIZE_RAW - DATA_SIZE`). */
  const HEADER: nat := 12

  type Byte = x: int | 0 <= x < 256

  /** A patch of `data` at byte `pos` of sector `addr`. */
  datatype Record = Record(addr: int, pos: int, data: seq<Byte>)

  predicate Below(a: Record, b: Record) {
    a.addr < b.addr || (a.addr == b.addr && a.pos < b.pos)
  }

  ghost predicate Sorted(rs: seq<Record>) {
    forall i, j :: 0 <= i < j < |rs| ==> !Below(rs[j], rs[i])
  }

  // ---------------------------------------------------------------------------
  // Insertion
  // ---------------------------------------------------------------------------

  /** How many records of a list come before `r`: those below it. */
  function Place(rs: seq<Record>, r: Record): (n: nat)
    ensures n <= |rs|
  {
    if rs == [] || !Below(rs[0], r) then 0 else 1 + Place(rs[1..], r)
  }

  function Inserted(rs: seq<Record>, r: Record): (s: seq<Record>)
    ensures |s| == |rs| + 1
  {
    rs[..Place(rs, r)] + [r] + rs[Place(rs, r)..]
  }

  lemma {:induction false} PlaceIs(rs: seq<Record>, r: Record, n: nat)
    requires n <= |rs| && (forall i :: 0 <= i < n ==> Below(rs[i], r)) && (n < |rs| ==> !Below(rs[n], r))
    ensures Place(rs, r) == n
  {
    if n > 0 { PlaceIs(rs[1..], r, n - 1); }
  }

  lemma {:induction false} PlaceSplits(rs: seq<Record>, r: Record)
    ensures forall i :: 0 <= i < Place(rs, r) ==> Below(rs[i], r)
    ensures Place(rs, r) < |rs| ==> !Below(rs[Place(rs, r)], r)
  {
    if rs != [] && Below(rs[0], r) {
      PlaceSplits(rs[1..], r);
      forall i | 0 <= i < Place(rs, r) ensures Below(rs[i], r) {
        if i > 0 { assert rs[i] == rs[1..][i - 1]; }
      }
    }
  }

  lemma NotBelow(a: Record, b: Record, c: Record)
    requires !Below(b, a) && !Below(c, b)
    ensures !Below(c, a)
  {
  }

  /** Insertion keeps the list sorted. */
  lemma InsertedSorted(rs: seq<Record>, r: Record)
    requires Sorted(rs)
    ensures Sorted(Inserted(rs, r))
  {
    var n, s := Place(rs, r), Inserted(rs, r);
    PlaceSplits(rs, r);
    forall i, j | 0 <= i < j < |s| ensures !Below(s[j], s[i]) {
      if i == n {
        assert s[j] == rs[j - 1] && s[i] == r;
        if j - 1 > n { NotBelow(r, rs[n], rs[j - 1]); }
      } else if j == n {
        assert s[i] == rs[i] && s[j] == r;
      } else {
        assert s[i] == rs[if i < n then i else i - 1] && s[j] == rs[if j < n then j else j - 1];
      }
    }
  }

  lemma InsertedMultiset(rs: seq<Record>, r: Record)
    ensures multiset(Inserted(rs, r)) == multiset(rs) + multiset{r}
  {
    assert rs == rs[..Place(rs, r)] + rs[Place(rs, r)..];
  }

  /** It adds exactly the record, and puts it before every record that is not below it: of records for the same
      byte the newest comes first. */
  lemma InsertedAdds(rs: seq<Record>, r: Record, i: nat)
    requires Sorted(rs) && i < |rs|
    ensures multiset(Inserted(rs, r)) == multiset(rs) + multiset{r}
    ensures Inserted(rs, r)[Place(rs, r)] == r
    ensures Place(rs, r) <= i <==> !Below(rs[i], r)
  {
    InsertedMultiset(rs, r);
    PlaceSplits(rs, r);
    var n := Place(rs, r);
    if n < i { NotBelow(r, rs[n], rs[i]); }
  }

  /** The list after records are added one by one. */
  function AllInserted(rs: seq<Record>): seq<Record> {
    if rs == [] then [] else Inserted(AllInserted(rs[..|rs| - 1]), rs[|rs| - 1])
  }

  /** Whatever the order in which records come, the list holds exactly them, sorted. */
  lemma {:induction false} AllInsertedSorted(rs: seq<Record>)
    ensures Sorted(AllInserted(rs)) && multiset(AllInserted(rs)) == multiset(rs)
  {
    if rs != [] {
      var n := |rs| - 1;
      AllInsertedSorted(rs[..n]);
      InsertedSorted(AllInserted(rs[..n]), rs[n]);
      InsertedMultiset(AllInserted(rs[..n]), rs[n]);
      assert rs == rs[..n] + [rs[n]];
    }
  }

  // ---------------------------------------------------------------------------
  // The index
  // ---------------------------------------------------------------------------

  function Addrs(rs: seq<Record>): (s: seq<int>)
    ensures |s| == |rs|
  {
    seq(|rs|, i requires 0 <= i < |rs| => rs[i].addr)
  }

  ghost predicate Ascending(s: seq<int>) {
    forall i, j :: 0 <= i < j < |s| ==> s[i] <= s[j]
  }

  lemma AddrsAscend(rs: seq<Record>)
    requires Sorted(rs)
    ensures Ascending(Addrs(rs))
  {
    forall i, j | 0 <= i < j < |rs| ensures Addrs(rs)[i] <= Addrs(rs)[j] {
      assert !Below(rs[j], rs[i]);
    }
  }

  /** Where, from `i` on, an address differs from the one before, `last` being the one before `i`. */
  function Starts(s: seq<int>, i: nat, last: int): (ss: seq<nat>)
    requires i <= |s|
    ensures forall k :: 0 <= k < |ss| ==> i <= ss[k] < |s|
    decreases |s| - i
  {
    if i == |s| then []
    else (if s[i] != last then [i] else []) + Starts(s, i + 1, s[i])
  }

  /** The index `FillPPFCache` makes: the sentinel before the first record is -1. */
  function Index(s: seq<int>): seq<nat> {
    Starts(s, 0, -1)
  }

  /** Entries in ascending order, each at the first record of its sector. */
  ghost predicate Entries(s: seq<int>, ss: seq<nat>) {
    && (forall k :: 0 <= k < |ss| ==> ss[k] < |s|)
    && (forall k, l :: 0 <= k < l < |ss| ==> s[ss[k]] < s[ss[l]])
    && (forall k, j :: 0 <= k < |ss| && 0 <= j < ss[k] ==> s[j] < s[ss[k]])
  }

  ghost predicate Finds(s: seq<int>, ss: seq<nat>, a: int) {
    exists k :: 0 <= k < |ss| && ss[k] < |s| && s[ss[k]] == a
  }

  /** Entries for exactly the addresses above, or from, that of record `i`. */
  ghost predicate EntriesAbove(s: seq<int>, i: nat, t: seq<nat>)
    requires i < |s|
  {
    && Entries(s, t) && (forall k :: 0 <= k < |t| ==> s[i] < s[t[k]])
    && (forall j :: 0 <= j < |s| && s[i] < s[j] ==> Finds(s, t, s[j]))
  }

  ghost predicate EntriesFrom(s: seq<int>, i: nat, t: seq<nat>)
    requires i < |s|
  {
    && Entries(s, t) && (forall k :: 0 <= k < |t| ==> s[i] <= s[t[k]])
    && (forall j :: 0 <= j < |s| && s[i] <= s[j] ==> Finds(s, t, s[j]))
  }

  lemma AboveNext(s: seq<int>, i: nat, t: seq<nat>)
    requires Ascending(s) && i + 1 < |s| && s[i] < s[i + 1] && EntriesFrom(s, i + 1, t)
    ensures EntriesAbove(s, i, t)
  {
    assert forall j :: 0 <= j <= i ==> s[j] <= s[i];
    assert forall j :: i + 1 <= j < |s| ==> s[i + 1] <= s[j];
  }

  lemma EntryBefore(s: seq<int>, i: nat, t: seq<nat>)
    requires Ascending(s) && i < |s| && Entries(s, t) && (forall k :: 0 <= k < |t| ==> s[i] < s[t[k]])
    requires i > 0 ==> s[i - 1] < s[i]
    ensures Entries(s, [i] + t)
  {
    var ss := [i] + t;
    assert forall k :: 0 < k < |ss| ==> ss[k] == t[k - 1];
    forall k, j | 0 <= k < |ss| && 0 <= j < ss[k] ensures s[j] < s[ss[k]] {
      if k == 0 { assert s[j] <= s[i - 1]; }
    }
  }

  lemma FindsBefore(s: seq<int>, i: nat, t: seq<nat>)
    requires i < |s| && forall j :: 0 <= j < |s| && s[i] < s[j] ==> Finds(s, t, s[j])
    ensures forall j :: 0 <= j < |s| && s[i] <= s[j] ==> Finds(s, [i] + t, s[j])
  {
    var ss := [i] + t;
    forall j | 0 <= j < |s| && s[i] <= s[j] ensures Finds(s, ss, s[j]) {
      if s[j] == s[i] {
        assert s[ss[0]] == s[j];
      } else {
        var k :| 0 <= k < |t| && t[k] < |s| && s[t[k]] == s[j];
        assert ss[k + 1] == t[k];
      }
    }
  }

  lemma FromAbove(s: seq<int>, i: nat, t: seq<nat>)
    requires Ascending(s) && i < |s| && EntriesAbove(s, i, t) && (i > 0 ==> s[i - 1] < s[i])
    ensures EntriesFrom(s, i, [i] + t)
  {
    EntryBefore(s, i, t);
    FindsBefore(s, i, t);
    var ss := [i] + t;
    forall k | 0 <= k < |ss| ensures s[i] <= s[ss[k]] {
      if k > 0 { assert ss[k] == t[k - 1]; }
    }
  }

  /** The entries made after record `i` are those of the addresses above its own. */
  lemma {:induction false} StartsAbove(s: seq<int>, i: nat)
    requires Ascending(s) && i < |s|
    ensures EntriesAbove(s, i, Starts(s, i + 1, s[i]))
    decreases |s| - i
  {
    if i + 1 < |s| {
      StartsAbove(s, i + 1);
      var t := Starts(s, i + 2, s[i + 1]);
      if s[i + 1] != s[i] {
        FromAbove(s, i + 1, t);
        AboveNext(s, i, [i + 1] + t);
        assert Starts(s, i + 1, s[i]) == [i + 1] + t;
      } else {
        assert Starts(s, i + 1, s[i]) == t;
      }
    }
  }

  lemma IndexIs(s: seq<int>, t: seq<nat>)
    requires s != [] && t == Starts(s, 1, s[0])
    ensures Index(s) == if s[0] != -1 then [0] + t else t
  {
  }

  lemma IndexFrom(s: seq<int>)
    requires s != [] && Ascending(s) && s[0] != -1
    ensures EntriesFrom(s, 0, Index(s))
  {
    StartsAbove(s, 0);
    var t := Starts(s, 1, s[0]);
    FromAbove(s, 0, t);
    IndexIs(s, t);
  }

  lemma IndexAbove(s: seq<int>)
    requires s != [] && Ascending(s) && s[0] == -1
    ensures EntriesAbove(s, 0, Index(s))
  {
    StartsAbove(s, 0);
    IndexIs(s, Starts(s, 1, s[0]));
  }

  ghost predicate FindsExactly(s: seq<int>, ss: seq<nat>) {
    forall j :: 0 <= j < |s| ==> (Finds(s, ss, s[j]) <==> s[j] != -1 || s[0] != -1)
  }

  lemma AllFrom(s: seq<int>, ss: seq<nat>)
    requires s != [] && Ascending(s) && s[0] != -1 && EntriesFrom(s, 0, ss)
    ensures Entries(s, ss) && FindsExactly(s, ss)
  {
  }

  lemma AllAbove(s: seq<int>, ss: seq<nat>)
    requires s != [] && Ascending(s) && s[0] == -1 && EntriesAbove(s, 0, ss)
    ensures Entries(s, ss) && FindsExactly(s, ss)
  {
  }

  /** The index of a sorted list has its entries in order, each at the first record of its sector; it finds every
      sector of the list but the sentinel's, -1, when the list begins with that. */
  lemma IndexExact(s: seq<int>)
    requires Ascending(s)
    ensures Entries(s, Index(s)) && FindsExactly(s, Index(s))
  {
    if s == [] {
    } else if s[0] != -1 {
      IndexFrom(s);
      AllFrom(s, Index(s));
    } else {
      IndexAbove(s);
      AllAbove(s, Index(s));
    }
  }

  lemma IndexFinds(s: seq<int>, j: nat)
    requires Ascending(s) && j < |s|
    ensures Finds(s, Index(s), s[j]) <==> s[j] != -1 || s[0] != -1
  {
    IndexExact(s);
  }

  // ---------------------------------------------------------------------------
  // Applying patches
  // ---------------------------------------------------------------------------

  /** What `CheckPPFCache` makes of one byte of a sector: that of the record where it covers it. */
  function PatchedByte(r: Record, j: nat, b: Byte): Byte {
    if r.pos <= j + HEADER < r.pos + |r.data| then r.data[j + HEADER - r.pos] else b
  }

  function Patched(buf: seq<Byte>, r: Record): (s: seq<Byte>)
    ensures |s| == |buf|
  {
    seq(|buf|, j requires 0 <= j < |buf| => PatchedByte(r, j, buf[j]))
  }

  /** How many bytes `CheckPPFCache` asks `memcpy` for: what lies in the sector's header is skipped. */
  function CopyLength(r: Record): int {
    if r.pos < HEADER then |r.data| - (HEADER - r.pos) else |r.data|
  }

  /** The record ends in the sector, and what is copied of it is no negative number of bytes. */
  predicate Applicable(r: Record) {
    0 <= CopyLength(r) && r.pos + |r.data| <= CD_FRAMESIZE_RAW
  }

  /** Records applied one after another. */
  function AllPatched(buf: seq<Byte>, rs: seq<Record>): (s: seq<Byte>)
    ensures |s| == |buf|
    decreases |rs|
  {
    if rs == [] then buf else AllPatched(Patched(buf, rs[0]), rs[1..])
  }

  predicate Covers(r: Record, j: nat) {
    r.pos <= j + HEADER < r.pos + |r.data|
  }

  lemma {:induction false} Uncovered(buf: seq<Byte>, rs: seq<Record>, j: nat)
    requires j < |buf| && forall k :: 0 <= k < |rs| ==> !Covers(rs[k], j)
    ensures AllPatched(buf, rs)[j] == buf[j]
    decreases |rs|
  {
    if rs != [] { Uncovered(Patched(buf, rs[0]), rs[1..], j); }
  }

  lemma {:induction false} LastDecidesAt(buf: seq<Byte>, rs: seq<Record>, j: nat, k: nat)
    requires j < |buf| && k < |rs| && Covers(rs[k], j) && forall l :: k < l < |rs| ==> !Covers(rs[l], j)
    ensures AllPatched(buf, rs)[j] == rs[k].data[j + HEADER - rs[k].pos]
    decreases |rs|
  {
    var t := rs[1..];
    if k == 0 {
      Uncovered(Patched(buf, rs[0]), t, j);
    } else {
      LastDecidesAt(Patched(buf, rs[0]), t, j, k - 1);
    }
  }

  /** A byte no record covers stays; otherwise the last record that covers it decides. */
  lemma LastDecides(buf: seq<Byte>, rs: seq<Record>, j: nat)
    requires j < |buf|
    ensures (forall k :: 0 <= k < |rs| ==> !Covers(rs[k], j)) ==> AllPatched(buf, rs)[j] == buf[j]
    ensures forall k :: 0 <= k < |rs| && Covers(rs[k], j) && (forall l :: k < l < |rs| ==> !Covers(rs[l], j)) ==>
              AllPatched(buf, rs)[j] == rs[k].data[j + HEADER - rs[k].pos]
  {
    if forall k :: 0 <= k < |rs| ==> !Covers(rs[k], j) {
      Uncovered(buf, rs, j);
    }
    forall k | 0 <= k < |rs| && Covers(rs[k], j) && (forall l :: k < l < |rs| ==> !Covers(rs[l], j))
      ensures AllPatched(buf, rs)[j] == rs[k].data[j + HEADER - rs[k].pos]
    {
      LastDecidesAt(buf, rs, j, k);
    }
  }

  /** The records of a list for one sector, in list order. */
  function ForSector(rs: seq<Record>, addr: int): seq<Record> {
    if rs == [] then []
    else (if rs[0].addr == addr then [rs[0]] else []) + ForSector(rs[1..], addr)
  }

  lemma {:induction false} ForSectorSkips(rs: seq<Record>, addr: int, n: nat)
    requires n <= |rs| && forall i :: 0 <= i < n ==> rs[i].addr != addr
    ensures ForSector(rs, addr) == ForSector(rs[n..], addr)
  {
    if n > 0 {
      assert forall i :: 0 <= i < n - 1 ==> rs[1..][i] == rs[i + 1];
      ForSectorSkips(rs[1..], addr, n - 1);
      assert rs[1..][n - 1..] == rs[n..];
    }
  }

  lemma ForSectorEmpty(rs: seq<Record>, addr: int)
    requires forall i :: 0 <= i < |rs| ==> rs[i].addr != addr
    ensures ForSector(rs, addr) == []
  {
    ForSectorSkips(rs, addr, |rs|);
  }

  // ---------------------------------------------------------------------------
  // Sector edges
  // ---------------------------------------------------------------------------

  /** The byte of the disc at `x` according to a record. */
  function DiscByte(r: Record, x: int): (b: int)
    ensures -1 <= b < 256
  {
    var i := x - (CD_FRAMESIZE_RAW * r.addr + r.pos);
    if 0 <= i < |r.data| then r.data[i] else -1
  }

  /** Division by the sector size rounding towards zero, as C rounds; by whole sectors, which spares the solver the
      remainders. */
  function Sector(at: int): int
    decreases if at < 0 then -at else at
  {
    if at >= 2352 then Sector(at - 2352) + 1 else if at <= -2352 then Sector(at + 2352) - 1 else 0
  }

  lemma {:induction false} SectorIs(at: int)
    ensures 0 <= at ==> 0 <= at - 2352 * Sector(at) < 2352
    ensures at <= 0 ==> -2352 < at - 2352 * Sector(at) <= 0
    ensures Sector(at) == if at < 0 then -(-at / CD_FRAMESIZE_RAW) else at / CD_FRAMESIZE_RAW
    decreases if at < 0 then -at else at
  {
    if at >= 2352 { SectorIs(at - 2352); } else if at <= -2352 { SectorIs(at + 2352); }
  }

  function Offset(at: int): (off: int)
    ensures -2352 < off < 2352 && (0 <= at ==> 0 <= off) && (at <= 0 ==> off <= 0)
  {
    SectorIs(at);
    at - 2352 * Sector(at)
  }

  /** A patch that lies wholly before its sector (the one a negative offset rounds to) makes the unsigned sum of
      offset and length enormous, and a negative length is copied. */
  predicate Addable(at: int, n: nat) {
    0 <= Offset(at) + n
  }

  /** The patch goes beyond the end of its sector. */
  predicate Crosses(at: int, n: nat) {
    Offset(at) + n > CD_FRAMESIZE_RAW
  }

  /** The records a patch of `data` at byte `at` of the disc is cut into, in the order they are added
      (src/ppf.cpp:330-339). */
  function Cut(at: int, data: seq<Byte>): (rs: seq<Record>)
    requires |data| < 256 && Addable(at, |data|)
    ensures forall i :: 0 <= i < |rs| ==> rs[i].pos + |rs[i].data| <= CD_FRAMESIZE_RAW && (0 <= at ==> 0 <= rs[i].pos)
  {
    var ladr, off := Sector(at), Offset(at);
    if Crosses(at, |data|) then
      var anx := off + |data| - CD_FRAMESIZE_RAW;
      var anz := |data| - anx % 256;
      [Record(ladr + 1, 0, data[anz..anz + anx]), Record(ladr, off, data[..anz])]
    else [Record(ladr, off, data)]
  }

  /** Cutting a patch at a sector edge loses no byte, moves none and adds none. */
  lemma CutKeepsBytes(at: int, data: seq<Byte>, x: int)
    requires |data| < 256 && Addable(at, |data|)
    ensures var rs, i := Cut(at, data), x - at;
            if 0 <= i < |data| then exists k :: 0 <= k < |rs| && DiscByte(rs[k], x) == data[i] &&
                                      forall l :: 0 <= l < |rs| && l != k ==> DiscByte(rs[l], x) == -1
            else forall k :: 0 <= k < |rs| ==> DiscByte(rs[k], x) == -1
  {
    var rs, i := Cut(at, data), x - at;
    if 0 <= i < |data| {
      var k := if |rs| == 2 && i >= |rs[1].data| then 0 else |rs| - 1;
      assert DiscByte(rs[k], x) == data[i];
    }
  }

  /** A patch can be applied to the sectors it touches exactly if it reaches past the header of the last of them;
      otherwise `CheckPPFCache` would copy a negative number of bytes. */
  lemma CutApplicable(at: int, data: seq<Byte>)
    requires |data| < 256 && Addable(at, |data|)
    ensures (forall k :: 0 <= k < |Cut(at, data)| ==> Applicable(Cut(at, data)[k])) <==>
            var end := Offset(at) + |data|;
            (if end > CD_FRAMESIZE_RAW then end - CD_FRAMESIZE_RAW else end) >= HEADER
  {
    var rs := Cut(at, data);
    assert Applicable(rs[0]) <==> rs[0].pos + |rs[0].data| >= HEADER;
    assert |rs| == 2 ==> Applicable(rs[1]);
  }

  /** Four bytes at byte 3 of a sector: -5 bytes would be copied. */
  lemma NegativeCopy()
    ensures var rs := Cut(5 * CD_FRAMESIZE_RAW + 3, [1, 2, 3, 4]);
            |rs| == 1 && CopyLength(rs[0]) == -5 && !Applicable(rs[0])
  {
    SectorIs(5 * CD_FRAMESIZE_RAW + 3);
  }

  /** A patch as it stands in the file. */
  datatype Patch = Patch(at: int, data: seq<Byte>)

  predicate PatchOk(p: Patch) {
    |p.data| < 256 && Addable(p.at, |p.data|)
  }

  ghost predicate AllOk(ps: seq<Patch>) {
    forall i :: 0 <= i < |ps| ==> PatchOk(ps[i])
  }

  ghost function CutAll(ps: seq<Patch>): seq<Record>
    requires AllOk(ps)
  {
    if ps == [] then [] else CutAll(ps[..|ps| - 1]) + Cut(ps[|ps| - 1].at, ps[|ps| - 1].data)
  }

  lemma OneCut(p: Patch, r: Record)
    requires PatchOk(p) && Cut(p.at, p.data) == [r]
    ensures AllOk([p]) && CutAll([p]) == [r] == AllInserted(CutAll([p]))
  {
    assert [p][..0] == [] && CutAll([p]) == [] + [r];
    assert [r][..0] == [];
  }

  lemma SentinelOnly(rs: seq<Record>, s: seq<int>)
    requires |rs| == 1 && rs[0].addr == -1 && s == Addrs(rs)
    ensures rs == ForSector(rs, -1) && !Finds(s, Index(s), -1)
  {
    assert rs[1..] == [] && s == [-1] && Starts(s, 1, -1) == [];
  }

  /** A patch one sector before the disc is in the list but not in the index: the sentinel hides it. */
  lemma SentinelHides()
    ensures var ps := [Patch(-2352, [7])];
            AllOk(ps) &&
            var rs := AllInserted(CutAll(ps));
            rs == [Record(-1, 0, [7])] == ForSector(rs, -1) && !Finds(Addrs(rs), Index(Addrs(rs)), -1)
  {
    OneCut(Patch(-2352, [7]), Record(-1, 0, [7]));
    SentinelOnly([Record(-1, 0, [7])], Addrs([Record(-1, 0, [7])]));
  }

  // ---------------------------------------------------------------------------
  // Patch files
  // ---------------------------------------------------------------------------

  /** PPF3 files have four more bytes to a patch, and, with undo data, every patch's bytes twice. */
  datatype Format = Format(ppf3: bool, undo: bool)

  function Head(f: Format): nat {
    if f.ppf3 then 9 else 5
  }

  function Copies(f: Format, n: nat): nat {
    if f.ppf3 && f.undo then n + n else n
  }

  /** Four bytes read as a signed 32-bit number, lowest first. */
  function Signed32(b0: Byte, b1: Byte, b2: Byte, b3: Byte): int {
    var x := b0 as int + 0x100 * b1 as int + 0x1_0000 * b2 as int + 0x100_0000 * b3 as int;
    if x < 0x8000_0000 then x else x - 0x1_0000_0000
  }

  datatype Read = NoPatch | Got(p: Patch)

  /** The patch read at byte `at` of a file (src/ppf.cpp:314-328): none if the file ends before the patch does, or if
      it has no bytes. */
  function PatchAt(file: seq<Byte>, f: Format, at: nat): (r: Read)
    ensures r.Got? ==> 0 < |r.p.data| < 256 && at + Head(f) + |r.p.data| <= |file|
  {
    if at + Head(f) > |file| then NoPatch
    else
      var n: nat := file[at + Head(f) - 1];
      if n == 0 || at + Head(f) + n > |file| then NoPatch
      else Got(Patch(Signed32(file[at], file[at + 1], file[at + 2], file[at + 3]),
                     file[at + Head(f)..at + Head(f) + n]))
  }

  /** How many of a patch's bytes lie beyond the end of its sector. */
  function Beyond(p: Patch): (anx: nat)
    requires PatchOk(p)
    ensures anx <= |p.data| && (anx > 0 <==> Crosses(p.at, |p.data|))
  {
    if Crosses(p.at, |p.data|) then Offset(p.at) + |p.data| - CD_FRAMESIZE_RAW else 0
  }

  /** The bytes a patch takes in the file, and the bytes the loop goes on by (src/ppf.cpp:335, 341-347): of a patch that
      was cut it counts only the part in the first sector. */
  function Stored(f: Format, p: Patch): nat {
    Head(f) + Copies(f, |p.data|)
  }

  function Advance(f: Format, p: Patch): nat
    requires PatchOk(p)
  {
    Head(f) + Copies(f, |p.data| - Beyond(p))
  }

  /** What reading comes to: all done, an error, or a patch that cannot be added. */
  datatype Outcome = Loaded(ps: seq<Patch>) | Failed(ps: seq<Patch>) | Crashed

  function After(done: seq<Patch>, o: Outcome): Outcome {
    match o
    case Loaded(ps) => Loaded(done + ps)
    case Failed(ps) => Failed(done + ps)
    case Crashed => Crashed
  }

  /** The patches read from byte `seek` on, until `count` is used up exactly (src/ppf.cpp:313-348). */
  function ReadAll(file: seq<Byte>, f: Format, seek: nat, count: int): Outcome
    decreases |file| - seek
  {
    match PatchAt(file, f, seek)
    case NoPatch => Failed([])
    case Got(p) =>
      if !PatchOk(p) then Crashed
      else if count == Advance(f, p) then Loaded([p])
      else After([p], ReadAll(file, f, seek + Advance(f, p), count - Advance(f, p)))
  }

  /** The four bytes of a signed 32-bit number, lowest first. */
  function Bytes32(at: int): (b: seq<Byte>)
    requires -0x8000_0000 <= at < 0x8000_0000
    ensures |b| == 4
  {
    var u := if at < 0 then at + 0x1_0000_0000 else at;
    [u % 0x100, u / 0x100 % 0x100, u / 0x1_0000 % 0x100, u / 0x100_0000]
  }

  lemma BytesOf(u: nat)
    requires u < 0x1_0000_0000
    ensures u == u % 0x100 + 0x100 * (u / 0x100 % 0x100) + 0x1_0000 * (u / 0x1_0000 % 0x100)
                 + 0x100_0000 * (u / 0x100_0000)
  {
    assert u / 0x1_0000 == u / 0x100 / 0x100 && u / 0x100_0000 == u / 0x1_0000 / 0x100;
  }

  /** A position is read as it was written. */
  lemma PositionReadsBack(at: int)
    requires -0x8000_0000 <= at < 0x8000_0000
    ensures var b := Bytes32(at); Signed32(b[0], b[1], b[2], b[3]) == at
  {
    BytesOf(if at < 0 then at + 0x1_0000_0000 else at);
  }

  /** A patch as a file has it: its position, in PPF3 with four bytes more, `high`; the number of its bytes; these;
      and with undo data, `undo`, as many again. */
  function Encoded(f: Format, p: Patch, high: seq<Byte>, undo: seq<Byte>): seq<Byte>
    requires -0x8000_0000 <= p.at < 0x8000_0000 && |p.data| < 256
  {
    Bytes32(p.at) + (if f.ppf3 then high else []) + [|p.data|] + p.data + (if f.ppf3 && f.undo then undo else [])
  }

  /** The file has the patch at byte `at`. */
  ghost predicate StoredAt(file: seq<Byte>, f: Format, at: nat, p: Patch) {
    && -0x8000_0000 <= p.at < 0x8000_0000 && 0 < |p.data| < 256
    && exists high: seq<Byte>, undo: seq<Byte> ::
         && |high| == 4 && |undo| == |p.data|
         && at <= |file| && Encoded(f, p, high, undo) <= file[at..]
  }

  /** The file holds the patches `ps` one after another from byte `at` on. */
  ghost predicate HoldsPatches(file: seq<Byte>, f: Format, at: nat, ps: seq<Patch>)
    decreases |ps|
  {
    ps != [] ==> StoredAt(file, f, at, ps[0]) && HoldsPatches(file, f, at + Stored(f, ps[0]), ps[1..])
  }

  lemma EncodedParts(f: Format, p: Patch, high: seq<Byte>, undo: seq<Byte>)
    requires -0x8000_0000 <= p.at < 0x8000_0000 && 0 < |p.data| < 256 && |high| == 4 && |undo| == |p.data|
    ensures var e := Encoded(f, p, high, undo);
            && |e| == Stored(f, p) && e[..4] == Bytes32(p.at) && e[Head(f) - 1] == |p.data|
            && e[Head(f)..Head(f) + |p.data|] == p.data
  {
    hide Bytes32;
  }

  /** A patch is read as it was stored. */
  lemma PatchReadsBack(file: seq<Byte>, f: Format, at: nat, p: Patch)
    requires StoredAt(file, f, at, p)
    ensures PatchAt(file, f, at) == Got(p) && at + Stored(f, p) <= |file|
  {
    var high: seq<Byte>, undo: seq<Byte> :|
      |high| == 4 && |undo| == |p.data| && at <= |file| && Encoded(f, p, high, undo) <= file[at..];
    var e := Encoded(f, p, high, undo);
    EncodedParts(f, p, high, undo);
    PositionReadsBack(p.at);
    hide Bytes32, Signed32, Encoded;
    assert forall k :: 0 <= k < |e| ==> file[at + k] == e[k];
    assert forall k :: 0 <= k < 4 ==> e[k] == e[..4][k];
    assert file[at + Head(f)..at + Head(f) + |p.data|] == e[Head(f)..Head(f) + |p.data|];
  }

  /** The first patch of a file is read, and the others lie after it. */
  lemma FirstReadsBack(file: seq<Byte>, f: Format, at: nat, ps: seq<Patch>)
    requires ps != [] && HoldsPatches(file, f, at, ps)
    ensures PatchAt(file, f, at) == Got(ps[0]) && HoldsPatches(file, f, at + Stored(f, ps[0]), ps[1..])
  {
    hide PatchAt;
    PatchReadsBack(file, f, at, ps[0]);
  }

  function StoredAll(f: Format, ps: seq<Patch>): nat {
    if ps == [] then 0 else Stored(f, ps[0]) + StoredAll(f, ps[1..])
  }

  ghost function AdvanceAll(f: Format, ps: seq<Patch>): nat
    requires AllOk(ps)
  {
    if ps == [] then 0 else Advance(f, ps[0]) + AdvanceAll(f, ps[1..])
  }

  /** The loop goes on by what the patch takes exactly if the patch does not cross a sector edge, and else by less. */
  lemma AdvanceShort(f: Format, p: Patch)
    requires PatchOk(p)
    ensures if Crosses(p.at, |p.data|) then Advance(f, p) < Stored(f, p) else Advance(f, p) == Stored(f, p)
    ensures 0 < Advance(f, p) <= Stored(f, p)
  {
  }

  lemma {:induction false} AdvanceAllShort(f: Format, ps: seq<Patch>)
    requires AllOk(ps)
    ensures AdvanceAll(f, ps) <= StoredAll(f, ps)
    ensures AdvanceAll(f, ps) == StoredAll(f, ps) <==> forall i :: 0 <= i < |ps| ==> !Crosses(ps[i].at, |ps[i].data|)
  {
    if ps != [] {
      var t := ps[1..];
      AdvanceShort(f, ps[0]);
      AdvanceAllShort(f, t);
      assert forall i :: 0 <= i < |t| ==> t[i] == ps[i + 1];
      assert forall i :: 0 < i < |ps| ==> ps[i] == t[i - 1];
    }
  }

  /** What reading a patch adds to what is read after it. */
  lemma ReadAllStep(file: seq<Byte>, f: Format, seek: nat, count: int, p: Patch)
    requires PatchAt(file, f, seek) == Got(p) && PatchOk(p)
    ensures ReadAll(file, f, seek, count) ==
            if count == Advance(f, p) then Loaded([p])
            else After([p], ReadAll(file, f, seek + Advance(f, p), count - Advance(f, p)))
  {
  }

  lemma MoreAdvanced(f: Format, p: Patch, t: seq<Patch>)
    requires PatchOk(p) && AllOk(t)
    ensures AllOk([p] + t) && AdvanceAll(f, [p] + t) == Advance(f, p) + AdvanceAll(f, t)
    ensures [p] + [] == [p]
  {
    assert ([p] + t)[1..] == t;
  }

  /** A file read to its end was counted off exactly. */
  lemma {:induction false} LoadedCount(file: seq<Byte>, f: Format, seek: nat, count: int)
    requires ReadAll(file, f, seek, count).Loaded?
    ensures var ps := ReadAll(file, f, seek, count).ps; AllOk(ps) && ps != [] && count == AdvanceAll(f, ps)
    decreases |file| - seek
  {
    var p := PatchAt(file, f, seek).p;
    var step := Advance(f, p);
    ReadAllStep(file, f, seek, count, p);
    hide ReadAll, PatchOk, Advance, PatchAt, AllOk, AdvanceAll;
    if count == step {
      MoreAdvanced(f, p, []);
    } else {
      LoadedCount(file, f, seek + step, count - step);
      MoreAdvanced(f, p, ReadAll(file, f, seek + step, count - step).ps);
    }
  }

  lemma MoreStored(f: Format, ps: seq<Patch>)
    requires ps != []
    ensures StoredAll(f, ps) == Stored(f, ps[0]) + StoredAll(f, ps[1..]) > 0
    ensures |ps| > 1 ==> StoredAll(f, ps) != Stored(f, ps[0])
  {
  }

  lemma ReadWhole(file: seq<Byte>, f: Format, seek: nat, count: int, p: Patch, t: seq<Patch>, step: nat)
    requires PatchAt(file, f, seek) == Got(p) && PatchOk(p) && step == Advance(f, p)
    requires if count == step then t == [] else ReadAll(file, f, seek + step, count - step) == Loaded(t)
    ensures ReadAll(file, f, seek, count) == Loaded([p] + t)
  {
    ReadAllStep(file, f, seek, count, p);
  }

  /** No patch crosses a sector edge. */
  ghost predicate Uncut(ps: seq<Patch>) {
    forall i :: 0 <= i < |ps| ==> !Crosses(ps[i].at, |ps[i].data|)
  }

  lemma UncutTail(ps: seq<Patch>)
    requires ps != [] && AllOk(ps) && Uncut(ps)
    ensures PatchOk(ps[0]) && AllOk(ps[1..]) && Uncut(ps[1..]) && [ps[0]] + ps[1..] == ps
    ensures !Crosses(ps[0].at, |ps[0].data|)
  {
    assert forall i :: 0 <= i < |ps[1..]| ==> ps[1..][i] == ps[i + 1];
  }

  lemma UncutStep(file: seq<Byte>, f: Format, seek: nat, count: nat, p: Patch, t: seq<Patch>)
    requires PatchAt(file, f, seek) == Got(p) && PatchOk(p) && !Crosses(p.at, |p.data|)
    requires count == Stored(f, p) + StoredAll(f, t) && (t != [] ==> StoredAll(f, t) > 0)
    requires t != [] ==> ReadAll(file, f, seek + Stored(f, p), StoredAll(f, t)) == Loaded(t)
    ensures ReadAll(file, f, seek, count) == Loaded([p] + t)
  {
    AdvanceShort(f, p);
    hide PatchAt, ReadAll, Stored, Advance, PatchOk, Crosses;
    ReadWhole(file, f, seek, count, p, t, Advance(f, p));
  }

  lemma {:induction false} UncutReadsBack(file: seq<Byte>, f: Format, seek: nat, ps: seq<Patch>)
    requires ps != [] && AllOk(ps) && HoldsPatches(file, f, seek, ps) && Uncut(ps)
    ensures ReadAll(file, f, seek, StoredAll(f, ps)) == Loaded(ps)
    decreases |ps|
  {
    hide PatchAt, HoldsPatches, ReadAll, Stored, StoredAll, AllOk, PatchOk, Uncut, Crosses;
    var p, t := ps[0], ps[1..];
    FirstReadsBack(file, f, seek, ps);
    MoreStored(f, ps);
    UncutTail(ps);
    if t != [] {
      UncutReadsBack(file, f, seek + Stored(f, p), t);
      MoreStored(f, t);
    }
    UncutStep(file, f, seek, StoredAll(f, ps), p, t);
  }

  /** A file is read back as the patches it holds exactly if none of them crosses a sector edge: after one that does,
      the loop goes on in the middle of it. */
  lemma FileReadsBack(file: seq<Byte>, f: Format, seek: nat, ps: seq<Patch>)
    requires ps != [] && AllOk(ps) && HoldsPatches(file, f, seek, ps)
    ensures ReadAll(file, f, seek, StoredAll(f, ps)) == Loaded(ps) <==>
            forall i :: 0 <= i < |ps| ==> !Crosses(ps[i].at, |ps[i].data|)
  {
    AdvanceAllShort(f, ps);
    if forall i :: 0 <= i < |ps| ==> !Crosses(ps[i].at, |ps[i].data|) {
      UncutReadsBack(file, f, seek, ps);
    }
    if ReadAll(file, f, seek, StoredAll(f, ps)) == Loaded(ps) {
      LoadedCount(file, f, seek, StoredAll(f, ps));
    }
  }

  /** Every patch is read from its own place exactly if no patch but the last crosses a sector edge. */
  lemma PlacesExact(f: Format, ps: seq<Patch>)
    requires ps != [] && AllOk(ps)
    ensures (forall k :: 0 <= k < |ps| ==> AdvanceAll(f, ps[..k]) == StoredAll(f, ps[..k])) <==>
            forall i :: 0 <= i < |ps| - 1 ==> !Crosses(ps[i].at, |ps[i].data|)
  {
    forall k | 0 <= k < |ps|
      ensures AdvanceAll(f, ps[..k]) == StoredAll(f, ps[..k]) <==>
              forall i :: 0 <= i < k ==> !Crosses(ps[i].at, |ps[i].data|)
    {
      AdvanceAllShort(f, ps[..k]);
      assert forall i :: 0 <= i < k ==> ps[..k][i] == ps[i];
    }
    assert AdvanceAll(f, ps[..|ps| - 1]) == StoredAll(f, ps[..|ps| - 1]) ==>
             forall i :: 0 <= i < |ps| - 1 ==> !Crosses(ps[i].at, |ps[i].data|);
  }

  /** Reading ends in what cannot be added, or begins with the patches `ps`. */
  predicate Begins(ps: seq<Patch>, o: Outcome) {
    o.Crashed? || ps <= o.ps
  }

  lemma ReadFirst(file: seq<Byte>, f: Format, seek: nat, count: int, p: Patch, t: seq<Patch>, step: nat)
    requires PatchAt(file, f, seek) == Got(p) && PatchOk(p) && step == Advance(f, p)
    requires if count == step then t == [] else Begins(t, ReadAll(file, f, seek + step, count - step))
    ensures Begins([p] + t, ReadAll(file, f, seek, count))
  {
    ReadAllStep(file, f, seek, count, p);
    if count == step {
      assert [p] + t == [p];
    }
  }

  /** No patch but the last crosses a sector edge. */
  ghost predicate UncutBeforeLast(ps: seq<Patch>) {
    forall i :: 0 <= i < |ps| - 1 ==> !Crosses(ps[i].at, |ps[i].data|)
  }

  lemma UncutBeforeLastTail(ps: seq<Patch>)
    requires ps != [] && AllOk(ps) && UncutBeforeLast(ps)
    ensures PatchOk(ps[0]) && AllOk(ps[1..]) && UncutBeforeLast(ps[1..]) && [ps[0]] + ps[1..] == ps
    ensures ps[1..] != [] ==> !Crosses(ps[0].at, |ps[0].data|)
  {
    assert forall i :: 0 <= i < |ps[1..]| ==> ps[1..][i] == ps[i + 1];
  }

  lemma FirstStep(file: seq<Byte>, f: Format, seek: nat, count: nat, p: Patch, t: seq<Patch>)
    requires PatchAt(file, f, seek) == Got(p) && PatchOk(p)
    requires count == Stored(f, p) + StoredAll(f, t) && (t != [] ==> StoredAll(f, t) > 0)
    requires t != [] ==>
               !Crosses(p.at, |p.data|) && Begins(t, ReadAll(file, f, seek + Stored(f, p), StoredAll(f, t)))
    ensures Begins([p] + t, ReadAll(file, f, seek, count))
  {
    AdvanceShort(f, p);
    hide PatchAt, ReadAll, Stored, Advance, PatchOk, Crosses;
    ReadFirst(file, f, seek, count, p, t, Advance(f, p));
  }

  /** If none but the last crosses an edge, all of them are read; whatever else is made of the last one's end. */
  lemma {:induction false} AllReadFirst(file: seq<Byte>, f: Format, seek: nat, ps: seq<Patch>)
    requires ps != [] && AllOk(ps) && HoldsPatches(file, f, seek, ps) && UncutBeforeLast(ps)
    ensures Begins(ps, ReadAll(file, f, seek, StoredAll(f, ps)))
    decreases |ps|
  {
    hide PatchAt, HoldsPatches, ReadAll, Stored, StoredAll, AllOk, PatchOk, UncutBeforeLast, Crosses, Begins;
    var p, t := ps[0], ps[1..];
    FirstReadsBack(file, f, seek, ps);
    MoreStored(f, ps);
    UncutBeforeLastTail(ps);
    if t != [] {
      AllReadFirst(file, f, seek + Stored(f, p), t);
      MoreStored(f, t);
    }
    FirstStep(file, f, seek, StoredAll(f, ps), p, t);
  }

  lemma CutFileHolds(file: seq<Byte>, f: Format, p: Patch)
    requires file == [0x2e, 0x09, 0, 0, 4, 1, 2, 3, 4] && f == Format(false, false) && p == Patch(2350, [1, 2, 3, 4])
    ensures HoldsPatches(file, f, 0, [p])
  {
    assert Bytes32(2350) == [0x2e, 0x09, 0, 0];
    assert Encoded(f, p, [0, 0, 0, 0], p.data) == file == file[0..];
    assert StoredAt(file, f, 0, p);
    hide StoredAt;
    assert [p][1..] == [] && HoldsPatches(file, f, 9, []);
  }

  /** A file of one patch of four bytes, two of them in the next sector, ends in an error: the loop goes on two bytes
      before the end. */
  lemma CutFileFails()
    ensures var file: seq<Byte>, f, p :=
              [0x2e, 0x09, 0, 0, 4, 1, 2, 3, 4], Format(false, false), Patch(2350, [1, 2, 3, 4]);
            HoldsPatches(file, f, 0, [p]) && ReadAll(file, f, 0, |file|) == Failed([p])
  {
    var file: seq<Byte>, f, p := [0x2e, 0x09, 0, 0, 4, 1, 2, 3, 4], Format(false, false), Patch(2350, [1, 2, 3, 4]);
    CutFileHolds(file, f, p);
    hide HoldsPatches;
    assert PatchAt(file, f, 0) == Got(p);
    assert Advance(f, p) == 7 && PatchAt(file, f, 7) == NoPatch;
  }

  /** Records added to a list one by one. */
  function AddedTo(list: seq<Record>, ts: seq<Record>): seq<Record> {
    if ts == [] then list else Inserted(AddedTo(list, ts[..|ts| - 1]), ts[|ts| - 1])
  }

  lemma AllInsertedOne(rs: seq<Record>, x: Record, all: seq<Record>)
    requires |all| == |rs| + 1 && all[|rs|] == x && forall i :: 0 <= i < |rs| ==> all[i] == rs[i]
    ensures AllInserted(all) == Inserted(AllInserted(rs), x)
  {
    assert all[..|rs|] == rs;
  }

  lemma {:induction false} AllInsertedMore(rs: seq<Record>, ts: seq<Record>)
    ensures AllInserted(rs + ts) == AddedTo(AllInserted(rs), ts)
  {
    if ts == [] {
      assert rs + ts == rs;
    } else {
      var us, x := ts[..|ts| - 1], ts[|ts| - 1];
      AllInsertedMore(rs, us);
      AllInsertedOne(rs + us, x, rs + ts);
    }
  }

  lemma AddedOneOrTwo(list: seq<Record>, ts: seq<Record>)
    requires 1 <= |ts| <= 2
    ensures AddedTo(list, ts) ==
            if |ts| == 2 then Inserted(Inserted(list, ts[0]), ts[1]) else Inserted(list, ts[0])
  {
    assert AddedTo(list, []) == list && ts[..0] == [];
    if |ts| == 2 { assert ts[..1] == [ts[0]] && [ts[0]][..0] == []; }
  }

  // ---------------------------------------------------------------------------
  // The list and the index in place
  // ---------------------------------------------------------------------------

  class Node {
    const rec: Record
    var next: Node?

    constructor (rec: Record, next: Node?)
      ensures this.rec == rec && this.next == next
    {
      this.rec, this.next := rec, next;
    }
  }

  /** An entry of the index: a sector and its first record. */
  datatype Entry = Entry(addr: int, node: Node)

  function NodeAt(nodes: seq<Node>, i: int): Node? {
    if 0 <= i < |nodes| then nodes[i] else null
  }

  function Recs(nodes: seq<Node>): (rs: seq<Record>)
    ensures |rs| == |nodes|
  {
    seq(|nodes|, i requires 0 <= i < |nodes| => nodes[i].rec)
  }

  /** Distinct nodes, each pointing to the one after it. */
  ghost predicate Chained(nodes: seq<Node>)
    reads nodes
  {
    && (forall i, j :: 0 <= i < j < |nodes| ==> nodes[i] != nodes[j])
    && (forall i {:trigger nodes[i].next} :: 0 <= i < |nodes| ==> nodes[i].next == NodeAt(nodes, i + 1))
  }

  /** The pointer of node `n` moved to another node. */
  method LinkAfter(plast: Node, padd: Node, ghost ns: seq<Node>, ghost n: nat)
    requires n < |ns| && plast == ns[n] && forall i, j :: 0 <= i < j < |ns| ==> ns[i] != ns[j]
    modifies plast`next
    ensures forall i {:trigger ns[i].next} :: 0 <= i < |ns| ==> ns[i].next == if i == n then padd else old(ns[i].next)
  {
    plast.next := padd;
  }

  /** What is still to be read completes what has been: `done` so far. */
  ghost predicate Reading(o: Outcome, done: seq<Patch>, file: seq<Byte>, f: Format, seek: nat, count: int) {
    o == After(done, ReadAll(file, f, seek, count)) && !o.Crashed?
  }

  lemma AfterNone(o: Outcome)
    ensures After([], o) == o
  {
    assert o.Loaded? || o.Failed? ==> [] + o.ps == o.ps;
  }

  lemma AfterMore(done: seq<Patch>, p: Patch, o: Outcome)
    ensures After(done, After([p], o)) == After(done + [p], o)
  {
    assert o.Loaded? || o.Failed? ==> done + ([p] + o.ps) == done + [p] + o.ps;
  }

  /** The next patch moves from what is still to be read to what has been; if `count` is used up, that is all. */
  ghost predicate ReadOn(o: Outcome, done: seq<Patch>, file: seq<Byte>, f: Format, seek: nat, count: int) {
    if count == 0 then o == Loaded(done) else Reading(o, done, file, f, seek, count)
  }

  lemma NextOk(o: Outcome, done: seq<Patch>, p: Patch, file: seq<Byte>, f: Format, seek: nat, count: int)
    requires Reading(o, done, file, f, seek, count) && PatchAt(file, f, seek) == Got(p)
    ensures PatchOk(p)
  {
  }

  lemma ReadMore(o: Outcome, done: seq<Patch>, p: Patch, file: seq<Byte>, f: Format, seek: nat, count: int,
                 seek': nat, count': int, anz: nat)
    requires Reading(o, done, file, f, seek, count) && PatchAt(file, f, seek) == Got(p)
    requires PatchOk(p) && anz == |p.data| - Beyond(p)
    requires seek' == seek + (Head(f) + Copies(f, anz)) && count' == count - (Head(f) + Copies(f, anz))
    ensures ReadOn(o, done + [p], file, f, seek', count')
  {
    ReadAllStep(file, f, seek, count, p);
    if count' != 0 { AfterMore(done, p, ReadAll(file, f, seek', count')); }
  }

  /** Every record for the sector fits it. */
  ghost predicate AllApplicable(rs: seq<Record>, addr: int) {
    forall l :: 0 <= l < |rs| && rs[l].addr == addr ==> Applicable(rs[l])
  }

  /** Applying the sector's records from `n` on completes the patch; those before `n` are done. */
  ghost predicate Applying(buf: seq<Byte>, rs: seq<Record>, n: nat, addr: int, all: seq<Byte>) {
    && n <= |rs| && AllPatched(buf, ForSector(rs[n..], addr)) == all
    && (n < |rs| && rs[n].addr != addr ==> n > 0 && rs[n - 1].addr == addr)
  }

  lemma ForSectorStep(rs: seq<Record>, n: nat, addr: int)
    requires n < |rs| && rs[n].addr == addr
    ensures ForSector(rs[n..], addr) == [rs[n]] + ForSector(rs[n + 1..], addr)
  {
    assert rs[n..][1..] == rs[n + 1..];
  }

  lemma ApplyingStep(buf: seq<Byte>, rs: seq<Record>, n: nat, addr: int, all: seq<Byte>)
    requires Applying(buf, rs, n, addr, all) && n < |rs| && rs[n].addr == addr
    ensures Applying(Patched(buf, rs[n]), rs, n + 1, addr, all)
  {
    ForSectorStep(rs, n, addr);
  }

  lemma SectorOver(rs: seq<Record>, n: nat, addr: int)
    requires Sorted(rs) && 0 < n < |rs| && rs[n - 1].addr == addr && rs[n].addr != addr
    ensures forall l :: 0 <= l < |rs| - n ==> rs[n..][l].addr != addr
  {
    assert !Below(rs[n], rs[n - 1]);
    forall l | n < l < |rs| ensures rs[l].addr != addr { assert !Below(rs[l], rs[n]); }
  }

  lemma ApplyingDone(buf: seq<Byte>, rs: seq<Record>, n: nat, addr: int, all: seq<Byte>)
    requires Sorted(rs) && Applying(buf, rs, n, addr, all) && (n < |rs| ==> rs[n].addr != addr)
    ensures buf == all
  {
    if n < |rs| { SectorOver(rs, n, addr); }
    ForSectorEmpty(rs[n..], addr);
  }

  ghost predicate EntriesAscend(es: seq<Entry>) {
    forall k, l :: 0 <= k < l < |es| ==> es[k].addr < es[l].addr
  }

  /** The entries for the records at `ss`. */
  ghost function EntriesAt(nodes: seq<Node>, ss: seq<nat>): (es: seq<Entry>)
    requires forall k :: 0 <= k < |ss| ==> ss[k] < |nodes|
    ensures |es| == |ss|
  {
    seq(|ss|, k requires 0 <= k < |ss| => Entry(nodes[ss[k]].rec.addr, nodes[ss[k]]))
  }

  lemma EntriesAreOrdered(nodes: seq<Node>, ss: seq<nat>)
    requires Sorted(Recs(nodes)) && ss == Index(Addrs(Recs(nodes)))
    ensures EntriesAscend(EntriesAt(nodes, ss))
  {
    var s := Addrs(Recs(nodes));
    AddrsAscend(Recs(nodes));
    IndexExact(s);
    forall k, l | 0 <= k < l < |ss| ensures nodes[ss[k]].rec.addr < nodes[ss[l]].rec.addr {
      assert s[ss[k]] < s[ss[l]];
    }
  }

  /** The entry found leads to the sector's first record. */
  lemma FirstOfSector(rs: seq<Record>, k: nat, addr: int)
    requires Sorted(rs) && k < |Index(Addrs(rs))| && rs[Index(Addrs(rs))[k]].addr == addr
    ensures ForSector(rs, addr) == ForSector(rs[Index(Addrs(rs))[k]..], addr)
    ensures addr == -1 ==> rs[0].addr != -1
  {
    var s, ss := Addrs(rs), Index(Addrs(rs));
    AddrsAscend(rs);
    IndexExact(s);
    forall j | 0 <= j < ss[k] ensures rs[j].addr != addr {
      assert s[j] < s[ss[k]];
    }
    ForSectorSkips(rs, addr, ss[k]);
    assert Finds(s, ss, s[ss[k]]);
  }

  /** A sector that no entry is for has no records, unless the sentinel hides it. */
  lemma NotIndexed(rs: seq<Record>, addr: int)
    requires Sorted(rs) && !Finds(Addrs(rs), Index(Addrs(rs)), addr)
    ensures ForSector(rs, addr) == [] || (addr == -1 && rs[0].addr == -1)
  {
    AddrsAscend(rs);
    if rs == [] || !(addr == -1 && rs[0].addr == -1) {
      forall j | 0 <= j < |rs| ensures rs[j].addr != addr {
        IndexFinds(Addrs(rs), j);
      }
      ForSectorEmpty(rs, addr);
    }
  }

  lemma NoEntryFinds(nodes: seq<Node>, ss: seq<nat>, addr: int)
    requires forall k :: 0 <= k < |ss| ==> ss[k] < |nodes|
    requires forall l :: 0 <= l < |ss| ==> EntriesAt(nodes, ss)[l].addr != addr
    ensures !Finds(Addrs(Recs(nodes)), ss, addr)
  {
    forall k | 0 <= k < |ss| ensures Addrs(Recs(nodes))[ss[k]] != addr {
      assert EntriesAt(nodes, ss)[k].addr == nodes[ss[k]].rec.addr;
    }
  }

  /** `memcpy` of what a record holds for the patched part of the sector (src/ppf.cpp:123-127). */
  method Apply(pB: array<Byte>, r: Record)
    requires Applicable(r) && pB.Length == CD_FRAMESIZE_RAW - HEADER
    modifies pB
    ensures pB[..] == Patched(old(pB[..]), r)
  {
    ghost var buf := pB[..];
    var pos, anz, start := r.pos - HEADER, |r.data|, 0;
    if pos < 0 {
      start := -pos;
      pos := 0;
      anz := anz - start;
    }
    for i := 0 to anz
      invariant forall j :: 0 <= j < pB.Length ==>
                  pB[j] == if pos <= j < pos + i then r.data[start + j - pos] else buf[j]
    {
      pB[pos + i] := r.data[start + i];
    }
  }

  lemma EntriesStep(nodes: seq<Node>, i: nat, last: int, cache: seq<Entry>)
    requires i < |nodes|
    ensures var s := Addrs(Recs(nodes));
            cache + EntriesAt(nodes, Starts(s, i, last)) ==
            (if s[i] != last then cache + [Entry(s[i], nodes[i])] else cache) + EntriesAt(nodes, Starts(s, i + 1, s[i]))
  {
    var s := Addrs(Recs(nodes));
    var t := Starts(s, i + 1, s[i]);
    if s[i] != last {
      assert EntriesAt(nodes, [i] + t) == [Entry(s[i], nodes[i])] + EntriesAt(nodes, t);
    } else {
      assert [] + t == t;
    }
  }

  lemma LinkedNodes(ns: seq<Node>, n: nat, x: Node, after: seq<Node>)
    requires n <= |ns| && x !in ns && forall i, j :: 0 <= i < j < |ns| ==> ns[i] != ns[j]
    requires after == ns[..n] + [x] + ns[n..]
    ensures forall i, j :: 0 <= i < j < |after| ==> after[i] != after[j]
    ensures forall i :: 0 <= i <= |after| ==>
              NodeAt(after, i) == if i < n then ns[i] else if i == n then x else NodeAt(ns, i - 1)
    ensures NodeAt(after, |after| - 1) == if n == |ns| then x else NodeAt(ns, |ns| - 1)
  {
    assert forall i :: 0 <= i < |after| ==> after[i] == if i < n then ns[i] else if i == n then x else ns[i - 1];
  }

  lemma Rechained(ns: seq<Node>, n: nat, x: Node, after: seq<Node>)
    requires n <= |ns| && x !in ns && after == ns[..n] + [x] + ns[n..]
    requires forall i, j :: 0 <= i < j < |ns| ==> ns[i] != ns[j]
    requires forall i {:trigger ns[i].next} :: 0 <= i < |ns| ==>
               ns[i].next == if i + 1 == n then x else NodeAt(ns, i + 1)
    requires x.next == NodeAt(ns, n)
    ensures Chained(after) && NodeAt(after, 0) == (if n == 0 then x else ns[0])
    ensures NodeAt(after, |after| - 1) == if n == |ns| then x else NodeAt(ns, |ns| - 1)
  {
    LinkedNodes(ns, n, x, after);
    forall i | 0 <= i < |after| ensures after[i].next == NodeAt(after, i + 1) {
      if i < n {
        assert after[i] == ns[i];
      } else if i > n {
        assert after[i] == ns[i - 1];
      }
    }
  }

  lemma RecsInserted(ns: seq<Node>, n: nat, x: Node)
    requires n <= |ns|
    ensures Recs(ns[..n] + [x] + ns[n..]) == Recs(ns)[..n] + [x.rec] + Recs(ns)[n..]
  {
  }

  lemma AllBelow(rs: seq<Record>, r: Record)
    requires Sorted(rs) && rs != [] && Below(rs[|rs| - 1], r)
    ensures Place(rs, r) == |rs|
  {
    forall i | 0 <= i < |rs| ensures Below(rs[i], r) {
      if i < |rs| - 1 { assert !Below(rs[|rs| - 1], rs[i]); }
    }
    PlaceIs(rs, r, |rs|);
  }

  class Ppf {
    var ppfHead: Node?
    var ppfLast: Node?
    var ppfCache: seq<Entry>
    var iPPFNum: int

    ghost var nodes: seq<Node>
    ghost var repr: set<Node>

    ghost predicate Valid()
      reads this, nodes
    {
      && (forall i :: 0 <= i < |nodes| ==> nodes[i] in repr)
      && Chained(nodes)
      && ppfHead == NodeAt(nodes, 0) && ppfLast == NodeAt(nodes, |nodes| - 1)
      && Sorted(Recs(nodes))
    }

    constructor ()
      ensures Valid() && nodes == [] && repr == {} && ppfCache == []
    {
      ppfHead, ppfLast, ppfCache, iPPFNum := null, null, [], 0;
      nodes, repr := [], {};
    }

    method Follow(p: Node, ghost n: nat) returns (q: Node?)
      requires Chained(nodes) && n < |nodes| && p == nodes[n]
      ensures q == NodeAt(nodes, n + 1)
    {
      q := p.next;
    }

    /** Where `AddToPPF` inserts (src/ppf.cpp:148-164): the node before and the node after. */
    method FindPlace(r: Record) returns (plast: Node?, p: Node?)
      requires Valid() && nodes != []
      ensures var n := Place(Recs(nodes), r); plast == NodeAt(nodes, n - 1) && p == NodeAt(nodes, n)
    {
      ghost var rs := Recs(nodes);
      if r.addr > ppfLast.rec.addr || (r.addr == ppfLast.rec.addr && r.pos > ppfLast.rec.pos) {
        AllBelow(rs, r);
        return ppfLast, null;
      }
      p, plast := ppfHead, null;
      ghost var n := 0;
      while p != null
        invariant 0 <= n <= |nodes| && p == NodeAt(nodes, n) && plast == NodeAt(nodes, n - 1)
        invariant forall i :: 0 <= i < n ==> Below(rs[i], r)
        decreases |nodes| - n
      {
        if r.addr < p.rec.addr { break; }
        if r.addr == p.rec.addr {
          while p != null && r.addr == p.rec.addr && r.pos > p.rec.pos
            invariant 0 <= n <= |nodes| && p == NodeAt(nodes, n) && plast == NodeAt(nodes, n - 1)
            invariant forall i :: 0 <= i < n ==> Below(rs[i], r)
            invariant n < |nodes| ==> r.addr <= rs[n].addr
            decreases |nodes| - n
          {
            assert n + 1 < |nodes| ==> !Below(rs[n + 1], rs[n]);
            plast := p;
            p := Follow(p, n);
            n := n + 1;
          }
          break;
        }
        plast := p;
        p := Follow(p, n);
        n := n + 1;
      }
      PlaceIs(rs, r, n);
    }

    /** A new node linked in between two neighbours (src/ppf.cpp:174-177). */
    method LinkIn(padd: Node, plast: Node?, ghost n: nat)
      requires Chained(nodes) && ppfHead == NodeAt(nodes, 0) && ppfLast == NodeAt(nodes, |nodes| - 1)
      requires n <= |nodes| && padd !in nodes
      requires plast == NodeAt(nodes, n - 1) && padd.next == NodeAt(nodes, n)
      modifies `ppfHead, `ppfLast, `nodes, nodes
      ensures nodes == old(nodes)[..n] + [padd] + old(nodes)[n..]
      ensures Chained(nodes) && ppfHead == NodeAt(nodes, 0) && ppfLast == NodeAt(nodes, |nodes| - 1)
    {
      ghost var ns := nodes;
      if plast == null { ppfHead := padd; } else { LinkAfter(plast, padd, ns, n - 1); }
      if padd.next == null { ppfLast := padd; }
      nodes := ns[..n] + [padd] + ns[n..];
      Rechained(ns, n, padd, nodes);
    }

    /** A record added to a list that has some (src/ppf.cpp:143-177). */
    method AddToList(r: Record)
      requires Valid() && nodes != []
      modifies `ppfHead, `ppfLast, `iPPFNum, `nodes, `repr, repr
      ensures Valid() && Recs(nodes) == Inserted(old(Recs(nodes)), r) && iPPFNum == old(iPPFNum) + 1
      ensures fresh(repr - old(repr))
    {
      hide Sorted, Chained, NodeAt;
      ghost var n, ns := Place(Recs(nodes), r), nodes;
      assert Sorted(Inserted(Recs(nodes), r)) by { InsertedSorted(Recs(nodes), r); }
      var plast, p := FindPlace(r);
      var padd := new Node(r, p);
      RecsInserted(ns, n, padd);
      iPPFNum := iPPFNum + 1;
      LinkIn(padd, plast, n);
      repr := repr + {padd};
    }

    /** `AddToPPF` (src/ppf.cpp:133-178). */
    method AddToPPF(r: Record)
      requires Valid()
      modifies `ppfHead, `ppfLast, `iPPFNum, `nodes, `repr, repr
      ensures Valid() && Recs(nodes) == Inserted(old(Recs(nodes)), r)
      ensures iPPFNum == (if old(nodes) == [] then 1 else old(iPPFNum) + 1)
      ensures fresh(repr - old(repr))
    {
      if ppfHead == null {
        ppfHead := new Node(r, null);
        iPPFNum := 1;
        ppfLast := ppfHead;
        nodes, repr := [ppfHead], repr + {ppfHead};
        assert Recs(nodes) == [r];
      } else {
        AddToList(r);
      }
    }

    /** One patch added, cut at a sector edge (src/ppf.cpp:330-339); `anz` is the length it leaves. */
    method AddPatch(at: int, data: seq<Byte>) returns (anz: nat)
      requires Valid() && PatchOk(Patch(at, data))
      modifies `ppfHead, `ppfLast, `iPPFNum, `nodes, `repr, repr
      ensures Valid()
      ensures Recs(nodes) == AddedTo(old(Recs(nodes)), Cut(at, data)) && fresh(repr - old(repr))
      ensures anz == |data| - Beyond(Patch(at, data))
    {
      ghost var rs, ts := Recs(nodes), Cut(at, data);
      AddedOneOrTwo(rs, ts);
      var ladr, off := Sector(at), Offset(at);
      anz := |data|;
      if off + anz > CD_FRAMESIZE_RAW {
        var anx := off + anz - CD_FRAMESIZE_RAW;
        anz := anz - anx % 256;
        assert ts == [Record(ladr + 1, 0, data[anz..anz + anx]), Record(ladr, off, data[..anz])];
        AddTwo(Record(ladr + 1, 0, data[anz..anz + anx]), Record(ladr, off, data[..anz]));
      } else {
        assert ts == [Record(ladr, off, data)];
        AddToPPF(Record(ladr, off, data));
      }
    }

    method AddTwo(r0: Record, r1: Record)
      requires Valid()
      modifies `ppfHead, `ppfLast, `iPPFNum, `nodes, `repr, repr
      ensures Valid() && Recs(nodes) == Inserted(Inserted(old(Recs(nodes)), r0), r1)
      ensures fresh(repr - old(repr))
    {
      AddToPPF(r0);
      AddToPPF(r1);
    }

    /** The loop that reads a file's patches (src/ppf.cpp:313-348), from byte `start` on and for `total` bytes. */
    method ReadPatches(file: seq<Byte>, f: Format, start: nat, total: int) returns (ok: bool)
      requires Valid() && nodes == [] && !ReadAll(file, f, start, total).Crashed?
      modifies `ppfHead, `ppfLast, `iPPFNum, `nodes, `repr, repr
      ensures var o := ReadAll(file, f, start, total); Added(o.ps) && ok == o.Loaded?
      ensures fresh(repr - old(repr))
    {
      var seekpos: nat, count := start, total;
      ghost var o, done: seq<Patch> := ReadAll(file, f, start, total), [];
      AfterNone(o);
      while true
        invariant Added(done) && Reading(o, done, file, f, seekpos, count)
        invariant fresh(repr - old(repr))
        decreases |file| - seekpos
      {
        var read;
        read, seekpos, count, done := ReadOne(file, f, seekpos, count, o, done);
        if !read { return false; }
        if count == 0 { return true; }
      }
    }

    /** The list holds the pieces of the patches `ps`. */
    ghost predicate Added(ps: seq<Patch>)
      reads this, nodes
    {
      Valid() && AllOk(ps) && Recs(nodes) == AllInserted(CutAll(ps))
    }

    /** One turn of that loop: a patch is read and added, if there is one. */
    method ReadOne(file: seq<Byte>, f: Format, seekpos: nat, count: int, ghost o: Outcome, ghost done: seq<Patch>)
      returns (read: bool, seekpos': nat, count': int, ghost done': seq<Patch>)
      requires Added(done) && Reading(o, done, file, f, seekpos, count)
      modifies `ppfHead, `ppfLast, `iPPFNum, `nodes, `repr, repr
      ensures Added(done') && fresh(repr - old(repr))
      ensures !read ==> o == Failed(done')
      ensures read ==> seekpos < seekpos' && seekpos < |file| && ReadOn(o, done', file, f, seekpos', count')
    {
      var r := PatchAt(file, f, seekpos);
      if r == NoPatch {
        assert done + [] == done;
        return false, seekpos, count, done;
      }
      NextOk(o, done, r.p, file, f, seekpos, count);
      read, done' := true, done + [r.p];
      var anz := AddNext(r.p, done);
      var step := Head(f) + Copies(f, anz);
      seekpos', count' := seekpos + step, count - step;
      ReadMore(o, done, r.p, file, f, seekpos, count, seekpos', count', anz);
    }

    /** One patch more. */
    method AddNext(p: Patch, ghost done: seq<Patch>) returns (anz: nat)
      requires Added(done) && PatchOk(p)
      modifies `ppfHead, `ppfLast, `iPPFNum, `nodes, `repr, repr
      ensures Added(done + [p]) && fresh(repr - old(repr)) && anz == |p.data| - Beyond(p)
    {
      assert (done + [p])[..|done|] == done;
      AllInsertedMore(CutAll(done), Cut(p.at, p.data));
      anz := AddPatch(p.at, p.data);
    }

    /** `FreePPFCache` (src/ppf.cpp:77-91). */
    method FreePPFCache()
      modifies this
      ensures Valid() && nodes == [] && ppfCache == [] && repr == old(repr)
    {
      ppfHead, ppfLast, ppfCache, nodes := null, null, [], [];
    }

    /** `BuildPPFCache` from the end of a file's header on (src/ppf.cpp:191 and 313-361): the old cache is dropped, the
        patches are read, and the index is made unless reading failed; without it no patch is applied. */
    method BuildPPFCache(file: seq<Byte>, f: Format, seekpos: nat, count: int)
      requires Valid() && !ReadAll(file, f, seekpos, count).Crashed?
      modifies this, repr
      ensures var o := ReadAll(file, f, seekpos, count);
              && Added(o.ps)
              && if o.Loaded? then Filled() else ppfCache == []
      ensures fresh(repr - old(repr))
    {
      FreePPFCache();
      var ok := ReadPatches(file, f, seekpos, count);
      if ok { FillPPFCache(); }
    }

    /** The first pass of `FillPPFCache` (src/ppf.cpp:48-56): how many sectors there are. */
    method CountSectors()
      requires Valid()
      modifies `iPPFNum
      ensures iPPFNum == |Index(Addrs(Recs(nodes)))|
    {
      ghost var s := Addrs(Recs(nodes));
      var p, lastaddr, n := ppfHead, -1, 0;
      ghost var i := 0;
      while p != null
        invariant 0 <= i <= |nodes| && p == NodeAt(nodes, i)
        invariant n + |Starts(s, i, lastaddr)| == |Index(s)|
        decreases |nodes| - i
      {
        if p.rec.addr != lastaddr { n := n + 1; }
        lastaddr := p.rec.addr;
        p := p.next;
        i := i + 1;
      }
      iPPFNum := n;
    }

    /** The second pass of `FillPPFCache` (src/ppf.cpp:62-74). */
    method FillEntries() returns (cache: seq<Entry>)
      requires Valid()
      ensures cache == EntriesAt(nodes, Index(Addrs(Recs(nodes))))
    {
      ghost var s := Addrs(Recs(nodes));
      ghost var all := EntriesAt(nodes, Index(s));
      var p, lastaddr := ppfHead, -1;
      ghost var i := 0;
      cache := [];
      assert [] + all == all;
      while p != null
        invariant 0 <= i <= |nodes| && p == NodeAt(nodes, i)
        invariant cache + EntriesAt(nodes, Starts(s, i, lastaddr)) == all
        decreases |nodes| - i
      {
        EntriesStep(nodes, i, lastaddr, cache);
        if p.rec.addr != lastaddr {
          cache := cache + [Entry(p.rec.addr, p)];
        }
        lastaddr := p.rec.addr;
        p := p.next;
        i := i + 1;
      }
      assert cache + [] == cache;
    }

    /** `FillPPFCache` (src/ppf.cpp:43-75): an entry for every sector at its first record. */
    method FillPPFCache()
      requires Valid() && ppfCache == []
      modifies `iPPFNum, `ppfCache
      ensures Filled()
    {
      CountSectors();
      if iPPFNum <= 0 { return; }
      iPPFNum := iPPFNum - 1;
      ppfCache := FillEntries();
    }

    /** The index is that of the list. */
    ghost predicate Filled()
      reads this, nodes
    {
      && Valid() && ppfCache == EntriesAt(nodes, Index(Addrs(Recs(nodes))))
      && (ppfCache != [] ==> iPPFNum == |ppfCache| - 1)
    }

    /** The binary search of `CheckPPFCache` (src/ppf.cpp:97-118); -1 stands for none. */
    method Search(addr: int) returns (k: int)
      requires ppfCache != [] && iPPFNum == |ppfCache| - 1 && EntriesAscend(ppfCache)
      ensures -1 <= k < |ppfCache|
      ensures if k >= 0 then ppfCache[k].addr == addr else forall l :: 0 <= l < |ppfCache| ==> ppfCache[l].addr != addr
    {
      var pcstart, pcend := 0, iPPFNum;
      if addr < ppfCache[pcstart].addr { return -1; }
      if addr > ppfCache[pcend].addr { return -1; }
      var pcpos := 0;
      while true
        invariant 0 <= pcstart <= pcend < |ppfCache|
        invariant ppfCache[pcstart].addr <= addr <= ppfCache[pcend].addr
        decreases pcend - pcstart
      {
        if addr == ppfCache[pcend].addr { return pcend; }
        pcpos := pcstart + (pcend - pcstart) / 2;
        if pcpos == pcstart { break; }
        if addr < ppfCache[pcpos].addr {
          pcend := pcpos;
        } else if addr > ppfCache[pcpos].addr {
          pcstart := pcpos;
        } else {
          break;
        }
      }
      if addr == ppfCache[pcpos].addr { return pcpos; }
      return -1;
    }

    /** The records from node `i` on that belong to the sector are applied (src/ppf.cpp:120-130). */
    method ApplyFrom(pB: array<Byte>, first: Node, addr: int, ghost i: nat)
      requires Valid() && i < |nodes| && first == nodes[i] && first.rec.addr == addr
      requires AllApplicable(Recs(nodes), addr)
      requires pB.Length == CD_FRAMESIZE_RAW - HEADER
      modifies pB
      ensures pB[..] == AllPatched(old(pB[..]), ForSector(Recs(nodes)[i..], addr))
    {
      ghost var rs, all := Recs(nodes), AllPatched(pB[..], ForSector(Recs(nodes)[i..], addr));
      var p: Node? := first;
      ghost var n := i;
      while p != null && p.rec.addr == addr
        invariant i <= n <= |nodes| && p == NodeAt(nodes, n)
        invariant Applying(pB[..], rs, n, addr, all)
        modifies pB
        decreases |nodes| - n
      {
        assert rs[n] == p.rec;
        ApplyingStep(pB[..], rs, n, addr, all);
        Apply(pB, p.rec);
        p := Follow(p, n);
        n := n + 1;
      }
      ApplyingDone(pB[..], rs, n, addr, all);
    }

    /** `CheckPPFCache` (src/ppf.cpp:93-131): to the patched part of a sector it applies exactly the list's records for
        that sector, in list order, unless that is sector -1 and the list begins with it. */
    method CheckPPFCache(pB: array<Byte>, addr: int)
      requires Filled() && AllApplicable(Recs(nodes), addr) && pB.Length == CD_FRAMESIZE_RAW - HEADER
      modifies pB
      ensures pB[..] == AllPatched(old(pB[..]),
                                   if addr == -1 && nodes != [] && nodes[0].rec.addr == -1 then []
                                   else ForSector(Recs(nodes), addr))
    {
      ghost var rs, ss := Recs(nodes), Index(Addrs(Recs(nodes)));
      if ppfCache == [] {
        NotIndexed(rs, addr);
        return;
      }
      EntriesAreOrdered(nodes, ss);
      var k := Search(addr);
      if k >= 0 {
        FirstOfSector(rs, k, addr);
        ApplyFrom(pB, ppfCache[k].node, addr, ss[k]);
      } else {
        NoEntryFinds(nodes, ss, addr);
        NotIndexed(rs, addr);
      }
    }
  }
}
