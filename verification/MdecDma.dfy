/** The MDEC output DMA (src/mdec.cpp:540-625): decoded blocks of a fixed size handed out in transfers of any
    size, what is left of a block being carried to the next transfer, and over decode commands
    (src/mdec.cpp:483-501). */
module MdecDma {
  import opened Cycles
  import opened MdecIdct

  /** The colour conversion of a decoded macroblock to the bytes of its image. */
  type Painter = seq<Int32> -> seq<int>

  function Paint(p: Painter, blk: seq<Int32>): seq<int> {
    p(blk)
  }

  function Joined(bs: seq<Block>): seq<Int32>
    requires |bs| == 6
  {
    seq(384, n requires 0 <= n < 384 => bs[n / 64][n % 64])
  }

  lemma LaidOutIsJoined(s: seq<Int32>, bs: seq<Block>)
    requires |bs| == 6 && LaidOut(s, bs, 6)
    ensures s == Joined(bs)
  {
    forall n | 0 <= n < 384 ensures s[n] == bs[n / 64][n % 64] {
      assert s[64 * (n / 64)..64 * (n / 64) + 64][n % 64] == s[n];
    }
  }

  /** What a decoding command works on: the code stream and the part of it sent, the tables, and the colour depth. */
  datatype Job = Job(stream: seq<nat>, start: nat, end: nat, iqY: seq<Int32>, iqUv: seq<Int32>, w: Word,
                     paint: Painter, depth16: bool)

  function BlockSize(j: Job): nat {
    if j.depth16 then 16 * 16 * 2 else 16 * 16 * 3
  }

  ghost predicate JobOk(j: Job) {
    && |j.iqY| == 64 == |j.iqUv| && Exact(j.w)
    && forall blk :: |Paint(j.paint, blk)| == BlockSize(j)
  }

  /** Where the codes of macroblock `k` begin. */
  function Start(j: Job, k: nat): nat {
    if k == 0 then j.start
    else BlockStart(j.stream, Start(j, k - 1), 6)
  }

  /** The stream holds the codes of macroblocks `k` to `k + n - 1`. */
  ghost predicate Readable(j: Job, k: nat, n: nat)
    decreases n
  {
    n == 0 || (MacroblockIn(j.stream, Start(j, k)) && Readable(j, k + 1, n - 1))
  }

  /** The image of macroblock `k`, decoded by the plain transform. */
  ghost function Image(j: Job, k: nat): (image: seq<int>)
    requires JobOk(j) && MacroblockIn(j.stream, Start(j, k))
    ensures |image| == BlockSize(j)
  {
    Paint(j.paint, Joined(Macroblock(j.stream, Start(j, k), j.iqY, j.iqUv, j.w)))
  }

  lemma {:induction false} ReadableUpTo(j: Job, k: nat, n: nat, m: nat)
    ensures Readable(j, k, n + m) <==> Readable(j, k, n) && Readable(j, k + n, m)
    decreases n
  {
    if n > 0 { ReadableUpTo(j, k + 1, n - 1, m); }
  }

  /** The images of the first `k` macroblocks one after another. */
  ghost function Images(j: Job, k: nat): seq<int>
    requires JobOk(j) && Readable(j, 0, k)
  {
    if k == 0 then []
    else
      ReadableUpTo(j, 0, k - 1, 1);
      Images(j, k - 1) + Image(j, k - 1)
  }

  /** The macroblocks decoded for `n` bytes when nothing is carried over. */
  function BlocksFor(j: Job, n: nat): nat {
    if n < BlockSize(j) then if n == 0 then 0 else 1 else 1 + BlocksFor(j, n - BlockSize(j))
  }

  /** They are the fewest that hold as many bytes. */
  lemma {:induction false} BlocksForIs(j: Job, n: nat)
    ensures n <= BlocksFor(j, n) * BlockSize(j) < n + BlockSize(j)
  {
    var size := BlockSize(j);
    if n >= size {
      BlocksForIs(j, n - size);
      assert BlocksFor(j, n) * size == BlocksFor(j, n - size) * size + size;
    }
  }

  lemma {:induction false} ImagesPrefix(j: Job, k: nat, n: nat)
    requires JobOk(j) && Readable(j, 0, k + n)
    ensures Readable(j, 0, k) && Images(j, k) <= Images(j, k + n)
  {
    ReadableUpTo(j, 0, k, n);
    if n > 0 {
      ReadableUpTo(j, 0, k + n - 1, 1);
      ImagesPrefix(j, k, n - 1);
    }
  }

  lemma {:induction false} ImagesLength(j: Job, k: nat)
    requires JobOk(j) && Readable(j, 0, k)
    ensures |Images(j, k)| == k * BlockSize(j)
  {
    if k > 0 {
      ReadableUpTo(j, 0, k - 1, 1);
      hide Readable, JobOk, MacroblockIn;
      ImagesLength(j, k - 1);
      assert k * BlockSize(j) == (k - 1) * BlockSize(j) + BlockSize(j);
    }
  }

  lemma ReadableStep(j: Job, k: nat, size: nat)
    requires BlockSize(j) <= size && Readable(j, 0, k + BlocksFor(j, size))
    ensures Readable(j, 0, k + 1) && Readable(j, 0, k + 1 + BlocksFor(j, size - BlockSize(j)))
  {
    ReadableUpTo(j, 0, k + 1, BlocksFor(j, size - BlockSize(j)));
  }

  /** Two prefixes of one sequence are prefixes of one another. */
  lemma Prefixes(a: seq<int>, s: seq<int>, b: seq<int>, t: seq<int>)
    requires a + s <= b + t
    ensures |a| <= |b| ==> a <= b
    ensures |b| <= |a| ==> b <= a
  {
    forall i | 0 <= i < |a| && i < |b| ensures a[i] == b[i] {
      assert (a + s)[i] == (b + t)[i];
    }
  }

  /** Two ways of cutting up the same job that have handed out as many bytes have handed out the same bytes. */
  lemma CutsAgree(j: Job, k1: nat, tail1: seq<int>, out1: seq<int>, k2: nat, tail2: seq<int>, out2: seq<int>)
    requires JobOk(j) && Readable(j, 0, k1) && Readable(j, 0, k2)
    requires out1 + tail1 == Images(j, k1) && out2 + tail2 == Images(j, k2)
    ensures |out1| <= |out2| ==> out1 <= out2
  {
    if k1 <= k2 {
      ImagesPrefix(j, k1, k2 - k1);
      Prefixes(out1, tail1, out2, tail2);
    } else {
      ImagesPrefix(j, k2, k1 - k2);
      Prefixes(out2, tail2, out1, tail1);
    }
  }

  /** The length of the last copy of a transfer with `size` bytes to go: what is left after whole blocks. */
  function LastCopy(size: int, block: nat): int
    requires block > 0
    decreases size
  {
    if size < block then size else LastCopy(size - block, block)
  }

  lemma {:induction false} LastCopyIs(size: int, block: nat)
    requires block > 0
    ensures LastCopy(size, block) < block && (LastCopy(size, block) >= 0 <==> size >= 0)
    decreases size
  {
    if size >= block { LastCopyIs(size - block, block); }
  }

  /** The copies of a transfer have lengths that are no less than 0, the last one less than a block, exactly if the
      transfer is at least as large as what is carried over. */
  lemma CopiesFit(carried: nat, size: int, block: nat)
    requires block > 0
    ensures 0 <= LastCopy(size - carried, block) < block <==> carried <= size
  {
    LastCopyIs(size - carried, block);
  }

  /** Codes of a macroblock of six empty blocks. */
  const EMPTY_BLOCKS: seq<nat> := [0, MDEC_END_OF_DATA, 0, MDEC_END_OF_DATA, 0, MDEC_END_OF_DATA,
                                   0, MDEC_END_OF_DATA, 0, MDEC_END_OF_DATA, 0, MDEC_END_OF_DATA]

  lemma EmptyBlock(rl: seq<nat>, pos: nat)
    requires pos + 1 < |rl| && rl[pos + 1] == MDEC_END_OF_DATA
    ensures BlockIn(rl, pos) && CoefsEnd(rl, pos + 1, 0) == pos + 2
  {
  }

  lemma {:induction false} EmptyBlockStart(rl: seq<nat>, i: nat)
    requires i <= 6 && |rl| == 12 && forall k :: 0 <= k < 6 ==> rl[2 * k + 1] == MDEC_END_OF_DATA
    ensures BlockStart(rl, 0, i) == 2 * i && (i < 6 ==> BlockIn(rl, 2 * i))
  {
    hide BlockIn, CoefsEnd;
    if i < 6 { EmptyBlock(rl, 2 * i); }
    if i > 0 {
      EmptyBlockStart(rl, i - 1);
      EmptyBlock(rl, 2 * (i - 1));
    }
  }

  lemma EmptyBlocksReadable(rl: seq<nat>)
    requires |rl| == 12 && forall k :: 0 <= k < 6 ==> rl[2 * k + 1] == MDEC_END_OF_DATA
    ensures MacroblockIn(rl, 0)
  {
    hide BlockIn;
    forall i | 0 <= i < 6 ensures BlockIn(rl, BlockStart(rl, 0, i)) {
      EmptyBlockStart(rl, i);
    }
  }

  lemma HalfBlockReadable(j: Job)
    requires j.depth16 && j.stream == EMPTY_BLOCKS && j.start == 0
    ensures Readable(j, 0, BlocksFor(j, 256))
  {
    hide MacroblockIn;
    EmptyBlocksReadable(j.stream);
    assert Readable(j, 1, 0);
  }

  /** A transfer that has to wait until the decoder has work. */
  datatype Pending = NoPending | Transfer(adr: nat, words: U32)

  lemma Appended(a: seq<int>, b: seq<int>, c: seq<int>)
    ensures a + (b + c) == a + b + c
  {
  }

  lemma Rejoined(out1: seq<int>, bytes: seq<int>, n: nat, out: seq<int>, tail: seq<int>)
    requires n <= |bytes| && out == out1 + bytes[..n] && tail == bytes[n..]
    ensures out + tail == out1 + bytes
  {
  }

  /** Of memory that was `before`, the bytes from `adr` to `image` are those handed out since `out0`. */
  ghost predicate Delivered(ram: seq<int>, before: seq<int>, adr: nat, image: nat, out0: seq<int>, out: seq<int>) {
    && adr <= image <= |before| && out0 <= out && |out| == |out0| + image - adr
    && ram == before[..adr] + out[|out0|..] + before[image..]
  }

  lemma DeliveredMore(before: seq<int>, adr: nat, image: nat, out0: seq<int>, out: seq<int>, ram: seq<int>,
                      bytes: seq<int>, ram': seq<int>)
    requires Delivered(ram, before, adr, image, out0, out) && image + |bytes| <= |before|
    requires ram' == ram[..image] + bytes + ram[image + |bytes|..]
    ensures Delivered(ram', before, adr, image + |bytes|, out0, out + bytes)
  {
    assert (out + bytes)[|out0|..] == out[|out0|..] + bytes;
    assert ram[..image] == before[..adr] + out[|out0|..];
    assert ram[image + |bytes|..] == before[image + |bytes|..];
  }

  lemma DeliveredNone(before: seq<int>, adr: nat, out: seq<int>)
    requires adr <= |before|
    ensures Delivered(before, before, adr, adr, out, out)
  {
    assert before == before[..adr] + [] + before[adr..];
  }

  lemma DeliveredSize(ram: seq<int>, before: seq<int>, adr: nat, image: nat, out0: seq<int>, out: seq<int>)
    requires Delivered(ram, before, adr, image, out0, out)
    ensures |out| == |out0| + image - adr
  {
  }

  /** `memcpy` into an array. */
  method Put(a: array<int>, at: nat, bytes: seq<int>)
    requires at + |bytes| <= a.Length
    modifies a
    ensures a[..] == old(a[..at]) + bytes + old(a[at + |bytes|..])
  {
    ghost var before := a[..];
    for i := 0 to |bytes|
      invariant a[..at + i] == before[..at] + bytes[..i] && a[at + i..] == before[at + i..]
    {
      a[at + i] := bytes[i];
    }
    assert bytes[..|bytes|] == bytes;
  }

  class Mdec {
    var job: Job
    const blockBuffer: array<int>
    var rl: nat
    var blockBufferPos: nat
    var busy: bool
    var pending: Pending

    ghost var past: seq<int>
    ghost var blocks: nat
    ghost var out: seq<int>

    /** What is left of the last block decoded. */
    ghost function Tail(): seq<int>
      requires blockBufferPos <= BlockSize(job) <= blockBuffer.Length
      reads this, blockBuffer
    {
      if blockBufferPos == 0 then [] else blockBuffer[blockBufferPos..BlockSize(job)]
    }

    /** All bytes handed out so far and what is left of the last block are the blocks decoded so far, those of earlier
        commands first. */
    ghost predicate Valid()
      reads this, blockBuffer
    {
      && JobOk(job) && blockBuffer.Length == 16 * 16 * 3
      && Readable(job, 0, blocks) && rl == Start(job, blocks)
      && blockBufferPos < BlockSize(job)
      && out + Tail() == past + Images(job, blocks)
    }

    constructor (job: Job)
      requires JobOk(job)
      ensures Valid() && this.job == job && !busy && pending == NoPending && fresh(blockBuffer)
      ensures out == [] == past && blocks == 0
    {
      this.job := job;
      blockBuffer := new int[768];
      rl, blockBufferPos, busy, pending := job.start, 0, false, NoPending;
      past, blocks, out := [], 0, [];
    }

    /** The bytes carried over from the last transfer. */
    function Carried(): nat
      requires blockBufferPos <= BlockSize(job)
      reads this
    {
      if blockBufferPos == 0 then 0 else BlockSize(job) - blockBufferPos
    }

    /** The bytes handed out and carried over are those of whole blocks. */
    lemma WholeImages()
      requires Valid()
      ensures |out| + Carried() == |past| + blocks * BlockSize(job)
    {
      ImagesLength(job, blocks);
      assert |out + Tail()| == |past + Images(job, blocks)|;
    }

    /** `rl2blk` and the colour conversion of one macroblock. */
    method DecodeNext() returns (image: seq<int>)
      requires JobOk(job) && Readable(job, 0, blocks + 1) && rl == Start(job, blocks)
      modifies `rl, `blocks
      ensures Readable(job, 0, old(blocks)) && blocks == old(blocks) + 1 && rl == Start(job, blocks)
      ensures |image| == BlockSize(job)
      ensures past + Images(job, blocks) == past + Images(job, old(blocks)) + image
    {
      ReadableUpTo(job, 0, blocks, 1);
      image := DecodeImage();
      Appended(past, Images(job, blocks), image);
      blocks := blocks + 1;
    }

    method DecodeImage() returns (image: seq<int>)
      requires JobOk(job) && rl == Start(job, blocks) && MacroblockIn(job.stream, rl)
      modifies `rl
      ensures image == Image(job, blocks) && rl == Start(job, blocks + 1)
    {
      var blk := new Int32[384];
      rl := Rl2Blk(blk, job.stream, rl, job.iqY, job.iqUv, job.w);
      LaidOutIsJoined(blk[..], Macroblock(job.stream, Start(job, blocks), job.iqY, job.iqUv, job.w));
      image := Paint(job.paint, blk[..]);
    }

    /** Bytes are stored at `image` and count as handed out. */
    method HandOut(ram: array<int>, image: nat, bytes: seq<int>, ghost adr: nat, ghost out0: seq<int>,
                   ghost before: seq<int>)
      requires image + |bytes| <= ram.Length && ram != blockBuffer
      requires Delivered(ram[..], before, adr, image, out0, out)
      modifies ram, `out
      ensures out == old(out) + bytes && Delivered(ram[..], before, adr, image + |bytes|, out0, out)
    {
      Put(ram, image, bytes);
      out := out + bytes;
      DeliveredMore(before, adr, image, out0, old(out), old(ram[..]), bytes, ram[..]);
    }

    /** A whole block is decoded and handed out (src/mdec.cpp:579-584), `size` bytes being wanted. */
    method WholeBlock(ram: array<int>, image: nat, ghost size: nat, ghost adr: nat, ghost out0: seq<int>,
                      ghost before: seq<int>)
      requires Valid() && blockBufferPos == 0 && ram != blockBuffer
      requires BlockSize(job) <= size && image + size <= ram.Length
      requires Readable(job, 0, blocks + BlocksFor(job, size))
      requires Delivered(ram[..], before, adr, image, out0, out)
      modifies ram, `out, `rl, `blocks
      ensures Valid() && Readable(job, 0, blocks + BlocksFor(job, size - BlockSize(job)))
      ensures Delivered(ram[..], before, adr, image + BlockSize(job), out0, out)
    {
      hide Delivered, Images, Readable, JobOk, MacroblockIn, Start, BlocksFor;
      ReadableStep(job, blocks, size);
      var bytes := DecodeNext();
      HandOut(ram, image, bytes, adr, out0, before);
    }

    /** A block is decoded into the buffer. */
    method FillBuffer() returns (ghost whole: seq<int>)
      requires JobOk(job) && Readable(job, 0, blocks + 1) && rl == Start(job, blocks)
      requires blockBuffer.Length == 16 * 16 * 3
      modifies `rl, `blocks, blockBuffer
      ensures Readable(job, 0, old(blocks)) && blocks == old(blocks) + 1 && rl == Start(job, blocks)
      ensures blockBuffer[..BlockSize(job)] == whole
      ensures past + Images(job, blocks) == past + Images(job, old(blocks)) + whole
    {
      var bytes := DecodeNext();
      Put(blockBuffer, 0, bytes);
      whole := bytes;
    }

    /** The last block is decoded into the buffer, its first `size` bytes are handed out and the rest is kept
        (src/mdec.cpp:586-591). */
    method PartBlock(ram: array<int>, image: nat, size: nat, ghost adr: nat, ghost out0: seq<int>,
                     ghost before: seq<int>)
      requires Valid() && blockBufferPos == 0 && Readable(job, 0, blocks + 1)
      requires 0 < size < BlockSize(job) && image + size <= ram.Length && ram != blockBuffer
      requires Delivered(ram[..], before, adr, image, out0, out)
      modifies `rl, `blocks, `out, `blockBufferPos, blockBuffer, ram
      ensures Valid()
      ensures Delivered(ram[..], before, adr, image + size, out0, out)
    {
      hide Delivered, Images, Readable, JobOk, MacroblockIn, Start;
      ghost var out1 := out;
      ghost var whole := FillBuffer();
      assert blockBuffer[..size] == whole[..size] && blockBuffer[size..BlockSize(job)] == whole[size..];
      HandOut(ram, image, blockBuffer[..size], adr, out0, before);
      blockBufferPos := size;
      Rejoined(out1, whole, size, out, Tail());
    }

    /** What is left of the last block is handed out first (src/mdec.cpp:569-577). */
    method HandOutTail(ram: array<int>, adr: nat, ghost out0: seq<int>, ghost before: seq<int>) returns (n: nat)
      requires Valid() && adr + Carried() <= ram.Length && ram != blockBuffer
      requires Delivered(ram[..], before, adr, adr, out0, out)
      modifies ram, `out, `blockBufferPos
      ensures Valid() && blockBufferPos == 0 && n == old(Carried())
      ensures Delivered(ram[..], before, adr, adr + n, out0, out)
    {
      hide Delivered, Images, Readable, JobOk, MacroblockIn, Start;
      n := Carried();
      if blockBufferPos != 0 {
        var tail := blockBuffer[blockBufferPos..BlockSize(job)];
        blockBufferPos := 0;
        HandOut(ram, adr, tail, adr, out0, before);
      }
    }

    /** Whole blocks straight to memory while they fit (src/mdec.cpp:579-584). */
    method WholeBlocks(ram: array<int>, start: nat, total: nat, ghost adr: nat, ghost out0: seq<int>,
                       ghost before: seq<int>)
      returns (image: nat, size: nat)
      requires Valid() && blockBufferPos == 0 && ram != blockBuffer && start + total <= ram.Length
      requires Readable(job, 0, blocks + BlocksFor(job, total))
      requires Delivered(ram[..], before, adr, start, out0, out)
      modifies ram, `out, `rl, `blocks
      ensures Valid() && image + size == start + total && size == LastCopy(total, BlockSize(job)) < BlockSize(job)
      ensures size > 0 ==> Readable(job, 0, blocks + 1)
      ensures Delivered(ram[..], before, adr, image, out0, out)
    {
      image, size := start, total;
      while size >= BlockSize(job)
        invariant Valid() && image + size == start + total
        invariant LastCopy(size, BlockSize(job)) == LastCopy(total, BlockSize(job))
        invariant Readable(job, 0, blocks + BlocksFor(job, size))
        invariant Delivered(ram[..], before, adr, image, out0, out)
      {
        WholeBlock(ram, image, size, adr, out0, before);
        image, size := image + BlockSize(job), size - BlockSize(job);
      }
    }

    /** The transfer of `total` bytes once the decoder has work (src/mdec.cpp:562-621). */
    method Decode(ram: array<int>, adr: nat, total: nat)
      requires Valid() && ram != blockBuffer
      requires Carried() <= total && adr + total <= ram.Length
      requires Readable(job, 0, blocks + BlocksFor(job, total - Carried()))
      modifies `rl, `blocks, `out, `blockBufferPos, blockBuffer, ram
      ensures Valid()
      ensures Delivered(ram[..], old(ram[..]), adr, adr + total, old(out), out)
    {
      hide Delivered, Images, Readable, JobOk, MacroblockIn, Start, BlocksFor;
      ghost var before, out0 := ram[..], out;
      DeliveredNone(before, adr, out0);
      var n := HandOutTail(ram, adr, out0, before);
      var image, size := WholeBlocks(ram, adr + n, total - n, adr, out0, before);
      if size != 0 {
        PartBlock(ram, image, size, adr, out0, before);
      }
    }

    /** `psxDma1` (src/mdec.cpp:543-625), for a transfer at least as large as what is carried over: it stores the
        next bytes of the decoded images, nothing else; without work to do it waits. */
    method PsxDma1(ram: array<int>, adr: nat, words: U32)
      requires Valid() && ram != blockBuffer
      requires var size := S32(Wrap(4 * words));
               busy ==> Carried() <= size && adr + size <= ram.Length
                        && Readable(job, 0, blocks + BlocksFor(job, size - Carried()))
      modifies `rl, `blocks, `out, `blockBufferPos, `pending, blockBuffer, ram
      ensures Valid()
      ensures if busy then
                pending == old(pending)
                && Delivered(ram[..], old(ram[..]), adr, adr + S32(Wrap(4 * words)), old(out), out)
              else pending == Transfer(adr, words) && out == old(out) && ram[..] == old(ram[..])
    {
      if !busy {
        pending := Transfer(adr, words);
      } else {
        Decode(ram, adr, S32(Wrap(4 * words)));
      }
    }

    /** The end of a transfer (the busy bit of `mdec1Interrupt`, src/mdec.cpp:654-661): with the codes used up, or at an
        end-of-data code, the decoder has no more work. */
    method Mdec1Interrupt()
      requires Valid() && (rl < job.end ==> rl < |job.stream|)
      modifies `busy
      ensures Valid()
      ensures busy == (old(busy) && rl < job.end && job.stream[rl] != MDEC_END_OF_DATA)
    {
      if rl >= job.end || job.stream[rl] == MDEC_END_OF_DATA {
        busy := false;
      }
    }

    /** A decode command (`psxDma0`, src/mdec.cpp:483-501), the colour depth staying as it is while bytes are carried
        over: they are handed out before the images of the new command.  A transfer that was waiting is carried out,
        unless the command has no codes, or the transfer is to address 0. */
    method PsxDma0(j: Job, ram: array<int>)
      requires Valid() && ram != blockBuffer && JobOk(j)
      requires blockBufferPos == 0 || BlockSize(j) == BlockSize(job)
      requires pending.Transfer? && pending.adr != 0 && j.start < j.end ==>
                 var size := S32(Wrap(4 * pending.words));
                 Carried() <= size && pending.adr + size <= ram.Length
                 && Readable(j, 0, BlocksFor(j, size - Carried()))
      modifies this, blockBuffer, ram
      ensures Valid() && busy && job == j && past == old(past + Images(job, blocks))
      ensures if j.end <= j.start then pending == old(pending) && out == old(out) && ram[..] == old(ram[..])
              else
                && pending == NoPending
                && if old(pending).Transfer? && old(pending).adr != 0 then
                     var adr, size := old(pending).adr, S32(Wrap(4 * old(pending).words));
                     Delivered(ram[..], old(ram[..]), adr, adr + size, old(out), out)
                   else out == old(out) && ram[..] == old(ram[..])
    {
      hide Delivered, Images, Readable, JobOk, MacroblockIn, Start, BlocksFor;
      NewJob(j);
      if j.end <= j.start { return; }
      if pending.Transfer? && pending.adr != 0 {
        PsxDma1(ram, pending.adr, pending.words);
      }
      pending := NoPending;
    }

    /** The decoder set to work on new codes. */
    method NewJob(j: Job)
      requires Valid() && JobOk(j) && (blockBufferPos == 0 || BlockSize(j) == BlockSize(job))
      modifies `job, `rl, `busy, `past, `blocks
      ensures Valid() && busy && job == j && blocks == 0 && past == old(past + Images(job, blocks))
    {
      past := past + Images(job, blocks);
      job, rl, blocks := j, j.start, 0;
      busy := true;
      assert past + Images(job, 0) == past;
    }
  }

  /** A decoder that has handed out half of a 16-bit block: a transfer of 32 words would now end with a copy of -128
      bytes. */
  method SmallTransfer(j: Job) returns (m: Mdec)
    requires JobOk(j) && j.depth16 && j.stream == EMPTY_BLOCKS && j.start == 0
    ensures m.Valid() && m.busy && m.job == j && m.Carried() == 256
    ensures LastCopy(S32(Wrap(4 * 32)) - m.Carried(), BlockSize(m.job)) == -128
  {
    hide Images, JobOk, Readable, BlocksFor, MacroblockIn, Delivered;
    m := new Mdec(j);
    var ram := new int[256];
    m.PsxDma0(j, ram);
    m.WholeImages();
    HalfBlockReadable(j);
    ghost var before, out0 := ram[..], m.out;
    m.PsxDma1(ram, 0, 64);
    DeliveredSize(ram[..], before, 0, 256, out0, m.out);
    m.WholeImages();
  }
}
