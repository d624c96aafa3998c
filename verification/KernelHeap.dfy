/** The kernel allocator over its real memory: a byte-addressed heap whose block headers (size,
    flags, next) live between the payloads and are rewritten in place. */
module KernelHeap {

  import opened Basics
  import opened HeapBlocks
  import opened HeapLive

  const HEAP_START := 0xF7001000
  const HEAP_END := 0xFFBFF000

  /** Header layout: size at +0, flags at +4, next at +5. */
  ghost predicate HeaderAt(mem: seq<Byte>, o: nat, b: Block, next: nat) {
    && o + HEADER <= |mem|
    && Word(mem, o) == b.size
    && mem[o + 4] == (if b.free then 1 else 0)
    && Word(mem, o + 5) == next
  }

  function Link(bs: seq<Block>, i: nat): nat
    requires i < |bs|
  {
    if i + 1 < |bs| then HEAP_START + Off(bs, i + 1) else 0
  }

  /** The `next` chain starting at the heap base visits exactly the blocks `bs`, and they tile the
      whole memory. */
  ghost predicate Encodes(mem: seq<Byte>, bs: seq<Block>) {
    && bs != []
    && |mem| == Off(bs, |bs|)
    && forall i: nat :: i < |bs| ==> BlockAt(mem, bs, i)
  }

  /** The bytes at the place of block `i` are its header, linked to the block that follows. */
  ghost predicate BlockAt(mem: seq<Byte>, bs: seq<Block>, i: nat)
    requires i < |bs|
  {
    bs[i].size > 0 && HeaderAt(mem, Off(bs, i), bs[i], Link(bs, i))
  }

  /** No byte of a payload in use differs. */
  ghost predicate PayloadsKept(before: seq<Byte>, after: seq<Byte>, bs: seq<Block>) {
    forall i: nat, k: nat :: InUse(bs, i, k) ==> k < |before| && k < |after| && after[k] == before[k]
  }

  /** Offset `k` is a payload byte of block `i`, which is in use. */
  ghost predicate InUse(bs: seq<Block>, i: nat, k: nat) {
    i < |bs| && !bs[i].free && Off(bs, i) + HEADER <= k < Off(bs, i) + HEADER + bs[i].size
  }

  lemma {:induction false} OffMonotone(bs: seq<Block>, i: nat, j: nat)
    requires i < j <= |bs|
    ensures Off(bs, i) + HEADER + bs[i].size <= Off(bs, j)
  {
    if i + 1 < j { OffMonotone(bs, i, j - 1); }
  }

  lemma {:induction false} OffAgree(bs: seq<Block>, cs: seq<Block>, i: nat)
    requires i <= |bs| && i <= |cs| && bs[..i] == cs[..i]
    ensures Off(bs, i) == Off(cs, i)
  {
    if i > 0 {
      assert bs[..i - 1] == bs[..i][..i - 1] && cs[..i - 1] == cs[..i][..i - 1];
      assert bs[i - 1] == bs[..i][i - 1] && cs[i - 1] == cs[..i][i - 1];
      OffAgree(bs, cs, i - 1);
    }
  }

  /** Offsets past a replaced stretch of the same length do not move. */
  lemma {:induction false} OffSplice(bs: seq<Block>, i: nat, k: nat, mid: seq<Block>, t: nat)
    requires i + k + t <= |bs|
    requires Off(bs[..i] + mid + bs[i + k..], i + |mid|) == Off(bs, i + k)
    ensures Off(bs[..i] + mid + bs[i + k..], i + |mid| + t) == Off(bs, i + k + t)
  {
    if t > 0 {
      OffSplice(bs, i, k, mid, t - 1);
    }
  }

  function Splice(bs: seq<Block>, i: nat, k: nat, mid: seq<Block>): seq<Block>
    requires i + k <= |bs|
  {
    bs[..i] + mid + bs[i + k..]
  }

  /** Only bytes inside blocks i .. i+k-1 differ. */
  ghost predicate ChangedWithin(before: seq<Byte>, after: seq<Byte>, lo: nat, hi: nat) {
    |before| <= |after| && forall x :: 0 <= x < |before| && !(lo <= x < hi) ==> after[x] == before[x]
  }

  lemma SameHeader(before: seq<Byte>, after: seq<Byte>, o: nat, b: Block, next: nat)
    requires HeaderAt(before, o, b, next) && |before| <= |after|
    requires forall x :: o <= x < o + HEADER ==> after[x] == before[x]
    ensures HeaderAt(after, o, b, next)
  {
  }

  /** Rewriting the headers of one stretch of blocks, in place, replaces that stretch of the chain
      and nothing else. */
  lemma ChainSplice(before: seq<Byte>, after: seq<Byte>, bs: seq<Block>, i: nat, k: nat, mid: seq<Block>)
    requires Encodes(before, bs) && i + k <= |bs| && k > 0 && mid != []
    requires |after| == |before| && ChangedWithin(before, after, Off(bs, i), Off(bs, i + k))
    requires var cs := Splice(bs, i, k, mid);
             && Off(cs, i + |mid|) == Off(bs, i + k)
             && forall j: nat :: i <= j < i + |mid| ==> BlockAt(after, cs, j)
    ensures Encodes(after, Splice(bs, i, k, mid))
  {
    var cs := Splice(bs, i, k, mid);
    OffSplice(bs, i, k, mid, |bs| - i - k);
    forall j: nat | j < |cs|
      ensures BlockAt(after, cs, j)
    {
      if j < i {
        SpliceBefore(before, after, bs, i, k, mid, j);
      } else if j >= i + |mid| {
        SpliceAfter(before, after, bs, i, k, mid, j - i - |mid|);
      }
    }
  }

  lemma SpliceBefore(before: seq<Byte>, after: seq<Byte>, bs: seq<Block>, i: nat, k: nat, mid: seq<Block>, j: nat)
    requires Encodes(before, bs) && j < i && i + k <= |bs| && k > 0 && mid != []
    requires |after| == |before| && ChangedWithin(before, after, Off(bs, i), Off(bs, i + k))
    ensures BlockAt(after, Splice(bs, i, k, mid), j)
  {
    assert BlockAt(before, bs, j);
    var cs := Splice(bs, i, k, mid);
    OffAgree(bs, cs, j);
    OffAgree(bs, cs, j + 1);
    OffMonotone(bs, j, i);
    SameHeader(before, after, Off(bs, j), bs[j], Link(bs, j));
  }

  lemma SpliceAfter(before: seq<Byte>, after: seq<Byte>, bs: seq<Block>, i: nat, k: nat, mid: seq<Block>, t: nat)
    requires Encodes(before, bs) && i + k + t < |bs| && k > 0 && mid != []
    requires |after| == |before| && ChangedWithin(before, after, Off(bs, i), Off(bs, i + k))
    requires Off(Splice(bs, i, k, mid), i + |mid|) == Off(bs, i + k)
    ensures BlockAt(after, Splice(bs, i, k, mid), i + |mid| + t)
  {
    hide Off;
    assert BlockAt(before, bs, i + k + t);
    OffSplice(bs, i, k, mid, t);
    OffSplice(bs, i, k, mid, t + 1);
    OffNotBelow(bs, i + k, i + k + t);
    OffMonotone(bs, i + k + t, |bs|);
    SameHeader(before, after, Off(bs, i + k + t), bs[i + k + t], Link(bs, i + k + t));
  }

  lemma {:induction false} OffNotBelow(bs: seq<Block>, i: nat, j: nat)
    requires i <= j <= |bs|
    ensures Off(bs, i) <= Off(bs, j)
  {
    if i < j { OffMonotone(bs, i, j); }
  }

  lemma ChangedWiden(before: seq<Byte>, after: seq<Byte>, lo: nat, hi: nat, hi': nat)
    requires ChangedWithin(before, after, lo, hi) && hi <= hi'
    ensures ChangedWithin(before, after, lo, hi')
  {
  }

  /** A change confined to one header leaves every payload in use alone. */
  lemma KeptHeader(before: seq<Byte>, after: seq<Byte>, bs: seq<Block>, i: nat)
    requires i < |bs| && |before| == Off(bs, |bs|)
    requires ChangedWithin(before, after, Off(bs, i), Off(bs, i) + HEADER)
    ensures PayloadsKept(before, after, bs)
  {
    forall j: nat, x: nat | InUse(bs, j, x)
      ensures x < |before| && x < |after| && after[x] == before[x]
    {
      OffMonotone(bs, j, |bs|);
      if j < i { OffMonotone(bs, j, i); }
      if i < j { OffMonotone(bs, i, j); }
    }
  }

  /** So does a change confined to one free block. */
  lemma KeptFree(before: seq<Byte>, after: seq<Byte>, bs: seq<Block>, i: nat)
    requires i < |bs| && bs[i].free && |before| == Off(bs, |bs|)
    requires ChangedWithin(before, after, Off(bs, i), Off(bs, i + 1))
    ensures PayloadsKept(before, after, bs)
  {
    forall j: nat, x: nat | InUse(bs, j, x)
      ensures x < |before| && x < |after| && after[x] == before[x]
    {
      OffMonotone(bs, j, |bs|);
      if j < i { OffMonotone(bs, j, i); }
      if i < j { OffNotBelow(bs, i + 1, j); }
    }
  }

  lemma SplitChain(before: seq<Byte>, after: seq<Byte>, bs: seq<Block>, i: nat, n: nat)
    requires Encodes(before, bs) && i < |bs| && n > 0 && bs[i].size >= n + HEADER + 1
    requires |after| == |before| && ChangedWithin(before, after, Off(bs, i), Off(bs, i + 1))
    requires HeaderAt(after, Off(bs, i), Block(n, bs[i].free), HEAP_START + Off(bs, i) + HEADER + n)
    requires HeaderAt(after, Off(bs, i) + HEADER + n, Block(bs[i].size - n - HEADER, true), Link(bs, i))
    ensures Encodes(after, Splice(bs, i, 1, SplitParts(bs[i], n)))
  {
    var parts := SplitParts(bs[i], n);
    var cs := Splice(bs, i, 1, parts);
    OffAgree(bs, cs, i);
    assert cs[i] == parts[0] && cs[i + 1] == parts[1];
    assert Off(cs, i + 1) == Off(bs, i) + HEADER + n && Off(cs, i + 2) == Off(bs, i + 1);
    assert BlockAt(after, cs, i);
    assert BlockAt(after, cs, i + 1);
    ChainSplice(before, after, bs, i, 1, parts);
  }

  datatype Allocation = Pointer(addr: nat) | Panic

  class Heap {
    var mem: seq<Byte>        // the bytes at HEAP_START, HEAP_START + 1, ...
    var heapSize: nat
    ghost var blocks: seq<Block>

    ghost predicate Wf()
      reads this
    {
      Encodes(mem, blocks) && heapSize == |mem| && HEAP_START + heapSize <= HEAP_END
    }

    /** What holds between calls: the chain tiles the heap and at most one free pair exists. */
    ghost predicate Valid()
      reads this
    {
      Wf() && Tidy(blocks)
    }

    function Size(addr: nat): nat
      requires HEAP_START <= addr && addr - HEAP_START + HEADER <= |mem|
      reads this
    {
      Word(mem, addr - HEAP_START)
    }

    predicate IsFree(addr: nat)
      requires HEAP_START <= addr && addr - HEAP_START + HEADER <= |mem|
      reads this
    {
      mem[addr - HEAP_START + 4] % 2 == 1
    }

    function Next(addr: nat): nat
      requires HEAP_START <= addr && addr - HEAP_START + HEADER <= |mem|
      reads this
    {
      Word(mem, addr - HEAP_START + 5)
    }

    predicate IsValidBlock(addr: nat)
      requires heapSize == |mem|
      reads this
    {
      && HEAP_START <= addr && addr + HEADER <= HEAP_START + heapSize
      && Size(addr) != 0
      && addr + HEADER + Size(addr) <= HEAP_START + heapSize
    }

    method SetWord(o: nat, x: nat)
      requires o + 4 <= |mem| && x < 0x1_0000_0000
      modifies `mem
      ensures |mem| == |old(mem)| && Word(mem, o) == x
      ensures forall k :: 0 <= k < |mem| && !(o <= k < o + 4) ==> mem[k] == old(mem[k])
    {
      Recombine(x);
      var b := Bytes32(x);
      mem := mem[o := b[0]][o + 1 := b[1]][o + 2 := b[2]][o + 3 := b[3]];
    }

    method SetHeader(o: nat, size: nat, flags: Byte, next: nat)
      requires o + HEADER <= |mem| && size < 0x1_0000_0000 && next < 0x1_0000_0000
      modifies `mem
      ensures |mem| == |old(mem)|
      ensures Word(mem, o) == size && mem[o + 4] == flags && Word(mem, o + 5) == next
      ensures forall k :: 0 <= k < |mem| && !(o <= k < o + HEADER) ==> mem[k] == old(mem[k])
    {
      SetWord(o, size);
      mem := mem[o + 4 := flags];
      SetWord(o + 5, next);
    }

    /** The two headers of a split: the shrunk block at `p`, and the free remainder at `q` behind it. */
    method SetSplitHeaders(p: nat, n: nat, flags: Byte, q: nat, rest: nat, next: nat)
      requires p + HEADER <= q && q + HEADER <= |mem| && HEAP_START + |mem| <= HEAP_END
      requires n < 0x1_0000_0000 && rest < 0x1_0000_0000 && next < 0x1_0000_0000 && flags < 2
      modifies `mem
      ensures |mem| == |old(mem)|
      ensures HeaderAt(mem, p, Block(n, flags == 1), HEAP_START + q)
      ensures HeaderAt(mem, q, Block(rest, true), next)
      ensures ChangedWithin(old(mem), mem, p, q + HEADER)
    {
      SetHeader(q, rest, 1, next);
      ghost var m := mem;
      SetHeader(p, n, flags, HEAP_START + q);
      SameHeader(m, mem, q, Block(rest, true), next);
    }

    constructor ()
      ensures Valid() && blocks == INITIAL
    {
      heapSize := INITIAL_SIZE;
      mem := seq(INITIAL_SIZE, _ => 0);
      blocks := INITIAL;
      new;
      SetHeader(0, INITIAL_SIZE - HEADER, 1, 0);
      assert Off(INITIAL, 1) == INITIAL_SIZE;
      assert BlockAt(mem, blocks, 0);
    }

    /** The chain facts a walk needs at block `i`. */
    lemma AtBlock(i: nat)
      requires Wf() && i < |blocks|
      ensures var a := HEAP_START + Off(blocks, i);
              && IsValidBlock(a)
              && Size(a) == blocks[i].size && IsFree(a) == blocks[i].free && Next(a) == Link(blocks, i)
    {
      hide Off, Link;
      OffMonotone(blocks, i, |blocks|);
      assert BlockAt(mem, blocks, i);
    }

    /** Splits the block at `a`; on success the remainder is a free block of its own. */
    method SplitBlock(a: nat, n: nat, ghost i: nat) returns (code: int)
      requires Wf() && i < |blocks| && a == HEAP_START + Off(blocks, i) && n > 0
      modifies this`mem, this`blocks
      ensures Wf()
      ensures code == 0 <==> old(blocks)[i].size >= n
      ensures code == 0 ==> blocks == Splice(old(blocks), i, 1, SplitParts(old(blocks)[i], n))
      ensures code != 0 ==> mem == old(mem) && blocks == old(blocks)
      ensures |mem| == |old(mem)| && ChangedWithin(old(mem), mem, Off(old(blocks), i), Off(old(blocks), i + 1))
    {
      hide Off, Word;
      OffStep(blocks, i);
      AtBlock(i);
      if !IsValidBlock(a) { return 1; }
      if Size(a) < n { return 2; }
      if Size(a) < n + HEADER + 1 {
        assert blocks == Splice(blocks, i, 1, [blocks[i]]);
        return 0;
      }
      OffMonotone(blocks, i, |blocks|);
      ghost var bs := blocks;
      assert BlockAt(mem, bs, i);
      var diff := Size(a) - n;
      var flags := mem[a - HEAP_START + 4];
      var o := a - HEAP_START + HEADER + n;
      SetSplitHeaders(a - HEAP_START, n, flags, o, diff - HEADER, Next(a));
      SplitChain(old(mem), mem, bs, i, n);
      ghost var cs := Splice(bs, i, 1, SplitParts(bs[i], n));
      blocks := cs;
      return 0;
    }

    method SetFlags(o: nat, flags: Byte)
      requires o + HEADER <= |mem|
      modifies `mem
      ensures |mem| == |old(mem)| && mem[o + 4] == flags
      ensures Word(mem, o) == old(Word(mem, o)) && Word(mem, o + 5) == old(Word(mem, o + 5))
      ensures ChangedWithin(old(mem), mem, o, o + HEADER)
    {
      mem := mem[o + 4 := flags];
    }

    /** Marks block `i` free or in use by rewriting its flags byte. */
    method MarkBlock(a: nat, free: bool, ghost i: nat)
      requires Wf() && i < |blocks| && a == HEAP_START + Off(blocks, i)
      modifies this`mem, this`blocks
      ensures Wf() && |mem| == |old(mem)|
      ensures blocks == old(blocks)[i := Block(old(blocks)[i].size, free)]
      ensures ChangedWithin(old(mem), mem, Off(old(blocks), i), Off(old(blocks), i) + HEADER)
    {
      assert BlockAt(mem, blocks, i);
      OffMonotone(blocks, i, |blocks|);
      SetFlags(a - HEAP_START, if free then 1 else 0);
      MarkChain(old(mem), mem, blocks, i, Block(blocks[i].size, free));
      blocks := blocks[i := Block(blocks[i].size, free)];
    }

    /** src->size += sizeof(header) + next->size; src->next = next->next. */
    method JoinNext(src: nat, next: nat, ghost i: nat)
      requires Wf() && i + 1 < |blocks| && blocks[i].free && blocks[i + 1].free
      requires src == HEAP_START + Off(blocks, i) && next == HEAP_START + Off(blocks, i + 1)
      modifies this`mem, this`blocks
      ensures Wf() && |mem| == |old(mem)|
      ensures blocks == Splice(old(blocks), i, 2, [Joined(old(blocks), i)])
      ensures ChangedWithin(old(mem), mem, Off(old(blocks), i), Off(old(blocks), i) + HEADER)
    {
      hide Word, Off, ChangedWithin;
      ghost var bs := blocks;
      OffMonotone(bs, i, |bs|);
      OffMonotone(bs, i + 1, |bs|);
      assert BlockAt(mem, bs, i) && BlockAt(mem, bs, i + 1);
      SetWords(src - HEAP_START, Size(src) + HEADER + Size(next), Next(next));
      JoinChain(old(mem), mem, bs, i);
      blocks := Splice(bs, i, 2, [Joined(bs, i)]);
    }

    /** Rewrites the size and next fields of one header. */
    method SetWords(o: nat, size: nat, next: nat)
      requires o + HEADER <= |mem| && size < 0x1_0000_0000 && next < 0x1_0000_0000
      modifies `mem
      ensures |mem| == |old(mem)|
      ensures Word(mem, o) == size && mem[o + 4] == old(mem[o + 4]) && Word(mem, o + 5) == next
      ensures ChangedWithin(old(mem), mem, o, o + HEADER)
    {
      SetWord(o, size);
      SetWord(o + 5, next);
    }

    /** The merging branch of a turn. */
    method JoinTurn(src: nat, next: nat, ghost bs: seq<Block>, ghost done: seq<Block>, ghost c: nat)
      requires Wf() && |mem| == Off(bs, |bs|)
      requires c + 1 < |bs| && Walk(blocks, bs, done, c) && src == At(bs, c) && next == At(bs, c + 1)
      requires bs[c].free && bs[c + 1].free
      modifies this`mem, this`blocks
      ensures Wf() && |mem| == |old(mem)|
      ensures Walk(blocks, bs, done + [Joined(bs, c)], c + 2) && |done| < |blocks|
      ensures src == HEAP_START + Off(blocks, |done|)
      ensures PayloadsKept(old(mem), mem, bs)
    {
      hide MergePass, Off, Word, HeaderAt, BlockAt, Encodes, Walk, Joined, PayloadsKept;
      WalkAt(blocks, bs, done, c);
      WalkJoin(blocks, bs, done, c);
      JoinNext(src, next, |done|);
      KeptHeader(old(mem), mem, bs, c);
    }

    /** One turn of the merge loop, at the block that holds original block `c`. */
    method MergeTurn(src: nat, ghost bs: seq<Block>, ghost done: seq<Block>, ghost c: nat)
        returns (next': nat, ghost done': seq<Block>, ghost c': nat)
      requires Wf() && |mem| == Off(bs, |bs|)
      requires c < |bs| && Walk(blocks, bs, done, c) && src == At(bs, c)
      modifies this`mem, this`blocks
      ensures Wf() && |mem| == |old(mem)|
      ensures c < c' <= |bs| && Walk(blocks, bs, done', c') && next' == At(bs, c')
      ensures PayloadsKept(old(mem), mem, bs)
    {
      hide MergePass, Off, Word, HeaderAt, BlockAt, Encodes, Walk, Splice, Joined, PayloadsKept;
      PayloadsKeptReflexive(mem, bs);
      WalkAt(blocks, bs, done, c);
      AtBlock(|done|);
      var next := Next(src);
      if c + 1 < |bs| {
        AtBlock(|done| + 1);
      }
      if IsFree(src) && IsValidBlock(next) && IsFree(next) && next == src + HEADER + Size(src) {
        JoinTurn(src, next, bs, done, c);
        done', c' := done + [Joined(bs, c)], c + 2;
      } else {
        WalkSkip(blocks, bs, done, c);
        done', c' := done + [bs[c]], c + 1;
      }
      WalkLink(blocks, bs, done', c');
      AtBlock(|done|);
      next' := Next(src);
    }

    /** The merge pass: one walk over the chain, stepping past every pair it merges. */
    method Merge()
      requires Wf()
      modifies this`mem, this`blocks
      ensures Wf() && |mem| == |old(mem)|
      ensures blocks == MergePass(old(blocks))
      ensures PayloadsKept(old(mem), mem, old(blocks))
    {
      hide MergePass, Off, Word, HeaderAt, BlockAt, Encodes, Walk, Splice, Joined, PayloadsKept;
      var src := HEAP_START;
      ghost var bs := blocks;
      ghost var done: seq<Block>, c: nat := [], 0;   // merged so far; original blocks consumed
      MemoryIsChain(mem, bs);
      PayloadsKeptReflexive(mem, bs);
      WalkStart(bs);
      while IsValidBlock(src)
        invariant Wf() && |mem| == |old(mem)|
        invariant c <= |bs| && Walk(blocks, bs, done, c) && src == At(bs, c)
        invariant PayloadsKept(old(mem), mem, bs)
        decreases |bs| - c
      {
        ghost var before := mem;
        src, done, c := MergeTurn(src, bs, done, c);
        PayloadsKeptTransitive(old(mem), before, mem, bs);
      }
      if c < |bs| {
        WalkAt(blocks, bs, done, c);
        AtBlock(|done|);
      }
      WalkEnd(blocks, bs, done);
    }

    /** Freshly mapped pages; their contents are unknown to the caller. */
    static method MappedPages(pages: nat) returns (bytes: seq<Byte>)
      ensures |bytes| == pages * PAGE
    {
      bytes := seq(pages * PAGE, _ => 0);
    }

    /** Maps enough pages behind the heap for a request of `n` bytes and links them as one free
        block behind `last`. Returns 0 when the heap would run past HEAP_END. */
    method Grow(last: nat, n: nat) returns (block: nat)
      requires Wf() && last == HEAP_START + Off(blocks, |blocks| - 1)
      modifies this
      ensures block == 0 <==> HEAP_START + old(heapSize) + GrowPages(n) * PAGE > HEAP_END
      ensures block == 0 ==> mem == old(mem) && blocks == old(blocks) && heapSize == old(heapSize)
      ensures block != 0 ==>
                && Wf() && blocks == old(blocks) + [GrownBlock(n)]
                && block == HEAP_START + Off(old(blocks), |old(blocks)|)
                && Off(blocks, |old(blocks)|) == Off(old(blocks), |old(blocks)|)
                && ChangedWithin(old(mem), mem, Off(old(blocks), |old(blocks)| - 1),
                    Off(old(blocks), |old(blocks)| - 1) + HEADER)
    {
      hide Word, ChangedWithin;
      var grow := GrowPages(n);
      block := HEAP_START + heapSize;
      if block + grow * PAGE > HEAP_END {
        return 0;
      }
      ghost var bs, l := blocks, |blocks| - 1;
      var end := |mem|;
      assert BlockAt(mem, bs, l) && Off(bs, l + 1) == Off(bs, l) + HEADER + bs[l].size;
      var pages := MappedPages(grow);
      SetGrown(last - HEAP_START, pages, grow * PAGE - HEADER);
      heapSize := heapSize + grow * PAGE;
      GrowChain(old(mem), mem, bs, GrownBlock(n));
      blocks := bs + [GrownBlock(n)];
    }

    /** Appends the mapped bytes, writes the header of the new free block and links it. */
    method SetGrown(last: nat, pages: seq<Byte>, size: nat)
      requires last + HEADER <= |mem| && |pages| == HEADER + size && HEAP_START + |mem| + |pages| <= HEAP_END
      modifies `mem
      ensures |mem| == |old(mem)| + |pages|
      ensures HeaderAt(mem, |old(mem)|, Block(size, true), 0)
      ensures Word(mem, last) == old(Word(mem, last)) && mem[last + 4] == old(mem[last + 4])
      ensures Word(mem, last + 5) == HEAP_START + |old(mem)|
      ensures ChangedWithin(old(mem), mem, last, last + HEADER)
    {
      var end := |mem|;
      mem := mem + pages;
      SetHeader(end, size, 1, 0);
      ghost var m := mem;
      SetWord(last + 5, HEAP_START + end);
      SameHeader(m, mem, end, Block(size, true), 0);
    }

    /** The search loop of malloc: the first fit, or NULL with the last block of the chain. */
    method FindFit(n: nat) returns (block: nat, last: nat, ghost i: nat)
      requires Wf()
      ensures i == FirstFit(blocks, n) && block == At(blocks, FirstFit(blocks, n))
      ensures last == HEAP_START + Off(blocks, if FirstFit(blocks, n) == 0 then 0 else FirstFit(blocks, n) - 1)
      ensures IsValidBlock(block) <==> FirstFit(blocks, n) < |blocks|
    {
      hide Word, HeaderAt, BlockAt, FirstFit;
      block, last, i := HEAP_START, HEAP_START, 0;
      while IsValidBlock(block)
            && (!IsFree(block) || Size(block) < n || (Size(block) > n && Size(block) < n + HEADER + 1))
        invariant i <= |blocks| && block == At(blocks, i)
        invariant last == HEAP_START + Off(blocks, if i == 0 then 0 else i - 1)
        invariant forall j :: 0 <= j < i ==> !Fits(blocks[j], n)
        decreases |blocks| - i
      {
        AtBlock(i);
        last := block;
        block := Next(block);
        i := i + 1;
      }
      if i < |blocks| {
        AtBlock(i);
        assert Fits(blocks[i], n);
      }
      FirstFitIs(blocks, n, i);
    }

    /** Cuts the block at `i` down to a request and takes it out of the free blocks. */
    method Take(block: nat, n: nat, ghost i: nat) returns (ok: bool)
      requires Wf() && n > 0 && i < |blocks| && blocks[i].free && block == HEAP_START + Off(blocks, i)
      modifies this`mem, this`blocks
      ensures ok <==> old(blocks)[i].size >= n
      ensures ok ==> Wf() && blocks == Splice(old(blocks), i, 1, Carve(old(blocks)[i], n))
      ensures |mem| == |old(mem)|
      ensures ChangedWithin(old(mem), mem, Off(old(blocks), i), Off(old(blocks), i + 1))
    {
      hide Word, HeaderAt, BlockAt, Encodes, Off;
      ghost var bs := blocks;
      AtBlock(i);
      OffStep(bs, i);
      if Size(block) != n {
        var code := SplitBlock(block, n, i);
        if code != 0 {
          return false;
        }
      }
      TakeList(bs, i, n);
      TakeOff(bs, i, n);
      ghost var m := mem;
      MarkBlock(block, false, i);
      ChangedWiden(m, mem, Off(bs, i), Off(bs, i) + HEADER, Off(bs, i + 1));
      return true;
    }

    /** The ranges handed out, by offset from HEAP_START. */
    ghost function InUseRanges(): map<nat, nat>
      reads this
    {
      Live(blocks, 0)
    }

    method Malloc(n: nat) returns (r: Allocation)
      requires Valid() && n > 0
      modifies this
      ensures r.Panic? <==> Exhausted(old(blocks), old(heapSize), n)
      ensures r.Pointer? ==>
                && Valid() && blocks == Alloc(old(blocks), n)
                && r.addr >= HEAP_START && HandedOut(old(InUseRanges()), InUseRanges(), r.addr - HEAP_START, n)
                && RangesKept(old(mem), mem, old(InUseRanges()))
    {
      hide Word, HeaderAt, BlockAt, Encodes, FirstFit, Off, RangesKept, Live, HandedOut, Tidy, Carve, GrownBlock,
          Splice;
      ghost var bs := blocks;
      MemoryIsChain(mem, bs);
      var block, last, i := FindFit(n);
      if !IsValidBlock(block) {
        block := Grow(last, n);
        if block == 0 {
          return Panic;
        }
        GrownIsLast(bs, n);
      }
      ghost var m := mem;
      var ok := Take(block, n, i);
      if i < |bs| {
        KeptFree(old(mem), mem, bs, i);
      } else {
        KeptAppended(old(mem), m, mem, bs);
      }
      KeptByAddress(old(mem), mem, bs);
      AllocLive(bs, n);
      AllocSplice(bs, n);
      AllocTidy(bs, n);
      return Pointer(block + HEADER);
    }

    /** free(): a pointer outside the heap or to a block that is already free is refused. */
    method Free(ptr: nat)
      requires Valid()
      requires PointsOutside(ptr, heapSize) || PointsToBlock(ptr, blocks)
      modifies this`mem, this`blocks
      ensures Valid()
      ensures PointsOutside(ptr, heapSize) || ptr - HEAP_START !in old(InUseRanges()) ==>
                mem == old(mem) && blocks == old(blocks)
      ensures !PointsOutside(ptr, heapSize) && ptr - HEAP_START in old(InUseRanges()) ==>
                && InUseRanges() == old(InUseRanges()) - {ptr - HEAP_START}
                && RangesKept(old(mem), mem, InUseRanges()) && |mem| == |old(mem)|
    {
      hide Word, HeaderAt, BlockAt, Encodes, Off, RangesKept, PayloadsKept, Live, Tidy, MergePass, PointsToBlock;
      ghost var bs := blocks;
      ghost var i := IndexOf(ptr, bs, heapSize);
      if i < |bs| {
        AtBlock(i);
        LiveAtIndex(bs, i);
      }
      if ptr < HEADER || !IsValidBlock(ptr - HEADER) || IsFree(ptr - HEADER) {
        return;
      }
      MarkBlock(ptr - HEADER, true, i);
      ghost var m, marked := mem, blocks;
      KeptMarked(old(mem), m, bs, i);
      Merge();
      PayloadsKeptTransitive(old(mem), m, mem, marked);
      KeptByAddress(old(mem), mem, marked);
      LiveMerge(marked, 0);
      ReleaseLive(bs, i);
      ReleaseKeepsTidy(bs, i);
    }

    /** A write by the owner (memmove, memset, a stored pointer) inside the range handed out at `a`. */
    method Fill(ghost a: nat, p: nat, bytes: seq<Byte>)
      requires Valid() && a in InUseRanges() && a <= p && p + |bytes| <= a + InUseRanges()[a]
      modifies this`mem
      ensures Valid() && |mem| == |old(mem)| && p + |bytes| <= |mem|
      ensures mem == old(mem)[..p] + bytes + old(mem)[p + |bytes|..]
      ensures RangesKept(old(mem), mem, InUseRanges() - {a})
    {
      RangeInside(blocks, a);
      mem := mem[..p] + bytes + mem[p + |bytes|..];
      FillChain(old(mem), mem, blocks, a);
    }

    /** realloc(): a new range that starts with the common prefix of the old one. */
    method Realloc(ptr: nat, n: nat) returns (r: Allocation)
      requires Valid() && n > 0
      requires ptr >= HEAP_START && ptr - HEAP_START in InUseRanges()
      modifies this
      ensures r.Panic? <==> old(InUseRanges())[ptr - HEAP_START] != n && Exhausted(old(blocks), old(heapSize), n)
      ensures old(InUseRanges())[ptr - HEAP_START] == n ==>
                r == Pointer(ptr) && mem == old(mem) && blocks == old(blocks) && Valid()
      ensures old(InUseRanges())[ptr - HEAP_START] != n && r.Pointer? ==>
                && Valid() && r.addr >= HEAP_START
                && Relocated(old(mem), old(InUseRanges()), mem, InUseRanges(), ptr - HEAP_START, r.addr - HEAP_START, n)
    {
      hide Word, HeaderAt, BlockAt, Encodes, Off, Live, Tidy, Relocated, Exhausted;
      RangeInside(blocks, ptr - HEAP_START);
      MemoryIsChain(mem, blocks);
      ghost var i := LiveIndex0(blocks, ptr - HEAP_START);
      AtBlock(i);
      var size := Size(ptr - HEADER);
      if size == n {
        return Pointer(ptr);
      }
      r := Relocate(ptr - HEAP_START, size, n);
    }

    method Relocate(p: nat, size: nat, n: nat) returns (r: Allocation)
      requires Valid() && n > 0 && p in InUseRanges() && InUseRanges()[p] == size
      modifies this
      ensures r.Panic? <==> Exhausted(old(blocks), old(heapSize), n)
      ensures r.Pointer? ==>
                && Valid() && r.addr >= HEAP_START
                && Relocated(old(mem), old(InUseRanges()), mem, InUseRanges(), p, r.addr - HEAP_START, n)
    {
      hide Word, HeaderAt, BlockAt, Encodes, Off, RangesKept, Live, Tidy, HandedOut, Relocated, Alloc, Exhausted;
      ghost var before := InUseRanges();
      RangeInside(blocks, p);
      MemoryIsChain(mem, blocks);
      r := Malloc(n);
      if r.Panic? {
        return;
      }
      ghost var m1, live1 := mem, InUseRanges();
      var q := r.addr - HEAP_START;
      HandedKeeps(before, live1, q, n, p);
      var common := if n > size then size else n;
      ghost var m2 := CopyAndFree(p, q, common);
      RelocatedBy(old(mem), before, m1, live1, m2, mem, p, q, n, common);
    }

    /** memmove of `common` bytes from range `p` to range `q`, then free of `p`. */
    method CopyAndFree(p: nat, q: nat, common: nat) returns (ghost m2: seq<Byte>)
      requires Valid() && p in InUseRanges() && q in InUseRanges() && p != q
      requires common <= InUseRanges()[p] && common <= InUseRanges()[q]
      modifies this`mem, this`blocks
      ensures Valid() && InUseRanges() == old(InUseRanges()) - {p}
      ensures |mem| == |old(mem)| == |m2|
      ensures p + old(InUseRanges())[p] <= |old(mem)| && q + old(InUseRanges())[q] <= |old(mem)|
      ensures m2 == old(mem)[..q] + old(mem)[p..p + common] + old(mem)[q + common..]
      ensures RangesKept(old(mem), m2, old(InUseRanges()) - {q})
      ensures RangesKept(m2, mem, InUseRanges())
    {
      hide Word, HeaderAt, BlockAt, Encodes, Off, RangesKept, Live, Tidy;
      RangeInside(blocks, p);
      RangeInside(blocks, q);
      MemoryIsChain(mem, blocks);
      ghost var j := LiveIndex0(blocks, p);
      Fill(q, q, mem[p..p + common]);
      m2 := mem;
      Free(HEAP_START + p);
    }

    /** valloc(): over-allocates, aligns upwards, and keeps the original pointer in front. The request is a
        32-bit sum; VallocFits says why it must not wrap. */
    method Valloc(size: nat, alignment: nat) returns (r: Allocation, ghost base: nat)
      requires Valid() && PowerOfTwo(alignment) && size + alignment + 3 < WRAP
      modifies this
      ensures r.Panic? <==> Exhausted(old(blocks), old(heapSize), size + alignment - 1 + 4)
      ensures r.Pointer? ==>
                && Valid() && r.addr % alignment == 0 && r.addr >= HEAP_START + base + 4
                && HandedOut(old(InUseRanges()), InUseRanges(), base, size + alignment - 1 + 4)
                && r.addr - HEAP_START + size <= base + InUseRanges()[base] <= |mem|
                && Word(mem, r.addr - HEAP_START - 4) == HEAP_START + base
                && RangesKept(old(mem), mem, old(InUseRanges()))
    {
      hide HeaderAt, BlockAt, Encodes, Off, RangesKept, Live, Tidy, Alloc, Exhausted, Bytes32;
      var offset := alignment - 1 + 4;
      var p1 := Malloc((size + offset) % WRAP);
      if p1.Panic? {
        return Panic, 0;
      }
      base := p1.addr - HEAP_START;
      RangeInside(blocks, base);
      MemoryIsChain(mem, blocks);
      var p2 := p1.addr + offset - (p1.addr + offset) % alignment;
      AlignedDown(p1.addr + offset, alignment);
      ghost var m1 := mem;
      Fill(base, p2 - HEAP_START - 4, Bytes32(p1.addr));
      StoredWord(m1, mem, p2 - HEAP_START - 4, p1.addr);
      KeptTwice(old(mem), m1, mem, old(InUseRanges()), InUseRanges(), base);
      r := Pointer(p2);
    }

    /** vfree(): releases the block whose address is stored in front of `ptr`. */
    method Vfree(ptr: nat)
      requires Valid() && ptr >= HEAP_START + 4 && ptr - HEAP_START <= |mem|
      requires var p1 := Word(mem, ptr - HEAP_START - 4); p1 >= HEAP_START && p1 - HEAP_START in InUseRanges()
      modifies this`mem, this`blocks
      ensures Valid()
      ensures InUseRanges() == old(InUseRanges()) - {old(Word(mem, ptr - HEAP_START - 4)) - HEAP_START}
      ensures RangesKept(old(mem), mem, InUseRanges())
    {
      hide HeaderAt, BlockAt, Encodes, Off, RangesKept, Live, Tidy, Word;
      var p1 := Word(mem, ptr - HEAP_START - 4);
      RangeInside(blocks, p1 - HEAP_START);
      MemoryIsChain(mem, blocks);
      ghost var i := LiveIndex0(blocks, p1 - HEAP_START);
      Free(p1);
    }
  }

  const WRAP: nat := 0x1_0000_0000

  /** What valloc asks of malloc, and where it puts the payload when malloc returns `p1`. */
  function VallocRequest(size: nat, alignment: nat): nat {
    (size + alignment + 3) % WRAP
  }

  function VallocAddress(p1: nat, alignment: nat): nat
    requires alignment > 0
  {
    p1 + alignment + 3 - (p1 + alignment + 3) % alignment
  }

  /** Wherever malloc puts the range it was asked for, the aligned payload fits in it exactly when the
      request did not wrap round 32 bits. */
  lemma VallocFits(p1: nat, size: nat, alignment: nat)
    requires size < WRAP && 0 < alignment < WRAP - 3
    ensures VallocAddress(p1, alignment) + size <= p1 + VallocRequest(size, alignment)
            <==> size + alignment + 3 < WRAP
  {
    AlignedDown(p1 + alignment + 3, alignment);
  }

  /** valloc(0xFFFFFFF0, 16) on a fresh heap asks for 3 bytes and gets them; the word it stores in front of
      its payload is the size field of the next block header. */
  lemma VallocOverrun()
    ensures VallocRequest(0xFFFF_FFF0, 16) == 3 && !Exhausted(INITIAL, INITIAL_SIZE, 3)
    ensures Alloc(INITIAL, 3) == [Block(3, false), Block(INITIAL_SIZE - 3 - 2 * HEADER, true)]
    ensures Off(Alloc(INITIAL, 3), 1) == HEADER + 3
    ensures VallocAddress(HEAP_START + HEADER, 16) - 4 == HEAP_START + HEADER + 3
  {
    assert FirstFit(INITIAL, 3) == 0;
  }

  predicate PowerOfTwo(a: nat) {
    a == 1 || (a > 1 && a % 2 == 0 && PowerOfTwo(a / 2))
  }

  /** For a power of two, x & ~(a - 1) is x less its remainder. */
  lemma AlignedDown(x: nat, a: nat)
    requires a > 0
    ensures (x - x % a) % a == 0 && x - a < x - x % a <= x
  {
    var q, y := x / a, x - x % a;
    assert y == a * q;
    var q', r' := y / a, y % a;
    assert y == a * q' + r';
    if q' < q {
      MultipleBelow(a, q', q);
    }
  }

  lemma MultipleBelow(a: nat, q: nat, q': nat)
    requires q < q'
    ensures a * q + a <= a * q'
  {
    assert a * (q + 1) <= a * q';
  }

  lemma StoredWord(before: seq<Byte>, after: seq<Byte>, o: nat, x: nat)
    requires x < 0x1_0000_0000 && o + 4 <= |before|
    requires after == before[..o] + Bytes32(x) + before[o + 4..]
    ensures Word(after, o) == x
  {
    hide Bytes32;
    var b := Bytes32(x);
    Recombine(x);
    assert after[o] == b[0] && after[o + 1] == b[1] && after[o + 2] == b[2] && after[o + 3] == b[3];
  }

  /** malloc keeps the old ranges, and a write into the new one keeps them too. */
  lemma KeptTwice(m0: seq<Byte>, m1: seq<Byte>, m2: seq<Byte>, live0: map<nat, nat>, live1: map<nat, nat>, q: nat)
    requires RangesKept(m0, m1, live0) && RangesKept(m1, m2, live1 - {q})
    requires q !in live0 && q in live1 && live1 == live0[q := live1[q]]
    ensures RangesKept(m0, m2, live0)
  {
    forall b: nat, k: nat | InRange(live0, b, k)
      ensures k < |m0| && k < |m2| && m2[k] == m0[k]
    {
      assert InRange(live1 - {q}, b, k);
    }
  }

  /** Range `p` has become range `q`: the common prefix is copied, every other range is as it was. */
  ghost predicate Relocated(m0: seq<Byte>, live0: map<nat, nat>, m1: seq<Byte>, live1: map<nat, nat>, p: nat, q: nat,
      n: nat) {
    && p in live0 && q !in live0 && q in live1 && live1[q] >= n
    && live1 == (live0 - {p})[q := live1[q]]
    && (forall a :: a in live0 ==> a + live0[a] < q || q + live1[q] < a)
    && RangesKept(m0, m1, live0 - {p})
    && var common := if n > live0[p] then live0[p] else n;
       p + common <= |m0| && q + common <= |m1| && m1[q..q + common] == m0[p..p + common]
  }

  /** Allocate, copy, release: the three changes of memory add up to a move. */
  lemma RelocatedBy(m0: seq<Byte>, live0: map<nat, nat>, m1: seq<Byte>, live1: map<nat, nat>, m2: seq<Byte>,
                    m3: seq<Byte>, p: nat, q: nat, n: nat, common: nat)
    requires p in live0 && HandedOut(live0, live1, q, n) && common == if n > live0[p] then live0[p] else n
    requires p + live0[p] <= |m0| && q + live1[q] <= |m1| && p + live0[p] <= |m1|
    requires RangesKept(m0, m1, live0)
    requires m2 == m1[..q] + m1[p..p + common] + m1[q + common..]
    requires RangesKept(m1, m2, live1 - {q})
    requires RangesKept(m2, m3, live1 - {p}) && |m3| == |m2|
    ensures Relocated(m0, live0, m3, live1 - {p}, p, q, n)
  {
    var live3: map<nat, nat> := live1 - {p};
    assert live3 == (live0 - {p})[q := live3[q]];
    forall b: nat, k: nat | InRange(live0 - {p}, b, k)
      ensures k < |m0| && k < |m3| && m3[k] == m0[k]
    {
      assert InRange(live0, b, k) && InRange(live1 - {q}, b, k) && InRange(live1 - {p}, b, k);
    }
    assert q + common <= |m3| by {
      if common > 0 { assert InRange(live1 - {p}, q, q + common - 1); }
    }
    var to, from := m3[q..q + common], m0[p..p + common];
    forall k | 0 <= k < |to|
      ensures to[k] == from[k]
    {
      assert InRange(live0, p, p + k);
      assert InRange(live1 - {p}, q, q + k);
      assert m2[q + k] == m1[p + k];
    }
    assert to == from;
  }

  lemma MemoryIsChain(mem: seq<Byte>, bs: seq<Block>)
    requires Encodes(mem, bs)
    ensures bs != [] && |mem| == Off(bs, |bs|)
  {
  }

  lemma HandedKeeps(live0: map<nat, nat>, live1: map<nat, nat>, q: nat, n: nat, p: nat)
    requires HandedOut(live0, live1, q, n) && p in live0
    ensures q != p && q in live1 && live1[q] >= n && p in live1 && live1[p] == live0[p]
  {
  }

  lemma LiveIndex0(bs: seq<Block>, a: nat) returns (i: nat)
    requires a in Live(bs, 0)
    ensures i < |bs| && !bs[i].free && a == Off(bs, i) + HEADER && Live(bs, 0)[a] == bs[i].size
  {
    assert bs[0..] == bs;
    i := LiveIndex(bs, 0, a);
  }

  lemma RangeInside(bs: seq<Block>, a: nat)
    requires a in Live(bs, 0)
    ensures a >= HEADER && a + Live(bs, 0)[a] <= Off(bs, |bs|)
  {
    var i := LiveIndex0(bs, a);
    OffMonotone(bs, i, |bs|);
  }

  /** Writing inside a payload leaves the chain and all other payloads alone. */
  lemma FillChain(before: seq<Byte>, after: seq<Byte>, bs: seq<Block>, a: nat)
    requires Encodes(before, bs) && a in Live(bs, 0) && |after| == |before|
    requires ChangedWithin(before, after, a, a + Live(bs, 0)[a])
    ensures Encodes(after, bs) && RangesKept(before, after, Live(bs, 0) - {a})
  {
    var i := LiveIndex0(bs, a);
    forall j: nat | j < |bs| ensures BlockAt(after, bs, j) {
      assert BlockAt(before, bs, j);
      OffMonotone(bs, j, |bs|);
      if j < i { OffMonotone(bs, j, i); }
      if i < j { OffMonotone(bs, i, j); }
      SameHeader(before, after, Off(bs, j), bs[j], Link(bs, j));
    }
    RangesApart(before, after, bs, a);
  }

  lemma RangesApart(before: seq<Byte>, after: seq<Byte>, bs: seq<Block>, a: nat)
    requires |before| == Off(bs, |bs|) && a in Live(bs, 0) && |after| == |before|
    requires ChangedWithin(before, after, a, a + Live(bs, 0)[a])
    ensures RangesKept(before, after, Live(bs, 0) - {a})
  {
    var live: map<nat, nat> := Live(bs, 0);
    LiveRanges(bs, 0);
    forall b: nat, k: nat | InRange(live - {a}, b, k)
      ensures k < |before| && k < |after| && after[k] == before[k]
    {
      RangeInside(bs, b);
      assert b < a ==> b + live[b] + HEADER <= a;
      assert a < b ==> a + live[a] + HEADER <= b;
    }
  }

  /** Flipping a flag changes one header, so payloads keep, whichever way the block is marked. */
  lemma KeptMarked(before: seq<Byte>, after: seq<Byte>, bs: seq<Block>, i: nat)
    requires i < |bs| && Encodes(after, bs[i := Block(bs[i].size, true)]) && |before| == |after|
    requires ChangedWithin(before, after, Off(bs, i), Off(bs, i) + HEADER)
    ensures PayloadsKept(before, after, bs[i := Block(bs[i].size, true)])
  {
    MarkedOff(bs, i, Block(bs[i].size, true));
    KeptHeader(before, after, bs[i := Block(bs[i].size, true)], i);
  }

  /** The index of the block a pointer names, or the number of blocks for a pointer outside. */
  lemma IndexOf(ptr: nat, bs: seq<Block>, heapSize: nat) returns (i: nat)
    requires PointsOutside(ptr, heapSize) || PointsToBlock(ptr, bs)
    ensures i <= |bs|
    ensures i < |bs| ==> ptr == HEAP_START + Off(bs, i) + HEADER
    ensures i == |bs| ==> PointsOutside(ptr, heapSize)
  {
    if PointsOutside(ptr, heapSize) {
      i := |bs|;
    } else {
      i :| i < |bs| && ptr == HEAP_START + Off(bs, i) + HEADER;
    }
  }

  /** Block `i` is in use exactly when its payload is a range handed out. */
  lemma LiveAtIndex(bs: seq<Block>, i: nat)
    requires i < |bs|
    ensures !bs[i].free <==> Off(bs, i) + HEADER in Live(bs, 0)
  {
    if !bs[i].free {
      LiveHas(bs, i);
    } else if Off(bs, i) + HEADER in Live(bs, 0) {
      assert bs[0..] == bs;
      var j := LiveIndex(bs, 0, Off(bs, i) + HEADER);
      if i < j { OffMonotone(bs, i, j); }
      if j < i { OffMonotone(bs, j, i); }
    }
  }

  /** No block fits and the pages for a new one would run past HEAP_END. */
  predicate Exhausted(bs: seq<Block>, heapSize: nat, n: nat) {
    FirstFit(bs, n) == |bs| && HEAP_START + heapSize + GrowPages(n) * PAGE > HEAP_END
  }

  /** The header of `ptr` would not fit between the heap base and its end. */
  predicate PointsOutside(ptr: nat, heapSize: nat) {
    ptr < HEAP_START + HEADER || ptr > HEAP_START + heapSize
  }

  ghost predicate PointsToBlock(ptr: nat, bs: seq<Block>) {
    exists i: nat :: i < |bs| && ptr == HEAP_START + Off(bs, i) + HEADER
  }

  lemma GrownIsLast(bs: seq<Block>, n: nat)
    ensures var cs := bs + [GrownBlock(n)];
            cs[|bs|] == GrownBlock(n) && cs[|bs|].free && cs[|bs|].size >= n && Off(cs, |bs|) == Off(bs, |bs|)
  {
    var cs := bs + [GrownBlock(n)];
    assert cs[..|bs|] == bs[..|bs|];
    OffAgree(cs, bs, |bs|);
  }

  /** Both branches of malloc replace one free block by its carving. */
  lemma AllocSplice(bs: seq<Block>, n: nat)
    ensures var i := FirstFit(bs, n);
            if i < |bs| then Alloc(bs, n) == Splice(bs, i, 1, Carve(bs[i], n))
            else Alloc(bs, n) == Splice(bs + [GrownBlock(n)], |bs|, 1, Carve(GrownBlock(n), n))
  {
    var cs := bs + [GrownBlock(n)];
    assert cs[..|bs|] == bs && cs[|bs| + 1..] == [];
  }

  lemma AllocTidy(bs: seq<Block>, n: nat)
    requires Tidy(bs)
    ensures Tidy(Alloc(bs, n))
  {
    AllocKeepsPairs(bs, n);
  }

  /** Growing rewrites one header, and carving the new block touches nothing before it. */
  lemma KeptAppended(before: seq<Byte>, grown: seq<Byte>, after: seq<Byte>, bs: seq<Block>)
    requires bs != [] && |before| == Off(bs, |bs|) && |after| == |grown|
    requires ChangedWithin(before, grown, Off(bs, |bs| - 1), Off(bs, |bs| - 1) + HEADER)
    requires forall x :: 0 <= x < |before| ==> x < |grown| && after[x] == grown[x]
    ensures PayloadsKept(before, after, bs)
  {
    KeptHeader(before, after, bs, |bs| - 1);
  }

  ghost predicate RangesKept(before: seq<Byte>, after: seq<Byte>, live: map<nat, nat>) {
    forall a: nat, k: nat :: InRange(live, a, k) ==> k < |before| && k < |after| && after[k] == before[k]
  }

  ghost predicate InRange(live: map<nat, nat>, a: nat, k: nat) {
    a in live && a <= k < a + live[a]
  }

  lemma KeptByAddress(before: seq<Byte>, after: seq<Byte>, bs: seq<Block>)
    requires PayloadsKept(before, after, bs)
    ensures RangesKept(before, after, Live(bs, 0))
  {
    forall a: nat, k: nat | InRange(Live(bs, 0), a, k)
      ensures k < |before| && k < |after| && after[k] == before[k]
    {
      assert bs[0..] == bs;
      var i := LiveIndex(bs, 0, a);
      assert InUse(bs, i, k);
    }
  }

  /** Splitting and then clearing the free flag is carving. */
  lemma TakeList(bs: seq<Block>, i: nat, n: nat)
    requires i < |bs| && bs[i].free && bs[i].size >= n
    ensures var cs := Splice(bs, i, 1, SplitParts(bs[i], n));
            && (bs[i].size == n ==> cs == bs)
            && cs[i].free && cs[i := Block(cs[i].size, false)] == Splice(bs, i, 1, Carve(bs[i], n))
  {
    var cs := Splice(bs, i, 1, SplitParts(bs[i], n));
    assert cs[i] == SplitParts(bs[i], n)[0];
  }

  lemma TakeOff(bs: seq<Block>, i: nat, n: nat)
    requires i < |bs|
    ensures Off(Splice(bs, i, 1, SplitParts(bs[i], n)), i) == Off(bs, i)
  {
    OffAgree(bs, Splice(bs, i, 1, SplitParts(bs[i], n)), i);
  }

  /** FirstFit is determined by its contract. */
  lemma FirstFitIs(bs: seq<Block>, n: nat, i: nat)
    requires i <= |bs| && (i < |bs| ==> Fits(bs[i], n))
    requires forall j :: 0 <= j < i ==> !Fits(bs[j], n)
    ensures FirstFit(bs, n) == i
  {
    assert !(FirstFit(bs, n) < i);
  }

  lemma GrowChain(before: seq<Byte>, after: seq<Byte>, bs: seq<Block>, b: Block)
    requires Encodes(before, bs) && b.size > 0 && b.free
    requires |after| == |before| + HEADER + b.size
    requires HeaderAt(after, |before|, b, 0)
    requires HeaderAt(after, Off(bs, |bs| - 1), bs[|bs| - 1], HEAP_START + |before|)
    requires ChangedWithin(before, after, Off(bs, |bs| - 1), Off(bs, |bs| - 1) + HEADER)
    ensures Encodes(after, bs + [b])
    ensures Off(bs + [b], |bs|) == Off(bs, |bs|)
  {
    hide Word;
    var cs := bs + [b];
    assert cs[..|bs|] == bs[..|bs|];
    OffAgree(cs, bs, |bs|);
    assert Off(cs, |cs|) == |after|;
    forall j: nat | j < |cs| ensures BlockAt(after, cs, j) {
      if j < |bs| {
        assert BlockAt(before, bs, j);
        assert cs[..j] == bs[..j] && cs[..j + 1] == bs[..j + 1];
        OffAgree(cs, bs, j);
        OffAgree(cs, bs, j + 1);
        if j < |bs| - 1 {
          OffMonotone(bs, j, |bs| - 1);
          SameHeader(before, after, Off(bs, j), bs[j], Link(bs, j));
        }
      }
    }
  }

  lemma PayloadsKeptTransitive(a: seq<Byte>, b: seq<Byte>, c: seq<Byte>, bs: seq<Block>)
    requires PayloadsKept(a, b, bs) && PayloadsKept(b, c, bs)
    ensures PayloadsKept(a, c, bs)
  {
  }

  /** Address of block `c`, or NULL past the end. */
  function At(bs: seq<Block>, c: nat): nat
    requires c <= |bs|
  {
    if c < |bs| then HEAP_START + Off(bs, c) else 0
  }

  /** How far the merge walk is: `done` has been emitted for the first `c` of the blocks `bs`. */
  ghost predicate Walk(now: seq<Block>, bs: seq<Block>, done: seq<Block>, c: nat) {
    && c <= |bs|
    && now == done + bs[c..]
    && Off(done, |done|) == Off(bs, c)
    && MergePass(bs) == done + MergePass(bs[c..])
  }

  lemma WalkStart(bs: seq<Block>)
    requires bs != []
    ensures Walk(bs, bs, [], 0) && At(bs, 0) == HEAP_START
  {
    assert bs[0..] == bs;
  }

  lemma WalkEnd(now: seq<Block>, bs: seq<Block>, done: seq<Block>)
    requires Walk(now, bs, done, |bs|)
    ensures now == MergePass(bs)
  {
  }

  lemma WalkAt(now: seq<Block>, bs: seq<Block>, done: seq<Block>, c: nat)
    requires Walk(now, bs, done, c) && c < |bs|
    ensures |done| < |now| && now[|done|] == bs[c] && Off(now, |done|) == Off(bs, c)
    ensures c + 1 == |bs| <==> |done| + 1 == |now|
    ensures c + 1 < |bs| ==> now[|done| + 1] == bs[c + 1] && Off(now, |done| + 1) == Off(bs, c + 1)
    ensures Link(now, |done|) == At(bs, c + 1) && Off(bs, c + 1) == Off(bs, c) + HEADER + bs[c].size
  {
    OffConcat(done, bs[c..], 0);
    OffConcat(done, bs[c..], 1);
    assert Off(bs[c..], 1) == HEADER + bs[c].size;
  }

  lemma WalkSkip(now: seq<Block>, bs: seq<Block>, done: seq<Block>, c: nat)
    requires Walk(now, bs, done, c) && c < |bs| && !(c + 1 < |bs| && bs[c].free && bs[c + 1].free)
    ensures Walk(now, bs, done + [bs[c]], c + 1)
  {
    MergeFrom(bs, c);
    Emit(done, bs, c, 1, bs[c]);
    assert now == (done + [bs[c]]) + bs[c + 1..];
  }

  lemma WalkJoin(now: seq<Block>, bs: seq<Block>, done: seq<Block>, c: nat)
    requires Walk(now, bs, done, c) && c + 1 < |bs| && bs[c].free && bs[c + 1].free
    ensures |done| + 1 < |now| && Joined(now, |done|) == Joined(bs, c)
    ensures Walk(Splice(now, |done|, 2, [Joined(bs, c)]), bs, done + [Joined(bs, c)], c + 2)
    ensures Off(Splice(now, |done|, 2, [Joined(bs, c)]), |done|) == Off(bs, c)
  {
    MergeFrom(bs, c);
    Emit(done, bs, c, 2, Joined(bs, c));
    var next := Splice(now, |done|, 2, [Joined(bs, c)]);
    assert next[..|done|] == done[..|done|];
    OffAgree(next, done, |done|);
  }

  /** The link of the block just emitted leads to what comes next. */
  lemma WalkLink(now: seq<Block>, bs: seq<Block>, done: seq<Block>, c: nat)
    requires Walk(now, bs, done, c) && done != []
    ensures |done| <= |now| && Link(now, |done| - 1) == At(bs, c)
  {
    OffConcat(done, bs[c..], 0);
  }

  function Joined(bs: seq<Block>, i: nat): Block
    requires i + 1 < |bs|
  {
    Block(bs[i].size + HEADER + bs[i + 1].size, true)
  }

  lemma PayloadsKeptReflexive(mem: seq<Byte>, bs: seq<Block>)
    requires |mem| == Off(bs, |bs|)
    ensures PayloadsKept(mem, mem, bs)
  {
    forall i: nat, k: nat | InUse(bs, i, k) ensures k < |mem| {
      OffMonotone(bs, i, |bs|);
    }
  }

  lemma {:induction false} OffConcat(a: seq<Block>, b: seq<Block>, t: nat)
    requires t <= |b|
    ensures Off(a + b, |a| + t) == Off(a, |a|) + Off(b, t)
  {
    if t > 0 {
      OffConcat(a, b, t - 1);
      assert (a + b)[|a| + t - 1] == b[t - 1];
    } else {
      assert (a + b)[..|a|] == a[..|a|];
      OffAgree(a + b, a, |a|);
    }
  }

  /** Emitting one block for the first `w` of what is left, which cover the same bytes. */
  lemma Emit(done: seq<Block>, bs: seq<Block>, c: nat, w: nat, b: Block)
    requires c + w <= |bs|
    requires Off(done, |done|) == Off(bs, c) && Off(bs, c) + HEADER + b.size == Off(bs, c + w)
    requires MergePass(bs) == done + MergePass(bs[c..])
    requires MergePass(bs[c..]) == [b] + MergePass(bs[c + w..])
    ensures Splice(done + bs[c..], |done|, w, [b]) == (done + [b]) + bs[c + w..]
    ensures Off(done + [b], |done| + 1) == Off(bs, c + w)
    ensures MergePass(bs) == (done + [b]) + MergePass(bs[c + w..])
  {
    hide MergePass;
    OffConcat(done, [b], 1);
    assert Off([b], 1) == HEADER + b.size;
    var ds := done + bs[c..];
    assert ds[..|done|] == done;
    assert ds[|done| + w..] == bs[c + w..];
  }

  /** What the pass does with the blocks from `c` on. */
  lemma MergeFrom(bs: seq<Block>, c: nat)
    requires c < |bs|
    ensures if c + 1 < |bs| && bs[c].free && bs[c + 1].free
            then MergePass(bs[c..]) == [Joined(bs, c)] + MergePass(bs[c + 2..])
            else MergePass(bs[c..]) == [bs[c]] + MergePass(bs[c + 1..])
  {
    var r := bs[c..];
    assert r[0] == bs[c] && r[1..] == bs[c + 1..];
    if |r| >= 2 { assert r[1] == bs[c + 1] && r[2..] == bs[c + 2..]; }
  }

  lemma JoinChain(before: seq<Byte>, after: seq<Byte>, bs: seq<Block>, i: nat)
    requires Encodes(before, bs) && i + 1 < |bs| && bs[i].free
    requires |after| == |before| && ChangedWithin(before, after, Off(bs, i), Off(bs, i) + HEADER)
    requires HeaderAt(after, Off(bs, i), Joined(bs, i), Link(bs, i + 1))
    ensures Encodes(after, Splice(bs, i, 2, [Joined(bs, i)]))
  {
    var mid := [Joined(bs, i)];
    var cs := Splice(bs, i, 2, mid);
    OffAgree(bs, cs, i);
    assert cs[i] == mid[0];
    assert Off(cs, i + 1) == Off(bs, i + 2);
    assert BlockAt(after, cs, i);
    ChainSplice(before, after, bs, i, 2, mid);
  }

  lemma MarkChain(before: seq<Byte>, after: seq<Byte>, bs: seq<Block>, i: nat, b: Block)
    requires Encodes(before, bs) && i < |bs| && b.size == bs[i].size
    requires |after| == |before| && ChangedWithin(before, after, Off(bs, i), Off(bs, i) + HEADER)
    requires HeaderAt(after, Off(bs, i), b, Link(bs, i))
    ensures Encodes(after, bs[i := b])
  {
    assert Off(bs, i + 1) == Off(bs, i) + HEADER + bs[i].size;
    ChangedWiden(before, after, Off(bs, i), Off(bs, i) + HEADER, Off(bs, i + 1));
    assert BlockAt(before, bs, i);
    MarkedOff(bs, i, b);
    SpliceOne(bs, i, b);
    assert BlockAt(after, bs[i := b], i);
    hide BlockAt, Off;
    ChainSplice(before, after, bs, i, 1, [b]);
  }

  lemma MarkedOff(bs: seq<Block>, i: nat, b: Block)
    requires i < |bs| && b.size == bs[i].size
    ensures Off(bs[i := b], i) == Off(bs, i) && Off(bs[i := b], i + 1) == Off(bs, i + 1)
    ensures Link(bs[i := b], i) == Link(bs, i)
  {
    OffAgree(bs, bs[i := b], i);
  }

  lemma SpliceOne(bs: seq<Block>, i: nat, b: Block)
    requires i < |bs|
    ensures Splice(bs, i, 1, [b]) == bs[i := b]
  {
  }

  function SplitParts(b: Block, n: nat): seq<Block> {
    if b.size < n + HEADER + 1 then [b] else [Block(n, b.free), Block(b.size - n - HEADER, true)]
  }
}
