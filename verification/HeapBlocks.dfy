/** The block list of the kernel heap as a value: first fit, carving, growth and the one-step
    merge pass, and the fragmentation law that every run of the allocator obeys. */
module HeapBlocks {

  const HEADER := 9        // sizeof(mem_block_t), packed: 4 + 1 + 4
  const PAGE := 0x1000

  datatype Block = Block(size: nat, free: bool)

  /** Bytes a list of blocks covers, headers included. */
  function Total(bs: seq<Block>): nat {
    if bs == [] then 0 else HEADER + bs[0].size + Total(bs[1..])
  }

  /** Offset of the header of block `i`: everything before it, with no gap. */
  function Off(bs: seq<Block>, i: nat): nat
    requires i <= |bs|
  {
    if i == 0 then 0 else Off(bs, i - 1) + HEADER + bs[i - 1].size
  }

  // ---------------------------------------------------------------- operations

  /** The test of the search loop in malloc: exact, or big enough to carve a new block out of. */
  predicate Fits(b: Block, n: nat) {
    b.free && (b.size == n || b.size >= n + HEADER + 1)
  }

  function FirstFit(bs: seq<Block>, n: nat): (i: nat)
    ensures i <= |bs|
    ensures i < |bs| ==> Fits(bs[i], n)
    ensures forall j :: 0 <= j < i ==> !Fits(bs[j], n)
  {
    if bs == [] || Fits(bs[0], n) then 0 else 1 + FirstFit(bs[1..], n)
  }

  /** What becomes of a free block that is handed out for a request of `n` bytes. */
  function Carve(b: Block, n: nat): (r: seq<Block>)
    requires b.size >= n
    ensures |r| > 0 && Total(r) == HEADER + b.size
    ensures !r[0].free && r[0].size >= n
  {
    if b.size < n + HEADER + 1 then [Block(b.size, false)]
    else
      var r := [Block(n, false), Block(b.size - n - HEADER, true)];
      assert Total(r[1..]) == HEADER + r[1].size by { assert r[1..] == [r[1]]; }
      r
  }

  function GrowPages(n: nat): nat {
    (n + HEADER + 1) / PAGE + 1
  }

  function GrownBlock(n: nat): (b: Block)
    ensures b.size >= n + 2 && HEADER + b.size == GrowPages(n) * PAGE
  {
    Block(GrowPages(n) * PAGE - HEADER, true)
  }

  /** The block list after malloc(n): carve the first fit, or grow the heap and carve the new block. */
  function Alloc(bs: seq<Block>, n: nat): seq<Block> {
    var i := FirstFit(bs, n);
    if i < |bs| then bs[..i] + Carve(bs[i], n) + bs[i + 1..] else bs + Carve(GrownBlock(n), n)
  }

  /** A block serves a request if it is free and exact, or leaves room for a header and at least one byte. */
  lemma FitsMeans(b: Block, n: nat)
    ensures Fits(b, n) <==> b.free && (b.size == n || exists rest: nat :: CutsInto(b, n, rest))
  {
    forall rest: nat ensures CutsInto(b, n, rest) <==> rest > 0 && b.size == n + HEADER + rest {
      TotalOne(b);
      TotalOne(Block(rest, true));
      assert [Block(n, false), Block(rest, true)][1..] == [Block(rest, true)];
    }
    if b.size >= n + HEADER + 1 {
      assert CutsInto(b, n, b.size - n - HEADER);
    }
  }

  lemma TotalOne(b: Block)
    ensures Total([b]) == HEADER + b.size
  {
    assert [b][1..] == [];
  }

  /** A block of `n` bytes and a free one of `rest`, with their headers, cover the same bytes. */
  predicate CutsInto(b: Block, n: nat, rest: nat) {
    rest > 0 && Total([Block(n, false), Block(rest, true)]) == Total([b])
  }

  /** A request that some free block can serve gets the first such block, cut to exactly its size, and changes
      nothing else; any other request leaves all blocks and takes new pages. */
  lemma AllocIs(bs: seq<Block>, n: nat, i: nat)
    requires i < |bs| && Fits(bs[i], n) && forall j :: 0 <= j < i ==> !Fits(bs[j], n)
    ensures Alloc(bs, n) == bs[..i] + [Block(n, false)]
                            + (if bs[i].size == n then [] else [Block(bs[i].size - n - HEADER, true)]) + bs[i + 1..]
  {
    assert FirstFit(bs, n) == i;
  }

  lemma AllocGrows(bs: seq<Block>, n: nat)
    requires forall b :: b in bs ==> !Fits(b, n)
    ensures bs <= Alloc(bs, n) && Total(Alloc(bs, n)[|bs|..]) == GrowPages(n) * PAGE
    ensures Alloc(bs, n)[|bs|..][0].size - n <= HEADER && Alloc(bs, n)[|bs|..][0].size >= n
  {
    assert FirstFit(bs, n) == |bs|;
    assert Alloc(bs, n)[|bs|..] == Carve(GrownBlock(n), n);
  }

  /** The pages mapped are the fewest that hold more than the request, a header and one byte. */
  lemma GrowsByFewest(n: nat, pages: nat)
    ensures pages * PAGE > n + HEADER + 1 <==> pages >= GrowPages(n)
  {
  }

  /** One merge pass. After merging a pair the walk steps past it. */
  function MergePass(bs: seq<Block>): (r: seq<Block>)
    ensures |r| <= |bs| && (bs != [] ==> r != [] && r[0].free == bs[0].free)
    ensures Total(r) == Total(bs)
    decreases |bs|
  {
    if |bs| < 2 then bs
    else if bs[0].free && bs[1].free then
      assert bs[1..][1..] == bs[2..];
      [Block(bs[0].size + HEADER + bs[1].size, true)] + MergePass(bs[2..])
    else [bs[0]] + MergePass(bs[1..])
  }

  /** The block list after free() of block `i`. */
  function Release(bs: seq<Block>, i: nat): seq<Block>
    requires i < |bs|
  {
    if bs[i].free then bs else MergePass(bs[i := Block(bs[i].size, true)])
  }

  // ---------------------------------------------------------------- fragmentation

  /** Number of adjacent pairs of free blocks. */
  function Pairs(bs: seq<Block>): nat {
    if |bs| < 2 then 0
    else (if bs[0].free && bs[1].free then 1 else 0) + Pairs(bs[1..])
  }

  ghost predicate Tidy(bs: seq<Block>) {
    Pairs(bs) <= 1
  }

  /** The merge pass at least halves the number of adjacent free pairs, however the runs lie. */
  lemma {:induction false} MergeHalvesPairs(bs: seq<Block>)
    ensures 2 * Pairs(MergePass(bs)) <= Pairs(bs)
    decreases |bs|
  {
    if |bs| < 2 {
    } else if bs[0].free && bs[1].free {
      MergeHalvesPairs(bs[2..]);
      var m := Block(bs[0].size + HEADER + bs[1].size, true);
      var rest := MergePass(bs[2..]);
      assert ([m] + rest)[1..] == rest;
      assert bs[1..][1..] == bs[2..];
    } else {
      MergeHalvesPairs(bs[1..]);
      var rest := MergePass(bs[1..]);
      assert ([bs[0]] + rest)[1..] == rest;
    }
  }

  /** One for an adjacent free pair across the boundary of two lists. */
  function Seam(a: seq<Block>, b: seq<Block>): nat {
    if a != [] && b != [] && a[|a| - 1].free && b[0].free then 1 else 0
  }

  lemma {:induction false} PairsConcat(a: seq<Block>, b: seq<Block>)
    ensures Pairs(a + b) == Pairs(a) + Seam(a, b) + Pairs(b)
  {
    if a == [] {
      assert a + b == b;
    } else if |a| == 1 {
      assert (a + b)[1..] == b;
    } else {
      assert (a + b)[1..] == a[1..] + b;
      PairsConcat(a[1..], b);
    }
  }

  lemma PairsAround(pre: seq<Block>, mid: seq<Block>, post: seq<Block>)
    requires mid != []
    ensures Pairs(pre + mid + post) == Pairs(pre) + Seam(pre, mid) + Pairs(mid) + Seam(mid, post) + Pairs(post)
  {
    PairsConcat(pre + mid, post);
    PairsConcat(pre, mid);
  }

  lemma PairsCarve(b: Block, n: nat)
    requires b.size >= n
    ensures Pairs(Carve(b, n)) == 0
  {
    if b.size >= n + HEADER + 1 {
      assert Carve(b, n)[1..] == [Carve(b, n)[1]];
    }
  }

  /** malloc never adds an adjacent free pair. */
  lemma AllocKeepsPairs(bs: seq<Block>, n: nat)
    ensures Pairs(Alloc(bs, n)) <= Pairs(bs)
  {
    var i := FirstFit(bs, n);
    if i < |bs| {
      var pre, post := bs[..i], bs[i + 1..];
      assert bs == pre + [bs[i]] + post;
      PairsAround(pre, [bs[i]], post);
      PairsCarve(bs[i], n);
      PairsAround(pre, Carve(bs[i], n), post);
    } else {
      PairsCarve(GrownBlock(n), n);
      PairsConcat(bs, Carve(GrownBlock(n), n));
    }
  }

  /** free keeps the heap tidy: it can add at most two pairs, and the merge pass halves the total. */
  lemma ReleaseKeepsTidy(bs: seq<Block>, i: nat)
    requires i < |bs| && Tidy(bs)
    ensures Tidy(Release(bs, i))
  {
    if !bs[i].free {
      var pre, post := bs[..i], bs[i + 1..];
      var marked := bs[i := Block(bs[i].size, true)];
      assert bs == pre + [bs[i]] + post;
      assert marked == pre + [marked[i]] + post;
      PairsAround(pre, [bs[i]], post);
      PairsAround(pre, [marked[i]], post);
      MergeHalvesPairs(marked);
    }
  }

  ghost predicate FreePair(bs: seq<Block>, i: nat) {
    i + 1 < |bs| && bs[i].free && bs[i + 1].free
  }

  lemma {:induction false} PairsZeroMeaning(bs: seq<Block>)
    ensures Pairs(bs) == 0 <==> forall i: nat :: !FreePair(bs, i)
  {
    if |bs| >= 2 {
      var t := bs[1..];
      PairsZeroMeaning(t);
      assert forall i: nat :: FreePair(t, i) == FreePair(bs, i + 1);
      assert FreePair(bs, 0) <==> bs[0].free && bs[1].free;
      if Pairs(bs) == 0 {
        forall i: nat ensures !FreePair(bs, i) {
          if i > 0 {
            assert FreePair(t, i - 1) == FreePair(bs, i);
          }
        }
      }
    }
  }

  /** What Tidy says block by block: there is at most one adjacent free pair. */
  lemma {:induction false} TidyMeaning(bs: seq<Block>)
    ensures Tidy(bs) <==> forall i: nat, j: nat :: FreePair(bs, i) && FreePair(bs, j) ==> i == j
  {
    if |bs| >= 2 {
      var t := bs[1..];
      TidyMeaning(t);
      PairsZeroMeaning(t);
      assert forall i: nat :: FreePair(t, i) == FreePair(bs, i + 1);
      assert FreePair(bs, 0) <==> bs[0].free && bs[1].free;
      if Tidy(bs) {
        forall i: nat, j: nat | FreePair(bs, i) && FreePair(bs, j) ensures i == j {
          if i > 0 { assert FreePair(t, i - 1); }
          if j > 0 { assert FreePair(t, j - 1); }
        }
      } else if Pairs(t) == 1 {
        var k: nat :| FreePair(t, k);
        assert FreePair(bs, 0) && FreePair(bs, k + 1);
      } else {
        var i: nat, j: nat :| FreePair(t, i) && FreePair(t, j) && i != j;
        assert FreePair(bs, i + 1) && FreePair(bs, j + 1);
      }
    }
  }

  /** A tidy heap has no three free blocks in a row. */
  lemma TidyNoTriple(bs: seq<Block>, i: nat)
    requires Tidy(bs) && i + 2 < |bs|
    ensures !(bs[i].free && bs[i + 1].free && bs[i + 2].free)
  {
    TidyMeaning(bs);
    assert !(FreePair(bs, i) && FreePair(bs, i + 1));
  }

  /** The pass is incomplete on purpose: a run of k free blocks becomes one of ceil(k / 2). */
  lemma {:induction false} MergeOfRun(bs: seq<Block>)
    requires forall b :: b in bs ==> b.free
    ensures |MergePass(bs)| == (|bs| + 1) / 2
    decreases |bs|
  {
    if |bs| >= 2 {
      MergeOfRun(bs[2..]);
    }
  }

  // ---------------------------------------------------------------- whole runs

  /** A request for no bytes would break the chain of blocks. */
  type Request = n: nat | n > 0 witness 1

  datatype Op = Malloc(n: Request) | Free(i: nat) | Realloc(i: nat, n: Request)

  /** Where block `i` sits once a request of `n` bytes has been carved. */
  function Moved(bs: seq<Block>, i: nat, n: nat): nat {
    var k := FirstFit(bs, n);
    if k < i && k < |bs| then i + |Carve(bs[k], n)| - 1 else i
  }

  lemma MovedKeepsBlock(bs: seq<Block>, i: nat, n: nat)
    requires i < |bs| && !bs[i].free
    ensures Moved(bs, i, n) < |Alloc(bs, n)| && Alloc(bs, n)[Moved(bs, i, n)] == bs[i]
  {
  }

  /** One finished call. A free of a block that is already free is refused and changes nothing. */
  function Step(bs: seq<Block>, op: Op): seq<Block> {
    match op
    case Malloc(n) => Alloc(bs, n)
    case Free(i) => if i < |bs| then Release(bs, i) else bs
    case Realloc(i, n) =>
      if i < |bs| && !bs[i].free && bs[i].size != n then
        MovedKeepsBlock(bs, i, n);
        Release(Alloc(bs, n), Moved(bs, i, n))
      else bs
  }

  function Run(bs: seq<Block>, ops: seq<Op>): seq<Block>
    decreases |ops|
  {
    if ops == [] then bs else Run(Step(bs, ops[0]), ops[1..])
  }

  const INITIAL_SIZE := 0x4000
  const INITIAL := [Block(INITIAL_SIZE - HEADER, true)]

  lemma StepKeepsTidy(bs: seq<Block>, op: Op)
    requires Tidy(bs)
    ensures Tidy(Step(bs, op))
  {
    match op
    case Malloc(n) => AllocKeepsPairs(bs, n);
    case Free(i) => if i < |bs| { ReleaseKeepsTidy(bs, i); }
    case Realloc(i, n) =>
      if i < |bs| && !bs[i].free && bs[i].size != n {
        MovedKeepsBlock(bs, i, n);
        AllocKeepsPairs(bs, n);
        ReleaseKeepsTidy(Alloc(bs, n), Moved(bs, i, n));
      }
  }

  /** After every run of calls from the initial heap, at most one adjacent pair of blocks is free. */
  lemma {:induction false} RunKeepsTidy(bs: seq<Block>, ops: seq<Op>)
    requires Tidy(bs)
    ensures Tidy(Run(bs, ops))
    decreases |ops|
  {
    if ops != [] {
      StepKeepsTidy(bs, ops[0]);
      RunKeepsTidy(Step(bs, ops[0]), ops[1..]);
    }
  }

  // ---------------------------------------------------------------- the bound is attained

  /** Whether the pages mapped for a request of `n` bytes leave a free remainder. */
  predicate LeavesRest(n: nat) {
    GrownBlock(n).size >= n + HEADER + 1
  }

  /** Fill the first block, let the heap grow for `n`, and free everything with the middle last. */
  function PairRun(n: Request): seq<Op> {
    if LeavesRest(n) then [Malloc(INITIAL_SIZE - HEADER), Malloc(n), Free(0), Free(1)]
    else [Malloc(INITIAL_SIZE - HEADER), Malloc(n), Malloc(n), Free(0), Free(2), Free(1)]
  }

  /** malloc on a heap without free blocks grows it. */
  lemma MallocGrows(live: seq<Block>, n: Request)
    requires forall b :: b in live ==> !b.free
    ensures Step(live, Malloc(n)) == live + Carve(GrownBlock(n), n)
  {
    assert FirstFit(live, n) == |live|;
  }

  lemma FillInitial()
    ensures Step(INITIAL, Malloc(INITIAL_SIZE - HEADER)) == [Block(INITIAL_SIZE - HEADER, false)]
  {
    assert FirstFit(INITIAL, INITIAL_SIZE - HEADER) == 0;
  }

  /** free of the middle one of three blocks, the others free: the pass merges the first two only. */
  lemma FreeMiddle(a: Block, m: Block, z: Block)
    requires a.free && !m.free && z.free
    ensures Step([a, m, z], Free(1)) == [Block(a.size + HEADER + m.size, true), z]
  {
    var f := Block(m.size, true);
    assert [a, m, z][1 := f] == [a, f, z] && [a, f, z][2..] == [z];
    assert MergePass([z]) == [z];
    assert MergePass([a, f, z]) == [Block(a.size + HEADER + m.size, true)] + [z];
  }

  /** free of an outer one, the middle in use: nothing to merge. */
  lemma FreeOuter(a: Block, m: Block, z: Block)
    requires !a.free && !m.free
    ensures Step([a, m, z], Free(0)) == [Block(a.size, true), m, z]
    ensures !z.free ==> Step([Block(a.size, true), m, z], Free(2)) == [Block(a.size, true), m, Block(z.size, true)]
  {
    var f, g := Block(a.size, true), Block(z.size, true);
    assert [a, m, z][0 := f] == [f, m, z] && [f, m, z][2 := g] == [f, m, g];
    NoMerge(f, m, z);
    NoMerge(f, m, g);
  }

  lemma NoMerge(a: Block, m: Block, z: Block)
    requires !m.free
    ensures MergePass([a, m, z]) == [a, m, z]
  {
    assert [a, m, z][1..] == [m, z] && [m, z][1..] == [z];
    assert MergePass([m, z]) == [m] + MergePass([z]);
    assert MergePass([a, m, z]) == [a] + MergePass([m, z]);
  }

  lemma RunUnfold(bs: seq<Block>, op: Op, ops: seq<Op>)
    ensures Run(bs, [op] + ops) == Run(Step(bs, op), ops)
  {
    assert ([op] + ops)[1..] == ops;
  }

  lemma LastCall(bs: seq<Block>, op: Op)
    ensures Run(bs, [op]) == Step(bs, op)
  {
    assert [op][1..] == [];
    assert Run(bs, [op]) == Run(Step(bs, op), []);
  }

  /** The frees at the end, from three blocks in use but perhaps the last. */
  lemma FreesLeavePair(a: Block, m: Block, z: Block)
    requires !a.free && !m.free
    ensures z.free ==> Pairs(Run([a, m, z], [Free(0), Free(1)])) == 1
    ensures !z.free ==> Pairs(Run([a, m, z], [Free(0), Free(2), Free(1)])) == 1
  {
    hide Step, MergePass;
    var f, g := Block(a.size, true), Block(z.size, true);
    FreeOuter(a, m, z);
    assert [Free(0), Free(1)] == [Free(0)] + [Free(1)];
    assert [Free(0), Free(2), Free(1)] == [Free(0)] + ([Free(2)] + [Free(1)]);
    if z.free {
      RunUnfold([a, m, z], Free(0), [Free(1)]);
      LastCall([f, m, z], Free(1));
      FreeMiddle(f, m, z);
    } else {
      RunUnfold([a, m, z], Free(0), [Free(2)] + [Free(1)]);
      RunUnfold([f, m, z], Free(2), [Free(1)]);
      LastCall([f, m, g], Free(1));
      FreeMiddle(f, m, g);
    }
    PairOfTwo(Block(f.size + HEADER + m.size, true), z);
    PairOfTwo(Block(f.size + HEADER + m.size, true), g);
  }

  lemma PairOfTwo(a: Block, b: Block)
    requires a.free
    ensures Pairs([a, b]) == if b.free then 1 else 0
  {
    assert [a, b][1..] == [b];
  }

  /** The bound is attained: for every request size some run from the initial heap that makes the
      request ends with a pair of free blocks that no merge has removed. */
  lemma PairIsReachable(n: Request)
    ensures Malloc(n) in PairRun(n) && Pairs(Run(INITIAL, PairRun(n))) == 1
  {
    hide Step, Run, GrowPages, Pairs;
    var u, b := Block(INITIAL_SIZE - HEADER, false), GrownBlock(n);
    FillInitial();
    MallocGrows([u], n);
    if LeavesRest(n) {
      var rest := [Free(0)] + [Free(1)];
      assert PairRun(n) == [Malloc(INITIAL_SIZE - HEADER)] + ([Malloc(n)] + rest);
      RunUnfold(INITIAL, Malloc(INITIAL_SIZE - HEADER), [Malloc(n)] + rest);
      RunUnfold([u], Malloc(n), rest);
      var m, z := Block(n, false), Block(b.size - n - HEADER, true);
      assert [u] + Carve(b, n) == [u, m, z] && rest == [Free(0), Free(1)];
      FreesLeavePair(u, m, z);
    } else {
      var rest := [Free(0), Free(2), Free(1)];
      var m := Block(b.size, false);
      assert PairRun(n) == [Malloc(INITIAL_SIZE - HEADER)] + ([Malloc(n)] + ([Malloc(n)] + rest));
      RunUnfold(INITIAL, Malloc(INITIAL_SIZE - HEADER), [Malloc(n)] + ([Malloc(n)] + rest));
      RunUnfold([u], Malloc(n), [Malloc(n)] + rest);
      assert [u] + Carve(b, n) == [u, m];
      MallocGrows([u, m], n);
      RunUnfold([u, m], Malloc(n), rest);
      assert [u, m] + Carve(b, n) == [u, m, m];
      FreesLeavePair(u, m, m);
    }
  }
}
