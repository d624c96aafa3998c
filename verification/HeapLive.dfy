/** Which address ranges are handed out, and how allocation, release and merging change them. */
module HeapLive {
  import opened HeapBlocks

  /** Payload address -> block size, for the blocks in use, when the list starts at `base`. */
  function Live(bs: seq<Block>, base: nat): map<nat, nat> {
    if bs == [] then map[]
    else
      (if bs[0].free then map[] else map[base + HEADER := bs[0].size])
      + Live(bs[1..], base + HEADER + bs[0].size)
  }

  /** Live ranges lie inside the list, in separate blocks with a header in front of each. */
  lemma {:induction false} LiveRanges(bs: seq<Block>, base: nat)
    ensures forall a :: a in Live(bs, base) ==>
              base + HEADER <= a <= base + Total(bs) && a + Live(bs, base)[a] <= base + Total(bs)
    ensures forall a, b :: a in Live(bs, base) && b in Live(bs, base) && a < b ==>
              a + Live(bs, base)[a] + HEADER <= b
  {
    if bs != [] {
      LiveRanges(bs[1..], base + HEADER + bs[0].size);
    }
  }

  lemma MapAssociative(a: map<nat, nat>, b: map<nat, nat>, c: map<nat, nat>)
    ensures a + (b + c) == (a + b) + c
  {
  }

  lemma {:induction false} LiveConcat(a: seq<Block>, b: seq<Block>, base: nat)
    ensures Live(a + b, base) == Live(a, base) + Live(b, base + Total(a))
  {
    if a == [] {
      assert a + b == b;
    } else {
      assert (a + b)[1..] == a[1..] + b;
      LiveConcat(a[1..], b, base + HEADER + a[0].size);
      MapAssociative(if a[0].free then map[] else map[base + HEADER := a[0].size],
                     Live(a[1..], base + HEADER + a[0].size), Live(b, base + Total(a)));
    }
  }

  /** Prepending a block adds its range. */
  lemma LiveCons(b: Block, bs: seq<Block>, base: nat)
    ensures Live([b] + bs, base) ==
            (if b.free then map[] else map[base + HEADER := b.size]) + Live(bs, base + HEADER + b.size)
  {
    assert ([b] + bs)[1..] == bs;
  }

  lemma MergeUnfold(bs: seq<Block>)
    requires |bs| >= 2
    ensures bs[0].free && bs[1].free ==>
              MergePass(bs) == [Block(bs[0].size + HEADER + bs[1].size, true)] + MergePass(bs[2..])
    ensures !(bs[0].free && bs[1].free) ==> MergePass(bs) == [bs[0]] + MergePass(bs[1..])
  {
  }

  /** The merge pass moves no live block and frees none. */
  lemma {:induction false} LiveMerge(bs: seq<Block>, base: nat)
    ensures Live(MergePass(bs), base) == Live(bs, base)
    decreases |bs|
  {
    hide Live;
    if |bs| >= 2 {
      MergeUnfold(bs);
      LiveCons(bs[0], bs[1..], base);
      assert bs == [bs[0]] + bs[1..];
      var base1 := base + HEADER + bs[0].size;
      if bs[0].free && bs[1].free {
        assert bs[1..] == [bs[1]] + bs[2..];
        LiveCons(bs[1], bs[2..], base1);
        LiveMerge(bs[2..], base1 + HEADER + bs[1].size);
        LiveCons(Block(bs[0].size + HEADER + bs[1].size, true), MergePass(bs[2..]), base);
      } else {
        LiveMerge(bs[1..], base1);
        LiveCons(bs[0], MergePass(bs[1..]), base);
      }
    }
  }

  lemma {:induction false} TotalConcat(a: seq<Block>, b: seq<Block>)
    ensures Total(a + b) == Total(a) + Total(b)
  {
    if a == [] {
      assert a + b == b;
    } else {
      assert (a + b)[1..] == a[1..] + b;
      TotalConcat(a[1..], b);
    }
  }

  lemma {:induction false} OffIsTotal(bs: seq<Block>, i: nat)
    requires i <= |bs|
    ensures Off(bs, i) == Total(bs[..i])
  {
    if i > 0 {
      OffIsTotal(bs, i - 1);
      assert bs[..i] == bs[..i - 1] + [bs[i - 1]];
      TotalConcat(bs[..i - 1], [bs[i - 1]]);
      assert Total([bs[i - 1]]) == HEADER + bs[i - 1].size;
    }
  }

  /** Live ranges of a list split around block `i`. */
  lemma LiveAround(bs: seq<Block>, i: nat, mid: seq<Block>)
    requires i < |bs| && Total(mid) == HEADER + bs[i].size
    ensures Live(bs[..i] + mid + bs[i + 1..], 0) ==
            Live(bs[..i], 0) + Live(mid, Off(bs, i)) + Live(bs[i + 1..], Off(bs, i + 1))
  {
    hide *;
    OffStep(bs, i);
    OffIsTotal(bs, i);
    TotalConcat(bs[..i], mid);
    LiveConcat(bs[..i] + mid, bs[i + 1..], 0);
    LiveConcat(bs[..i], mid, 0);
  }

  /** Every range on either side of block `i` keeps clear of it. */
  lemma LiveClearOf(bs: seq<Block>, i: nat, pre: map<nat, nat>, post: map<nat, nat>)
    requires i < |bs| && pre == Live(bs[..i], 0) && post == Live(bs[i + 1..], Off(bs, i + 1))
    ensures forall a :: a in pre ==> a <= Off(bs, i) && a + pre[a] <= Off(bs, i)
    ensures forall a :: a in post ==> a >= Off(bs, i) + HEADER + bs[i].size + HEADER
  {
    OffIsTotal(bs, i);
    LiveRanges(bs[..i], 0);
    LiveRanges(bs[i + 1..], Off(bs, i + 1));
  }

  lemma SingleLive(b: Block, base: nat)
    ensures Live([b], base) == if b.free then map[] else map[base + HEADER := b.size]
    ensures Total([b]) == HEADER + b.size
  {
  }

  /** The payload a live index names. */
  lemma LiveHas(bs: seq<Block>, i: nat)
    requires i < |bs| && !bs[i].free
    ensures Off(bs, i) + HEADER in Live(bs, 0) && Live(bs, 0)[Off(bs, i) + HEADER] == bs[i].size
  {
    assert bs == bs[..i] + [bs[i]] + bs[i + 1..];
    LiveAround(bs, i, [bs[i]]);
    LiveClearOf(bs, i, Live(bs[..i], 0), Live(bs[i + 1..], Off(bs, i + 1)));
    SingleLive(bs[i], Off(bs, i));
  }

  lemma NonEmpty(bs: seq<Block>, k: nat, a: nat)
    requires k <= |bs| && a in Live(bs[k..], Off(bs, k))
    ensures k < |bs|
  {
  }

  lemma {:induction false} LiveIndex(bs: seq<Block>, k: nat, a: nat) returns (i: nat)
    requires k <= |bs| && a in Live(bs[k..], Off(bs, k))
    ensures k <= i < |bs| && !bs[i].free && a == Off(bs, i) + HEADER && Live(bs[k..], Off(bs, k))[a] == bs[i].size
    decreases |bs| - k
  {
    hide Live, Off;
    NonEmpty(bs, k, a);
    OffStep(bs, k);
    assert bs[k..] == [bs[k]] + bs[k + 1..];
    LiveCons(bs[k], bs[k + 1..], Off(bs, k));
    LiveRanges(bs[k + 1..], Off(bs, k + 1));
    if !bs[k].free && a == Off(bs, k) + HEADER {
      i := k;
    } else {
      i := LiveIndex(bs, k + 1, a);
    }
  }

  /** A fresh range of at least `n` bytes at `p`, clear of every other one, and nothing else new. */
  ghost predicate HandedOut(before: map<nat, nat>, after: map<nat, nat>, p: nat, n: nat) {
    && p !in before && p in after && after[p] >= n
    && after == before[p := after[p]]
    && forall a :: a in before ==> a + before[a] < p || p + after[p] < a
  }

  /** A range put between two maps of ranges that keep clear of it. */
  lemma HandedBetween(a: map<nat, nat>, p: nat, v: nat, b: map<nat, nat>, n: nat)
    requires forall x :: x in a ==> x < p && x + a[x] < p
    requires forall x :: x in b ==> p < x && p + v < x
    requires v >= n
    ensures HandedOut(a + map[] + b, a + map[p := v] + b, p, n)
  {
  }

  lemma OffStep(bs: seq<Block>, i: nat)
    requires i < |bs|
    ensures HEADER == 9 && Off(bs, i + 1) == Off(bs, i) + HEADER + bs[i].size
  {
  }

  lemma EndIsTotal(bs: seq<Block>)
    ensures HEADER == 9 && Off(bs, |bs|) == Total(bs)
  {
    OffIsTotal(bs, |bs|);
    assert bs[..|bs|] == bs;
  }

  lemma ReleaseIs(bs: seq<Block>, i: nat)
    requires i < |bs| && !bs[i].free
    ensures Release(bs, i) == MergePass(bs[i := Block(bs[i].size, true)])
  {
  }

  /** malloc adds one range, disjoint from all the others, and touches no other. */
  lemma AllocLive(bs: seq<Block>, n: nat)
    ensures HandedOut(Live(bs, 0), Live(Alloc(bs, n), 0), Off(bs, FirstFit(bs, n)) + HEADER, n)
  {
    hide Live;
    var i := FirstFit(bs, n);
    if i < |bs| {
      FitLive(bs, i, n);
    } else {
      GrowLive(bs, n);
    }
  }

  lemma FitLive(bs: seq<Block>, i: nat, n: nat)
    requires i < |bs| && bs[i].free && bs[i].size >= n
    ensures HandedOut(Live(bs, 0), Live(bs[..i] + Carve(bs[i], n) + bs[i + 1..], 0), Off(bs, i) + HEADER, n)
  {
    hide *;
    OffStep(bs, i);
    var c, p := Carve(bs[i], n), Off(bs, i) + HEADER;
    var pre, post := Live(bs[..i], 0), Live(bs[i + 1..], Off(bs, i + 1));
    CarveLive(bs[i], n, Off(bs, i));
    assert Live(bs, 0) == pre + map[] + post by {
      LiveWithBlock(bs, i, bs[i]);
      assert bs[i := bs[i]] == bs;
    }
    assert Live(bs[..i] + c + bs[i + 1..], 0) == pre + map[p := c[0].size] + post by {
      LiveAround(bs, i, c);
    }
    assert HandedOut(pre + map[] + post, pre + map[p := c[0].size] + post, p, n) by {
      LiveClearOf(bs, i, pre, post);
      HandedBetween(pre, p, c[0].size, post, n);
    }
  }

  lemma GrowLive(bs: seq<Block>, n: nat)
    ensures HandedOut(Live(bs, 0), Live(bs + Carve(GrownBlock(n), n), 0), Off(bs, |bs|) + HEADER, n)
  {
    hide *;
    var c, o := Carve(GrownBlock(n), n), Off(bs, |bs|);
    EndIsTotal(bs);
    CarveLive(GrownBlock(n), n, o);
    var pre := Live(bs, 0);
    assert Live(bs + c, 0) == pre + map[o + HEADER := c[0].size] by { LiveConcat(bs, c, 0); }
    assert HandedOut(pre, pre + map[o + HEADER := c[0].size], o + HEADER, n) by {
      LiveRanges(bs, 0);
      HandedBehind(pre, o + HEADER, c[0].size, n);
    }
  }

  lemma HandedBehind(a: map<nat, nat>, p: nat, v: nat, n: nat)
    requires forall x :: x in a ==> x < p && x + a[x] < p
    requires v >= n
    ensures HandedOut(a, a + map[p := v], p, n)
  {
  }

  lemma CarveLive(b: Block, n: nat, base: nat)
    requires b.size >= n
    ensures Live(Carve(b, n), base) == map[base + HEADER := Carve(b, n)[0].size]
    ensures n <= Carve(b, n)[0].size <= b.size
  {
    var c := Carve(b, n);
    if |c| == 2 {
      assert c[1..] == [c[1]];
      assert Live([c[1]], base + HEADER + c[0].size) == map[];
    }
  }

  lemma MapRemove(a: map<nat, nat>, k: nat, v: nat, b: map<nat, nat>)
    requires k !in a && k !in b
    ensures a + map[] + b == (a + map[k := v] + b) - {k}
  {
  }

  lemma LiveWithBlock(bs: seq<Block>, i: nat, b: Block)
    requires i < |bs| && b.size == bs[i].size
    ensures Live(bs[i := b], 0) ==
            Live(bs[..i], 0) + (if b.free then map[] else map[Off(bs, i) + HEADER := b.size])
            + Live(bs[i + 1..], Off(bs, i + 1))
  {
    assert bs[i := b] == bs[..i] + [b] + bs[i + 1..];
    SingleLive(b, Off(bs, i));
    LiveAround(bs, i, [b]);
  }

  /** free of a block in use removes exactly its range. */
  lemma ReleaseLive(bs: seq<Block>, i: nat)
    requires i < |bs| && !bs[i].free
    ensures Live(Release(bs, i), 0) == Live(bs, 0) - {Off(bs, i) + HEADER}
  {
    hide *;
    OffStep(bs, i);
    ReleaseIs(bs, i);
    var f, p := Block(bs[i].size, true), Off(bs, i) + HEADER;
    var pre, post := Live(bs[..i], 0), Live(bs[i + 1..], Off(bs, i + 1));
    assert Live(MergePass(bs[i := f]), 0) == pre + map[] + post by {
      LiveMerge(bs[i := f], 0);
      LiveWithBlock(bs, i, f);
    }
    assert Live(bs, 0) == pre + map[p := bs[i].size] + post by {
      LiveWithBlock(bs, i, bs[i]);
      assert bs[i := bs[i]] == bs;
    }
    assert pre + map[] + post == (pre + map[p := bs[i].size] + post) - {p} by {
      LiveClearOf(bs, i, pre, post);
      MapRemove(pre, p, bs[i].size, post);
    }
  }
}
