/** The physical frame allocator: a bitmap of 32-bit words (a set bit is a free frame), first fit
    with a search hint, and reference counts of what was handed out and returned. */
module FrameAllocator {

  const MAX_WORDS := 0x8000            // so that every frame address fits in 32 bits
  const FRAME_SIZE := 0x1000

  /** A 32-bit word, bit j at index j. */
  type Word = seq<bool>
  type Bitmap = seq<Word>

  ghost predicate Words(bm: Bitmap) {
    forall i :: 0 <= i < |bm| ==> |bm[i]| == 32
  }

  predicate IsZero(w: Word) {
    forall j :: 0 <= j < |w| ==> !w[j]
  }

  predicate BitSet(bm: Bitmap, f: nat) {
    f / 32 < |bm| && f % 32 < |bm[f / 32]| && bm[f / 32][f % 32]
  }

  /** The frames that are free, by frame number. */
  ghost function FreeSet(bm: Bitmap): set<nat> {
    set f: nat | f < 32 * |bm| && BitSet(bm, f)
  }

  /** Frames g, g+1, ..., g+n-1 are all free. */
  ghost predicate RunAt(bm: Bitmap, g: nat, n: nat) {
    forall k: nat :: g <= k < g + n ==> BitSet(bm, k)
  }

  /** `f` starts a run of `n` free frames and no lower frame does. */
  ghost predicate Lowest(bm: Bitmap, f: nat, n: nat) {
    RunAt(bm, f, n) && forall g: nat :: g < f ==> !RunAt(bm, g, n)
  }

  lemma BitOf(bm: Bitmap, i: nat, j: nat)
    requires Words(bm) && i < |bm| && j < 32
    ensures BitSet(bm, 32 * i + j) == bm[i][j]
  {
  }

  ghost predicate ZeroBelow(bm: Bitmap, hint: nat) {
    forall i: nat :: i < hint && i < |bm| ==> IsZero(bm[i])
  }

  function SetBit(bm: Bitmap, f: nat, v: bool): (r: Bitmap)
    requires Words(bm) && f / 32 < |bm|
    ensures Words(r) && |r| == |bm| && BitSet(r, f) == v
    ensures forall k: nat :: k != f ==> BitSet(r, k) == BitSet(bm, k)
  {
    bm[f / 32 := bm[f / 32][f % 32 := v]]
  }

  lemma SetBitFree(bm: Bitmap, f: nat, v: bool)
    requires Words(bm) && f / 32 < |bm|
    ensures FreeSet(SetBit(bm, f, v)) == if v then FreeSet(bm) + {f} else FreeSet(bm) - {f}
  {
  }

  lemma ZeroHasNoFree(bm: Bitmap, hint: nat, f: nat)
    requires ZeroBelow(bm, hint) && f < 32 * hint
    ensures !BitSet(bm, f)
  {
  }

  // ---------------------------------------------------------------- the search

  /** Where the search loop stands before bit `pos`: the last `found` bits were free, no run of `n`
      ends at or before `pos`, and the current run cannot be extended to the left. */
  ghost predicate Scan(bm: Bitmap, n: nat, pos: nat, found: nat) {
    && found <= pos && found < n
    && RunAt(bm, pos - found, found)
    && (pos == found || !BitSet(bm, pos - found - 1))
    && forall g: nat :: g + n <= pos ==> !RunAt(bm, g, n)
  }

  lemma ScanStart(bm: Bitmap, hint: nat, n: nat)
    requires ZeroBelow(bm, hint) && n > 0
    ensures Scan(bm, n, 32 * hint, 0)
  {
    forall g: nat | g + n <= 32 * hint ensures !RunAt(bm, g, n) {
      ZeroHasNoFree(bm, hint, g);
    }
    if hint > 0 { ZeroHasNoFree(bm, hint, 32 * hint - 1); }
  }

  /** A free bit that does not complete the run, and a taken bit. */
  lemma ScanStep(bm: Bitmap, n: nat, pos: nat, found: nat)
    requires Scan(bm, n, pos, found)
    ensures found < n && found <= pos
    ensures BitSet(bm, pos) && found + 1 < n ==> Scan(bm, n, pos + 1, found + 1)
    ensures !BitSet(bm, pos) ==> Scan(bm, n, pos + 1, 0)
  {
    forall g: nat | g + n == pos + 1 && !(BitSet(bm, pos) && found + 1 == n) ensures !RunAt(bm, g, n) {
      if !BitSet(bm, pos) {
        assert g <= pos < g + n;
      } else if pos > found {
        assert g <= pos - found - 1 < g + n;
      }
    }
  }

  /** The free bit that completes a run: it starts at the lowest possible frame. */
  lemma ScanFound(bm: Bitmap, n: nat, pos: nat, found: nat)
    requires Scan(bm, n, pos, found) && BitSet(bm, pos) && found + 1 == n
    ensures Lowest(bm, pos - found, n)
  {
    forall g: nat | g < pos - found ensures !RunAt(bm, g, n) {
    }
  }

  /** The search that runs off the end has seen everything. */
  lemma ScanExhausted(bm: Bitmap, n: nat, found: nat)
    requires Scan(bm, n, 32 * |bm|, found)
    ensures forall g: nat :: !RunAt(bm, g, n)
  {
    forall g: nat ensures !RunAt(bm, g, n) {
      if g + n > 32 * |bm| {
        assert g <= g + n - 1 < g + n && !BitSet(bm, g + n - 1);
      }
    }
  }

  // ---------------------------------------------------------------- sets of frames

  ghost function Interval(f: nat, n: nat): (s: set<nat>)
    ensures forall x: nat :: x in s <==> f <= x < f + n
    ensures |s| == n
  {
    if n == 0 then {} else Interval(f, n - 1) + {f + n - 1}
  }

  /** Taking a run out of a set of frames. */
  lemma TakeCount(s: set<nat>, f: nat, n: nat)
    requires Interval(f, n) <= s
    ensures |s - Interval(f, n)| == |s| - n
  {
  }

  lemma GiveCount(s: set<nat>, f: nat, n: nat)
    requires Interval(f, n) !! s
    ensures |s + Interval(f, n)| == |s| + n
  {
  }

  lemma PlusGrow(s: set<nat>, f: nat, m: nat)
    ensures s + Interval(f, m) + {f + m} == s + Interval(f, m + 1)
  {
  }

  lemma FreeInside(bm: Bitmap, f: nat)
    requires f in FreeSet(bm)
    ensures f / 32 < |bm| && f < 32 * |bm|
  {
  }

  lemma ClearedZero(bm: Bitmap, f: nat)
    requires Words(bm) && f / 32 < |bm|
    ensures forall i :: 0 <= i < |bm| && IsZero(bm[i]) ==> IsZero(SetBit(bm, f, false)[i])
  {
  }

  lemma RunIsFree(bm: Bitmap, f: nat, n: nat)
    requires RunAt(bm, f, n)
    ensures Interval(f, n) <= FreeSet(bm)
  {
    forall x | x in Interval(f, n) ensures x in FreeSet(bm) {
      assert BitSet(bm, x);
    }
  }

  /** How many of the frames f, f+1, ..., f+n-1 come before the first one in `s`. */
  ghost function Prefix(s: set<nat>, f: nat, n: nat): (m: nat)
    ensures m <= n && (m < n ==> f + m in s)
    ensures forall x: nat :: f <= x < f + m ==> x !in s
    decreases n
  {
    if n == 0 || f in s then 0 else Prefix(s, f + 1, n - 1) + 1
  }

  lemma PrefixIs(s: set<nat>, f: nat, n: nat, m: nat)
    requires m <= n && (m < n ==> f + m in s)
    requires forall x: nat :: f <= x < f + m ==> x !in s
    ensures Prefix(s, f, n) == m
  {
  }

  // ---------------------------------------------------------------- the allocator

  datatype Grant = Frames(first: nat) | Panic

  class Pmm {
    var bitmap: Bitmap
    var firstFree: nat       // no set bit in any word below this one
    var granted: nat
    var returned: nat

    ghost predicate Valid()
      reads this
    {
      Words(bitmap) && |bitmap| <= MAX_WORDS && ZeroBelow(bitmap, firstFree)
    }

    ghost function FreeFrames(): set<nat>
      reads this
    {
      FreeSet(bitmap)
    }

    /** Free frames, plus those handed out, less those given back. */
    ghost function Balance(): int
      reads this
    {
      |FreeFrames()| + granted - returned
    }

    constructor ()
      ensures Valid() && FreeFrames() == {} && granted == 0 && returned == 0
    {
      bitmap, firstFree, granted, returned := [], 0xFFFFFFFF, 0, 0;
    }

    /** The search: the lowest run of `n` free frames. */
    method FindRun(n: nat) returns (hit: bool, frame: nat)
      requires Valid() && n > 0 && firstFree < |bitmap|
      ensures hit ==> Lowest(bitmap, frame, n)
      ensures !hit ==> forall g: nat :: !RunAt(bitmap, g, n)
    {
      hide Scan, RunAt, BitSet, ZeroBelow;
      var found := 0;
      var i := firstFree;
      hit, frame := false, 0;
      ScanStart(bitmap, firstFree, n);
      while i < |bitmap| && !hit
        invariant i <= |bitmap|
        invariant !hit ==> Scan(bitmap, n, 32 * i, found) && (found > 0 ==> frame == 32 * i - found)
        invariant hit ==> Lowest(bitmap, frame, n)
      {
        var j := 0;
        while j < 32 && !hit
          invariant j <= 32
          invariant !hit ==> Scan(bitmap, n, 32 * i + j, found) && (found > 0 ==> frame == 32 * i + j - found)
          invariant hit ==> Lowest(bitmap, frame, n)
        {
          BitOf(bitmap, i, j);
          ScanStep(bitmap, n, 32 * i + j, found);
          if bitmap[i][j] {
            if found == 0 {
              frame := 32 * i + j;
            }
            if found + 1 == n {
              ScanFound(bitmap, n, 32 * i + j, found);
            }
            found := found + 1;
          } else {
            found := 0;
          }
          if found >= n {
            hit := true;
          }
          j := j + 1;
        }
        i := i + 1;
      }
      if !hit {
        ScanExhausted(bitmap, n, found);
      }
    }

    /** Clears the bits of a run. */
    method ClearRun(frame: nat, n: nat)
      requires Words(bitmap) && ZeroBelow(bitmap, firstFree) && RunAt(bitmap, frame, n)
      modifies this`bitmap
      ensures Words(bitmap) && |bitmap| == |old(bitmap)| && ZeroBelow(bitmap, firstFree)
      ensures FreeFrames() == old(FreeFrames()) - Interval(frame, n)
    {
      hide FreeSet, Interval, BitSet, IsZero;
      var k := 0;
      RunIsFree(bitmap, frame, n);
      while k < n
        invariant k <= n && Words(bitmap) && |bitmap| == |old(bitmap)|
        invariant forall i :: 0 <= i < |bitmap| && IsZero(old(bitmap)[i]) ==> IsZero(bitmap[i])
        invariant FreeFrames() == old(FreeFrames()) - Interval(frame, k)
      {
        assert frame + k in Interval(frame, n);
        FreeInside(old(bitmap), frame + k);
        SetBitFree(bitmap, frame + k, false);
        ClearedZero(bitmap, frame + k);
        bitmap := SetBit(bitmap, frame + k, false);
        k := k + 1;
      }
    }

    /** Moves the hint over words that have become zero, restarting once from the bottom. */
    method AdvanceHint()
      requires Words(bitmap) && ZeroBelow(bitmap, firstFree)
      modifies this`firstFree
      ensures ZeroBelow(bitmap, firstFree)
      ensures firstFree >= |bitmap| || !IsZero(bitmap[firstFree])
    {
      while firstFree < |bitmap| && IsZero(bitmap[firstFree])
        invariant ZeroBelow(bitmap, firstFree)
      {
        firstFree := firstFree + 1;
      }
      if firstFree >= |bitmap| {
        firstFree := 0;
      }
      while firstFree < |bitmap| && IsZero(bitmap[firstFree])
        invariant ZeroBelow(bitmap, firstFree)
      {
        firstFree := firstFree + 1;
      }
    }

    /** Grants the lowest-addressed run of `n` free frames, and panics exactly when there is none. */
    method AllocFrames(n: nat) returns (r: Grant)
      requires Valid()
      modifies this
      ensures Valid() && Balance() == old(Balance())
      ensures r.Frames? <==> n > 0 && exists g: nat :: RunAt(old(bitmap), g, n)
      ensures r.Frames? ==>
                && Lowest(old(bitmap), r.first, n)
                && FreeFrames() == old(FreeFrames()) - Interval(r.first, n)
                && Interval(r.first, n) <= old(FreeFrames())
                && r.first + n <= 32 * MAX_WORDS
      ensures r.Panic? ==> bitmap == old(bitmap)
    {
      hide FreeSet, Interval, BitSet, RunAt, ZeroBelow;
      if n == 0 {
        return Panic;
      }
      if firstFree >= |bitmap| {
        NothingFree(bitmap, firstFree, n);
        return Panic;
      }
      var hit, frame := FindRun(n);
      if !hit {
        return Panic;
      }
      RunIsFree(bitmap, frame, n);
      TakeCount(FreeFrames(), frame, n);
      assert frame + n - 1 in Interval(frame, n);
      FreeInside(bitmap, frame + n - 1);
      ClearRun(frame, n);
      AdvanceHint();
      granted := granted + n;
      r := Frames(frame);
    }

    /** Gives back `n` frames from address `addr` on, stopping at the first that is already free. */
    method Free(addr: nat, n: nat)
      requires Valid() && addr / FRAME_SIZE + n <= 32 * MAX_WORDS
      modifies this
      ensures Valid() && Balance() == old(Balance())
      ensures addr % FRAME_SIZE != 0 ==> FreeFrames() == old(FreeFrames())
      ensures addr % FRAME_SIZE == 0 ==>
                var f := addr / FRAME_SIZE;
                FreeFrames() == old(FreeFrames()) + Interval(f, Prefix(old(FreeFrames()), f, n))
    {
      hide FreeSet, BitSet, Interval, Prefix, ZeroBelow, Words;
      if addr % FRAME_SIZE != 0 {
        return;
      }
      var f := addr / FRAME_SIZE;
      var m := FreeRun(f, n, FreeFrames());
      PrefixIs(old(FreeFrames()), f, n, m);
      GiveCount(old(FreeFrames()), f, m);
    }

    method FreeRun(f: nat, n: nat, ghost start: set<nat>) returns (m: nat)
      requires Valid() && f + n <= 32 * MAX_WORDS && start == FreeFrames()
      modifies this
      ensures Valid() && granted == old(granted) && returned == old(returned) + m
      ensures m <= n && (m < n ==> f + m in start)
      ensures forall x: nat :: f <= x < f + m ==> x !in start
      ensures FreeFrames() == start + Interval(f, m)
    {
      hide FreeSet, BitSet, Interval, ZeroBelow, Words;
      m := 0;
      assert Interval(f, 0) == {};
      while m < n
        invariant m <= n && Valid() && returned == old(returned) + m && granted == old(granted)
        invariant forall x: nat :: f <= x < f + m ==> x !in start
        invariant FreeFrames() == start + Interval(f, m)
      {
        var ok := FreeOne(f + m);
        if !ok {
          return;
        }
        PlusGrow(start, f, m);
        m := m + 1;
      }
    }

    /** One turn of the loop in free(): a frame that is free already is refused. */
    method FreeOne(f: nat) returns (ok: bool)
      requires Valid() && f < 32 * MAX_WORDS
      modifies this
      ensures Valid() && granted == old(granted)
      ensures ok <==> f !in old(FreeFrames())
      ensures ok ==> FreeFrames() == old(FreeFrames()) + {f} && returned == old(returned) + 1
      ensures !ok ==> FreeFrames() == old(FreeFrames()) && returned == old(returned)
    {
      Extend(f);
      if BitSet(bitmap, f) {
        return false;
      }
      SetBitFree(bitmap, f, true);
      ZeroKept(bitmap, firstFree, f);
      bitmap := SetBit(bitmap, f, true);
      returned := returned + 1;
      if f / 32 < firstFree {
        firstFree := f / 32;
      }
      return true;
    }

    /** Zero words up to the one that holds frame `f`. */
    method Extend(f: nat)
      requires Valid() && f < 32 * MAX_WORDS
      modifies this`bitmap
      ensures Valid() && f / 32 < |bitmap| && FreeFrames() == old(FreeFrames())
    {
      while f / 32 >= |bitmap|
        invariant Valid() && FreeFrames() == old(FreeFrames())
        decreases f / 32 + 1 - |bitmap|
      {
        var zero: Word := seq(32, _ => false);
        ExtendFree(bitmap, zero);
        bitmap := bitmap + [zero];
      }
    }
  }

  lemma ExtendFree(bm: Bitmap, zero: Word)
    requires IsZero(zero)
    ensures FreeSet(bm + [zero]) == FreeSet(bm)
  {
    forall f: nat ensures BitSet(bm + [zero], f) == BitSet(bm, f) {
    }
  }

  lemma ZeroKept(bm: Bitmap, hint: nat, f: nat)
    requires Words(bm) && f / 32 < |bm| && ZeroBelow(bm, hint)
    ensures ZeroBelow(SetBit(bm, f, true), if f / 32 < hint then f / 32 else hint)
  {
  }

  lemma NothingFree(bm: Bitmap, hint: nat, n: nat)
    requires ZeroBelow(bm, hint) && hint >= |bm| && n > 0
    ensures forall g: nat :: !RunAt(bm, g, n)
  {
    forall g: nat ensures !RunAt(bm, g, n) {
      assert !BitSet(bm, g);
    }
  }
}
