/** Reading files of an ext2 volume: plain reads through the block pointers, and the driver's reads
    through a cache with read-ahead and eviction. The device is a sequence of whole blocks. */
module Ext2Reads {

  import opened Basics

  type Block = seq<Byte>

  const WRAP: nat := 0x1_0000_0000
  const MAX_READAHEAD: nat := 0x80_0000
  const BLOCKS_PER_CACHE: nat := 2048
  const DIRECT: nat := 12

  predicate IsBlockSize(bs: nat): (r: bool)
    ensures r ==> 1024 <= bs <= MAX_READAHEAD && bs % 4 == 0
  {
    bs in {1024, 2048, 4096, 8192, 16384, 32768, 65536}
  }

  datatype Inode = Inode(sizeLow: nat, direct: seq<nat>, single: nat)

  datatype Volume = Volume(bs: nat, blocks: seq<Block>, total: nat)

  ghost predicate VolumeShape(v: Volume) {
    IsBlockSize(v.bs) && v.total <= |v.blocks| && forall i :: 0 <= i < |v.blocks| ==> |v.blocks[i]| == v.bs
  }

  /** The device is no larger than its 32-bit addresses reach: 4 GiB, by EveryBlockReached. */
  ghost predicate VolumeOk(v: Volume) {
    VolumeShape(v) && AllReached(v.bs, |v.blocks|)
  }

  /** A block that the driver agrees to read and the device has. */
  predicate OnDevice(v: Volume, p: nat) {
    p <= v.total && p < |v.blocks|
  }

  /** The block that holds block `i` of the file, 0 if there is none. Files that need double or triple
      indirect blocks are not covered. */
  function Pointer(v: Volume, ino: Inode, i: nat): nat {
    if i < DIRECT then if i < |ino.direct| then ino.direct[i] else 0
    else if i < v.bs / 4 && ino.single != 0 && ino.single < |v.blocks| && 4 * (i - DIRECT) + 3 < |v.blocks[ino.single]|
    then Word(v.blocks[ino.single], 4 * (i - DIRECT))
    else 0
  }

  ghost predicate PointerOk(v: Volume, p: nat) {
    p == 0 || OnDevice(v, p)
  }

  ghost predicate InodeOk(v: Volume, ino: Inode) {
    && VolumeOk(v) && |ino.direct| == DIRECT && ino.sizeLow < WRAP && PointerOk(v, ino.single)
    && forall i: nat :: PointerOk(v, Pointer(v, ino, i))
  }

  // ---------------------------------------------------------------- block addresses

  /** The block that lies at the address handed to the device, start times block size in 32 bits. */
  function Addressed(bs: nat, start: nat): nat
    requires bs > 0
  {
    (start * bs) % WRAP / bs
  }

  ghost predicate AllReached(bs: nat, n: nat)
    requires bs > 0
  {
    forall p :: 0 <= p < n ==> Addressed(bs, p) == p
  }

  lemma WrapIsWhole(bs: nat)
    requires IsBlockSize(bs)
    ensures WRAP / bs > 0 && (WRAP / bs) * bs == WRAP
  {
  }

  /** A block is read from its own place exactly when its address fits in 32 bits; otherwise the driver
      reads an earlier one. */
  lemma AddressExact(bs: nat, start: nat)
    requires IsBlockSize(bs)
    ensures start * bs < WRAP ==> Addressed(bs, start) == start
    ensures start * bs >= WRAP ==> Addressed(bs, start) < start
  {
    hide IsBlockSize;
    var x := start * bs;
    Product(start, bs);
    if x < WRAP {
      Quotient(x, bs, start, 0);
      SmallRemainder(x);
    } else {
      Lower(x % WRAP, bs, start);
    }
  }

  lemma SmallRemainder(x: nat)
    requires x < WRAP
    ensures x % WRAP == x
  {
  }

  lemma Lower(x: nat, bs: nat, start: nat)
    requires bs > 0 && x < start * bs
    ensures x / bs < start
  {
    var q := x / bs;
    assert x == q * bs + x % bs;
    Multiple(q - start, bs);
    assert (q - start) * bs == q * bs - start * bs;
  }

  /** Whatever the device of that block size holds, the right block is read. */
  ghost predicate AlwaysRight(bs: nat, start: nat)
    requires IsBlockSize(bs)
  {
    forall v: Volume :: VolumeShape(v) && v.bs == bs && OnDevice(v, start) ==> ReadsRight(v, start)
  }

  ghost predicate ReadsRight(v: Volume, start: nat)
    requires v.bs > 0 && start < |v.blocks|
  {
    Addressed(v.bs, start) < |v.blocks| && v.blocks[Addressed(v.bs, start)] == v.blocks[start]
  }

  /** A device whose last block differs from all before it. */
  function Marked(bs: nat, start: nat): Volume {
    Volume(bs, seq(start + 1, i => seq(bs, _ => if i == start then 1 else 0)), start + 1)
  }

  lemma MarkedShape(bs: nat, start: nat)
    requires IsBlockSize(bs)
    ensures VolumeShape(Marked(bs, start)) && OnDevice(Marked(bs, start), start)
    ensures forall i :: 0 <= i < start ==> Marked(bs, start).blocks[i] != Marked(bs, start).blocks[start]
  {
    hide IsBlockSize;
    var v := Marked(bs, start);
    forall i | 0 <= i < start ensures v.blocks[i] != v.blocks[start] {
      assert v.blocks[i][0] == 0 && v.blocks[start][0] == 1;
    }
  }

  /** The right block is read on every device exactly when start times block size does not reach 4 GiB,
      although the driver's guard admits it up to the number of blocks. */
  lemma RightBlock(bs: nat, start: nat)
    requires IsBlockSize(bs)
    ensures AlwaysRight(bs, start) <==> start * bs < WRAP
  {
    hide IsBlockSize, VolumeShape, Addressed, Marked;
    AddressExact(bs, start);
    if start * bs >= WRAP {
      MarkedShape(bs, start);
      var v := Marked(bs, start);
      MarkedIs(bs, start);
      assert !ReadsRight(v, start);
    }
  }

  lemma MarkedIs(bs: nat, start: nat)
    ensures Marked(bs, start).bs == bs && |Marked(bs, start).blocks| == start + 1
  {
  }

  /** The whole device is readable exactly when it is no larger than 4 GiB. */
  lemma EveryBlockReached(bs: nat, n: nat)
    requires IsBlockSize(bs)
    ensures AllReached(bs, n) <==> n * bs <= WRAP
  {
    hide IsBlockSize, Addressed;
    WrapIsWhole(bs);
    if n * bs <= WRAP {
      forall p | 0 <= p < n ensures Addressed(bs, p) == p {
        Within(p, n, bs);
        AddressExact(bs, p);
      }
    } else {
      var w := WRAP / bs;
      Multiple(w - n, bs);
      assert (w - n) * bs == w * bs - n * bs;
      assert w < n;
      AddressExact(bs, w);
    }
  }

  lemma Within(p: nat, n: nat, bs: nat)
    requires p < n && bs > 0
    ensures p * bs < n * bs
  {
    Multiple(n - p, bs);
    assert (n - p) * bs == n * bs - p * bs;
  }

  /** With blocks of 1 KiB, block 0x400000 reads as block 0. */
  lemma FourGibRead()
    ensures Addressed(1024, 0x40_0000) == 0
    ensures var v := Marked(1024, 0x40_0000); VolumeShape(v) && OnDevice(v, 0x40_0000) && !ReadsRight(v, 0x40_0000)
  {
    hide Marked;
    MarkedShape(1024, 0x40_0000);
    MarkedIs(1024, 0x40_0000);
  }

  // ---------------------------------------------------------------- plain reads

  /** Copies block by block, without a cache, until enough is read or a pointer is missing. */
  ghost function Plain(v: Volume, ino: Inode, i: nat, part: nat, size: nat): (r: seq<Byte>)
    requires InodeOk(v, ino) && part < v.bs
    ensures |r| <= size
    decreases size
  {
    var p := Pointer(v, ino, i);
    if size == 0 || p == 0 then []
    else
      assert PointerOk(v, p);
      var b := v.blocks[p];
      if size <= v.bs - part then b[part..part + size]
      else b[part..] + Plain(v, ino, i + 1, 0, size - (v.bs - part))
  }

  /** The size asked for, cut at the end of the file; the sum is taken in 32 bits. */
  function Clipped(ino: Inode, offset: nat, size: nat): nat
    requires offset < ino.sizeLow
  {
    if (offset + size) % WRAP >= ino.sizeLow then ino.sizeLow - offset else size
  }

  ghost function PlainAt(v: Volume, ino: Inode, offset: nat, size: nat): seq<Byte>
    requires InodeOk(v, ino)
  {
    Plain(v, ino, offset / v.bs, offset % v.bs, size)
  }

  ghost function PlainRead(v: Volume, ino: Inode, offset: nat, size: nat): seq<Byte>
    requires InodeOk(v, ino)
  {
    if offset >= ino.sizeLow then [] else PlainAt(v, ino, offset, Clipped(ino, offset, size))
  }

  // ---------------------------------------------------------------- the bytes of a file

  function FileBlocks(v: Volume, ino: Inode): nat
    requires v.bs > 0
  {
    (ino.sizeLow + v.bs - 1) / v.bs
  }

  /** Every block of the file has a pointer. */
  ghost predicate NoHoles(v: Volume, ino: Inode) {
    InodeOk(v, ino) && forall i :: 0 <= i < FileBlocks(v, ino) ==> Pointer(v, ino, i) != 0
  }

  ghost function Flat(v: Volume, ino: Inode, i: nat, n: nat): (r: seq<Byte>)
    requires NoHoles(v, ino) && i <= n <= FileBlocks(v, ino)
    decreases n - i
  {
    if i == n then []
    else
      assert PointerOk(v, Pointer(v, ino, i));
      v.blocks[Pointer(v, ino, i)] + Flat(v, ino, i + 1, n)
  }

  ghost function Whole(v: Volume, ino: Inode, i: nat): (r: seq<Byte>)
    requires NoHoles(v, ino) && i <= FileBlocks(v, ino)
  {
    Flat(v, ino, i, FileBlocks(v, ino))
  }

  lemma {:induction false} FlatLength(v: Volume, ino: Inode, i: nat, n: nat)
    requires NoHoles(v, ino) && i <= n <= FileBlocks(v, ino)
    ensures |Flat(v, ino, i, n)| == (n - i) * v.bs
    decreases n - i
  {
    if i < n {
      assert PointerOk(v, Pointer(v, ino, i));
      FlatLength(v, ino, i + 1, n);
      assert (n - i) * v.bs == (n - (i + 1)) * v.bs + v.bs;
    }
  }

  /** The blocks of a file hold at least its bytes, and less than a block more. */
  lemma WholeLength(v: Volume, ino: Inode)
    requires NoHoles(v, ino)
    ensures ino.sizeLow <= |Whole(v, ino, 0)| < ino.sizeLow + v.bs
    ensures ino.sizeLow % v.bs == 0 <==> |Whole(v, ino, 0)| == ino.sizeLow
    ensures ino.sizeLow % v.bs == 0 ==> FileBlocks(v, ino) == ino.sizeLow / v.bs
  {
    FlatLength(v, ino, 0, FileBlocks(v, ino));
    RoundUp(ino.sizeLow, v.bs);
  }

  lemma WholeCovers(v: Volume, ino: Inode)
    requires NoHoles(v, ino)
    ensures ino.sizeLow <= |Whole(v, ino, 0)|
  {
    WholeLength(v, ino);
  }

  lemma RoundUp(n: nat, bs: nat)
    requires bs > 0
    ensures n <= (n + bs - 1) / bs * bs < n + bs
    ensures n % bs == 0 <==> (n + bs - 1) / bs * bs == n
    ensures n % bs == 0 ==> (n + bs - 1) / bs == n / bs
  {
    var q, r := n / bs, n % bs;
    assert n == q * bs + r;
    if r == 0 {
      Quotient(n + bs - 1, bs, q, bs - 1);
    } else {
      assert n + bs - 1 == (q + 1) * bs + (r - 1);
      Quotient(n + bs - 1, bs, q + 1, r - 1);
      assert (q + 1) * bs == q * bs + bs;
    }
  }

  lemma Quotient(n: nat, bs: nat, q: nat, r: nat)
    requires bs > 0 && n == q * bs + r && r < bs
    ensures n / bs == q && n % bs == r
  {
    var d := n / bs - q;
    assert n == (n / bs) * bs + n % bs;
    assert d * bs == (n / bs) * bs - q * bs;
    Multiple(d, bs);
  }

  lemma Multiple(d: int, bs: nat)
    ensures d > 0 ==> d * bs >= bs
    ensures d < 0 ==> d * bs + bs <= 0
  {
    if d > 0 {
      Product(d - 1, bs);
      assert d * bs == (d - 1) * bs + bs;
    } else if d < 0 {
      Product(-d - 1, bs);
      assert d * bs == -((-d - 1) * bs) - bs;
    }
  }

  lemma {:induction false} Product(a: nat, b: nat)
    ensures a * b >= 0
  {
    if a > 0 {
      Product(a - 1, b);
      assert a * b == (a - 1) * b + b;
    }
  }

  ghost function FileBytes(v: Volume, ino: Inode): (r: seq<Byte>)
    requires NoHoles(v, ino)
    ensures |r| == ino.sizeLow
  {
    WholeLength(v, ino);
    Whole(v, ino, 0)[..ino.sizeLow]
  }

  /** Skipping whole blocks and then a part of one. */
  lemma {:induction false} FlatDrop(v: Volume, ino: Inode, i: nat, off: nat)
    requires NoHoles(v, ino) && i <= FileBlocks(v, ino) && off < |Whole(v, ino, i)|
    ensures i + off / v.bs < FileBlocks(v, ino) && off % v.bs < |Whole(v, ino, i + off / v.bs)|
    ensures Whole(v, ino, i)[off..] == Whole(v, ino, i + off / v.bs)[off % v.bs..]
    decreases off
  {
    hide IsBlockSize, Pointer;
    var b := WholeStep(v, ino, i);
    if off < v.bs {
      Quotient(off, v.bs, 0, off);
    } else {
      FlatDrop(v, ino, i + 1, off - v.bs);
      StepBack(off, v.bs);
      assert Whole(v, ino, i)[off..] == Whole(v, ino, i + 1)[off - v.bs..];
    }
  }

  lemma StepBack(off: nat, bs: nat)
    requires bs > 0 && off >= bs
    ensures (off - bs) / bs == off / bs - 1 && (off - bs) % bs == off % bs
  {
    assert off == (off / bs) * bs + off % bs;
    assert (off / bs - 1) * bs == (off / bs) * bs - bs;
    Quotient(off - bs, bs, off / bs - 1, off % bs);
  }

  /** As long as the file's blocks last, a plain read is a slice of them. */
  lemma {:induction false} PlainIsSlice(v: Volume, ino: Inode, i: nat, part: nat, size: nat)
    requires NoHoles(v, ino) && i <= FileBlocks(v, ino) && part < v.bs && part + size <= |Whole(v, ino, i)|
    ensures Plain(v, ino, i, part, size) == Whole(v, ino, i)[part..part + size]
    decreases size
  {
    hide IsBlockSize, Pointer;
    if size > 0 {
      var b := WholeStep(v, ino, i);
      var rest := Whole(v, ino, i + 1);
      if size <= v.bs - part {
        assert (b + rest)[part..part + size] == b[part..part + size];
      } else {
        var more := size - (v.bs - part);
        PlainIsSlice(v, ino, i + 1, 0, more);
        assert (b + rest)[part..part + size] == b[part..] + rest[..more];
      }
    }
  }

  /** The first of the blocks from `i` on. */
  lemma WholeStep(v: Volume, ino: Inode, i: nat) returns (b: Block)
    requires NoHoles(v, ino) && i <= FileBlocks(v, ino) && (i < FileBlocks(v, ino) || |Whole(v, ino, i)| > 0)
    ensures i < FileBlocks(v, ino) && Pointer(v, ino, i) != 0 && OnDevice(v, Pointer(v, ino, i))
    ensures b == v.blocks[Pointer(v, ino, i)] && |b| == v.bs && Whole(v, ino, i) == b + Whole(v, ino, i + 1)
  {
    hide IsBlockSize;
    assert i < FileBlocks(v, ino);
    assert PointerOk(v, Pointer(v, ino, i));
    b := v.blocks[Pointer(v, ino, i)];
  }

  /** A plain read of more than that goes on past the end of the file. */
  lemma {:induction false} PlainRunsOver(v: Volume, ino: Inode, i: nat, part: nat, size: nat)
    requires NoHoles(v, ino) && i < FileBlocks(v, ino) && part < v.bs && part + size > |Whole(v, ino, i)| >= part
    ensures Plain(v, ino, i, part, size)
            == Whole(v, ino, i)[part..] + Plain(v, ino, FileBlocks(v, ino), 0, part + size - |Whole(v, ino, i)|)
    decreases size
  {
    hide Pointer, IsBlockSize, Plain, FileBlocks;
    var b := WholeStep(v, ino, i);
    var rest := Whole(v, ino, i + 1);
    PlainStep(v, ino, i, part, size);
    if i + 1 < FileBlocks(v, ino) {
      PlainRunsOver(v, ino, i + 1, 0, size - (v.bs - part));
      assert rest[0..] == rest;
      Regroup(b[part..], rest, Plain(v, ino, FileBlocks(v, ino), 0, part + size - |Whole(v, ino, i)|));
    } else {
      assert rest == [] && b[part..] + rest == b[part..];
    }
    assert (b + rest)[part..] == b[part..] + rest;
  }

  // ---------------------------------------------------------------- exactly when a read is right

  /** What a read of `size` bytes at `offset` should return. */
  ghost function Wanted(v: Volume, ino: Inode, offset: nat, size: nat): seq<Byte>
    requires NoHoles(v, ino)
  {
    if offset >= ino.sizeLow then []
    else if offset + size <= ino.sizeLow then FileBytes(v, ino)[offset..offset + size]
    else FileBytes(v, ino)[offset..]
  }

  /** The 32-bit sum wraps round to something inside the file, so the size is not cut. */
  predicate WrapsInside(ino: Inode, offset: nat, size: nat) {
    offset < ino.sizeLow && offset + size >= WRAP && (offset + size) % WRAP < ino.sizeLow
  }

  lemma UnwrappedRead(v: Volume, ino: Inode, offset: nat, size: nat)
    requires NoHoles(v, ino) && offset < WRAP && size < WRAP && !WrapsInside(ino, offset, size)
    ensures PlainRead(v, ino, offset, size) == Wanted(v, ino, offset, size)
  {
    hide NoHoles, InodeOk, PlainAt, Wanted;
    HolesOk(v, ino);
    if offset < ino.sizeLow {
      var n := if offset + size <= ino.sizeLow then size else ino.sizeLow - offset;
      assert Clipped(ino, offset, size) == n;
      ShortRead(v, ino, offset, size, n);
    } else {
      NothingWanted(v, ino, offset, size);
    }
  }

  lemma NothingWanted(v: Volume, ino: Inode, offset: nat, size: nat)
    requires NoHoles(v, ino) && offset >= ino.sizeLow
    ensures Wanted(v, ino, offset, size) == []
  {
  }

  /** A read that is cut at the end of the file. */
  lemma ShortRead(v: Volume, ino: Inode, offset: nat, size: nat, n: nat)
    requires NoHoles(v, ino) && offset < ino.sizeLow
    requires n == if offset + size <= ino.sizeLow then size else ino.sizeLow - offset
    ensures InodeOk(v, ino) && PlainAt(v, ino, offset, n) == Wanted(v, ino, offset, size)
  {
    hide NoHoles, InodeOk, Plain, Whole, IsBlockSize, Wanted, FileBlocks;
    HolesOk(v, ino);
    WholeCovers(v, ino);
    FlatDrop(v, ino, 0, offset);
    ShortReadAt(v, ino, offset, size, n, offset / v.bs, offset % v.bs);
  }

  lemma ShortReadAt(v: Volume, ino: Inode, offset: nat, size: nat, n: nat, i: nat, part: nat)
    requires NoHoles(v, ino) && offset < ino.sizeLow
    requires n == if offset + size <= ino.sizeLow then size else ino.sizeLow - offset
    requires i < FileBlocks(v, ino) && part < v.bs && part <= |Whole(v, ino, i)|
    requires offset <= |Whole(v, ino, 0)| && Whole(v, ino, 0)[offset..] == Whole(v, ino, i)[part..]
    ensures Plain(v, ino, i, part, n) == Wanted(v, ino, offset, size)
  {
    hide NoHoles, InodeOk, Plain, Whole, IsBlockSize, FileBlocks;
    WholeLength(v, ino);
    SliceOfDrop(Whole(v, ino, 0), Whole(v, ino, i), offset, part, n, ino.sizeLow);
    PlainIsSlice(v, ino, i, part, n);
  }

  lemma SliceOfDrop(a: seq<Byte>, b: seq<Byte>, off: nat, part: nat, n: nat, end: nat)
    requires off + n <= end <= |a| && part <= |b| && a[off..] == b[part..]
    ensures part + n <= |b| && b[part..part + n] == a[..end][off..off + n]
    ensures off + n == end ==> b[part..part + n] == a[..end][off..]
  {
    assert a[..end][off..off + n] == a[off..][..n];
    assert b[part..part + n] == b[part..][..n];
    assert |a[off..]| == |b[part..]|;
  }

  lemma WrappedRead(v: Volume, ino: Inode, offset: nat, size: nat)
    requires NoHoles(v, ino) && offset < WRAP && size < WRAP && WrapsInside(ino, offset, size)
    ensures PlainRead(v, ino, offset, size) == Wanted(v, ino, offset, size)
            <==> (ino.sizeLow % v.bs == 0 && Pointer(v, ino, ino.sizeLow / v.bs) == 0)
  {
    hide NoHoles, InodeOk, Flat, Pointer, PlainAt, FileBytes, Whole, Wanted;
    HolesOk(v, ino);
    LongRead(v, ino, offset, size);
  }

  lemma HolesOk(v: Volume, ino: Inode)
    requires NoHoles(v, ino)
    ensures InodeOk(v, ino) && ino.sizeLow < WRAP && v.bs > 0
  {
  }

  lemma LongWanted(v: Volume, ino: Inode, offset: nat, size: nat)
    requires NoHoles(v, ino) && offset < ino.sizeLow < offset + size
    ensures v.bs > 0 && ino.sizeLow <= |Whole(v, ino, 0)|
    ensures Wanted(v, ino, offset, size) == Whole(v, ino, 0)[..ino.sizeLow][offset..]
    ensures |Wanted(v, ino, offset, size)| == ino.sizeLow - offset
  {
    hide Flat, Pointer;
    WholeLength(v, ino);
  }

  /** A read of more than is left of the file, not cut. */
  lemma LongRead(v: Volume, ino: Inode, offset: nat, size: nat)
    requires NoHoles(v, ino) && v.bs > 0 && offset < ino.sizeLow < offset + size
    ensures PlainAt(v, ino, offset, size) == Wanted(v, ino, offset, size)
            <==> (ino.sizeLow % v.bs == 0 && Pointer(v, ino, ino.sizeLow / v.bs) == 0)
  {
    hide Flat, Pointer, Plain, IsBlockSize, Whole, NoHoles, InodeOk, Wanted, FileBlocks;
    HolesOk(v, ino);
    LongWanted(v, ino, offset, size);
    WholeLength(v, ino);
    FlatDrop(v, ino, 0, offset);
    LongReadAt(v, ino, offset, size, offset / v.bs, offset % v.bs);
  }

  lemma LongReadAt(v: Volume, ino: Inode, offset: nat, size: nat, i: nat, part: nat)
    requires NoHoles(v, ino) && offset < ino.sizeLow < offset + size && ino.sizeLow <= |Whole(v, ino, 0)|
    requires i < FileBlocks(v, ino) && part < v.bs && part <= |Whole(v, ino, i)|
    requires Whole(v, ino, 0)[offset..] == Whole(v, ino, i)[part..]
    ensures Plain(v, ino, i, part, size) == Whole(v, ino, 0)[..ino.sizeLow][offset..]
            <==> (|Whole(v, ino, 0)| == ino.sizeLow && Pointer(v, ino, FileBlocks(v, ino)) == 0)
  {
    hide Flat, Pointer, Plain, IsBlockSize, Whole, FileBlocks;
    var whole, here := Whole(v, ino, 0), Whole(v, ino, i);
    assert |whole[offset..]| == |here[part..]|;
    if part + size <= |here| {
      PlainIsSlice(v, ino, i, part, size);
    } else {
      PlainRunsOver(v, ino, i, part, size);
      var extra: nat := part + size - |here|;
      var more := Plain(v, ino, FileBlocks(v, ino), 0, extra);
      assert |whole| == ino.sizeLow ==> whole[..ino.sizeLow] == whole;
      SomeMore(v, ino, FileBlocks(v, ino), extra);
      Longer(whole[offset..], more);
    }
  }

  lemma Longer(a: seq<Byte>, b: seq<Byte>)
    ensures a + b == a <==> b == []
  {
    assert |a + b| == |a| + |b|;
  }

  lemma SomeMore(v: Volume, ino: Inode, i: nat, size: nat)
    requires InodeOk(v, ino) && size > 0
    ensures Plain(v, ino, i, 0, size) == [] <==> Pointer(v, ino, i) == 0
  {
    assert PointerOk(v, Pointer(v, ino, i));
  }

  /** A read returns exactly the part of the file asked for unless offset plus size wraps round 32 bits
      into the file; then it does so only if the file fills its last block and has no block after it. */
  lemma ReadIsExact(v: Volume, ino: Inode, offset: nat, size: nat)
    requires NoHoles(v, ino) && offset < WRAP && size < WRAP
    ensures PlainRead(v, ino, offset, size) == Wanted(v, ino, offset, size)
            <==> (!WrapsInside(ino, offset, size)
                  || (ino.sizeLow % v.bs == 0 && Pointer(v, ino, ino.sizeLow / v.bs) == 0))
  {
    if WrapsInside(ino, offset, size) {
      WrappedRead(v, ino, offset, size);
    } else {
      UnwrappedRead(v, ino, offset, size);
    }
  }

  /** A two-byte file: asking for 2^32 - 1 bytes at offset 1 returns more than the one byte there is. */
  lemma OverlongRead()
    ensures var z: Block := seq(1024, _ => 0);
            var v := Volume(1024, [z, z], 2);
            var ino := Inode(2, [1, 0, 0, 0, 0, 0, 0, 0, 0, 0, 0, 0], 0);
            NoHoles(v, ino) && PlainRead(v, ino, 1, WRAP - 1) != Wanted(v, ino, 1, WRAP - 1)
  {
    var z: Block := seq(1024, _ => 0);
    var v := Volume(1024, [z, z], 2);
    var ino := Inode(2, [1, 0, 0, 0, 0, 0, 0, 0, 0, 0, 0, 0], 0);
    EveryBlockReached(1024, 2);
    assert FileBlocks(v, ino) == 1;
    assert NoHoles(v, ino);
    ReadIsExact(v, ino, 1, WRAP - 1);
  }

  // ---------------------------------------------------------------- the driver

  datatype Cached = Cached(number: nat, data: Block)

  /** The cache tells the truth about a device that is not written. */
  ghost predicate Truthful(v: Volume, cache: seq<Cached>) {
    forall e :: e in cache ==> e.number < |v.blocks| && e.data == v.blocks[e.number]
  }

  /** A block found is moved to the front. */
  function ToFront(cache: seq<Cached>, k: nat): seq<Cached>
    requires k < |cache|
  {
    [cache[k]] + cache[..k] + cache[k + 1..]
  }

  /** A block added goes to the front; the last one gives way when there are too many. */
  function Added(cache: seq<Cached>, e: Cached): (r: seq<Cached>)
    ensures |cache| <= BLOCKS_PER_CACHE ==> |r| <= BLOCKS_PER_CACHE
  {
    var longer := [e] + cache;
    if |longer| > BLOCKS_PER_CACHE then longer[..|longer| - 1] else longer
  }

  lemma InReach(v: Volume, p: nat)
    requires VolumeOk(v) && p < |v.blocks|
    ensures (p * v.bs) % WRAP / v.bs == p && MAX_READAHEAD / v.bs > 0
  {
    assert Addressed(v.bs, p) == p;
  }

  class Driver {
    const volume: Volume
    var cache: seq<Cached>

    ghost predicate Valid()
      reads this
    {
      VolumeOk(volume) && |cache| <= BLOCKS_PER_CACHE && Truthful(volume, cache)
    }

    constructor (volume: Volume)
      requires VolumeOk(volume)
      ensures Valid() && this.volume == volume && cache == []
    {
      this.volume := volume;
      cache := [];
    }

    /** __ext2_try_get_cached_block. */
    method TryCached(block: nat) returns (hit: bool, data: Block)
      requires Valid()
      modifies this
      ensures Valid()
      ensures hit ==> block < |volume.blocks| && data == volume.blocks[block]
      ensures hit ==>
                exists k :: 0 <= k < |old(cache)| && old(cache)[k].number == block && cache == ToFront(old(cache), k)
      ensures !hit ==> cache == old(cache) && forall e :: e in cache ==> e.number != block
    {
      for i := 0 to |cache|
        invariant cache == old(cache)
        invariant forall k :: 0 <= k < i ==> cache[k].number != block
      {
        if cache[i].number == block {
          assert cache[i] in cache;
          data := cache[i].data;
          cache := ToFront(cache, i);
          return true, data;
        }
      }
      return false, [];
    }

    /** __ext2_cache_block. */
    method CacheBlock(block: nat, data: Block)
      requires Valid() && block < |volume.blocks| && data == volume.blocks[block]
      modifies this
      ensures Valid() && cache == Added(old(cache), Cached(block, data))
    {
      cache := [Cached(block, data)] + cache;
      if |cache| > BLOCKS_PER_CACHE {
        cache := cache[..|cache| - 1];
      }
    }

    /** __ext2_read_block, with the read-ahead counted in blocks. An invalid number leaves the buffer. */
    method ReadBlock(start: nat, ahead: nat, buffer: Block) returns (out: Block, read: nat)
      requires Valid() && (start > volume.total || OnDevice(volume, start))
      modifies this
      ensures Valid()
      ensures OnDevice(volume, start) ==> out == volume.blocks[start] && read == volume.bs
      ensures start > volume.total ==> out == buffer && read == 0 && cache == old(cache)
      ensures OnDevice(volume, start) && ahead == 0 ==> |cache| > 0 && cache[0] == Cached(start, volume.blocks[start])
    {
      if start > volume.total {
        return buffer, 0;
      }
      var hit, data := TryCached(start);
      if hit {
        return data, volume.bs;
      }
      InReach(volume, start);
      var at: nat := (start * volume.bs) % WRAP / volume.bs;
      if ahead > 0 {
        var most := MAX_READAHEAD / volume.bs;
        var n := if ahead > most then most else ahead;
        var there := |volume.blocks| - at;
        var got := volume.blocks[at..at + if n < there then n else there];
        for i := 0 to |got|
          invariant Valid()
        {
          assert at + i < |volume.blocks| && got[i] == volume.blocks[at + i];
          CacheBlock(start + i, got[i]);
        }
        return got[0], volume.bs;
      } else {
        out := volume.blocks[at];
        CacheBlock(start, out);
        return out, volume.bs;
      }
    }

    /** __ext2_block_from_offset for direct and single indirect blocks. */
    method BlockFromOffset(ino: Inode, i: nat) returns (p: nat)
      requires Valid() && InodeOk(volume, ino)
      modifies this
      ensures Valid() && p == Pointer(volume, ino, i)
    {
      if i < DIRECT {
        return ino.direct[i];
      } else if i < volume.bs / 4 && ino.single != 0 {
        var block, _ := ReadBlock(ino.single, 0, []);
        return Word(block, 4 * (i - DIRECT));
      } else {
        return 0;
      }
    }

    /** __ext2_read_inode_contents: whatever was read before, the same as a plain read. */
    method ReadContents(ino: Inode, offset: nat, size: nat) returns (out: seq<Byte>)
      requires Valid() && InodeOk(volume, ino) && offset < WRAP && size < WRAP
      modifies this
      ensures Valid() && out == PlainRead(volume, ino, offset, size)
    {
      hide Plain, Pointer, IsBlockSize, InodeOk, VolumeOk, Truthful;
      BlockSizeIs(volume, ino);
      out := [];
      if offset >= ino.sizeLow {
        return;
      }
      var left: nat := size;
      if (offset + left) % WRAP >= ino.sizeLow {
        left := ino.sizeLow - offset;
        if left == 0 {
          return;
        }
      }
      var bs := volume.bs;
      var i: nat, part: nat := offset / bs, offset % bs;
      var buffer: Block := [];
      while left > 0
        invariant Valid() && part < bs
        invariant PlainRead(volume, ino, offset, size) == out + Plain(volume, ino, i, part, left)
        decreases left
      {
        PlainStep(volume, ino, i, part, left);
        var p := BlockFromOffset(ino, i);
        if p == 0 {
          break;
        }
        var read;
        buffer, read := ReadBlock(p, (ino.sizeLow / bs - i + 1) % (WRAP / bs), buffer);
        if left <= bs - part {
          out := out + buffer[part..part + left];
          return;
        } else {
          Regroup(out, buffer[part..], Plain(volume, ino, i + 1, 0, left - (bs - part)));
          out := out + buffer[part..];
          left := left - (bs - part);
          part := 0;
          i := i + 1;
        }
      }
      if left == 0 {
        NothingLeft(volume, ino, i, part);
      }
    }
  }

  lemma BlockSizeIs(v: Volume, ino: Inode)
    requires InodeOk(v, ino)
    ensures v.bs > 0 && WRAP / v.bs > 0
  {
  }

  /** One turn of the copying loop. */
  lemma PlainStep(v: Volume, ino: Inode, i: nat, part: nat, size: nat)
    requires InodeOk(v, ino) && part < v.bs && size > 0
    ensures var p := Pointer(v, ino, i); var r := Plain(v, ino, i, part, size);
            && (p == 0 ==> r == [])
            && (p != 0 ==> OnDevice(v, p) && |v.blocks[p]| == v.bs)
            && (p != 0 && size <= v.bs - part ==> r == v.blocks[p][part..part + size])
            && (p != 0 && size > v.bs - part ==>
                  r == v.blocks[p][part..] + Plain(v, ino, i + 1, 0, size - (v.bs - part)))
  {
    hide Pointer, IsBlockSize;
    assert PointerOk(v, Pointer(v, ino, i));
  }

  lemma NothingLeft(v: Volume, ino: Inode, i: nat, part: nat)
    requires InodeOk(v, ino) && part < v.bs
    ensures Plain(v, ino, i, part, 0) == []
  {
  }
}
