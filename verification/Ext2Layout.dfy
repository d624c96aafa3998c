/** A file as ext2 lays it out on the device: the numbers of its blocks stand in the inode, the first twelve
    in place and the others as words of the indirect block. Reads return the bytes of those blocks. */
module Ext2Layout {

  import opened Basics
  import opened Ext2Reads

  /** Consecutive little-endian words. */
  function Words(ps: seq<nat>): (r: seq<Byte>)
    requires forall i :: 0 <= i < |ps| ==> ps[i] < WRAP
    ensures |r| == 4 * |ps|
  {
    if ps == [] then [] else Bytes32(ps[0]) + Words(ps[1..])
  }

  ghost predicate LaidOut(v: Volume, ino: Inode, ptrs: seq<nat>) {
    && 4 * |ptrs| <= v.bs && (forall i :: 0 <= i < |ptrs| ==> 0 < ptrs[i] < WRAP)
    && |ino.direct| == DIRECT
    && (forall i :: 0 <= i < |ptrs| && i < DIRECT ==> ino.direct[i] == ptrs[i])
    && (|ptrs| > DIRECT ==>
          && 0 < ino.single < |v.blocks| && |v.blocks[ino.single]| == v.bs
          && Words(ptrs[DIRECT..]) <= v.blocks[ino.single])
  }

  lemma {:induction false} WordsAt(ps: seq<nat>, j: nat)
    requires (forall i :: 0 <= i < |ps| ==> ps[i] < WRAP) && j < |ps|
    ensures Word(Words(ps), 4 * j) == ps[j]
  {
    var w := Words(ps);
    var head, rest := Bytes32(ps[0]), Words(ps[1..]);
    assert w == head + rest;
    if j == 0 {
      Recombine(ps[0]);
      assert w[0] == head[0] && w[1] == head[1] && w[2] == head[2] && w[3] == head[3];
    } else {
      WordsAt(ps[1..], j - 1);
      var o := 4 * (j - 1);
      assert w[o + 4] == rest[o] && w[o + 5] == rest[o + 1] && w[o + 6] == rest[o + 2] && w[o + 7] == rest[o + 3];
    }
  }

  lemma WordOfPrefix(a: seq<Byte>, b: seq<Byte>, o: nat)
    requires a <= b && o + 4 <= |a|
    ensures Word(b, o) == Word(a, o)
  {
    assert b[o] == a[o] && b[o + 1] == a[o + 1] && b[o + 2] == a[o + 2] && b[o + 3] == a[o + 3];
  }

  /** Block i of the file is the one its layout names. */
  lemma PointerIsLaidOut(v: Volume, ino: Inode, ptrs: seq<nat>, i: nat)
    requires LaidOut(v, ino, ptrs) && i < |ptrs|
    ensures Pointer(v, ino, i) == ptrs[i]
  {
    hide Word, Words;
    if i >= DIRECT {
      var rest := ptrs[DIRECT..];
      var j := i - DIRECT;
      WordsAt(rest, j);
      WordOfPrefix(Words(rest), v.blocks[ino.single], 4 * j);
      assert i < v.bs / 4;
    }
  }

  /** The blocks of the file, one after the other. */
  function Joined(v: Volume, ptrs: seq<nat>): seq<Byte>
    requires forall i :: 0 <= i < |ptrs| ==> ptrs[i] < |v.blocks|
  {
    if ptrs == [] then [] else v.blocks[ptrs[0]] + Joined(v, ptrs[1..])
  }

  /** The part of `bytes` from `offset` on, at most `size` long, with nothing beyond the end. */
  function Part(bytes: seq<Byte>, offset: nat, size: nat): seq<Byte> {
    if offset >= |bytes| then []
    else if offset + size <= |bytes| then bytes[offset..offset + size]
    else bytes[offset..]
  }

  /** A whole file: laid out in as many blocks as its size needs. */
  ghost predicate File(v: Volume, ino: Inode, ptrs: seq<nat>) {
    && InodeOk(v, ino) && LaidOut(v, ino, ptrs) && |ptrs| == FileBlocks(v, ino)
    && forall i :: 0 <= i < |ptrs| ==> ptrs[i] < |v.blocks|
  }

  lemma FileNoHoles(v: Volume, ino: Inode, ptrs: seq<nat>)
    requires File(v, ino, ptrs)
    ensures NoHoles(v, ino)
  {
    hide Pointer, Words, LaidOut;
    forall i | 0 <= i < FileBlocks(v, ino) ensures Pointer(v, ino, i) != 0 {
      PointerIsLaidOut(v, ino, ptrs, i);
      LaidNonZero(v, ino, ptrs, i);
    }
  }

  lemma LaidNonZero(v: Volume, ino: Inode, ptrs: seq<nat>, i: nat)
    requires LaidOut(v, ino, ptrs) && i < |ptrs|
    ensures ptrs[i] != 0
  {
  }

  lemma {:induction false} FlatIsJoined(v: Volume, ino: Inode, ptrs: seq<nat>, i: nat)
    requires File(v, ino, ptrs) && NoHoles(v, ino) && i <= |ptrs|
    ensures Whole(v, ino, i) == Joined(v, ptrs[i..])
    decreases |ptrs| - i
  {
    hide InodeOk, Pointer, Words, LaidOut;
    if i < |ptrs| {
      var b := WholeStep(v, ino, i);
      FileIsLaidOut(v, ino, ptrs);
      PointerIsLaidOut(v, ino, ptrs, i);
      FlatIsJoined(v, ino, ptrs, i + 1);
      assert ptrs[i..][1..] == ptrs[i + 1..];
    }
  }

  lemma FileIsLaidOut(v: Volume, ino: Inode, ptrs: seq<nat>)
    requires File(v, ino, ptrs)
    ensures LaidOut(v, ino, ptrs)
  {
  }

  /** The bytes a read may return are the joined blocks, cut at the size of the file. */
  lemma BytesAreJoined(v: Volume, ino: Inode, ptrs: seq<nat>)
    requires File(v, ino, ptrs)
    ensures NoHoles(v, ino) && ino.sizeLow <= |Joined(v, ptrs)|
    ensures FileBytes(v, ino) == Joined(v, ptrs)[..ino.sizeLow]
  {
    hide InodeOk, Pointer, LaidOut, Joined, NoHoles;
    FileNoHoles(v, ino, ptrs);
    FlatIsJoined(v, ino, ptrs, 0);
    assert ptrs[0..] == ptrs;
    WholeLength(v, ino);
  }

  /** Unless offset plus size wraps round 32 bits into the file, a read returns exactly the part of the joined
      blocks that was asked for, cut at the end of the file. */
  lemma ReadsLayout(v: Volume, ino: Inode, ptrs: seq<nat>, offset: nat, size: nat)
    requires File(v, ino, ptrs) && offset < WRAP && size < WRAP
    ensures InodeOk(v, ino) && ino.sizeLow <= |Joined(v, ptrs)|
    ensures !WrapsInside(ino, offset, size) ==>
              PlainRead(v, ino, offset, size) == Part(Joined(v, ptrs)[..ino.sizeLow], offset, size)
  {
    hide Pointer, LaidOut, Joined, NoHoles, PlainRead, FileBytes;
    BytesAreJoined(v, ino, ptrs);
    ReadIsExact(v, ino, offset, size);
  }

  /** The driver reads the layout, whatever it has cached. */
  method ReadFile(d: Driver, ino: Inode, ghost ptrs: seq<nat>, offset: nat, size: nat) returns (out: seq<Byte>)
    requires d.Valid() && File(d.volume, ino, ptrs) && offset < WRAP && size < WRAP
    modifies d
    ensures d.Valid() && ino.sizeLow <= |Joined(d.volume, ptrs)|
    ensures !WrapsInside(ino, offset, size) ==>
              out == Part(Joined(d.volume, ptrs)[..ino.sizeLow], offset, size)
  {
    ReadsLayout(d.volume, ino, ptrs, offset, size);
    out := d.ReadContents(ino, offset, size);
  }
}
