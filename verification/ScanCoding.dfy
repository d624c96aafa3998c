/** The scan as the standard lays it out, without a decoder's state: block k belongs to component k modulo
    three and is predicted from the block of that component before it. */
module ScanCoding {

  import opened Basics
  import opened EntropyCoding
  import opened BlockCoding

  /** The first value that predicts block `k`: that of block k - 3, or the initial one of its component. */
  function Prediction(init: seq<int>, blocks: seq<seq<int>>, k: nat): int
    requires |init| == 3 && k < |blocks| && forall b :: b in blocks ==> |b| == 64
  {
    if k < 3 then init[k] else blocks[k - 3][0]
  }

  ghost predicate Laid(tables: seq<Tables>, init: seq<int>, blocks: seq<seq<int>>) {
    && |tables| == 3 && |init| == 3 && (forall i :: 0 <= i < 3 ==> Usable(tables[i]))
    && (forall b :: b in blocks ==> |b| == 64)
    && forall k :: 0 <= k < |blocks| ==> BlockCodable(tables[k % 3], blocks[k], Prediction(init, blocks, k))
  }

  /** The bits of the blocks from `k` on. */
  ghost function ScanBits(tables: seq<Tables>, init: seq<int>, blocks: seq<seq<int>>, k: nat): seq<Bit>
    requires Laid(tables, init, blocks) && k <= |blocks|
    decreases |blocks| - k
  {
    if k == |blocks| then []
    else
      EncodeBlock(tables[k % 3], blocks[k], Prediction(init, blocks, k)) + ScanBits(tables, init, blocks, k + 1)
  }

  /** The decoder's three predictions before block `k` are those of the next three blocks. */
  ghost predicate Aligned(ch: Channels, tables: seq<Tables>, init: seq<int>, blocks: seq<seq<int>>, k: nat)
    requires |init| == 3 && forall b :: b in blocks ==> |b| == 64
  {
    && ch.tables == tables && |ch.before| == 3 && ch.turn == k % 3
    && forall j :: k <= j < k + 3 && j < |blocks| ==> ch.before[j % 3] == Prediction(init, blocks, j)
  }

  lemma AlignedNext(ch: Channels, tables: seq<Tables>, init: seq<int>, blocks: seq<seq<int>>, k: nat)
    requires |init| == 3 && (forall b :: b in blocks ==> |b| == 64) && k < |blocks|
    requires Aligned(ch, tables, init, blocks, k)
    ensures Aligned(After(ch, blocks[k][0]), tables, init, blocks, k + 1)
  {
    var z := After(ch, blocks[k][0]);
    NextTurn(k);
    forall j | k + 1 <= j < k + 4 && j < |blocks| ensures z.before[j % 3] == Prediction(init, blocks, j) {
      if j == k + 3 {
        assert j % 3 == k % 3;
      } else {
        assert j % 3 != k % 3;
      }
    }
  }

  lemma NextTurn(k: nat)
    ensures (k + 1) % 3 == (k % 3 + 1) % 3
  {
  }

  lemma {:induction false} SameCode(ch: Channels, tables: seq<Tables>, init: seq<int>, blocks: seq<seq<int>>, k: nat)
    requires Laid(tables, init, blocks) && k <= |blocks| && Aligned(ch, tables, init, blocks, k)
    ensures ScanCodable(ch, blocks[k..]) && EncodeScan(ch, blocks[k..]) == ScanBits(tables, init, blocks, k)
    decreases |blocks| - k
  {
    hide BlockCodable, EncodeBlock, Usable, Readable, After;
    LaidReady(ch, tables, init, blocks, k);
    if k < |blocks| {
      assert blocks[k..][0] == blocks[k] && blocks[k..][1..] == blocks[k + 1..];
      AlignedNext(ch, tables, init, blocks, k);
      SameCode(After(ch, blocks[k][0]), tables, init, blocks, k + 1);
    }
  }

  lemma LaidReady(ch: Channels, tables: seq<Tables>, init: seq<int>, blocks: seq<seq<int>>, k: nat)
    requires Laid(tables, init, blocks) && Aligned(ch, tables, init, blocks, k)
    ensures Ready(ch)
  {
    hide BlockCodable;
  }

  lemma AlignedStart(tables: seq<Tables>, init: seq<int>, blocks: seq<seq<int>>)
    requires Laid(tables, init, blocks)
    ensures Aligned(Channels(tables, init, 0), tables, init, blocks, 0)
  {
    hide BlockCodable, Usable;
  }

  /** Decoding inverts that coding and leaves exactly what follows. */
  lemma ScanInverts(tables: seq<Tables>, init: seq<int>, blocks: seq<seq<int>>, rest: seq<Bit>)
    requires Laid(tables, init, blocks)
    ensures Ready(Channels(tables, init, 0))
    ensures DecodeScan(Channels(tables, init, 0), |blocks|, ScanBits(tables, init, blocks, 0) + rest)
            == Scan(blocks, rest)
  {
    hide Laid, Aligned, Ready, ScanCodable, EncodeScan, DecodeScan, ScanBits;
    var ch := Channels(tables, init, 0);
    LaidSizes(tables, init, blocks);
    AlignedStart(tables, init, blocks);
    LaidReady(ch, tables, init, blocks, 0);
    assert blocks[0..] == blocks;
    SameCode(ch, tables, init, blocks, 0);
    ScanRoundTrip(ch, blocks, rest);
  }

  lemma LaidSizes(tables: seq<Tables>, init: seq<int>, blocks: seq<seq<int>>)
    requires Laid(tables, init, blocks)
    ensures |init| == 3 && forall b :: b in blocks ==> |b| == 64
  {
  }

  /** The same from the stuffed bytes of the file, whatever follows in it. */
  lemma FileInverts(tables: seq<Tables>, init: seq<int>, blocks: seq<seq<int>>, tail: seq<Byte>)
    requires Laid(tables, init, blocks)
    ensures Ready(Channels(tables, init, 0))
    ensures DecodeScan(Channels(tables, init, 0), |blocks|,
                       StreamBits(Stuff(Pack(ScanBits(tables, init, blocks, 0))) + tail)).blocks == blocks
  {
    hide Laid, Ready, DecodeScan, ScanBits, Stuff, Pack, StreamBits, Padding;
    var bits := ScanBits(tables, init, blocks, 0);
    StreamRoundTrip(bits, tail);
    Regroup(bits, Padding(bits), StreamBits(tail));
    ScanInverts(tables, init, blocks, Padding(bits) + StreamBits(tail));
  }
}
