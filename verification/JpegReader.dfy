/** The decoder's bit stream, a position that moves through the file, and the loops that read from it. */
module JpegReader {

  import opened Basics
  import opened EntropyCoding
  import opened BlockCoding
  import opened ScanCoding

  /** `v` shifted down by `n`. */
  function Shr(v: nat, n: nat): nat {
    if n == 0 then v else Shr(v / 2, n - 1)
  }

  lemma {:induction false} ToBitsAt(v: nat, n: nat, i: nat)
    requires i < n
    ensures ToBits(v, n)[i] == Shr(v, n - 1 - i) % 2
  {
    if i < n - 1 {
      ToBitsAt(v / 2, n - 1, i);
    }
  }

  class BitStream {
    const data: seq<Byte>
    var byte: nat
    var bit: nat

    ghost predicate Valid()
      reads this
    {
      bit < 8 && (byte >= |data| ==> bit == 0)
    }

    /** The bits not read yet. */
    ghost function Unread(): (r: seq<Bit>)
      requires Valid()
      reads this
    {
      if byte >= |data| then [] else ToBits(data[byte], 8)[bit..] + StreamBits(Advance(data[byte..]))
    }

    constructor (data: seq<Byte>, start: nat)
      ensures Valid() && this.data == data && Unread() == if start < |data| then StreamBits(data[start..]) else []
    {
      this.data := data;
      byte, bit := start, 0;
    }

    method GetBit() returns (b: Bit)
      requires Valid()
      modifies this
      ensures Valid() && b == First(old(Unread())) && Unread() == EntropyCoding.Rest(old(Unread()))
    {
      hide ToBits, StreamBits;
      if byte >= |data| {
        return 0;
      }
      var current := data[byte];
      ToBitsAt(current, 8, bit);
      b := Shr(current, 7 - bit) % 2;
      var d := data[byte..];
      ghost var later := StreamBits(Advance(d));
      UnreadStep(ToBits(current, 8), later, bit);
      bit := bit + 1;
      if bit >= 8 {
        bit := 0;
        UnreadWhole(Advance(d));
        if current == 0xFF {
          if byte + 1 >= |data| || data[byte + 1] != 0 {
            byte := |data|;
          } else {
            byte := byte + 2;
            assert byte <= |data| && data[byte..] == Advance(d);
          }
        } else {
          byte := byte + 1;
          assert data[byte..] == Advance(d);
        }
      }
    }

    method GetBitN(l: int) returns (val: int)
      requires Valid()
      modifies this
      ensures Valid() && Read(val, Unread()) == TakeN(old(Unread()), if l < 0 then 0 else l)
    {
      hide Unread;
      val := 0;
      var i := 0;
      while i < l
        invariant Valid() && 0 <= i && (i <= l || i == 0)
        invariant Read(val, Unread()) == TakeN(old(Unread()), i)
      {
        var b := GetBit();
        val := Wrap32(val * 2 + b);
        i := i + 1;
      }
    }

    /** huffman_get_code: the symbol, or -1 when no code matches. */
    method HuffmanGetCode(t: Table) returns (code: int)
      requires Valid() && Sized(t)
      modifies this
      ensures Valid() && Read(code, Unread()) == GetCode(t, old(Unread()))
    {
      hide Unread, Sized, Off, Start, GetCodeFrom;
      SizedLengths(t);
      var val: nat, off: nat, ini: nat, i := 0, 0, 0, 0;
      while i < 16
        invariant 0 <= i <= 16 && Valid() && ini == Start(t, i) && off == Off(t, i) && ini <= 2 * val
        invariant GetCodeFrom(t, i, val, Unread()) == GetCode(t, old(Unread()))
      {
        CodeStep(t, i, val, Unread());
        var b := GetBit();
        val := val * 2 + b;
        if t.lengths[i] > 0 {
          if val - ini < t.lengths[i] {
            return t.elements[off + val - ini];
          }
          ini := ini + t.lengths[i];
          off := off + t.lengths[i];
        }
        ini := ini * 2;
        i := i + 1;
      }
      LastLevel(t, val, Unread());
      return -1;
    }

    /** build_matrix up to the inverse transform: the 64 coefficients in their coded order. */
    method ReadBlock(ts: Tables, before: int) returns (coefs: seq<int>)
      requires Valid() && Sized(ts.dc) && Sized(ts.ac)
      modifies this
      ensures Valid() && Decoded(coefs, Unread()) == DecodeBlock(ts, before, old(Unread()))
    {
      hide Unread, Sized, GetCode, TakeN, Extend, Wrap32;
      var code := HuffmanGetCode(ts.dc);
      var bits := GetBitN(code);
      coefs := Zeros()[0 := Wrap32(Extend(code, bits) + before)];
      ghost var result := DecodeBlock(ts, before, old(Unread()));
      var l := 1;
      while l < 64
        invariant 0 <= l && Valid() && |coefs| == 64
        invariant DecodeRuns(ts.ac, l, coefs, Unread()) == result
        decreases 64 - l
      {
        code := HuffmanGetCode(ts.ac);
        if code <= 0 {
          return;
        }
        var category := code;
        if code > 15 {
          l := l + code / 16;
          category := code % 16;
        }
        bits := GetBitN(category);
        if l < 64 {
          coefs := coefs[l := Extend(category, bits)];
          l := l + 1;
        }
      }
    }

    /** The loops of parse_data: `n` blocks, the components taking turns, each predicted from its last. */
    method ReadScan(ch: Channels, n: nat) returns (blocks: seq<seq<int>>)
      requires Valid() && Ready(ch)
      modifies this
      ensures Valid() && Scan(blocks, Unread()) == DecodeScan(ch, n, old(Unread()))
    {
      hide Unread, DecodeBlock, Sized;
      blocks := [];
      var now := ch;
      for i := 0 to n
        invariant Valid() && Ready(now)
        invariant ScanFrom(blocks, DecodeScan(now, n - i, Unread())) == DecodeScan(ch, n, old(Unread()))
      {
        assert Readable(now.tables[now.turn]);
        ScanStep(now, n - i, Unread(), blocks);
        var coefs := ReadBlock(now.tables[now.turn], now.before[now.turn]);
        now := After(now, coefs[0]);
        blocks := blocks + [coefs];
      }
    }
  }

  /** The entropy-coded part of a file: if what stands at `start` is the coding of `n` blocks, these are the
      blocks that come out, whatever follows in the file. */
  method ParseData(tables: seq<Tables>, data: seq<Byte>, start: nat, n: nat) returns (blocks: seq<seq<int>>)
    requires |tables| == 3 && (forall i :: 0 <= i < 3 ==> Readable(tables[i])) && start <= |data|
    ensures |blocks| == n
    ensures forall coded: seq<seq<int>>, tail: seq<Byte> ::
              IsCoding(tables, coded, data[start..], tail) && |coded| == n ==> blocks == coded
  {
    hide Laid, IsCoding, DecodeScan;
    var ch := Channels(tables, [0, 0, 0], 0);
    assert Ready(ch) by { AllReadable(ch); }
    var stream := new BitStream(data, start);
    StartOf(data, start);
    blocks := stream.ReadScan(ch, n);
    ScanLength(ch, n, StreamBits(data[start..]));
    forall coded: seq<seq<int>>, tail: seq<Byte> | IsCoding(tables, coded, data[start..], tail) && |coded| == n
      ensures blocks == coded
    {
      CodingInverts(tables, coded, data[start..], tail);
    }
  }

  lemma AllReadable(ch: Channels)
    requires |ch.tables| == 3 && |ch.before| == 3 && ch.turn < 3
    requires forall i :: 0 <= i < 3 ==> Readable(ch.tables[i])
    ensures Ready(ch)
  {
  }

  lemma StartOf(data: seq<Byte>, start: nat)
    requires start <= |data|
    ensures start == |data| ==> StreamBits(data[start..]) == []
  {
  }

  /** The file continues with the stuffed coding of the blocks, and then with `tail`. */
  ghost predicate IsCoding(tables: seq<Tables>, coded: seq<seq<int>>, file: seq<Byte>, tail: seq<Byte>) {
    Laid(tables, [0, 0, 0], coded) && file == Stuff(Pack(ScanBits(tables, [0, 0, 0], coded, 0))) + tail
  }

  lemma CodingInverts(tables: seq<Tables>, coded: seq<seq<int>>, file: seq<Byte>, tail: seq<Byte>)
    requires IsCoding(tables, coded, file, tail)
    ensures Ready(Channels(tables, [0, 0, 0], 0))
    ensures DecodeScan(Channels(tables, [0, 0, 0], 0), |coded|, StreamBits(file)).blocks == coded
  {
    hide Laid, Ready, DecodeScan, ScanBits, Stuff, Pack, StreamBits;
    FileInverts(tables, [0, 0, 0], coded, tail);
  }

  lemma {:induction false} ScanLength(ch: Channels, n: nat, rest: seq<Bit>)
    requires Ready(ch)
    ensures |DecodeScan(ch, n, rest).blocks| == n
    decreases n
  {
    hide DecodeBlock;
    if n > 0 {
      var d := DecodeBlock(ch.tables[ch.turn], ch.before[ch.turn], rest);
      ScanLength(After(ch, d.coefs[0]), n - 1, d.rest);
    }
  }

  /** Blocks read already, and what a scan goes on to give. */
  ghost function ScanFrom(blocks: seq<seq<int>>, s: Scan): Scan {
    Scan(blocks + s.blocks, s.rest)
  }

  lemma ScanStep(ch: Channels, n: nat, rest: seq<Bit>, blocks: seq<seq<int>>)
    requires Ready(ch) && n > 0 && Sized(ch.tables[ch.turn].dc) && Sized(ch.tables[ch.turn].ac)
    ensures var d := DecodeBlock(ch.tables[ch.turn], ch.before[ch.turn], rest);
            && Ready(After(ch, d.coefs[0]))
            && ScanFrom(blocks, DecodeScan(ch, n, rest))
               == ScanFrom(blocks + [d.coefs], DecodeScan(After(ch, d.coefs[0]), n - 1, d.rest))
  {
    hide DecodeBlock, Sized;
    var d := DecodeBlock(ch.tables[ch.turn], ch.before[ch.turn], rest);
    var s := DecodeScan(After(ch, d.coefs[0]), n - 1, d.rest);
    assert blocks + ([d.coefs] + s.blocks) == blocks + [d.coefs] + s.blocks;
  }

  lemma UnreadStep(bits: seq<Bit>, later: seq<Bit>, i: nat)
    requires i < |bits|
    ensures bits[i..] + later == [bits[i]] + (bits[i + 1..] + later)
  {
  }

  lemma UnreadWhole(d: seq<Byte>)
    ensures [] + StreamBits(d) == StreamBits(d)
    ensures d != [] ==> StreamBits(d) == ToBits(d[0], 8)[0..] + StreamBits(Advance(d))
    ensures d == [] ==> StreamBits(d) == []
  {
    hide ToBits;
  }

  lemma SizedLengths(t: Table)
    requires Sized(t)
    ensures |t.lengths| == 16 && Off(t, 0) == 0 && Start(t, 0) == 0
  {
  }

  /** One turn of the loop over the code lengths. */
  lemma CodeStep(t: Table, i: nat, val: nat, rest: seq<Bit>)
    requires Sized(t) && |t.lengths| == 16 && i < 16 && Start(t, i) <= 2 * val
    ensures Off(t, i) + t.lengths[i] == Off(t, i + 1) <= |t.elements|
    ensures Start(t, i + 1) == 2 * (Start(t, i) + t.lengths[i])
    ensures var v := val * 2 + First(rest);
            if v - Start(t, i) < t.lengths[i]
            then GetCodeFrom(t, i, val, rest) == Read(t.elements[Off(t, i) + v - Start(t, i)], EntropyCoding.Rest(rest))
            else GetCodeFrom(t, i, val, rest) == GetCodeFrom(t, i + 1, v, EntropyCoding.Rest(rest))
  {
    OffStep(t, i);
  }

  lemma LastLevel(t: Table, val: nat, rest: seq<Bit>)
    requires Sized(t) && |t.lengths| == 16 && Start(t, 16) <= 2 * val
    ensures GetCodeFrom(t, 16, val, rest) == Read(-1, rest)
  {
  }
}
