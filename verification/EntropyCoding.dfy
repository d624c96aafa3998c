/** The entropy-coded part of a JPEG stream: the code of ITU-T T.81 on one side, the decoder's steps on
    the other, and the proof that the second undoes the first. Bits are numbers 0 and 1. */
module EntropyCoding {

  import opened Basics
  import opened Powers

  type Bit = x: int | 0 <= x < 2

  /** `a` shifted up by `n`. */
  function Shl(a: nat, n: nat): nat {
    if n == 0 then a else 2 * Shl(a, n - 1)
  }

  /** The `n` lowest bits of `v`, highest first. */
  function ToBits(v: nat, n: nat): (r: seq<Bit>)
    ensures |r| == n
  {
    if n == 0 then [] else ToBits(v / 2, n - 1) + [v % 2]
  }

  // ---------------------------------------------------------------- reading bits

  /** Past the end the reader returns zeros for ever. */
  function First(rest: seq<Bit>): Bit {
    if rest == [] then 0 else rest[0]
  }

  function Rest(rest: seq<Bit>): seq<Bit> {
    if rest == [] then [] else rest[1..]
  }

  function Wrap32(x: int): int {
    (x + 0x8000_0000) % 0x1_0000_0000 - 0x8000_0000
  }

  lemma WrapSmall(x: int)
    requires -0x8000_0000 <= x < 0x8000_0000
    ensures Wrap32(x) == x
  {
  }

  datatype Read = Read(val: int, rest: seq<Bit>)

  function TakeN(rest: seq<Bit>, n: nat): Read {
    if n == 0 then Read(0, rest)
    else
      var r := TakeN(rest, n - 1);
      Read(Wrap32(r.val * 2 + First(r.rest)), Rest(r.rest))
  }

  lemma {:induction false} TakesBack(v: nat, n: nat, rest: seq<Bit>)
    requires v < Pow2(n) && n <= 31
    ensures TakeN(ToBits(v, n) + rest, n) == Read(v, rest)
  {
    hide Wrap32;
    if n > 0 {
      var tail := [v % 2] + rest;
      assert ToBits(v, n) + rest == ToBits(v / 2, n - 1) + tail;
      TakesBack(v / 2, n - 1, tail);
      Pow2Bound(n);
      WrapSmall(v);
      assert First(tail) == v % 2 && Rest(tail) == rest && v / 2 * 2 + v % 2 == v;
    } else {
      assert ToBits(v, 0) + rest == rest;
    }
  }

  lemma {:induction false} Pow2Bound(n: nat)
    requires n <= 31
    ensures Pow2(n) <= 0x8000_0000
    ensures n <= 15 ==> Pow2(n) <= 0x8000
  {
    Pow2At31();
    Pow2Grows(n, 31);
    if n <= 15 { Pow2Grows(n, 15); }
  }

  // ---------------------------------------------------------------- canonical codes (Annex C)

  datatype Table = Table(lengths: seq<nat>, elements: seq<Byte>)

  /** How many codes have at most `i` bits. */
  function Off(t: Table, i: nat): (r: nat)
    requires i <= |t.lengths|
  {
    if i == 0 then 0 else Off(t, i - 1) + t.lengths[i - 1]
  }

  ghost predicate Sized(t: Table) {
    |t.lengths| == 16 && forall i :: 0 <= i <= 16 ==> Off(t, i) <= |t.elements|
  }

  /** The size of the `k`-th code, figure C.1: searched from level `i` on. */
  function SizeFrom(t: Table, k: nat, i: nat): (s: nat)
    requires |t.lengths| == 16 && i < 16 && Off(t, i) <= k < Off(t, 16)
    ensures i < s <= 16 && Off(t, s - 1) <= k < Off(t, s)
    decreases 16 - i
  {
    if k < Off(t, i + 1) then i + 1 else SizeFrom(t, k, i + 1)
  }

  function Size(t: Table, k: nat): (s: nat)
    requires |t.lengths| == 16 && k < Off(t, 16)
    ensures 1 <= s <= 16 && Off(t, s - 1) <= k < Off(t, s)
  {
    SizeFrom(t, k, 0)
  }

  /** The `k`-th code, figure C.2: one more than the code before, shifted up to its own size. */
  function HuffCode(t: Table, k: nat): (c: nat)
    requires |t.lengths| == 16 && k < Off(t, 16)
  {
    if k == 0 then 0
    else
      SizeGrows(t, k);
      Shl(HuffCode(t, k - 1) + 1, Size(t, k) - Size(t, k - 1))
  }

  lemma SizeGrows(t: Table, k: nat)
    requires |t.lengths| == 16 && 0 < k < Off(t, 16)
    ensures Size(t, k - 1) <= Size(t, k)
  {
    hide Off, SizeFrom, Size;
    if Size(t, k) < Size(t, k - 1) {
      OffGrows(t, Size(t, k), Size(t, k - 1) - 1);
    }
  }

  /** The first code value of `i + 1` bits: what the decoder subtracts. */
  function Start(t: Table, i: nat): (r: nat)
    requires i <= |t.lengths|
  {
    if i == 0 then 0 else 2 * (Start(t, i - 1) + t.lengths[i - 1])
  }

  /** The code lengths leave room for every code. */
  ghost predicate WellFormed(t: Table) {
    Sized(t) && forall i :: 0 <= i < 16 ==> Start(t, i) + t.lengths[i] <= Pow2(i + 1)
  }

  function CodeBits(t: Table, k: nat): (r: seq<Bit>)
    requires |t.lengths| == 16 && k < Off(t, 16)
  {
    ToBits(HuffCode(t, k), Size(t, k))
  }

  lemma {:induction false} OffGrows(t: Table, i: nat, j: nat)
    requires i <= j <= |t.lengths|
    ensures Off(t, i) <= Off(t, j)
    decreases j - i
  {
    if i < j { OffGrows(t, i, j - 1); }
  }

  /** Levels without codes only shift the first code value. */
  lemma {:induction false} StartOver(t: Table, i: nat, j: nat)
    requires i < j < |t.lengths| && Off(t, i + 1) == Off(t, j)
    ensures Start(t, j) == Shl(Start(t, i) + t.lengths[i], j - i)
    decreases j
  {
    if i + 1 < j {
      OffGrows(t, i + 1, j - 1);
      StartOver(t, i, j - 1);
    } else {
      assert Shl(Start(t, i) + t.lengths[i], 1) == 2 * Shl(Start(t, i) + t.lengths[i], 0);
    }
  }

  lemma {:induction false} StartEmpty(t: Table, i: nat)
    requires i <= |t.lengths| && Off(t, i) == 0
    ensures Start(t, i) == 0
  {
    if i > 0 { StartEmpty(t, i - 1); }
  }

  /** The table of Annex C and the decoder's running subtraction agree on every code. */
  lemma {:induction false} CodesAgree(t: Table, k: nat)
    requires |t.lengths| == 16 && k < Off(t, 16)
    ensures HuffCode(t, k) == Start(t, Size(t, k) - 1) + k - Off(t, Size(t, k) - 1)
  {
    hide Off, Start, SizeFrom, Size;
    var s := Size(t, k);
    if k == 0 {
      StartEmpty(t, s - 1);
    } else {
      var r := Size(t, k - 1);
      CodesAgree(t, k - 1);
      SizeGrows(t, k);
      if r < s {
        OffGrows(t, r, s - 1);
        OffNext(t, r - 1);
        StartOver(t, r - 1, s - 1);
      }
    }
  }

  lemma OffNext(t: Table, i: nat)
    requires i < |t.lengths|
    ensures Off(t, i + 1) == Off(t, i) + t.lengths[i]
  {
  }

  // ---------------------------------------------------------------- decoding one symbol

  /** The decoder's loop from level `i`, with the bits before it read as `val`. */
  function GetCodeFrom(t: Table, i: nat, val: nat, rest: seq<Bit>): Read
    requires Sized(t) && i <= 16 && Start(t, i) <= 2 * val
    decreases 16 - i
  {
    if i == 16 then Read(-1, rest)
    else
      var v := val * 2 + First(rest);
      if v - Start(t, i) < t.lengths[i] then
        OffStep(t, i);
        Read(t.elements[Off(t, i) + v - Start(t, i)], Rest(rest))
      else GetCodeFrom(t, i + 1, v, Rest(rest))
  }

  lemma OffStep(t: Table, i: nat)
    requires Sized(t) && i < 16
    ensures Off(t, i) + t.lengths[i] == Off(t, i + 1) <= |t.elements|
  {
  }

  function GetCode(t: Table, rest: seq<Bit>): Read
    requires Sized(t)
  {
    GetCodeFrom(t, 0, 0, rest)
  }

  /** One level that has no code for the value read. */
  lemma Rejects(t: Table, i: nat, c: nat, rest: seq<Bit>)
    requires Sized(t) && |t.lengths| == 16 && i < 16 && Start(t, i + 1) <= 2 * c
    ensures Start(t, i) <= 2 * (c / 2)
    ensures GetCodeFrom(t, i, c / 2, [c % 2] + rest) == GetCodeFrom(t, i + 1, c, rest)
  {
    hide Sized, Off;
    StartEven(t, i);
    assert Start(t, i) + t.lengths[i] <= c;
    var tail := [c % 2] + rest;
    assert First(tail) == c % 2 && Rest(tail) == rest && c / 2 * 2 + c % 2 == c;
  }

  /** Bits that make a value beyond every code of `i` bits or fewer are read past. */
  lemma {:induction false} ReadsPast(t: Table, i: nat, c: nat, rest: seq<Bit>)
    requires Sized(t) && |t.lengths| == 16 && i <= 16 && c < Pow2(i) && Start(t, i) <= 2 * c
    ensures GetCode(t, ToBits(c, i) + rest) == GetCodeFrom(t, i, c, rest)
  {
    hide Sized, Off, GetCodeFrom, Start;
    if i > 0 {
      var tail := [c % 2] + rest;
      assert ToBits(c, i) + rest == ToBits(c / 2, i - 1) + tail;
      Rejects(t, i - 1, c, rest);
      ReadsPast(t, i - 1, c / 2, tail);
    } else {
      assert ToBits(c, 0) + rest == rest;
    }
  }

  /** Every canonical code decodes to its own symbol and exactly its bits are consumed. */
  lemma SymbolRoundTrip(t: Table, k: nat, rest: seq<Bit>)
    requires WellFormed(t) && k < Off(t, 16)
    ensures k < |t.elements| && GetCode(t, CodeBits(t, k) + rest) == Read(t.elements[k], rest)
  {
    hide Off, Start, SizeFrom, Size, GetCode, GetCodeFrom, HuffCode;
    var s, c := Size(t, k), HuffCode(t, k);
    CodesAgree(t, k);
    OffStep(t, s - 1);
    assert Start(t, s - 1) + t.lengths[s - 1] <= Pow2(s - 1 + 1);
    var tail := [c % 2] + rest;
    assert CodeBits(t, k) + rest == ToBits(c / 2, s - 1) + tail;
    StartEven(t, s - 1);
    ReadsPast(t, s - 1, c / 2, tail);
    Accepts(t, s - 1, c, rest);
  }

  lemma Accepts(t: Table, i: nat, c: nat, rest: seq<Bit>)
    requires Sized(t) && |t.lengths| == 16 && i < 16
    requires Start(t, i) <= 2 * (c / 2) && c < Start(t, i) + t.lengths[i]
    ensures 0 <= Off(t, i) + c - Start(t, i) < |t.elements|
    ensures GetCodeFrom(t, i, c / 2, [c % 2] + rest) == Read(t.elements[Off(t, i) + c - Start(t, i)], rest)
  {
    hide Sized, Off, Start;
    OffStep(t, i);
    var tail := [c % 2] + rest;
    assert First(tail) == c % 2 && Rest(tail) == rest && c / 2 * 2 + c % 2 == c;
  }

  lemma StartEven(t: Table, i: nat)
    requires i <= |t.lengths|
    ensures Start(t, i) % 2 == 0
  {
  }

  // ---------------------------------------------------------------- magnitudes

  /** The number of bits of a magnitude, table F.1. */
  function Category(v: int): (c: nat)
    decreases if v >= 0 then v else -v
  {
    if v == 0 then 0 else 1 + Category(if v > 0 then v / 2 else -((-v) / 2))
  }

  /** Section F.1.2.1: negative values are sent as their low bits less one. */
  function Magnitude(v: int): (m: int) {
    if v >= 0 then v else v + Pow2(Category(v)) - 1
  }

  /** The decoder's shift by a count that need not be in range, as the processor does it. */
  function Shifted(count: int): int {
    Wrap32(Pow2(count % 32))
  }

  function Extend(code: int, bits: int): int {
    var l := Shifted(code - 1);
    if bits >= l then bits else Wrap32(bits - (2 * l - 1))
  }

  lemma {:induction false} CategoryBounds(v: int)
    ensures v != 0 ==> Category(v) >= 1 && Pow2(Category(v) - 1) <= (if v > 0 then v else -v) < Pow2(Category(v))
    ensures v == 0 ==> Category(v) == 0
    decreases if v >= 0 then v else -v
  {
    if v != 0 {
      var half := if v > 0 then v / 2 else -((-v) / 2);
      CategoryBounds(half);
      assert Category(v) == 1 + Category(half);
    }
  }

  /** Magnitude coding is undone, the empty category included. */
  lemma MagnitudeRoundTrip(v: int)
    requires Category(v) <= 30
    ensures 0 <= Magnitude(v) < Pow2(Category(v)) && Extend(Category(v), Magnitude(v)) == v
  {
    hide Wrap32, Category;
    var c := Category(v);
    CategoryBounds(v);
    Pow2Bound(c);
    if v != 0 {
      ShiftInRange(c - 1);
      assert Pow2(c) == 2 * Pow2(c - 1);
      WrapSmall(v);
    } else {
      EmptyShift();
    }
  }

  lemma ShiftInRange(n: nat)
    requires n <= 30
    ensures Shifted(n) == Pow2(n)
  {
    hide Pow2, Wrap32;
    Pow2Grows(n, 30);
    Pow2At31();
    WrapSmall(Pow2(n));
    assert n % 32 == n;
  }

  lemma EmptyShift()
    ensures Shifted(-1) == -0x8000_0000
  {
    Pow2At31();
    assert -1 % 32 == 31;
  }

  lemma Pow2At31()
    ensures Pow2(31) == 0x8000_0000 && Pow2(30) == 0x4000_0000 && Pow2(15) == 0x8000
  {
    assert Pow2(8) == 256;
    assert Pow2(15) == 0x8000;
    assert Pow2(23) == 0x80_0000;
  }

  // ---------------------------------------------------------------- bytes

  function AllBits(bytes: seq<Byte>): seq<Bit> {
    if bytes == [] then [] else ToBits(bytes[0], 8) + AllBits(bytes[1..])
  }

  /** Section F.1.2.3: a zero byte follows every byte 0xFF. */
  function Stuff(bytes: seq<Byte>): seq<Byte> {
    if bytes == [] then []
    else (if bytes[0] == 0xFF then [0xFF, 0] else [bytes[0]]) + Stuff(bytes[1..])
  }

  /** What the reader goes on with after the first byte: 0xFF and anything but zero is a marker. */
  function Advance(d: seq<Byte>): (r: seq<Byte>)
    requires d != []
    ensures |r| < |d|
  {
    if d[0] != 0xFF then d[1..] else if |d| > 1 && d[1] == 0 then d[2..] else []
  }

  function StreamBits(d: seq<Byte>): seq<Bit>
    decreases |d|
  {
    if d == [] then [] else ToBits(d[0], 8) + StreamBits(Advance(d))
  }

  lemma AdvanceStuffed(b: Byte, d: seq<Byte>)
    ensures Advance((if b == 0xFF then [0xFF, 0] else [b]) + d) == d
  {
  }

  /** The reader sees the bits of the unstuffed bytes, then whatever follows. */
  lemma {:induction false} Unstuffs(bytes: seq<Byte>, tail: seq<Byte>)
    ensures StreamBits(Stuff(bytes) + tail) == AllBits(bytes) + StreamBits(tail)
    decreases |bytes|
  {
    hide ToBits, Advance;
    if bytes == [] {
      assert Stuff(bytes) + tail == tail;
    } else {
      var more := Stuff(bytes[1..]) + tail;
      var d := (if bytes[0] == 0xFF then [0xFF, 0] else [bytes[0]]) + more;
      assert Stuff(bytes) + tail == d;
      AdvanceStuffed(bytes[0], more);
      assert StreamBits(d) == ToBits(bytes[0], 8) + StreamBits(more);
      Unstuffs(bytes[1..], tail);
      Regroup(ToBits(bytes[0], 8), AllBits(bytes[1..]), StreamBits(tail));
    }
  }

  function FromBits(s: seq<Bit>): (v: nat)
    ensures v < Pow2(|s|)
  {
    if s == [] then 0 else 2 * FromBits(s[..|s| - 1]) + s[|s| - 1]
  }

  lemma {:induction false} FromBitsBack(s: seq<Bit>)
    ensures ToBits(FromBits(s), |s|) == s
    decreases |s|
  {
    if s != [] { FromBitsBack(s[..|s| - 1]); }
  }

  function Ones(n: nat): (r: seq<Bit>)
    ensures |r| == n
  {
    seq(n, _ => 1)
  }

  function OneByte(s: seq<Bit>): Byte
    requires |s| == 8
  {
    assert Pow2(8) == 256;
    FromBits(s)
  }

  /** Whole bytes, the last one filled up with ones. */
  function Pack(bits: seq<Bit>): seq<Byte>
    decreases |bits|
  {
    if bits == [] then []
    else if |bits| < 8 then [OneByte(bits + Ones(8 - |bits|))]
    else [OneByte(bits[..8])] + Pack(bits[8..])
  }

  function Padding(bits: seq<Bit>): seq<Bit> {
    Ones((8 - |bits| % 8) % 8)
  }

  lemma {:induction false} PackBits(bits: seq<Bit>)
    ensures AllBits(Pack(bits)) == bits + Padding(bits)
    decreases |bits|
  {
    hide ToBits, FromBits, Pow2, OneByte, Padding;
    if bits == [] {
      PadOf(bits);
    } else if |bits| < 8 {
      var s := bits + Ones(8 - |bits|);
      ByteBack(s);
      PadOf(bits);
      assert [OneByte(s)][1..] == [];
      assert AllBits([OneByte(s)]) == s + AllBits([]);
    } else {
      var s := bits[..8];
      ByteBack(s);
      PackBits(bits[8..]);
      PadShift(bits);
      var bytes := [OneByte(s)] + Pack(bits[8..]);
      assert bytes[1..] == Pack(bits[8..]);
      assert AllBits(bytes) == s + AllBits(Pack(bits[8..]));
      Regroup(s, bits[8..], Padding(bits));
      assert s + bits[8..] == bits;
    }
  }

  lemma PadOf(bits: seq<Bit>)
    ensures bits == [] ==> Padding(bits) == []
    ensures 0 < |bits| < 8 ==> Padding(bits) == Ones(8 - |bits|)
  {
  }

  lemma PadShift(bits: seq<Bit>)
    requires |bits| >= 8
    ensures Padding(bits[8..]) == Padding(bits)
  {
    assert (8 - |bits[8..]| % 8) % 8 == (8 - |bits| % 8) % 8;
  }

  lemma ByteBack(s: seq<Bit>)
    requires |s| == 8
    ensures ToBits(OneByte(s), 8) == s
  {
    FromBitsBack(s);
  }

  /** From bits to stuffed bytes and back, whatever follows in the file. */
  lemma StreamRoundTrip(bits: seq<Bit>, tail: seq<Byte>)
    ensures StreamBits(Stuff(Pack(bits)) + tail) == bits + Padding(bits) + StreamBits(tail)
  {
    Unstuffs(Pack(bits), tail);
    PackBits(bits);
  }
}
