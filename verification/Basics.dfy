/** Bytes, little-endian words and a few facts about sequences that several modules share. */
module Basics {

  type Byte = x: int | 0 <= x < 256
  type Pid = nat

  /** Little-endian 32-bit load. */
  function Word(mem: seq<Byte>, o: nat): (w: nat)
    requires o + 4 <= |mem|
    ensures w < 0x1_0000_0000
  {
    mem[o] as int + 0x100 * (mem[o + 1] as int) + 0x10000 * (mem[o + 2] as int) + 0x1000000 * (mem[o + 3] as int)
  }

  function Bytes32(x: nat): (b: seq<Byte>)
    requires x < 0x1_0000_0000
    ensures |b| == 4
  {
    [x % 0x100, x / 0x100 % 0x100, x / 0x10000 % 0x100, x / 0x1000000]
  }

  lemma Recombine(x: nat)
    requires x < 0x1_0000_0000
    ensures Word(Bytes32(x), 0) == x
  {
    var q, r := x / 0x100, x % 0x100;
    var q2, r2 := q / 0x100, q % 0x100;
    assert x / 0x10000 == q2 && x / 0x1000000 == q2 / 0x100;
  }

  ghost predicate NoDup<T(!new)>(s: seq<T>) {
    forall i, j :: 0 <= i < j < |s| ==> s[i] != s[j]
  }

  lemma Regroup<T>(a: seq<T>, b: seq<T>, c: seq<T>)
    ensures a + (b + c) == (a + b) + c
  {
  }

  lemma Snoc<T>(s: seq<T>, data: seq<T>, n: nat)
    requires n < |data|
    ensures s + data[..n] + [data[n]] == s + data[..n + 1]
  {
  }
}
