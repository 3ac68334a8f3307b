/**
 A flat, byte-addressed memory with little-endian machine words.

 The allocator keeps its block headers inside the memory it hands out, so header
 words and user bytes share one address space: a word store is eight byte stores.
 */
module FlatMemory {

  // sizeof (size_t) on the 64-bit target.
  const WORD: nat := 8

  // The number of values of a size_t.
  const SIZE_MOD: nat := 0x1_0000_0000_0000_0000

  type Byte = b: int | 0 <= b < 256

  type Memory = seq<Byte>

  function Pow256(w: nat): (p: nat)
    ensures p > 0
  {
    if w == 0 then 1 else 256 * Pow256(w - 1)
  }

  // The low w bytes of v, least significant first.
  function Encode(v: nat, w: nat): (bs: seq<Byte>)
    ensures |bs| == w
  {
    if w == 0 then [] else [v % 256] + Encode(v / 256, w - 1)
  }

  function Decode(bs: seq<Byte>): nat
  {
    if bs == [] then 0 else bs[0] + 256 * Decode(bs[1..])
  }

  lemma {:induction false} DecodeEncode(v: nat, w: nat)
    requires v < Pow256(w)
    ensures Decode(Encode(v, w)) == v
  {
    if w > 0 {
      DecodeEncode(v / 256, w - 1);
      assert Encode(v, w)[1..] == Encode(v / 256, w - 1);
    }
  }

  function Load(m: Memory, a: nat): nat
    requires a + WORD <= |m|
  {
    Decode(m[a..a + WORD])
  }

  function Store(m: Memory, a: nat, v: nat): (m': Memory)
    requires a + WORD <= |m|
    ensures |m'| == |m|
  {
    m[..a] + Encode(v, WORD) + m[a + WORD..]
  }

  // What a store does to every word and every byte: the word stored reads back,
  // words that do not overlap it and bytes outside it keep their value.
  lemma StoreEffect(m: Memory, a: nat, v: nat)
    requires a + WORD <= |m| && v < SIZE_MOD
    ensures Load(Store(m, a, v), a) == v
    ensures forall b: nat {:trigger Load(Store(m, a, v), b)} |
              b + WORD <= |m| && (b + WORD <= a || a + WORD <= b) ::
              Load(Store(m, a, v), b) == Load(m, b)
    ensures forall x: nat {:trigger Store(m, a, v)[x]} |
              x < |m| && (x < a || a + WORD <= x) :: Store(m, a, v)[x] == m[x]
  {
    var m' := Store(m, a, v);
    assert m'[a..a + WORD] == Encode(v, WORD);
    PowWord();
    DecodeEncode(v, WORD);
    forall b: nat | b + WORD <= |m| && (b + WORD <= a || a + WORD <= b)
      ensures Load(m', b) == Load(m, b)
    {
      assert m'[b..b + WORD] == m[b..b + WORD];
    }
  }

  lemma PowWord()
    ensures Pow256(WORD) == SIZE_MOD
  {
    assert Pow256(4) == 0x1_0000_0000;
    assert Pow256(8) == 256 * 256 * 256 * 256 * Pow256(4);
  }

  // memcpy (dst, src, n) for ranges that do not overlap.
  function Copy(m: Memory, dst: nat, src: nat, n: nat): (m': Memory)
    requires dst + n <= |m| && src + n <= |m|
    ensures |m'| == |m|
    ensures m'[dst..dst + n] == m[src..src + n]
    ensures forall x: nat | x < |m| && (x < dst || dst + n <= x) :: m'[x] == m[x]
  {
    m[..dst] + m[src..src + n] + m[dst + n..]
  }
}
