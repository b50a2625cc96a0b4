/** User memory as bytes, and the little-endian words the kernel keeps in it. */
module UserBytes {

  type byte = x: int | 0 <= x < 256
  type u64 = x: int | 0 <= x < 0x1_0000_0000_0000_0000

  // ---------------------------------------------------------------- little-endian words

  function Le(v: nat, n: nat): (r: seq<byte>)
    ensures |r| == n
  {
    if n == 0 then [] else [v % 256] + Le(v / 256, n - 1)
  }

  function FromLe(b: seq<byte>): nat
  {
    if b == [] then 0 else b[0] + 256 * FromLe(b[1..])
  }

  function Pow256(n: nat): nat
  {
    if n == 0 then 1 else 256 * Pow256(n - 1)
  }

  lemma {:induction false} LeRound(v: nat, n: nat)
    requires v < Pow256(n)
    ensures FromLe(Le(v, n)) == v
  {
    if n > 0 {
      LeRound(v / 256, n - 1);
      assert Le(v, n)[1..] == Le(v / 256, n - 1);
    }
  }

  lemma Word(v: u64)
    ensures FromLe(Le(v, 8)) == v
  {
    assert Pow256(4) == 0x1_0000_0000;
    assert Pow256(8) == 0x1_0000_0000_0000_0000 by {
      assert Pow256(6) == 256 * 256 * Pow256(4);
      assert Pow256(8) == 256 * 256 * Pow256(6);
    }
    LeRound(v, 8);
  }

  // ---------------------------------------------------------------- memory

  /** The user memory that can be reached, byte by byte. */
  type Mem = map<nat, byte>

  predicate Mapped(m: Mem, a: nat, n: nat)
  {
    forall i :: a <= i < a + n ==> i in m
  }

  function Read(m: Mem, a: nat, n: nat): (r: seq<byte>)
    requires Mapped(m, a, n)
    ensures |r| == n
  {
    seq(n, k requires 0 <= k < n => m[a + k])
  }

  function Write(m: Mem, a: nat, b: seq<byte>): (r: Mem)
    ensures forall i :: i in r <==> i in m
    ensures forall i :: i in m ==> r[i] == if a <= i < a + |b| then b[i - a] else m[i]
  {
    map i | i in m :: if a <= i < a + |b| then b[i - a] else m[i]
  }

  lemma ReadWritten(m: Mem, a: nat, b: seq<byte>)
    requires Mapped(m, a, |b|)
    ensures Read(Write(m, a, b), a, |b|) == b
  {
    var r := Read(Write(m, a, b), a, |b|);
    forall k | 0 <= k < |b|
      ensures r[k] == b[k]
    {
      assert r[k] == Write(m, a, b)[a + k];
    }
  }

  /** Two memories agree on a range. */
  predicate Same(m: Mem, r: Mem, a: nat, n: nat)
  {
    forall i :: a <= i < a + n ==> i in m && i in r && m[i] == r[i]
  }

  lemma ReadSame(m: Mem, r: Mem, a: nat, n: nat)
    requires Same(m, r, a, n)
    ensures Mapped(m, a, n) && Mapped(r, a, n) && Read(m, a, n) == Read(r, a, n)
  {
    assert forall k :: 0 <= k < n ==> Read(m, a, n)[k] == m[a + k];
    assert Read(m, a, n) == Read(r, a, n);
  }
}
