/** The stack a program starts with (`build_stack` in `proc/elf.rs`), laid out as
    section 3.4.1 of the System V ABI for AMD64 asks, and how a program reads it. */
module InitialStack {
  import opened UserBytes

  const TOP: nat := 0x7FFF_FFFF_F000
  const SIZE: nat := 0x80_0000
  const LOW: nat := TOP - SIZE
  const PAGE_SIZE: u64 := 4096

  datatype Option<+T> = None | Some(value: T)

  datatype Aux = Aux(key: u64, value: u64)

  /** What the auxiliary vector says about the program and its credentials. */
  datatype Params = Params(phdr: u64, phent: u64, phnum: u64, entry: u64, uid: u64, euid: u64, gid: u64, egid: u64,
                           base: Option<u64>)

  function AuxList(p: Params, random: u64, execfn: u64): (r: seq<Aux>)
    ensures forall i :: 0 <= i < |r| ==> r[i].key != 0
  {
    [Aux(3, p.phdr), Aux(4, p.phent), Aux(5, p.phnum), Aux(6, PAGE_SIZE), Aux(9, p.entry),
     Aux(11, p.uid), Aux(12, p.euid), Aux(13, p.gid), Aux(14, p.egid), Aux(23, 0),
     Aux(25, random), Aux(31, execfn)] +
    if p.base.Some? then [Aux(7, p.base.value)] else []
  }

  // ---------------------------------------------------------------- layout

  /** Bytes taken by the first `n` strings, terminators included. */
  function Used(strs: seq<seq<byte>>, n: nat): nat
    requires n <= |strs|
  {
    if n == 0 then 0 else Used(strs, n - 1) + |strs[n - 1]| + 1
  }

  lemma {:induction false} UsedMonotone(strs: seq<seq<byte>>, i: nat, j: nat)
    requires i <= j <= |strs|
    ensures Used(strs, i) <= Used(strs, j) && (i < j ==> Used(strs, i + 1) <= Used(strs, j))
    decreases j - i
  {
    if i < j {
      UsedMonotone(strs, i + 1, j);
    }
  }

  function AddrOf(strs: seq<seq<byte>>, i: nat): int
    requires i < |strs|
  {
    TOP - Used(strs, i + 1)
  }

  /** The program's own name, its arguments and its environment, in the order they
      are pushed. */
  function Strings(argv: seq<seq<byte>>, envp: seq<seq<byte>>): seq<seq<byte>>
  {
    [if argv == [] then [] else argv[0]] + argv + envp
  }

  function Flat(aux: seq<Aux>): (r: seq<u64>)
    ensures |r| == 2 * |aux|
  {
    if aux == [] then [] else [aux[0].key, aux[0].value] + Flat(aux[1..])
  }

  function WordCount(argv: seq<seq<byte>>, envp: seq<seq<byte>>, p: Params): nat
  {
    3 + |argv| + |envp| + 2 * (|AuxList(p, 0, 0)| + 1)
  }

  function RandomAt(strs: seq<seq<byte>>): int
  {
    TOP - Used(strs, |strs|) - 16
  }

  /** Where the stack pointer ends up. */
  function StackPointer(argv: seq<seq<byte>>, envp: seq<seq<byte>>, p: Params): int
  {
    var a := RandomAt(Strings(argv, envp)) - 8 * WordCount(argv, envp, p);
    a - a % 16
  }

  /** Everything fits in the stack that is mapped. */
  predicate Fits(argv: seq<seq<byte>>, envp: seq<seq<byte>>, p: Params)
  {
    Used(Strings(argv, envp), |argv| + |envp| + 1) + 16 + 8 * WordCount(argv, envp, p) <= SIZE
  }

  lemma FitsExact(argv: seq<seq<byte>>, envp: seq<seq<byte>>, p: Params)
    ensures Fits(argv, envp, p) <==> StackPointer(argv, envp, p) >= LOW
    ensures StackPointer(argv, envp, p) % 16 == 0
  {
    var a := RandomAt(Strings(argv, envp)) - 8 * WordCount(argv, envp, p);
    assert |Strings(argv, envp)| == |argv| + |envp| + 1;
    assert LOW % 16 == 0;
  }

  /** No two strings overlap, and the random block and the words lie below them all
      without touching each other. */
  lemma Disjoint(argv: seq<seq<byte>>, envp: seq<seq<byte>>, p: Params, i: nat, j: nat)
    requires i < j < |Strings(argv, envp)|
    ensures var s := Strings(argv, envp);
            && AddrOf(s, j) + |s[j]| + 1 <= AddrOf(s, i) && AddrOf(s, i) + |s[i]| + 1 <= TOP
            && RandomAt(s) + 16 <= AddrOf(s, j)
            && StackPointer(argv, envp, p) + 8 * WordCount(argv, envp, p) <= RandomAt(s)
  {
    var s := Strings(argv, envp);
    UsedMonotone(s, i + 1, j);
    UsedMonotone(s, j + 1, |s|);
    UsedMonotone(s, 0, i);
  }

  /** The words, given where the strings are. */
  function Vector(argc: u64, argvA: seq<u64>, envpA: seq<u64>, aux: seq<Aux>): (w: seq<u64>)
    ensures |w| == 3 + |argvA| + |envpA| + 2 * (|aux| + 1)
  {
    [argc] + argvA + [0] + envpA + [0] + Flat(aux + [Aux(0, 0)])
  }

  // ---------------------------------------------------------------- what memory holds

  predicate At(m: Mem, a: nat, b: seq<byte>)
  {
    forall k :: a <= k < a + |b| ==> k in m && m[k] == b[k - a]
  }

  lemma AtByte(m: Mem, a: nat, b: seq<byte>, i: nat)
    requires At(m, a, b) && i < |b|
    ensures a + i in m && m[a + i] == b[i]
  {
  }

  lemma AtWritten(m: Mem, a: nat, b: seq<byte>)
    requires Mapped(m, a, |b|)
    ensures At(Write(m, a, b), a, b)
  {
  }

  lemma AtKept(m: Mem, a: nat, b: seq<byte>, c: nat, d: seq<byte>)
    requires At(m, a, b) && (a + |b| <= c || c + |d| <= a)
    ensures At(Write(m, c, d), a, b)
  {
  }

  ghost predicate StringAt(m: Mem, strs: seq<seq<byte>>, i: nat)
  {
    i < |strs| ==> AddrOf(strs, i) >= 0 && At(m, AddrOf(strs, i), strs[i] + [0])
  }

  // ---------------------------------------------------------------- how a program reads it

  function ReadU64(m: Mem, a: nat): nat
  {
    if Mapped(m, a, 8) then FromLe(Read(m, a, 8)) else 0
  }

  /** Words from `a` up to the first zero. */
  function Pointers(m: Mem, a: nat): seq<nat>
    decreases TOP - a
  {
    if a >= TOP || ReadU64(m, a) == 0 then [] else [ReadU64(m, a)] + Pointers(m, a + 8)
  }

  function Pairs(m: Mem, a: nat): seq<(nat, nat)>
    decreases TOP - a
  {
    if a >= TOP || ReadU64(m, a) == 0 then [] else [(ReadU64(m, a), ReadU64(m, a + 8))] + Pairs(m, a + 16)
  }

  function CString(m: Mem, a: nat): seq<byte>
    decreases TOP - a
  {
    if a >= TOP || a !in m || m[a] == 0 then [] else [m[a]] + CString(m, a + 1)
  }

  lemma ReadAt(m: Mem, a: nat, v: u64)
    requires At(m, a, Le(v, 8))
    ensures ReadU64(m, a) == v
  {
    forall i | a <= i < a + 8
      ensures i in m
    {
      AtByte(m, a, Le(v, 8), i - a);
    }
    forall i | 0 <= i < 8
      ensures Read(m, a, 8)[i] == Le(v, 8)[i]
    {
      AtByte(m, a, Le(v, 8), i);
    }
    assert Read(m, a, 8) == Le(v, 8);
    Word(v);
  }

  lemma AtTail(m: Mem, a: nat, s: seq<byte>)
    requires At(m, a, s + [0]) && s != []
    ensures At(m, a + 1, s[1..] + [0])
  {
    var t := s[1..] + [0];
    forall k | a + 1 <= k < a + 1 + |t|
      ensures k in m && m[k] == t[k - (a + 1)]
    {
      assert (s + [0])[k - a] == t[k - (a + 1)];
    }
  }

  /** A string is read back whole exactly when it holds no terminator itself. */
  lemma {:induction false} CStringIs(m: Mem, a: nat, s: seq<byte>)
    requires At(m, a, s + [0]) && a + |s| < TOP
    ensures CString(m, a) == s <==> 0 !in s
    ensures |CString(m, a)| <= |s|
    decreases |s|
  {
    AtByte(m, a, s + [0], 0);
    if s != [] {
      AtTail(m, a, s);
      CStringIs(m, a + 1, s[1..]);
      assert s == [s[0]] + s[1..];
    }
  }

  lemma {:induction false} PointersIs(m: Mem, a: nat, w: seq<u64>)
    requires a + 8 * |w| < TOP && forall i :: 0 <= i < |w| ==> w[i] != 0 && ReadU64(m, a + 8 * i) == w[i]
    requires ReadU64(m, a + 8 * |w|) == 0
    ensures |Pointers(m, a)| == |w| && forall i :: 0 <= i < |w| ==> Pointers(m, a)[i] == w[i]
    decreases |w|
  {
    if w != [] {
      assert ReadU64(m, a + 8 * 0) == w[0];
      forall i | 0 <= i < |w[1..]|
        ensures w[1..][i] != 0 && ReadU64(m, (a + 8) + 8 * i) == w[1..][i]
      {
        assert w[1..][i] == w[i + 1] && ReadU64(m, a + 8 * (i + 1)) == w[i + 1];
      }
      PointersIs(m, a + 8, w[1..]);
      forall i | 0 <= i < |w|
        ensures Pointers(m, a)[i] == w[i]
      {
        if i > 0 {
          assert Pointers(m, a)[i] == Pointers(m, a + 8)[i - 1] && w[i] == w[1..][i - 1];
        }
      }
    }
  }

  lemma {:induction false} PairsIs(m: Mem, a: nat, aux: seq<Aux>)
    requires a + 16 * |aux| < TOP && forall i :: 0 <= i < |aux| ==> aux[i].key != 0
    requires forall i :: 0 <= i < |aux| ==>
               ReadU64(m, a + 16 * i) == aux[i].key && ReadU64(m, a + 16 * i + 8) == aux[i].value
    requires ReadU64(m, a + 16 * |aux|) == 0
    ensures |Pairs(m, a)| == |aux| && forall i :: 0 <= i < |aux| ==> Pairs(m, a)[i] == (aux[i].key, aux[i].value)
    decreases |aux|
  {
    if aux != [] {
      var rest := aux[1..];
      assert ReadU64(m, a + 16 * 0) == aux[0].key && ReadU64(m, a + 16 * 0 + 8) == aux[0].value;
      forall i | 0 <= i < |rest|
        ensures ReadU64(m, (a + 16) + 16 * i) == rest[i].key && ReadU64(m, (a + 16) + 16 * i + 8) == rest[i].value
      {
        assert rest[i] == aux[i + 1] && ReadU64(m, a + 16 * (i + 1)) == aux[i + 1].key
               && ReadU64(m, a + 16 * (i + 1) + 8) == aux[i + 1].value;
      }
      PairsIs(m, a + 16, rest);
      forall i | 0 <= i < |aux|
        ensures Pairs(m, a)[i] == (aux[i].key, aux[i].value)
      {
        if i > 0 {
          assert Pairs(m, a)[i] == Pairs(m, a + 16)[i - 1] && aux[i] == rest[i - 1];
        }
      }
    }
  }

  lemma {:induction false} FlatAt(aux: seq<Aux>, i: nat)
    requires i < |aux|
    ensures Flat(aux)[2 * i] == aux[i].key && Flat(aux)[2 * i + 1] == aux[i].value
    decreases |aux|
  {
    if i > 0 {
      FlatAt(aux[1..], i - 1);
      assert Flat(aux)[2 * i] == Flat(aux[1..])[2 * (i - 1)] && Flat(aux)[2 * i + 1] == Flat(aux[1..])[2 * (i - 1) + 1];
    }
  }

  // ---------------------------------------------------------------- round trip

  /** The words are in memory at `sp`. */
  ghost predicate VectorAt(m: Mem, sp: nat, w: seq<u64>)
  {
    forall i {:trigger WordIs(m, sp, w, i)} :: WordIs(m, sp, w, i)
  }

  predicate WordIs(m: Mem, sp: nat, w: seq<u64>, i: int)
  {
    0 <= i < |w| ==> ReadU64(m, sp + 8 * i) == w[i]
  }

  lemma PointersFrom(m: Mem, sp: nat, w: seq<u64>, k: nat, ptrs: seq<u64>)
    requires VectorAt(m, sp, w) && k + |ptrs| < |w| && sp + 8 * |w| <= TOP
    requires w[k..k + |ptrs|] == ptrs && w[k + |ptrs|] == 0 && forall i :: 0 <= i < |ptrs| ==> ptrs[i] != 0
    ensures var a := sp + 8 * k;
            |Pointers(m, a)| == |ptrs| && forall i :: 0 <= i < |ptrs| ==> Pointers(m, a)[i] == ptrs[i]
  {
    var a := sp + 8 * k;
    forall i | 0 <= i < |ptrs|
      ensures ReadU64(m, a + 8 * i) == ptrs[i]
    {
      assert WordIs(m, sp, w, k + i) && w[k + i] == w[k..k + |ptrs|][i];
    }
    assert WordIs(m, sp, w, k + |ptrs|);
    PointersIs(m, a, ptrs);
  }

  /** `w` is made of the count, the two null-terminated lists and the pairs. */
  predicate IsVector(w: seq<u64>, argc: u64, argvA: seq<u64>, envpA: seq<u64>, aux: seq<Aux>)
  {
    var n := |argvA|;
    && |w| == 3 + n + |envpA| + 2 * (|aux| + 1)
    && w[0] == argc && w[1..1 + n] == argvA && w[1 + n] == 0
    && w[n + 2..n + 2 + |envpA|] == envpA && w[n + 2 + |envpA|] == 0
    && w[n + |envpA| + 3..] == Flat(aux + [Aux(0, 0)])
  }

  lemma VectorShape(argc: u64, argvA: seq<u64>, envpA: seq<u64>, aux: seq<Aux>)
    ensures IsVector(Vector(argc, argvA, envpA, aux), argc, argvA, envpA, aux)
  {
  }

  lemma ArgvRead(m: Mem, sp: nat, w: seq<u64>, argc: u64, argvA: seq<u64>, envpA: seq<u64>, aux: seq<Aux>)
    requires VectorAt(m, sp, w) && sp + 8 * |w| <= TOP && IsVector(w, argc, argvA, envpA, aux)
    requires forall i :: 0 <= i < |argvA| ==> argvA[i] != 0
    ensures ReadU64(m, sp) == argc
    ensures |Pointers(m, sp + 8)| == |argvA| && forall i :: 0 <= i < |argvA| ==> Pointers(m, sp + 8)[i] == argvA[i]
  {
    assert WordIs(m, sp, w, 0);
    PointersFrom(m, sp, w, 1, argvA);
  }

  lemma EnvpRead(m: Mem, sp: nat, w: seq<u64>, argc: u64, argvA: seq<u64>, envpA: seq<u64>, aux: seq<Aux>)
    requires VectorAt(m, sp, w) && sp + 8 * |w| <= TOP && IsVector(w, argc, argvA, envpA, aux)
    requires forall i :: 0 <= i < |envpA| ==> envpA[i] != 0
    ensures var a := sp + 8 * (|argvA| + 2);
            |Pointers(m, a)| == |envpA| && forall i :: 0 <= i < |envpA| ==> Pointers(m, a)[i] == envpA[i]
  {
    PointersFrom(m, sp, w, |argvA| + 2, envpA);
  }

  lemma AuxRead(m: Mem, sp: nat, w: seq<u64>, argc: u64, argvA: seq<u64>, envpA: seq<u64>, aux: seq<Aux>)
    requires VectorAt(m, sp, w) && sp + 8 * |w| <= TOP && IsVector(w, argc, argvA, envpA, aux)
    requires forall i :: 0 <= i < |aux| ==> aux[i].key != 0
    ensures var a := sp + 8 * (|argvA| + |envpA| + 3);
            |Pairs(m, a)| == |aux| && forall i :: 0 <= i < |aux| ==> Pairs(m, a)[i] == (aux[i].key, aux[i].value)
  {
    var n := |argvA| + |envpA| + 3;
    var a := sp + 8 * n;
    var all := aux + [Aux(0, 0)];
    forall i | 0 <= i < |all|
      ensures ReadU64(m, a + 16 * i) == all[i].key && ReadU64(m, a + 16 * i + 8) == all[i].value
    {
      FlatAt(all, i);
      PairRead(m, sp, w, n, i, all[i]);
    }
    assert all[|aux|].key == 0 && forall i :: 0 <= i < |aux| ==> all[i] == aux[i];
    PairsIs(m, a, aux);
  }

  lemma PairRead(m: Mem, sp: nat, w: seq<u64>, n: nat, i: nat, pair: Aux)
    requires VectorAt(m, sp, w) && n + 2 * i + 1 < |w| && w[n..][2 * i] == pair.key && w[n..][2 * i + 1] == pair.value
    ensures var a := sp + 8 * n; ReadU64(m, a + 16 * i) == pair.key && ReadU64(m, a + 16 * i + 8) == pair.value
  {
    TailWord(m, sp, w, n, 2 * i);
    TailWord(m, sp, w, n, 2 * i + 1);
  }

  lemma TailWord(m: Mem, sp: nat, w: seq<u64>, n: nat, j: nat)
    requires VectorAt(m, sp, w) && n + j < |w|
    ensures ReadU64(m, sp + 8 * n + 8 * j) == w[n..][j]
  {
    assert WordIs(m, sp, w, n + j);
  }

  /** What a program finds from its stack pointer up. */
  datatype Image = Image(argc: nat, argv: seq<seq<byte>>, envp: seq<seq<byte>>, auxv: seq<(nat, nat)>)

  function CStrings(m: Mem, ptrs: seq<nat>): (r: seq<seq<byte>>)
    ensures |r| == |ptrs|
  {
    seq(|ptrs|, i requires 0 <= i < |ptrs| => CString(m, ptrs[i]))
  }

  function Decode(m: Mem, sp: nat): Image
  {
    var argvA := Pointers(m, sp + 8);
    var envpA := Pointers(m, sp + 8 * (|argvA| + 2));
    Image(ReadU64(m, sp), CStrings(m, argvA), CStrings(m, envpA), Pairs(m, sp + 8 * (|argvA| + |envpA| + 3)))
  }

  function AddrWord(strs: seq<seq<byte>>, i: nat): (a: u64)
    requires i < |strs| && Used(strs, |strs|) < TOP
    ensures a == AddrOf(strs, i) && a != 0
  {
    UsedMonotone(strs, i + 1, |strs|);
    AddrOf(strs, i)
  }

  /** Addresses of `n` strings from the `k`-th on. */
  function Addrs(strs: seq<seq<byte>>, k: nat, n: nat): (r: seq<u64>)
    requires k + n <= |strs| && Used(strs, |strs|) < TOP
    ensures |r| == n && forall i :: 0 <= i < n ==> r[i] == AddrOf(strs, k + i) && r[i] != 0
    decreases n
  {
    if n == 0 then [] else [AddrWord(strs, k)] + Addrs(strs, k + 1, n - 1)
  }

  function AuxPairs(aux: seq<Aux>): seq<(nat, nat)>
  {
    seq(|aux|, i requires 0 <= i < |aux| => (aux[i].key, aux[i].value))
  }

  predicate NoNul(strs: seq<seq<byte>>)
  {
    forall i :: 0 <= i < |strs| ==> 0 !in strs[i]
  }

  /** Pointers to the `n` strings from the `k`-th on. */
  predicate PointsTo(strs: seq<seq<byte>>, k: nat, n: nat, ptrs: seq<nat>)
  {
    && k + n <= |strs| && |ptrs| == n
    && forall i :: 0 <= i < n ==> ptrs[i] == AddrOf(strs, k + i)
  }

  lemma PointsToAddrs(strs: seq<seq<byte>>, k: nat, n: nat, ptrs: seq<nat>)
    requires k + n <= |strs| && Used(strs, |strs|) < TOP && |ptrs| == n
    requires forall i :: 0 <= i < n ==> ptrs[i] == Addrs(strs, k, n)[i]
    ensures PointsTo(strs, k, n, ptrs)
  {
  }

  lemma StringRead(m: Mem, strs: seq<seq<byte>>, i: nat, p: nat)
    requires i < |strs| && Used(strs, |strs|) < TOP && StringAt(m, strs, i) && p == AddrOf(strs, i)
    ensures CString(m, p) == strs[i] <==> 0 !in strs[i]
  {
    UsedMonotone(strs, 0, i);
    CStringIs(m, p, strs[i]);
  }

  lemma StringsRead(m: Mem, strs: seq<seq<byte>>, k: nat, n: nat, ptrs: seq<nat>, want: seq<seq<byte>>)
    requires PointsTo(strs, k, n, ptrs) && Used(strs, |strs|) < TOP && want == strs[k..k + n]
    requires forall i {:trigger StringAt(m, strs, i)} :: StringAt(m, strs, i)
    ensures CStrings(m, ptrs) == want <==> NoNul(want)
  {
    var got := CStrings(m, ptrs);
    forall i | 0 <= i < n
      ensures got[i] == want[i] <==> 0 !in want[i]
    {
      assert want[i] == strs[k + i] && StringAt(m, strs, k + i);
      StringRead(m, strs, k + i, ptrs[i]);
    }
    if NoNul(want) {
      assert got == want;
    } else {
      var i :| 0 <= i < n && 0 in want[i];
      assert got[i] != want[i];
    }
  }

  lemma PairsAre(m: Mem, a: nat, aux: seq<Aux>)
    requires |Pairs(m, a)| == |aux| && forall i :: 0 <= i < |aux| ==> Pairs(m, a)[i] == (aux[i].key, aux[i].value)
    ensures Pairs(m, a) == AuxPairs(aux)
  {
  }

  /** The strings are in memory, and `w` with their addresses is at `sp`. */
  ghost predicate Built(m: Mem, sp: nat, strs: seq<seq<byte>>, na: nat, ne: nat, w: seq<u64>, aux: seq<Aux>)
  {
    && |strs| == 1 + na + ne && na < 0x1_0000_0000_0000_0000 && Used(strs, |strs|) < TOP
    && (forall i {:trigger StringAt(m, strs, i)} :: StringAt(m, strs, i))
    && IsVector(w, na, Addrs(strs, 1, na), Addrs(strs, 1 + na, ne), aux)
    && VectorAt(m, sp, w) && sp + 8 * |w| <= TOP
    && (forall i :: 0 <= i < |aux| ==> aux[i].key != 0)
  }

  lemma DecodeArgv(m: Mem, sp: nat, strs: seq<seq<byte>>, na: nat, ne: nat, w: seq<u64>, aux: seq<Aux>)
    requires Built(m, sp, strs, na, ne, w, aux)
    ensures ReadU64(m, sp) == na && |Pointers(m, sp + 8)| == na
    ensures CStrings(m, Pointers(m, sp + 8)) == strs[1..1 + na] <==> NoNul(strs[1..1 + na])
  {
    ArgvRead(m, sp, w, na, Addrs(strs, 1, na), Addrs(strs, 1 + na, ne), aux);
    PointsToAddrs(strs, 1, na, Pointers(m, sp + 8));
    StringsRead(m, strs, 1, na, Pointers(m, sp + 8), strs[1..1 + na]);
  }

  lemma DecodeEnvp(m: Mem, sp: nat, strs: seq<seq<byte>>, na: nat, ne: nat, w: seq<u64>, aux: seq<Aux>)
    requires Built(m, sp, strs, na, ne, w, aux)
    ensures var p := Pointers(m, sp + 8 * (na + 2));
            |p| == ne && (CStrings(m, p) == strs[1 + na..1 + na + ne] <==> NoNul(strs[1 + na..1 + na + ne]))
  {
    EnvpRead(m, sp, w, na, Addrs(strs, 1, na), Addrs(strs, 1 + na, ne), aux);
    PointsToAddrs(strs, 1 + na, ne, Pointers(m, sp + 8 * (na + 2)));
    StringsRead(m, strs, 1 + na, ne, Pointers(m, sp + 8 * (na + 2)), strs[1 + na..1 + na + ne]);
  }

  lemma DecodeAux(m: Mem, sp: nat, strs: seq<seq<byte>>, na: nat, ne: nat, w: seq<u64>, aux: seq<Aux>)
    requires Built(m, sp, strs, na, ne, w, aux)
    ensures Pairs(m, sp + 8 * (na + ne + 3)) == AuxPairs(aux)
  {
    AuxRead(m, sp, w, na, Addrs(strs, 1, na), Addrs(strs, 1 + na, ne), aux);
    PairsAre(m, sp + 8 * (na + ne + 3), aux);
  }

  lemma DecodeIs(m: Mem, sp: nat, strs: seq<seq<byte>>, na: nat, ne: nat, w: seq<u64>, aux: seq<Aux>, d: Image)
    requires Built(m, sp, strs, na, ne, w, aux) && d == Decode(m, sp)
    ensures d.argc == na && |d.argv| == na && |d.envp| == ne && d.auxv == AuxPairs(aux)
    ensures d.argv == strs[1..1 + na] <==> NoNul(strs[1..1 + na])
    ensures d.envp == strs[1 + na..1 + na + ne] <==> NoNul(strs[1 + na..1 + na + ne])
  {
    DecodeArgv(m, sp, strs, na, ne, w, aux);
    DecodeEnvp(m, sp, strs, na, ne, w, aux);
    DecodeAux(m, sp, strs, na, ne, w, aux);
  }

  /** A program that reads the stack from its stack pointer up finds the argument
      count, every argument, every environment string and the auxiliary vector, in
      order; each list of strings whole exactly when none has a terminator inside. */
  lemma RoundTrip(m: Mem, sp: nat, argv: seq<seq<byte>>, envp: seq<seq<byte>>, w: seq<u64>, aux: seq<Aux>, d: Image)
    requires Built(m, sp, Strings(argv, envp), |argv|, |envp|, w, aux) && d == Decode(m, sp)
    ensures d.argc == |argv| && |d.argv| == |argv| && |d.envp| == |envp| && d.auxv == AuxPairs(aux)
    ensures (d.argv == argv <==> NoNul(argv)) && (d.envp == envp <==> NoNul(envp))
  {
    DecodeIs(m, sp, Strings(argv, envp), |argv|, |envp|, w, aux, d);
    StringsSplit(argv, envp);
  }

  lemma StringsSplit(argv: seq<seq<byte>>, envp: seq<seq<byte>>)
    ensures var s := Strings(argv, envp); s[1..1 + |argv|] == argv && s[1 + |argv|..1 + |argv| + |envp|] == envp
  {
  }

  // ---------------------------------------------------------------- building it

  /** Pushes one string and its terminator below `sp`. */
  method Push(m: Mem, sp: nat, s: seq<byte>) returns (r: Mem)
    requires sp >= |s| + 1 && Mapped(m, sp - |s| - 1, |s| + 1)
    ensures r == Write(m, sp - |s| - 1, s + [0])
  {
    var at := sp - |s| - 1;
    var one := Write(m, at, s);
    r := Write(one, at + |s|, [0]);
    assert r == Write(m, at, s + [0]);
  }

  lemma StringsKept(m: Mem, strs: seq<seq<byte>>, n: nat, c: nat, d: seq<byte>)
    requires n <= |strs| && Used(strs, n) <= TOP && c + |d| <= TOP - Used(strs, n)
    requires forall i :: 0 <= i < n ==> StringAt(m, strs, i)
    ensures forall i :: 0 <= i < n ==> StringAt(Write(m, c, d), strs, i)
  {
    forall i | 0 <= i < n
      ensures StringAt(Write(m, c, d), strs, i)
    {
      assert StringAt(m, strs, i);
      UsedMonotone(strs, i + 1, n);
      AtKept(m, AddrOf(strs, i), strs[i] + [0], c, d);
    }
  }

  lemma MappedPart(m: Mem, a: nat, n: nat)
    requires Mapped(m, LOW, SIZE) && LOW <= a && a + n <= TOP
    ensures Mapped(m, a, n)
  {
  }

  /** Pushes all strings, top down, as long as they stay inside the stack. */
  method PushAll(m: Mem, strs: seq<seq<byte>>) returns (ok: bool, r: Mem)
    requires Mapped(m, LOW, SIZE)
    ensures ok <==> Used(strs, |strs|) <= SIZE
    ensures ok ==> Mapped(r, LOW, SIZE) && forall i :: 0 <= i < |strs| ==> StringAt(r, strs, i)
  {
    r := m;
    var i := 0;
    var sp := TOP;
    while i < |strs|
      invariant 0 <= i <= |strs| && sp == TOP - Used(strs, i) && Used(strs, i) <= SIZE
      invariant Mapped(r, LOW, SIZE) && forall j :: 0 <= j < i ==> StringAt(r, strs, j)
    {
      UsedMonotone(strs, i + 1, |strs|);
      if sp - LOW < |strs[i]| + 1 {
        return false, r;
      }
      MappedPart(r, sp - |strs[i]| - 1, |strs[i]| + 1);
      StringsKept(r, strs, i, sp - |strs[i]| - 1, strs[i] + [0]);
      AtWritten(r, sp - |strs[i]| - 1, strs[i] + [0]);
      r := Push(r, sp, strs[i]);
      sp := sp - |strs[i]| - 1;
      i := i + 1;
    }
    ok := true;
  }

  lemma AtOutside(m: Mem, r: Mem, a: nat, b: seq<byte>, lo: nat, hi: nat)
    requires At(m, a, b) && (a + |b| <= lo || hi <= a)
    requires forall k :: k in m ==> k in r && (k < lo || hi <= k ==> r[k] == m[k])
    ensures At(r, a, b)
  {
  }

  /** The words as the bytes they are written as. */
  function Blocks(w: seq<u64>): (r: seq<seq<byte>>)
    ensures |r| == |w| && forall i :: 0 <= i < |w| ==> r[i] == Le(w[i], 8)
  {
    seq(|w|, i requires 0 <= i < |w| => Le(w[i], 8))
  }

  ghost predicate BlockAt(m: Mem, sp: nat, b: seq<seq<byte>>, i: nat)
  {
    i < |b| ==> At(m, sp + 8 * i, b[i])
  }

  lemma OneBlock(m: Mem, r: Mem, sp: nat, b: seq<seq<byte>>, i: nat, j: nat)
    requires j <= i < |b| && |b[i]| == 8 && |b[j]| == 8 && Mapped(m, sp + 8 * i, 8) && r == Write(m, sp + 8 * i, b[i])
    requires j < i ==> BlockAt(m, sp, b, j)
    ensures BlockAt(r, sp, b, j)
  {
    if j < i {
      AtKept(m, sp + 8 * j, b[j], sp + 8 * i, b[i]);
    } else {
      AtWritten(m, sp + 8 * i, b[i]);
    }
  }

  /** Writing the next block keeps those before it. */
  lemma BlocksMore(m: Mem, r: Mem, sp: nat, b: seq<seq<byte>>, i: nat)
    requires i < |b| && (forall j :: 0 <= j < |b| ==> |b[j]| == 8) && Mapped(m, sp + 8 * i, 8)
    requires r == Write(m, sp + 8 * i, b[i])
    requires forall j :: 0 <= j < i ==> BlockAt(m, sp, b, j)
    ensures forall j :: 0 <= j < i + 1 ==> BlockAt(r, sp, b, j)
  {
    forall j: nat | j < i + 1
      ensures BlockAt(r, sp, b, j)
    {
      OneBlock(m, r, sp, b, i, j);
    }
  }

  /** Only the range from `lo` to `hi` may differ. */
  ghost predicate SameOutside(m: Mem, r: Mem, lo: nat, hi: nat)
  {
    && (forall k :: k in m <==> k in r)
    && (forall k :: k in m && (k < lo || hi <= k) ==> r[k] == m[k])
  }

  lemma OutsideMore(m: Mem, mid: Mem, lo: nat, hi: nat, b: seq<byte>)
    requires SameOutside(m, mid, lo, hi) && lo <= hi
    ensures SameOutside(m, Write(mid, hi, b), lo, hi + |b|)
  {
  }

  /** Writes the words one by one. */
  method WriteWords(m: Mem, sp: nat, w: seq<u64>) returns (r: Mem)
    requires Mapped(m, sp, 8 * |w|)
    ensures VectorAt(r, sp, w) && SameOutside(m, r, sp, sp + 8 * |w|)
  {
    r := m;
    var b := Blocks(w);
    var i := 0;
    while i < |b|
      invariant 0 <= i <= |b| && SameOutside(m, r, sp, sp + 8 * i)
      invariant forall j :: 0 <= j < i ==> BlockAt(r, sp, b, j)
    {
      ghost var was := r;
      r := Write(r, sp + 8 * i, b[i]);
      OutsideMore(m, was, sp, sp + 8 * i, b[i]);
      BlocksMore(was, r, sp, b, i);
      i := i + 1;
    }
    BlocksRead(r, sp, w);
  }

  lemma BlocksRead(m: Mem, sp: nat, w: seq<u64>)
    requires forall j :: 0 <= j < |w| ==> BlockAt(m, sp, Blocks(w), j)
    ensures VectorAt(m, sp, w)
  {
    forall j
      ensures WordIs(m, sp, w, j)
    {
      if 0 <= j < |w| {
        assert BlockAt(m, sp, Blocks(w), j);
        ReadAt(m, sp + 8 * j, w[j]);
      }
    }
  }

  lemma {:induction false} UsedAtLeast(strs: seq<seq<byte>>, n: nat)
    requires n <= |strs|
    ensures Used(strs, n) >= n
  {
    if n > 0 {
      UsedAtLeast(strs, n - 1);
    }
  }

  /** The words a program with these strings gets. */
  function WordsFor(argv: seq<seq<byte>>, envp: seq<seq<byte>>, p: Params): (w: seq<u64>)
    requires Fits(argv, envp, p)
    ensures |w| == WordCount(argv, envp, p)
    ensures IsVector(w, |argv|, Addrs(Strings(argv, envp), 1, |argv|), Addrs(Strings(argv, envp), 1 + |argv|, |envp|),
                     AuxFor(argv, envp, p))
  {
    var strs := Strings(argv, envp);
    UsedAtLeast(strs, |strs|);
    VectorShape(|argv|, Addrs(strs, 1, |argv|), Addrs(strs, 1 + |argv|, |envp|), AuxFor(argv, envp, p));
    Vector(|argv|, Addrs(strs, 1, |argv|), Addrs(strs, 1 + |argv|, |envp|), AuxFor(argv, envp, p))
  }

  function AuxFor(argv: seq<seq<byte>>, envp: seq<seq<byte>>, p: Params): (r: seq<Aux>)
    requires Fits(argv, envp, p)
    ensures |r| == |AuxList(p, 0, 0)| && forall i :: 0 <= i < |r| ==> r[i].key != 0
  {
    AuxList(p, RandomAt(Strings(argv, envp)), AddrWord(Strings(argv, envp), 0))
  }

  lemma StringsOutside(m: Mem, r: Mem, strs: seq<seq<byte>>, lo: nat, hi: nat)
    requires Used(strs, |strs|) <= TOP && hi <= TOP - Used(strs, |strs|)
    requires forall i :: 0 <= i < |strs| ==> StringAt(m, strs, i)
    requires forall k :: k in m ==> k in r && (k < lo || hi <= k ==> r[k] == m[k])
    ensures forall i {:trigger StringAt(r, strs, i)} :: StringAt(r, strs, i)
  {
    forall i: nat
      ensures StringAt(r, strs, i)
    {
      if i < |strs| {
        assert StringAt(m, strs, i);
        UsedMonotone(strs, i + 1, |strs|);
        AtOutside(m, r, AddrOf(strs, i), strs[i] + [0], lo, hi);
      }
    }
  }

  /** `build_stack`: succeeds exactly when everything fits, and then the stack pointer
      is 16-aligned and everything a program reads from it is in place. */
  method BuildStack(m: Mem, argv: seq<seq<byte>>, envp: seq<seq<byte>>, p: Params, random: seq<byte>)
    returns (sp: Option<nat>, r: Mem)
    requires Mapped(m, LOW, SIZE) && |random| == 16
    ensures sp.Some? <==> Fits(argv, envp, p)
    ensures sp.Some? ==> sp.value == StackPointer(argv, envp, p) && sp.value % 16 == 0
    ensures sp.Some? ==>
              Built(r, sp.value, Strings(argv, envp), |argv|, |envp|, WordsFor(argv, envp, p), AuxFor(argv, envp, p))
    ensures sp.Some? ==> At(r, RandomAt(Strings(argv, envp)), random)
  {
    var strs := Strings(argv, envp);
    var used := Used(strs, |strs|);
    FitsExact(argv, envp, p);
    var ok;
    ok, r := PushAll(m, strs);
    if !ok || TOP - used - 16 < LOW {
      return None, r;
    }
    var at := TOP - used - 16;
    ghost var pushed := r;
    MappedPart(r, at, 16);
    AtWritten(r, at, random);
    StringsKept(r, strs, |strs|, at, random);
    r := Write(r, at, random);
    if StackPointer(argv, envp, p) < LOW {
      return None, r;
    }
    var top: nat := StackPointer(argv, envp, p);
    var w := WordsFor(argv, envp, p);
    ghost var before := r;
    MappedPart(r, top, 8 * |w|);
    r := WriteWords(r, top, w);
    StringsOutside(before, r, strs, top, top + 8 * |w|);
    AtOutside(before, r, at, random, top, top + 8 * |w|);
    sp := Some(top);
  }

  // ---------------------------------------------------------------- the auxiliary vector

  /** The value a program finds under a key. */
  function Find(auxv: seq<(nat, nat)>, key: nat): Option<nat>
  {
    if auxv == [] then None else if auxv[0].0 == key then Some(auxv[0].1) else Find(auxv[1..], key)
  }

  lemma {:induction false} FindAt(auxv: seq<(nat, nat)>, key: nat, i: nat)
    requires i < |auxv| && auxv[i].0 == key && forall j :: 0 <= j < i ==> auxv[j].0 != key
    ensures Find(auxv, key) == Some(auxv[i].1)
  {
    if i > 0 {
      FindAt(auxv[1..], key, i - 1);
    }
  }

  lemma {:induction false} FindNone(auxv: seq<(nat, nat)>, key: nat)
    requires forall j :: 0 <= j < |auxv| ==> auxv[j].0 != key
    ensures Find(auxv, key) == None
  {
    if auxv != [] {
      FindNone(auxv[1..], key);
    }
  }

  /** What describes the program is under the keys that the ABI gives it, the base of the
      interpreter only if there is one. */
  lemma ProgramFound(p: Params, random: u64, execfn: u64)
    ensures var a := AuxPairs(AuxList(p, random, execfn));
            && Find(a, 3) == Some(p.phdr) && Find(a, 4) == Some(p.phent) && Find(a, 5) == Some(p.phnum)
            && Find(a, 6) == Some(4096) && Find(a, 9) == Some(p.entry) && Find(a, 7) == p.base
  {
    var a := AuxPairs(AuxList(p, random, execfn));
    FindAt(a, 3, 0);
    FindAt(a, 4, 1);
    FindAt(a, 5, 2);
    FindAt(a, 6, 3);
    FindAt(a, 9, 4);
    if p.base.Some? {
      FindAt(a, 7, 12);
    } else {
      FindNone(a, 7);
    }
  }

  /** So are the credentials, and the addresses of the random bytes and of the name. */
  lemma ProcessFound(p: Params, random: u64, execfn: u64)
    ensures var a := AuxPairs(AuxList(p, random, execfn));
            && Find(a, 11) == Some(p.uid) && Find(a, 12) == Some(p.euid)
            && Find(a, 13) == Some(p.gid) && Find(a, 14) == Some(p.egid)
            && Find(a, 23) == Some(0) && Find(a, 25) == Some(random) && Find(a, 31) == Some(execfn)
  {
    var a := AuxPairs(AuxList(p, random, execfn));
    FindAt(a, 11, 5);
    FindAt(a, 12, 6);
    FindAt(a, 13, 7);
    FindAt(a, 14, 8);
    FindAt(a, 23, 9);
    FindAt(a, 25, 10);
    FindAt(a, 31, 11);
  }

  /** A program that follows the pointers finds the sixteen random bytes under AT_RANDOM and
      the name it was started by under AT_EXECFN. */
  lemma AuxPointers(m: Mem, sp: nat, argv: seq<seq<byte>>, envp: seq<seq<byte>>, p: Params, random: seq<byte>)
    requires Fits(argv, envp, p) && |random| == 16 && At(m, RandomAt(Strings(argv, envp)), random)
    requires Built(m, sp, Strings(argv, envp), |argv|, |envp|, WordsFor(argv, envp, p), AuxFor(argv, envp, p))
    ensures var d := Decode(m, sp); var name := if argv == [] then [] else argv[0];
            && Find(d.auxv, 25).Some? && At(m, Find(d.auxv, 25).value, random)
            && Find(d.auxv, 31).Some? && (CString(m, Find(d.auxv, 31).value) == name <==> 0 !in name)
  {
    var strs := Strings(argv, envp);
    RoundTrip(m, sp, argv, envp, WordsFor(argv, envp, p), AuxFor(argv, envp, p), Decode(m, sp));
    ProcessFound(p, RandomAt(strs), AddrWord(strs, 0));
    assert StringAt(m, strs, 0);
    UsedMonotone(strs, 0, 1);
    CStringIs(m, AddrOf(strs, 0), strs[0]);
  }
}
