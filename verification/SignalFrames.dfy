/** Signal frames (`proc/signal.rs`): what a delivery writes below the interrupted
    stack pointer and what `rt_sigreturn` reads back. */
module SignalFrames {

  import opened UserBytes

  const UC_SIZE := 512
  const UC_MCTX := 40
  const UC_FPSTATE := 224
  const UC_SIGMASK := 296
  const SIGINFO_SIZE := 128
  const FXSAVE_SIZE := 512
  const RED_ZONE := 128

  const SIGKILL: nat := 9
  const SIGSTOP: nat := 19

  datatype Option<+T> = None | Some(value: T)

  // ---------------------------------------------------------------- signal sets

  /** The 64 signals as the bits of a word, signal `k + 1` at bit `k`. */
  function MaskWord(m: set<nat>, k: nat): nat
    requires k <= 64
    decreases 64 - k
  {
    if k == 64 then 0 else (if k + 1 in m then 1 else 0) + 2 * MaskWord(m, k + 1)
  }

  function WordMask(v: nat, k: nat): set<nat>
    requires k <= 64
    decreases 64 - k
  {
    if k == 64 then {} else (if v % 2 == 1 then {k + 1} else {}) + WordMask(v / 2, k + 1)
  }

  predicate IsMask(m: set<nat>)
  {
    forall s :: s in m ==> 1 <= s <= 64
  }

  function Pow2(n: nat): nat
  {
    if n == 0 then 1 else 2 * Pow2(n - 1)
  }

  lemma {:induction false} MaskWordBound(m: set<nat>, k: nat)
    requires k <= 64
    ensures MaskWord(m, k) < Pow2(64 - k)
    decreases 64 - k
  {
    if k < 64 {
      MaskWordBound(m, k + 1);
    }
  }

  lemma Pow2Is64()
    ensures Pow2(64) == 0x1_0000_0000_0000_0000
  {
    Pow2Add(8, 8);
    Pow2Add(16, 16);
    Pow2Add(32, 32);
  }

  lemma {:induction false} Pow2Add(a: nat, b: nat)
    ensures Pow2(a + b) == Pow2(a) * Pow2(b)
  {
    if a > 0 {
      Pow2Add(a - 1, b);
    }
  }

  function MaskBits(m: set<nat>): u64
  {
    MaskWordBound(m, 0);
    Pow2Is64();
    MaskWord(m, 0)
  }

  lemma {:induction false} MaskRoundFrom(m: set<nat>, k: nat, s: nat)
    requires k <= 64
    ensures s in WordMask(MaskWord(m, k), k) <==> k < s <= 64 && s in m
    decreases 64 - k
  {
    if k < 64 {
      MaskRoundFrom(m, k + 1, s);
      var rest := MaskWord(m, k + 1);
      assert MaskWord(m, k) / 2 == rest;
    }
  }

  lemma MaskRound(m: set<nat>)
    requires IsMask(m)
    ensures WordMask(MaskBits(m), 0) == m
  {
    forall s: nat
      ensures s in WordMask(MaskWord(m, 0), 0) <==> s in m
    {
      MaskRoundFrom(m, 0, s);
    }
  }

  // ---------------------------------------------------------------- registers and images

  datatype Regs = Regs(
    r8: u64, r9: u64, r10: u64, r11: u64, r12: u64, r13: u64, r14: u64, r15: u64,
    rdi: u64, rsi: u64, rbp: u64, rbx: u64, rdx: u64, rax: u64, rcx: u64,
    rsp: u64, rip: u64, rflags: u64)

  /** The order of `struct sigcontext`. */
  function Words(r: Regs): (w: seq<u64>)
    ensures |w| == 18
  {
    [r.r8, r.r9, r.r10, r.r11, r.r12, r.r13, r.r14, r.r15,
     r.rdi, r.rsi, r.rbp, r.rbx, r.rdx, r.rax, r.rcx, r.rsp, r.rip, r.rflags]
  }

  function FromWords(w: seq<u64>): Regs
    requires |w| == 18
  {
    Regs(w[0], w[1], w[2], w[3], w[4], w[5], w[6], w[7],
         w[8], w[9], w[10], w[11], w[12], w[13], w[14], w[15], w[16], w[17])
  }

  /** Byte `i` of the `ucontext`: the registers, the FPU area's address and the old
      mask in their places, zero elsewhere. */
  function UcByte(w: seq<u64>, fpstate: u64, mask: u64, i: nat): byte
    requires |w| == 18
  {
    if UC_MCTX <= i < UC_MCTX + 144 then Le(w[(i - UC_MCTX) / 8], 8)[(i - UC_MCTX) % 8]
    else if UC_FPSTATE <= i < UC_FPSTATE + 8 then Le(fpstate, 8)[i - UC_FPSTATE]
    else if UC_SIGMASK <= i < UC_SIGMASK + 8 then Le(mask, 8)[i - UC_SIGMASK]
    else 0
  }

  function UcImage(w: seq<u64>, fpstate: u64, mask: u64): (r: seq<byte>)
    requires |w| == 18
    ensures |r| == UC_SIZE
    ensures forall i :: 0 <= i < UC_SIZE ==> r[i] == UcByte(w, fpstate, mask, i)
  {
    seq(UC_SIZE, i requires 0 <= i < UC_SIZE => UcByte(w, fpstate, mask, i))
  }

  lemma UcWord(w: seq<u64>, fpstate: u64, mask: u64, k: nat)
    requires |w| == 18 && k < 18
    ensures var r := UcImage(w, fpstate, mask); var off := UC_MCTX + 8 * k;
            r[off..off + 8] == Le(w[k], 8) && FromLe(r[off..off + 8]) == w[k]
  {
    var r := UcImage(w, fpstate, mask);
    var off := UC_MCTX + 8 * k;
    forall j | 0 <= j < 8
      ensures r[off..off + 8][j] == Le(w[k], 8)[j]
    {
      assert r[off + j] == UcByte(w, fpstate, mask, off + j);
      assert (off + j - UC_MCTX) / 8 == k && (off + j - UC_MCTX) % 8 == j;
    }
    assert r[off..off + 8] == Le(w[k], 8);
    Word(w[k]);
  }

  /** The eight bytes at `off`, as a word. */
  function WordIn(image: seq<byte>, off: nat): nat
    requires off + 8 <= |image|
  {
    FromLe(image[off..off + 8])
  }

  /** Each register is where `struct sigcontext` has it. */
  lemma RegistersAt(r: Regs, fpstate: u64, mask: u64)
    ensures var i := UcImage(Words(r), fpstate, mask);
            && WordIn(i, 40) == r.r8 && WordIn(i, 48) == r.r9 && WordIn(i, 56) == r.r10 && WordIn(i, 64) == r.r11
            && WordIn(i, 72) == r.r12 && WordIn(i, 80) == r.r13 && WordIn(i, 88) == r.r14 && WordIn(i, 96) == r.r15
            && WordIn(i, 104) == r.rdi && WordIn(i, 112) == r.rsi && WordIn(i, 120) == r.rbp
            && WordIn(i, 128) == r.rbx && WordIn(i, 136) == r.rdx && WordIn(i, 144) == r.rax
            && WordIn(i, 152) == r.rcx && WordIn(i, 160) == r.rsp && WordIn(i, 168) == r.rip
            && WordIn(i, 176) == r.rflags && WordIn(i, 224) == fpstate && WordIn(i, 296) == mask
  {
    var w := Words(r);
    RegisterAt(w, fpstate, mask, 0, 40);
    RegisterAt(w, fpstate, mask, 1, 48);
    RegisterAt(w, fpstate, mask, 2, 56);
    RegisterAt(w, fpstate, mask, 3, 64);
    RegisterAt(w, fpstate, mask, 4, 72);
    RegisterAt(w, fpstate, mask, 5, 80);
    RegisterAt(w, fpstate, mask, 6, 88);
    RegisterAt(w, fpstate, mask, 7, 96);
    RegisterAt(w, fpstate, mask, 8, 104);
    RegisterAt(w, fpstate, mask, 9, 112);
    RegisterAt(w, fpstate, mask, 10, 120);
    RegisterAt(w, fpstate, mask, 11, 128);
    RegisterAt(w, fpstate, mask, 12, 136);
    RegisterAt(w, fpstate, mask, 13, 144);
    RegisterAt(w, fpstate, mask, 14, 152);
    RegisterAt(w, fpstate, mask, 15, 160);
    RegisterAt(w, fpstate, mask, 16, 168);
    RegisterAt(w, fpstate, mask, 17, 176);
    UcFpstate(w, fpstate, mask);
    UcSigmask(w, fpstate, mask);
  }

  lemma RegisterAt(w: seq<u64>, fpstate: u64, mask: u64, k: nat, off: nat)
    requires |w| == 18 && k < 18 && off == 40 + 8 * k
    ensures WordIn(UcImage(w, fpstate, mask), off) == w[k]
  {
    UcWord(w, fpstate, mask, k);
  }

  lemma UcFpstate(w: seq<u64>, fpstate: u64, mask: u64)
    requires |w| == 18
    ensures FromLe(UcImage(w, fpstate, mask)[UC_FPSTATE..UC_FPSTATE + 8]) == fpstate
  {
    var r := UcImage(w, fpstate, mask);
    assert r[UC_FPSTATE..UC_FPSTATE + 8] == Le(fpstate, 8);
    Word(fpstate);
  }

  lemma UcSigmask(w: seq<u64>, fpstate: u64, mask: u64)
    requires |w| == 18
    ensures FromLe(UcImage(w, fpstate, mask)[UC_SIGMASK..UC_SIGMASK + 8]) == mask
  {
    var r := UcImage(w, fpstate, mask);
    assert r[UC_SIGMASK..UC_SIGMASK + 8] == Le(mask, 8);
    Word(mask);
  }
}
