/** Entering handlers and coming back, nested to any depth on the main and the
    alternate stack. */
module SignalNest {
  import opened UserBytes
  import opened SignalFrames

  const FRAME_SIZE := 1160

  datatype Action = Action(handler: u64, restorer: u64, mask: set<nat>, siginfo: bool, onStack: bool, noDefer: bool,
                           resetHand: bool)

  /** The alternate stack; none is installed when `size` is 0. */
  datatype Alt = Alt(sp: nat, size: nat)

  /** What a delivery saves and a return restores. */
  datatype Context = Context(regs: Regs, fpu: seq<byte>, blocked: set<nat>)

  predicate OnAlt(alt: Alt, rsp: nat)
  {
    alt.size != 0 && alt.sp <= rsp < alt.sp + alt.size
  }

  /** The end of the alternate stack is computed and does not fit: to find out whether
      `rsp` is on it, which is asked for whatever the action, or to start there. */
  predicate AltPastEnd(alt: Alt, rsp: nat, act: Action)
  {
    alt.size != 0 && alt.sp + alt.size >= 0x1_0000_0000_0000_0000 && (rsp >= alt.sp || act.onStack)
  }

  /** The stack pointer the frame is laid out below. */
  function Base(alt: Alt, rsp: nat, act: Action): nat
  {
    if act.onStack && alt.size != 0 && !OnAlt(alt, rsp) then alt.sp + alt.size else rsp
  }

  // ---------------------------------------------------------------- layout

  /** Addresses of the parts, from the return slot up. */
  datatype Frame = Frame(entry: nat, uc: nat, fpstate: nat, info: nat, top: nat)

  function Aligned(a: nat): nat
  {
    a - a % 16
  }

  predicate Room(base: nat)
  {
    base >= RED_ZONE && Aligned(base - RED_ZONE) >= FRAME_SIZE
  }

  function Place(base: nat): Frame
    requires Room(base)
  {
    var top := Aligned(base - RED_ZONE);
    var info := top - SIGINFO_SIZE;
    var fpstate := info - FXSAVE_SIZE;
    var uc := fpstate - UC_SIZE;
    Frame(uc - 8, uc, fpstate, info, top)
  }

  /** The handler starts with the stack pointer the ABI asks for at a call, the FPU
      area is aligned as FXSAVE demands, and the whole frame is below the red
      zone of the interrupted code. */
  lemma PlaceShape(base: nat)
    requires Room(base)
    ensures var f := Place(base);
            && f.entry % 16 == 8 && f.uc % 16 == 0 && f.fpstate % 16 == 0
            && f.top + RED_ZONE <= base < f.top + RED_ZONE + 16
            && f.top - f.entry == FRAME_SIZE
            && f.entry + 8 == f.uc && f.uc + UC_SIZE == f.fpstate
            && f.fpstate + FXSAVE_SIZE == f.info && f.info + SIGINFO_SIZE == f.top
  {
    var a := base - RED_ZONE;
    var t := a / 16;
    assert Aligned(a) == 16 * t;
  }

  // ---------------------------------------------------------------- setup and restore

  function SiginfoByte(sig: nat, i: nat): byte
    requires sig <= 64
  {
    if i == 0 then sig else 0
  }

  function Siginfo(sig: nat): (r: seq<byte>)
    requires sig <= 64
    ensures |r| == SIGINFO_SIZE
  {
    seq(SIGINFO_SIZE, i requires 0 <= i < SIGINFO_SIZE => SiginfoByte(sig, i))
  }

  function ClearDf(v: u64): u64
  {
    if (v / 0x400) % 2 == 1 then v - 0x400 else v
  }

  /** Bit 10 is clear and no other has changed. */
  lemma ClearDfIs(v: u64)
    ensures (ClearDf(v) / 0x400) % 2 == 0 && (ClearDf(v) == v || ClearDf(v) + 0x400 == v)
  {
    if (v / 0x400) % 2 == 1 {
      assert (v - 0x400) / 0x400 == v / 0x400 - 1;
    }
  }

  /** `Unusable` is the EFAULT that ends the process; `Overflow` is checked
      arithmetic refusing an address below the frame or above the address space. */
  datatype Entry = Entered(regs: Regs, mem: Mem) | Unusable | Overflow

  function HandlerRegs(regs: Regs, f: Frame, sig: nat, act: Action): Regs
    requires f.entry <= f.uc <= f.info < 0x1_0000_0000_0000_0000 && sig <= 64
  {
    regs.(rip := act.handler, rsp := f.entry, rdi := sig,
          rsi := if act.siginfo then f.info else 0,
          rdx := if act.siginfo then f.uc else 0,
          rax := 0, rflags := ClearDf(regs.rflags))
  }

  function FrameMem(mem: Mem, f: Frame, c: Context, sig: nat, act: Action): Mem
    requires sig <= 64 && f.fpstate < 0x1_0000_0000_0000_0000
  {
    var m1 := Write(mem, f.info, Siginfo(sig));
    var m2 := Write(m1, f.fpstate, c.fpu);
    var m3 := Write(m2, f.uc, UcImage(Words(c.regs), f.fpstate, MaskBits(c.blocked)));
    Write(m3, f.entry, Le(act.restorer, 8))
  }

  /** `setup_frame`. */
  function Setup(mem: Mem, alt: Alt, c: Context, sig: nat, act: Action): Entry
    requires sig <= 64
  {
    var base := Base(alt, c.regs.rsp, act);
    if AltPastEnd(alt, c.regs.rsp, act) then Overflow
    else if base < RED_ZONE then Unusable
    else if !Room(base) then Overflow
    else
      var f := Place(base);
      if !Mapped(mem, f.entry, FRAME_SIZE) then Unusable
      else Entered(HandlerRegs(c.regs, f, sig, act), FrameMem(mem, f, c, sig, act))
  }

  /** The checked arithmetic overflows exactly when the end of an alternate stack is needed
      and past the address space, or the stack top is too close to zero for a frame
      and not so close that the first subtraction refuses it. */
  lemma OverflowExact(mem: Mem, alt: Alt, c: Context, sig: nat, act: Action)
    requires sig <= 64
    ensures Setup(mem, alt, c, sig, act).Overflow? <==>
              || (alt.size != 0 && alt.sp + alt.size >= 0x1_0000_0000_0000_0000
                  && (c.regs.rsp >= alt.sp || act.onStack))
              || 128 <= Base(alt, c.regs.rsp, act) < 1296
  {
    var base := Base(alt, c.regs.rsp, act);
    if base >= RED_ZONE {
      var a := base - RED_ZONE;
      assert Aligned(a) == 16 * (a / 16);
    }
  }

  /** Where the frame starts that is laid out below stack pointer `top`: 1160 bytes below a
      multiple of 16 that is clear of the red zone. */
  function Start(top: nat): int
  {
    (top - 128) / 16 * 16 - 1160
  }

  /** A handler is entered exactly when the addresses fit and every byte of the frame can be
      written: below the end of the alternate stack if the action asks for it and the
      task is not on it already, and otherwise below its own stack pointer. */
  lemma EnteredExact(mem: Mem, alt: Alt, c: Context, sig: nat, act: Action)
    requires sig <= 64
    ensures var rsp := c.regs.rsp;
            var onIt := alt.size != 0 && alt.sp <= rsp < alt.sp + alt.size;
            var top := if act.onStack && alt.size != 0 && !onIt then alt.sp + alt.size else rsp;
            Setup(mem, alt, c, sig, act).Entered? <==>
              && !(alt.size != 0 && alt.sp + alt.size >= 0x1_0000_0000_0000_0000 && (rsp >= alt.sp || act.onStack))
              && top >= 1296 && forall a: nat :: Start(top) <= a < Start(top) + 1160 ==> a in mem
  {
    OverflowExact(mem, alt, c, sig, act);
    var base := Base(alt, c.regs.rsp, act);
    if Room(base) {
      PlaceShape(base);
      assert Start(base) == Place(base).entry;
    }
  }

  /** An alternate stack over nearly the whole address space is accepted, and from then on
      every caught signal is such a case, with SA_ONSTACK or without. */
  lemma WideAltOverflows(mem: Mem, c: Context, sig: nat, act: Action)
    requires sig <= 64 && c.regs.rsp >= 0x1000
    ensures Setup(mem, Alt(0x1000, 0xFFFF_FFFF_FFFF_F000), c, sig, act).Overflow?
  {
  }

  function ReadWord(mem: Mem, a: nat): nat
    requires Mapped(mem, a, 8)
  {
    FromLe(Read(mem, a, 8))
  }

  predicate ReadableContext(mem: Mem, uc: nat)
  {
    && Mapped(mem, uc, UC_SIZE)
    && (ReadWord(mem, uc + UC_FPSTATE) != 0 ==> Mapped(mem, ReadWord(mem, uc + UC_FPSTATE), FXSAVE_SIZE))
  }

  lemma ReadWordBound(b: seq<byte>)
    requires |b| == 8
    ensures FromLe(b) < 0x1_0000_0000_0000_0000
  {
    FromLeBound(b);
    assert Pow256(4) == 0x1_0000_0000;
    assert Pow256(6) == 256 * 256 * Pow256(4);
    assert Pow256(8) == 256 * 256 * Pow256(6);
  }

  lemma {:induction false} FromLeBound(b: seq<byte>)
    ensures FromLe(b) < Pow256(|b|)
  {
    if b != [] {
      FromLeBound(b[1..]);
    }
  }

  function RegWord(mem: Mem, uc: nat, k: nat): u64
    requires Mapped(mem, uc, UC_SIZE) && k < 18
  {
    ReadWordBound(Read(mem, uc + UC_MCTX + 8 * k, 8));
    ReadWord(mem, uc + UC_MCTX + 8 * k)
  }

  function RegWords(mem: Mem, uc: nat): (w: seq<u64>)
    requires Mapped(mem, uc, UC_SIZE)
    ensures |w| == 18
  {
    seq(18, k requires 0 <= k < 18 => RegWord(mem, uc, k))
  }

  /** `restore_frame`: the context found at the stack pointer; the FPU is left alone
      when the frame holds no FPU area. */
  function Restore(mem: Mem, uc: nat, fpu: seq<byte>): Option<Context>
  {
    if !ReadableContext(mem, uc) then None
    else
      var fp := ReadWord(mem, uc + UC_FPSTATE);
      Some(Context(
             FromWords(RegWords(mem, uc)),
             if fp == 0 then fpu else Read(mem, fp, FXSAVE_SIZE),
             WordMask(ReadWord(mem, uc + UC_SIGMASK), 0)))
  }

  // ---------------------------------------------------------------- one delivery undone

  predicate WellFormed(c: Context)
  {
    |c.fpu| == FXSAVE_SIZE && IsMask(c.blocked) && SIGKILL !in c.blocked && SIGSTOP !in c.blocked
  }

  /** The parts of the frame that a return reads hold the saved context. */
  ghost predicate Holds(mem: Mem, f: Frame, c: Context)
  {
    && f.fpstate < 0x1_0000_0000_0000_0000 && |c.fpu| == FXSAVE_SIZE
    && Mapped(mem, f.entry, FRAME_SIZE) && Mapped(mem, f.uc, UC_SIZE) && Mapped(mem, f.fpstate, FXSAVE_SIZE)
    && Read(mem, f.uc, UC_SIZE) == UcImage(Words(c.regs), f.fpstate, MaskBits(c.blocked))
    && Read(mem, f.fpstate, FXSAVE_SIZE) == c.fpu
  }

  lemma SameAfterWrite(m: Mem, r: Mem, a: nat, b: seq<byte>, at: nat, n: nat)
    requires r == Write(m, a, b) && Mapped(m, at, n) && (at + n <= a || a + |b| <= at)
    ensures Same(m, r, at, n)
  {
  }

  lemma FrameHolds(mem: Mem, base: nat, c: Context, sig: nat, act: Action)
    requires Room(base) && base < 0x1_0000_0000_0000_0000 && WellFormed(c) && sig <= 64
    requires Mapped(mem, Place(base).entry, FRAME_SIZE)
    ensures Holds(FrameMem(mem, Place(base), c, sig, act), Place(base), c)
  {
    PlaceShape(base);
    var f := Place(base);
    var uc := UcImage(Words(c.regs), f.fpstate, MaskBits(c.blocked));
    var m1 := Write(mem, f.info, Siginfo(sig));
    var m2 := Write(m1, f.fpstate, c.fpu);
    var m3 := Write(m2, f.uc, uc);
    var m4 := Write(m3, f.entry, Le(act.restorer, 8));
    ReadWritten(m1, f.fpstate, c.fpu);
    ReadWritten(m2, f.uc, uc);
    SameAfterWrite(m2, m3, f.uc, uc, f.fpstate, FXSAVE_SIZE);
    SameAfterWrite(m3, m4, f.entry, Le(act.restorer, 8), f.fpstate, FXSAVE_SIZE);
    SameAfterWrite(m3, m4, f.entry, Le(act.restorer, 8), f.uc, UC_SIZE);
    ReadSame(m2, m3, f.fpstate, FXSAVE_SIZE);
    ReadSame(m3, m4, f.fpstate, FXSAVE_SIZE);
    ReadSame(m3, m4, f.uc, UC_SIZE);
  }

  /** The slot that the handler's return pops holds the restorer, and the signal
      information starts with the number of the signal. */
  lemma FrameSlot(mem: Mem, base: nat, c: Context, sig: nat, act: Action)
    requires Room(base) && base < 0x1_0000_0000_0000_0000 && WellFormed(c) && sig <= 64
    requires Mapped(mem, Place(base).entry, FRAME_SIZE)
    ensures var f, m := Place(base), FrameMem(mem, Place(base), c, sig, act);
            && Mapped(m, f.entry, 8) && Read(m, f.entry, 8) == Le(act.restorer, 8)
            && Mapped(m, f.info, SIGINFO_SIZE) && Read(m, f.info, SIGINFO_SIZE) == Siginfo(sig)
  {
    PlaceShape(base);
    var f := Place(base);
    var uc := UcImage(Words(c.regs), f.fpstate, MaskBits(c.blocked));
    var m1 := Write(mem, f.info, Siginfo(sig));
    var m2 := Write(m1, f.fpstate, c.fpu);
    var m3 := Write(m2, f.uc, uc);
    var m4 := Write(m3, f.entry, Le(act.restorer, 8));
    ReadWritten(m3, f.entry, Le(act.restorer, 8));
    ReadWritten(mem, f.info, Siginfo(sig));
    assert Same(m1, m4, f.info, SIGINFO_SIZE);
    ReadSame(m1, m4, f.info, SIGINFO_SIZE);
  }

  /** Its first little-endian word. */
  lemma SiginfoNumber(mem: Mem, a: nat, sig: nat)
    requires sig <= 64 && Mapped(mem, a, SIGINFO_SIZE) && Read(mem, a, SIGINFO_SIZE) == Siginfo(sig)
    ensures Mapped(mem, a, 4) && FromLe(Read(mem, a, 4)) == sig
  {
    SubRead(mem, a, SIGINFO_SIZE, 0, 4);
    var r := Read(mem, a, 4);
    assert a + 0 == a && r == Siginfo(sig)[0..4];
    assert r == [sig, 0, 0, 0];
    SmallWord(sig);
  }

  lemma SmallWord(v: byte)
    ensures FromLe([v, 0, 0, 0]) == v
  {
    assert [0][1..] == [] && FromLe([0]) == 0;
    assert [0, 0][1..] == [0] && FromLe([0, 0]) == 0;
    assert [0, 0, 0][1..] == [0, 0] && FromLe([0, 0, 0]) == 0;
    assert [v, 0, 0, 0][1..] == [0, 0, 0];
  }

  /** A delivery writes nothing outside its frame. */
  lemma FrameMemOutside(mem: Mem, base: nat, c: Context, sig: nat, act: Action, at: nat, n: nat)
    requires Room(base) && base < 0x1_0000_0000_0000_0000 && WellFormed(c) && sig <= 64
    requires Mapped(mem, at, n) && (at + n <= Place(base).entry || Place(base).top <= at)
    ensures Same(mem, FrameMem(mem, Place(base), c, sig, act), at, n)
  {
    PlaceShape(base);
  }

  lemma SubRead(mem: Mem, a: nat, n: nat, off: nat, k: nat)
    requires Mapped(mem, a, n) && off + k <= n
    ensures Mapped(mem, a + off, k) && Read(mem, a + off, k) == Read(mem, a, n)[off..off + k]
  {
    var r := Read(mem, a + off, k);
    var s := Read(mem, a, n);
    forall j | 0 <= j < k
      ensures r[j] == s[off..off + k][j]
    {
      assert r[j] == mem[a + off + j] && s[off + j] == mem[a + (off + j)];
    }
  }

  lemma HoldsWord(mem: Mem, uc: nat, w: seq<u64>, fpstate: u64, mask: u64, k: nat)
    requires Mapped(mem, uc, UC_SIZE) && |w| == 18 && k < 18
    requires Read(mem, uc, UC_SIZE) == UcImage(w, fpstate, mask)
    ensures RegWord(mem, uc, k) == w[k]
  {
    var image, off := UcImage(w, fpstate, mask), UC_MCTX + 8 * k;
    WordAt(mem, uc, image, off);
    RegisterAt(w, fpstate, mask, k, off);
  }

  lemma WordAt(mem: Mem, uc: nat, image: seq<byte>, off: nat)
    requires Mapped(mem, uc, UC_SIZE) && Read(mem, uc, UC_SIZE) == image && |image| == UC_SIZE && off + 8 <= UC_SIZE
    ensures Mapped(mem, uc + off, 8) && ReadWord(mem, uc + off) == FromLe(image[off..off + 8])
  {
    SubRead(mem, uc, UC_SIZE, off, 8);
  }

  lemma HoldsWords(mem: Mem, uc: nat, w: seq<u64>, fpstate: u64, mask: u64)
    requires Mapped(mem, uc, UC_SIZE) && |w| == 18
    requires Read(mem, uc, UC_SIZE) == UcImage(w, fpstate, mask)
    ensures RegWords(mem, uc) == w
  {
    forall k | 0 <= k < 18
      ensures RegWords(mem, uc)[k] == w[k]
    {
      HoldsWord(mem, uc, w, fpstate, mask, k);
    }
  }

  lemma HoldsRest(mem: Mem, uc: nat, w: seq<u64>, fpstate: u64, mask: u64)
    requires Mapped(mem, uc, UC_SIZE) && |w| == 18
    requires Read(mem, uc, UC_SIZE) == UcImage(w, fpstate, mask)
    ensures ReadWord(mem, uc + UC_FPSTATE) == fpstate && ReadWord(mem, uc + UC_SIGMASK) == mask
  {
    var image := UcImage(w, fpstate, mask);
    WordAt(mem, uc, image, UC_FPSTATE);
    WordAt(mem, uc, image, UC_SIGMASK);
    UcFpstate(w, fpstate, mask);
    UcSigmask(w, fpstate, mask);
  }

  lemma RestoreIs(mem: Mem, uc: nat, fpu: seq<byte>, w: seq<u64>, fpstate: u64, mask: u64)
    requires Mapped(mem, uc, UC_SIZE) && |w| == 18 && fpstate != 0 && Mapped(mem, fpstate, FXSAVE_SIZE)
    requires Read(mem, uc, UC_SIZE) == UcImage(w, fpstate, mask)
    ensures Restore(mem, uc, fpu) == Some(Context(FromWords(w), Read(mem, fpstate, FXSAVE_SIZE), WordMask(mask, 0)))
  {
    HoldsRest(mem, uc, w, fpstate, mask);
    HoldsWords(mem, uc, w, fpstate, mask);
  }

  /** A context without an FPU area leaves the FPU as it is. */
  lemma RestoreNoFpu(mem: Mem, uc: nat, fpu: seq<byte>, c: Context)
    requires Mapped(mem, uc, UC_SIZE) && IsMask(c.blocked)
    requires Read(mem, uc, UC_SIZE) == UcImage(Words(c.regs), 0, MaskBits(c.blocked))
    ensures Restore(mem, uc, fpu) == Some(Context(c.regs, fpu, c.blocked))
  {
    HoldsRest(mem, uc, Words(c.regs), 0, MaskBits(c.blocked));
    HoldsWords(mem, uc, Words(c.regs), 0, MaskBits(c.blocked));
    MaskRound(c.blocked);
    FromWordsRound(c.regs);
  }

  lemma FromWordsRound(r: Regs)
    ensures FromWords(Words(r)) == r
  {
  }

  /** A return that finds its frame intact restores all eighteen registers, the FPU
      image and the blocked mask. */
  lemma RestoreExact(mem: Mem, f: Frame, c: Context, fpu: seq<byte>)
    requires Holds(mem, f, c) && WellFormed(c) && f.fpstate != 0
    ensures Restore(mem, f.uc, fpu) == Some(c)
  {
    RestoreIs(mem, f.uc, fpu, Words(c.regs), f.fpstate, MaskBits(c.blocked));
    MaskRound(c.blocked);
    FromWordsRound(c.regs);
  }
}
