/** Runs of user code interrupted by signals: nested deliveries over the main and
    the alternate stack, and the returns that unwind them. */
module SignalRuns {
  import opened UserBytes
  import opened SignalFrames
  import opened SignalNest

  /** A handler that has been entered and not yet returned from. */
  datatype Active = Active(saved: Context, base: nat, restorer: u64)

  datatype Task = Task(ctx: Context, mem: Mem, nest: seq<Active>)

  predicate Placed(a: Active)
  {
    Room(a.base) && a.base < 0x1_0000_0000_0000_0000
  }

  function FrameOf(a: Active): Frame
    requires Placed(a)
  {
    Place(a.base)
  }

  predicate Inside(alt: Alt, a: Active)
    requires Placed(a)
  {
    alt.size != 0 && alt.sp <= FrameOf(a).entry && FrameOf(a).top <= alt.sp + alt.size
  }

  predicate Outside(alt: Alt, a: Active)
    requires Placed(a)
  {
    alt.size == 0 || FrameOf(a).top <= alt.sp || alt.sp + alt.size <= FrameOf(a).entry
  }

  /** Code running in the handler keeps its stack pointer at or below where it
      started (the return address may have been popped), on the same stack. */
  predicate Below(alt: Alt, rsp: nat, a: Active)
    requires Placed(a)
  {
    rsp <= FrameOf(a).entry + 8 && (OnAlt(alt, rsp) <==> Inside(alt, a))
  }

  // ---------------------------------------------------------------- steps

  datatype Step =
    | Run(ctx: Context, mem: Mem)
    | Deliver(sig: nat, act: Action)
    | Return

  /** `set_blocked` never lets these two be blocked. */
  function Blockable(m: set<nat>): set<nat>
  {
    m - {SIGKILL, SIGSTOP}
  }

  function HandlerMask(blocked: set<nat>, sig: nat, act: Action): set<nat>
  {
    Blockable(blocked + act.mask + if act.noDefer then {} else {sig})
  }

  function NewActive(alt: Alt, t: Task, act: Action): Active
  {
    Active(t.ctx, Base(alt, t.ctx.regs.rsp, act), act.restorer)
  }

  /** The stacks do not overflow: a frame laid out on the alternate stack lies in
      it, any other lies clear of it. */
  predicate NoOverflow(alt: Alt, t: Task, act: Action)
  {
    var a := NewActive(alt, t, act);
    Placed(a) &&
    if OnAlt(alt, t.ctx.regs.rsp) || a.base != t.ctx.regs.rsp then Inside(alt, a) else Outside(alt, a)
  }

  /** User code may do anything to registers, FPU, mask and memory, as long as it
      leaves the frames of the handlers it runs in alone and its stack pointer
      where they put it. */
  predicate Allowed(alt: Alt, t: Task, st: Step)
    requires forall i :: 0 <= i < |t.nest| ==> Placed(t.nest[i])
  {
    match st
    case Run(c, m) =>
      && WellFormed(c)
      && (forall i :: 0 <= i < |t.nest| ==> Same(t.mem, m, FrameOf(t.nest[i]).entry, FRAME_SIZE))
      && (t.nest != [] ==> Below(alt, c.regs.rsp, t.nest[|t.nest| - 1]))
    case Deliver(sig, act) =>
      && 1 <= sig <= 64 && IsMask(act.mask) && NoOverflow(alt, t, act)
      && Setup(t.mem, alt, t.ctx, sig, act).Entered?
    case Return =>
      t.nest != [] && t.ctx.regs.rsp == FrameOf(t.nest[|t.nest| - 1]).uc
  }

  function Next(alt: Alt, t: Task, st: Step): Task
    requires forall i :: 0 <= i < |t.nest| ==> Placed(t.nest[i])
    requires Allowed(alt, t, st)
  {
    match st
    case Run(c, m) => Task(c, m, t.nest)
    case Deliver(sig, act) =>
      var e := Setup(t.mem, alt, t.ctx, sig, act);
      Task(Context(e.regs, t.ctx.fpu, HandlerMask(t.ctx.blocked, sig, act)), e.mem, t.nest + [NewActive(alt, t, act)])
    case Return =>
      var r := Restore(t.mem, t.ctx.regs.rsp, t.ctx.fpu);
      Task(if r.Some? then r.value.(blocked := Blockable(r.value.blocked)) else t.ctx, t.mem, t.nest[..|t.nest| - 1])
  }

  // ---------------------------------------------------------------- invariant

  /** The frame of `b`, entered later, does not overlap that of `a`. */
  predicate Apart(alt: Alt, a: Active, b: Active)
    requires Placed(a) && Placed(b)
  {
    if Inside(alt, b) && !Inside(alt, a) then Outside(alt, a)
    else FrameOf(b).top <= FrameOf(a).entry && (Inside(alt, a) <==> Inside(alt, b))
  }

  /** The frame is intact: the saved context, and the restorer to return to. */
  ghost predicate Intact(m: Mem, a: Active)
    requires Placed(a)
  {
    && Holds(m, FrameOf(a), a.saved)
    && Mapped(m, FrameOf(a).entry, 8) && Read(m, FrameOf(a).entry, 8) == Le(a.restorer, 8)
  }

  ghost predicate Kept(t: Task, i: int)
  {
    0 <= i < |t.nest| ==> Placed(t.nest[i]) && WellFormed(t.nest[i].saved) && Intact(t.mem, t.nest[i])
  }

  /** How the frames of a nest lie on the two stacks. */
  ghost predicate Stacked(alt: Alt, nest: seq<Active>)
  {
    && (forall i :: 0 <= i < |nest| ==> Placed(nest[i]) && (Inside(alt, nest[i]) || Outside(alt, nest[i])))
    && (forall i, j :: 0 <= i < j < |nest| ==> Apart(alt, nest[i], nest[j]))
    && (forall i :: 0 < i < |nest| ==> Below(alt, nest[i].saved.regs.rsp, nest[i - 1]))
  }

  ghost predicate Inv(alt: Alt, t: Task)
  {
    && WellFormed(t.ctx)
    && Stacked(alt, t.nest)
    && (forall i {:trigger Kept(t, i)} :: Kept(t, i))
    && (t.nest != [] ==> Below(alt, t.ctx.regs.rsp, t.nest[|t.nest| - 1]))
  }

  /** Frames of a nest occupy pairwise disjoint memory. */
  lemma FramesDisjoint(alt: Alt, t: Task, i: nat, j: nat)
    requires Inv(alt, t) && i < j < |t.nest|
    ensures var f, g := FrameOf(t.nest[i]), FrameOf(t.nest[j]); f.top <= g.entry || g.top <= f.entry
  {
    assert Apart(alt, t.nest[i], t.nest[j]);
  }

  lemma HoldsSame(m: Mem, r: Mem, a: Active)
    requires Placed(a) && Intact(m, a) && Same(m, r, FrameOf(a).entry, FRAME_SIZE)
    ensures Intact(r, a)
  {
    PlaceShape(a.base);
    var f := FrameOf(a);
    assert Same(m, r, f.uc, UC_SIZE) && Same(m, r, f.fpstate, FXSAVE_SIZE) && Same(m, r, f.entry, 8);
    ReadSame(m, r, f.entry, 8);
    ReadSame(m, r, f.uc, UC_SIZE);
    ReadSame(m, r, f.fpstate, FXSAVE_SIZE);
  }

  lemma RunKeepsInv(alt: Alt, t: Task, st: Step)
    requires Inv(alt, t) && st.Run? && Allowed(alt, t, st)
    ensures Inv(alt, Next(alt, t, st))
  {
    var r := Next(alt, t, st);
    forall i
      ensures Kept(r, i)
    {
      assert Kept(t, i);
      if 0 <= i < |t.nest| {
        HoldsSame(t.mem, r.mem, t.nest[i]);
      }
    }
  }

  /** A new frame is clear of every live one. */
  lemma NewApart(alt: Alt, t: Task, act: Action, i: nat)
    requires Inv(alt, t) && NoOverflow(alt, t, act) && i < |t.nest|
    ensures Apart(alt, t.nest[i], NewActive(alt, t, act))
  {
    var a := NewActive(alt, t, act);
    var last := t.nest[|t.nest| - 1];
    PlaceShape(a.base);
    PlaceShape(t.nest[i].base);
    PlaceShape(last.base);
    assert Below(alt, t.ctx.regs.rsp, last);
    if i < |t.nest| - 1 {
      assert Apart(alt, t.nest[i], last);
    }
  }

  lemma OldFrameKept(m: Mem, a: Active, b: Active, sig: nat, act: Action)
    requires Placed(a) && Placed(b) && WellFormed(b.saved) && sig <= 64
    requires Intact(m, a)
    requires FrameOf(a).top <= FrameOf(b).entry || FrameOf(b).top <= FrameOf(a).entry
    ensures Intact(FrameMem(m, FrameOf(b), b.saved, sig, act), a)
  {
    PlaceShape(a.base);
    FrameMemOutside(m, b.base, b.saved, sig, act, FrameOf(a).entry, FRAME_SIZE);
    HoldsSame(m, FrameMem(m, FrameOf(b), b.saved, sig, act), a);
  }

  lemma DeliverKeepsFrame(alt: Alt, t: Task, st: Step, i: int)
    requires Inv(alt, t) && st.Deliver? && Allowed(alt, t, st)
    ensures Kept(Next(alt, t, st), i)
  {
    var a := NewActive(alt, t, st.act);
    assert Kept(t, i);
    if 0 <= i < |t.nest| {
      NewApart(alt, t, st.act, i);
      OldFrameKept(t.mem, t.nest[i], a, st.sig, st.act);
    } else if i == |t.nest| {
      FrameHolds(t.mem, a.base, t.ctx, st.sig, st.act);
      FrameSlot(t.mem, a.base, t.ctx, st.sig, st.act);
    }
  }

  lemma PushStacked(alt: Alt, nest: seq<Active>, a: Active)
    requires Stacked(alt, nest) && Placed(a) && (Inside(alt, a) || Outside(alt, a))
    requires forall i :: 0 <= i < |nest| ==> Apart(alt, nest[i], a)
    requires nest != [] ==> Below(alt, a.saved.regs.rsp, nest[|nest| - 1])
    ensures Stacked(alt, nest + [a])
  {
  }

  lemma DeliverKeepsInv(alt: Alt, t: Task, st: Step)
    requires Inv(alt, t) && st.Deliver? && Allowed(alt, t, st)
    ensures Inv(alt, Next(alt, t, st))
  {
    var r := Next(alt, t, st);
    var a := NewActive(alt, t, st.act);
    forall i | 0 <= i < |t.nest|
      ensures Apart(alt, t.nest[i], a)
    {
      NewApart(alt, t, st.act, i);
    }
    PushStacked(alt, t.nest, a);
    forall i
      ensures Kept(r, i)
    {
      DeliverKeepsFrame(alt, t, st, i);
    }
    PlaceShape(a.base);
    assert Below(alt, r.ctx.regs.rsp, a);
  }

  lemma FrameRestores(m: Mem, a: Active, fpu: seq<byte>)
    requires Placed(a) && WellFormed(a.saved) && Holds(m, FrameOf(a), a.saved)
    ensures Restore(m, FrameOf(a).uc, fpu) == Some(a.saved) && Blockable(a.saved.blocked) == a.saved.blocked
  {
    PlaceShape(a.base);
    RestoreExact(m, FrameOf(a), a.saved, fpu);
  }

  /** The return finds its frame as the delivery left it. */
  lemma ReturnRestores(alt: Alt, t: Task)
    requires Inv(alt, t) && Allowed(alt, t, Return)
    ensures Next(alt, t, Return).ctx == t.nest[|t.nest| - 1].saved
  {
    assert Kept(t, |t.nest| - 1);
    FrameRestores(t.mem, t.nest[|t.nest| - 1], t.ctx.fpu);
  }

  lemma ReturnKeepsInv(alt: Alt, t: Task)
    requires Inv(alt, t) && Allowed(alt, t, Return)
    ensures Inv(alt, Next(alt, t, Return))
  {
    var r := Next(alt, t, Return);
    ReturnRestores(alt, t);
    assert Kept(t, |t.nest| - 1);
    forall i
      ensures Kept(r, i)
    {
      assert Kept(t, i);
    }
  }

  lemma NextKeepsInv(alt: Alt, t: Task, st: Step)
    requires Inv(alt, t) && Allowed(alt, t, st)
    ensures Inv(alt, Next(alt, t, st))
  {
    match st
    case Run(_, _) => RunKeepsInv(alt, t, st);
    case Deliver(_, _) => DeliverKeepsInv(alt, t, st);
    case Return => ReturnKeepsInv(alt, t);
  }

  /** Where the frame goes: right below the red zone of the chosen stack, which is the
      alternate one if the action asks for it, there is one, and it is not in use. */
  lemma DeliverPlaces(alt: Alt, t: Task, sig: nat, act: Action)
    requires Inv(alt, t) && Allowed(alt, t, Deliver(sig, act))
    ensures var rsp := Next(alt, t, Deliver(sig, act)).ctx.regs.rsp;
            var used := alt.size != 0 && alt.sp <= t.ctx.regs.rsp < alt.sp + alt.size;
            var stack := if act.onStack && alt.size != 0 && !used then alt.sp + alt.size else t.ctx.regs.rsp;
            rsp + FRAME_SIZE + RED_ZONE <= stack < rsp + FRAME_SIZE + RED_ZONE + 16
  {
    PlaceShape(NewActive(alt, t, act).base);
  }

  /** What the handler finds: the address of the restorer to return to, above it the
      context that the return will look for, and on request the signal's number and
      that context behind its arguments. */
  lemma DeliverArguments(alt: Alt, t: Task, sig: nat, act: Action)
    requires Inv(alt, t) && Allowed(alt, t, Deliver(sig, act))
    ensures var r := Next(alt, t, Deliver(sig, act)); var g := r.ctx.regs;
            && Mapped(r.mem, g.rsp, 8) && Read(r.mem, g.rsp, 8) == Le(act.restorer, 8)
            && |r.nest| == |t.nest| + 1 && Placed(r.nest[|t.nest|]) && r.nest[|t.nest|].saved == t.ctx
            && g.rsp + 8 == FrameOf(r.nest[|t.nest|]).uc
            && (act.siginfo ==> g.rdx == g.rsp + 8 && Mapped(r.mem, g.rsi, 4) && FromLe(Read(r.mem, g.rsi, 4)) == sig)
            && (!act.siginfo ==> g.rsi == 0 && g.rdx == 0)
  {
    var a := NewActive(alt, t, act);
    PlaceShape(a.base);
    FrameSlot(t.mem, a.base, t.ctx, sig, act);
    SiginfoNumber(FrameMem(t.mem, FrameOf(a), t.ctx, sig, act), FrameOf(a).info, sig);
  }

  /** Every register that the handler does not get from the kernel is as it was, but for
      a clear direction flag. */
  lemma DeliverRegisters(alt: Alt, t: Task, sig: nat, act: Action)
    requires Inv(alt, t) && Allowed(alt, t, Deliver(sig, act))
    ensures var r := Next(alt, t, Deliver(sig, act)); var g := r.ctx.regs;
            && g == t.ctx.regs.(rip := act.handler, rsp := g.rsp, rdi := sig, rsi := g.rsi, rdx := g.rdx, rax := 0,
                                rflags := g.rflags)
            && (g.rflags / 0x400) % 2 == 0 && (g.rflags == t.ctx.regs.rflags || g.rflags + 0x400 == t.ctx.regs.rflags)
            && r.ctx.fpu == t.ctx.fpu
  {
    ClearDfIs(t.ctx.regs.rflags);
  }

  /** At any time the innermost handler, when it returns from where it was entered, goes
      to the restorer of its own action. */
  lemma ReturnSlot(alt: Alt, t: Task)
    requires Inv(alt, t) && t.nest != []
    ensures var a := t.nest[|t.nest| - 1]; var f := FrameOf(a);
            Mapped(t.mem, f.entry, 8) && FromLe(Read(t.mem, f.entry, 8)) == a.restorer && f.entry + 8 == f.uc
  {
    var a := t.nest[|t.nest| - 1];
    assert Kept(t, |t.nest| - 1);
    PlaceShape(a.base);
    Word(a.restorer);
  }

  /** A handler is entered as the ABI asks, with the red zone of the code it
      interrupts untouched, and cannot be interrupted by its own signal unless it
      asked for that. */
  lemma DeliverEnters(alt: Alt, t: Task, sig: nat, act: Action)
    requires Inv(alt, t) && Allowed(alt, t, Deliver(sig, act))
    ensures var r := Next(alt, t, Deliver(sig, act));
            && r.ctx.regs.rsp % 16 == 8 && r.ctx.regs.rip == act.handler && r.ctx.regs.rdi == sig
            && (t.ctx.regs.rsp >= RED_ZONE && Mapped(t.mem, t.ctx.regs.rsp - RED_ZONE, RED_ZONE) ==>
                  Same(t.mem, r.mem, t.ctx.regs.rsp - RED_ZONE, RED_ZONE))
            && (forall s :: s in r.ctx.blocked <==>
                  s !in {SIGKILL, SIGSTOP} && (s in t.ctx.blocked || s in act.mask || (s == sig && !act.noDefer)))
  {
    var a := NewActive(alt, t, act);
    PlaceShape(a.base);
    if t.ctx.regs.rsp >= RED_ZONE && Mapped(t.mem, t.ctx.regs.rsp - RED_ZONE, RED_ZONE) {
      FrameMemOutside(t.mem, a.base, t.ctx, sig, act, t.ctx.regs.rsp - RED_ZONE, RED_ZONE);
    }
  }

  // ---------------------------------------------------------------- whole runs

  ghost predicate RunAllowed(alt: Alt, t: Task, steps: seq<Step>)
    requires Inv(alt, t)
    decreases |steps|
  {
    steps == [] ||
    (Allowed(alt, t, steps[0]) && (NextKeepsInv(alt, t, steps[0]); RunAllowed(alt, Next(alt, t, steps[0]), steps[1..])))
  }

  ghost function RunFrom(alt: Alt, t: Task, steps: seq<Step>): (r: Task)
    requires Inv(alt, t) && RunAllowed(alt, t, steps)
    ensures Inv(alt, r)
    decreases |steps|
  {
    if steps == [] then t
    else NextKeepsInv(alt, t, steps[0]); RunFrom(alt, Next(alt, t, steps[0]), steps[1..])
  }

  /** No state of the run, the first and last included, has returned from the
      handler at depth `n`. */
  ghost predicate StaysAbove(alt: Alt, t: Task, steps: seq<Step>, n: nat)
    requires Inv(alt, t) && RunAllowed(alt, t, steps)
    decreases |steps|
  {
    |t.nest| > n &&
    (steps == [] || (NextKeepsInv(alt, t, steps[0]); StaysAbove(alt, Next(alt, t, steps[0]), steps[1..], n)))
  }

  lemma NestStep(alt: Alt, t: Task, st: Step, n: nat)
    requires forall i :: 0 <= i < |t.nest| ==> Placed(t.nest[i])
    requires Allowed(alt, t, st) && |t.nest| > n && |Next(alt, t, st).nest| > n
    ensures Next(alt, t, st).nest[..n + 1] == t.nest[..n + 1]
  {
  }

  lemma {:induction false} PrefixKept(alt: Alt, t: Task, steps: seq<Step>, n: nat)
    requires Inv(alt, t) && RunAllowed(alt, t, steps) && StaysAbove(alt, t, steps, n)
    ensures var r := RunFrom(alt, t, steps); |r.nest| > n && r.nest[..n + 1] == t.nest[..n + 1]
    decreases |steps|
  {
    if steps != [] {
      NextKeepsInv(alt, t, steps[0]);
      PrefixKept(alt, Next(alt, t, steps[0]), steps[1..], n);
      NestStep(alt, t, steps[0], n);
    }
  }

  lemma NestedReturn(alt: Alt, t: Task, entered: Task, h: Task)
    requires |h.nest| == |entered.nest| == |t.nest| + 1 && entered.nest[..|t.nest|] == t.nest
    requires h.nest[..|t.nest| + 1] == entered.nest[..|t.nest| + 1]
    requires Inv(alt, h) && Allowed(alt, h, Return)
    ensures Next(alt, h, Return).ctx == entered.nest[|t.nest|].saved && Next(alt, h, Return).nest == t.nest
  {
    assert h.nest == entered.nest;
    ReturnRestores(alt, h);
  }

  /** Unwinding: from a delivery, through any run of user code, nested deliveries
      and their returns, the matching return gives back exactly the interrupted
      registers, FPU image and mask. */
  lemma Unwind(alt: Alt, t: Task, deliver: Step, entered: Task, steps: seq<Step>, h: Task)
    requires Inv(alt, t) && deliver.Deliver? && Allowed(alt, t, deliver) && entered == Next(alt, t, deliver)
    requires Inv(alt, entered) && RunAllowed(alt, entered, steps) && h == RunFrom(alt, entered, steps)
    requires StaysAbove(alt, entered, steps, |t.nest|)
    requires |h.nest| == |t.nest| + 1 && Allowed(alt, h, Return)
    ensures Next(alt, h, Return).ctx == t.ctx && Next(alt, h, Return).nest == t.nest
  {
    PrefixKept(alt, entered, steps, |t.nest|);
    assert entered.nest == t.nest + [NewActive(alt, t, deliver.act)];
    NestedReturn(alt, t, entered, h);
  }
}
