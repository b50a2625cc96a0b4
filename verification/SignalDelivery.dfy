/** Delivery on the way back to user code (`deliver_user_signals` in `proc/mod.rs`):
    which pending signal is acted on, and the frame and mask its handler gets. */
module SignalDelivery {
  import opened UserBytes
  import opened SignalFrames
  import opened SignalNest
  import opened SignalRuns

  const SIGSEGV: nat := 11
  const SIG_DFL: u64 := 0
  const SIG_IGN: u64 := 1

  predicate StopsByDefault(sig: nat)
  {
    sig == SIGSTOP || sig == 20 || sig == 21 || sig == 22
  }

  predicate IgnoredByDefault(sig: nat)
  {
    sig == 17 || sig == 18 || sig == 23 || sig == 28
  }

  predicate TerminatesByDefault(sig: nat)
  {
    sig != 0 && !IgnoredByDefault(sig) && !StopsByDefault(sig)
  }

  type Table = t: seq<Action> | |t| == 65 witness seq(65, _ => Action(0, 0, {}, false, false, false, false))

  /** `Panic` is the kernel's own: checked arithmetic on the frame address. */
  datatype Verdict = Resume | Enter(sig: nat) | Die(sig: nat) | Panic

  /** What the loop makes of one signal: it ends the process, enters a handler,
      stops it, or goes on to the next signal. */
  datatype Effect = Fatal | Caught | Stops | Passes

  function EffectOf(table: Table, sig: nat): Effect
    requires 1 <= sig <= 64
  {
    var act := table[sig];
    if sig == SIGKILL then Fatal
    else if act.handler == SIG_IGN then Passes
    else if act.handler == SIG_DFL then
      if StopsByDefault(sig) then Stops else if IgnoredByDefault(sig) then Passes else Fatal
    else if act.restorer == 0 then
      if TerminatesByDefault(sig) then Fatal else Passes
    else Caught
  }

  /** What becomes of a signal, by its number and its action. SIGKILL always ends the
      process. An action that is not the default never stops it, one that ignores the
      signal does nothing else, and a handler is entered only with a restorer. */
  lemma EffectIs(table: Table, sig: nat)
    requires 1 <= sig <= 64
    ensures EffectOf(table, sig) == Caught <==> sig != 9 && table[sig].handler > 1 && table[sig].restorer != 0
    ensures EffectOf(table, sig) == Stops <==> table[sig].handler == 0 && sig in {19, 20, 21, 22}
    ensures EffectOf(table, sig) == Fatal <==>
              || sig == 9
              || (table[sig].handler == 0 && sig !in {17, 18, 19, 20, 21, 22, 23, 28})
              || (table[sig].handler > 1 && table[sig].restorer == 0 && sig !in {17, 18, 19, 20, 21, 22, 23, 28})
  {
  }

  predicate Lowest(s: set<nat>, k: nat)
  {
    k in s && forall j :: j in s ==> k <= j
  }

  lemma {:induction false} LowestExists(s: set<nat>)
    requires s != {}
    ensures exists k :: Lowest(s, k)
  {
    var k :| k in s;
    var rest := s - {k};
    if rest == {} {
      assert s == {k};
      assert Lowest(s, k);
    } else {
      LowestExists(rest);
      var m :| Lowest(rest, m);
      var least := if k < m then k else m;
      forall j | j in s
        ensures least <= j
      {
        assert j == k || j in rest;
      }
      assert Lowest(s, least);
    }
  }

  function Min(s: set<nat>): (k: nat)
    requires s != {}
    ensures Lowest(s, k)
  {
    LowestExists(s);
    var k :| Lowest(s, k);
    k
  }

  datatype Outcome = Outcome(verdict: Verdict, pending: set<nat>)

  /** The loop of `deliver_user_signals`. `arrivals` are the signals that come in
      meanwhile, from interrupts or while it is stopped, turn by turn. */
  function Decide(pending: set<nat>, blocked: set<nat>, table: Table, arrivals: seq<set<nat>>): Outcome
    requires IsMask(pending) && forall i :: 0 <= i < |arrivals| ==> IsMask(arrivals[i])
    decreases |arrivals|, pending
  {
    var deliverable := pending - blocked;
    if deliverable == {} then Outcome(Resume, pending)
    else
      var sig := Min(deliverable);
      var left := pending - {sig};
      match EffectOf(table, sig)
      case Fatal => Outcome(Die(sig), if sig == SIGKILL then pending else left)
      case Caught => Outcome(Enter(sig), left)
      case _ =>
        if arrivals == [] then Decide(left, blocked, table, arrivals)
        else assert IsMask(arrivals[0]); Decide(left + arrivals[0], blocked, table, arrivals[1..])
  }

  /** A pending signal that ends the loop. */
  predicate Decisive(pending: set<nat>, blocked: set<nat>, table: Table, s: nat)
  {
    s in pending && s !in blocked && 1 <= s <= 64 && (EffectOf(table, s) == Fatal || EffectOf(table, s) == Caught)
  }

  lemma NoneLeft(a: set<nat>, b: set<nat>)
    requires a - b == {}
    ensures a <= b && a * b == a
  {
    forall s | s in a
      ensures s in b
    {
      assert s in b || s in a - b;
    }
  }

  lemma SameMeet(a: set<nat>, b: set<nat>, x: nat)
    requires x !in b
    ensures (a - {x}) * b == a * b
  {
  }

  /** Without arrivals: the lowest decisive signal decides, every lower one that is
      not blocked has been consumed, and nothing else has. */
  lemma {:induction false} DecideExact(pending: set<nat>, blocked: set<nat>, table: Table)
    requires IsMask(pending)
    ensures var r := Decide(pending, blocked, table, []);
            match r.verdict
            case Resume =>
              r.pending == pending * blocked && forall s :: !Decisive(pending, blocked, table, s)
            case Enter(sig) =>
              && Decisive(pending, blocked, table, sig) && EffectOf(table, sig) == Caught
              && (forall s: nat :: s < sig ==> !Decisive(pending, blocked, table, s))
              && (forall s :: s in r.pending <==> s in pending && (s in blocked || s > sig))
            case Die(sig) =>
              && Decisive(pending, blocked, table, sig) && EffectOf(table, sig) == Fatal
              && (forall s: nat :: s < sig ==> !Decisive(pending, blocked, table, s))
              && (forall s :: s in r.pending <==> s in pending && (s in blocked || s > sig || s == sig == SIGKILL))
            case Panic => false
    decreases pending
  {
    var deliverable := pending - blocked;
    if deliverable == {} {
      NoneLeft(pending, blocked);
    } else {
      var sig := Min(deliverable);
      assert Lowest(deliverable, sig);
      forall s: nat | s in pending && s !in blocked
        ensures sig <= s
      {
        assert s in deliverable;
      }
      var e := EffectOf(table, sig);
      if e == Passes || e == Stops {
        var left := pending - {sig};
        DecideExact(left, blocked, table);
        SameMeet(pending, blocked, sig);
        forall s: nat
          ensures Decisive(pending, blocked, table, s) <==> Decisive(left, blocked, table, s)
        {
        }
      }
    }
  }

  /** With arrivals too, a handler is entered only for an unblocked signal whose
      action can be caught, and that signal is no longer pending. */
  lemma {:induction false} EnterIsCaught(pending: set<nat>, blocked: set<nat>, table: Table, arrivals: seq<set<nat>>)
    requires IsMask(pending) && forall i :: 0 <= i < |arrivals| ==> IsMask(arrivals[i])
    ensures var r := Decide(pending, blocked, table, arrivals);
            && (r.verdict.Enter? ==>
                  && 1 <= r.verdict.sig <= 64 && r.verdict.sig !in blocked && r.verdict.sig !in r.pending
                  && EffectOf(table, r.verdict.sig) == Caught)
            && (r.verdict.Resume? ==> r.pending <= blocked)
    decreases |arrivals|, pending
  {
    var deliverable := pending - blocked;
    if deliverable != {} {
      var sig := Min(deliverable);
      var left := pending - {sig};
      var e := EffectOf(table, sig);
      if e == Passes || e == Stops {
        if arrivals == [] {
          EnterIsCaught(left, blocked, table, arrivals);
        } else {
          assert IsMask(arrivals[0]);
          EnterIsCaught(left + arrivals[0], blocked, table, arrivals[1..]);
        }
      }
    } else {
      NoneLeft(pending, blocked);
    }
  }

  // ---------------------------------------------------------------- the user task

  const DFL := Action(0, 0, {}, false, false, false, false)

  lemma SplitMapped(mem: Mem, base: nat)
    requires Room(base)
    ensures var f := Place(base);
            Mapped(mem, f.entry, FRAME_SIZE) <==>
            Mapped(mem, f.info, SIGINFO_SIZE) && Mapped(mem, f.fpstate, FXSAVE_SIZE) &&
            Mapped(mem, f.uc, UC_SIZE) && Mapped(mem, f.entry, 8)
  {
    PlaceShape(base);
    var f := Place(base);
    if Mapped(mem, f.info, SIGINFO_SIZE) && Mapped(mem, f.fpstate, FXSAVE_SIZE) && Mapped(mem, f.uc, UC_SIZE)
       && Mapped(mem, f.entry, 8) {
      forall i | f.entry <= i < f.entry + FRAME_SIZE
        ensures i in mem
      {
      }
    }
  }

  class UserTask {
    var ctx: Context
    var mem: Mem
    var pending: set<nat>
    var table: Table
    const alt: Alt

    constructor (ctx: Context, mem: Mem, alt: Alt)
      ensures this.ctx == ctx && this.mem == mem && this.alt == alt && pending == {} && table == seq(65, _ => DFL)
    {
      this.ctx, this.mem, this.alt := ctx, mem, alt;
      pending := {};
      table := seq(65, _ => DFL);
    }

    /** `copy_to`: all of it or an error. */
    method CopyTo(a: nat, b: seq<byte>) returns (ok: bool)
      modifies this`mem
      ensures ok <==> Mapped(old(mem), a, |b|)
      ensures mem == if ok then Write(old(mem), a, b) else old(mem)
    {
      var i := a;
      while i < a + |b|
        invariant a <= i <= a + |b| && forall k :: a <= k < i ==> k in mem
      {
        if i !in mem {
          return false;
        }
        i := i + 1;
      }
      mem := Write(mem, a, b);
      ok := true;
    }

    /** Fills the `ucontext` buffer word by word. */
    method BuildUcontext(fpstate: u64) returns (buf: array<byte>)
      ensures fresh(buf) && buf[..] == UcImage(Words(ctx.regs), fpstate, MaskBits(ctx.blocked))
    {
      var w, mask := Words(ctx.regs), MaskBits(ctx.blocked);
      buf := new byte[UC_SIZE](_ => 0);
      var k := 0;
      while k < 18
        invariant 0 <= k <= 18 && fresh(buf) && buf.Length == UC_SIZE
        invariant forall i :: 0 <= i < UC_SIZE ==>
                    buf[i] == if UC_MCTX <= i < UC_MCTX + 8 * k then UcByte(w, fpstate, mask, i) else 0
      {
        Put(buf, UC_MCTX + 8 * k, w[k]);
        forall i | UC_MCTX + 8 * k <= i < UC_MCTX + 8 * (k + 1)
          ensures buf[i] == UcByte(w, fpstate, mask, i)
        {
          assert (i - UC_MCTX) / 8 == k && (i - UC_MCTX) % 8 == i - UC_MCTX - 8 * k;
        }
        k := k + 1;
      }
      Put(buf, UC_FPSTATE, fpstate);
      Put(buf, UC_SIGMASK, mask);
      assert buf[..] == UcImage(w, fpstate, mask);
    }

    static method Put(buf: array<byte>, off: nat, v: u64)
      requires off + 8 <= buf.Length
      modifies buf
      ensures forall i :: 0 <= i < buf.Length ==>
                buf[i] == if off <= i < off + 8 then Le(v, 8)[i - off] else old(buf[i])
    {
      var b := Le(v, 8);
      var j := 0;
      while j < 8
        invariant 0 <= j <= 8
        invariant forall i :: 0 <= i < buf.Length ==> buf[i] == if off <= i < off + j then b[i - off] else old(buf[i])
      {
        buf[off + j] := b[j];
        j := j + 1;
      }
    }

    /** `setup_frame`: four copies below the chosen stack pointer. */
    method SetupFrame(sig: nat, act: Action) returns (e: Entry)
      requires 1 <= sig <= 64 && WellFormed(ctx)
      modifies this`mem
      ensures e == Setup(old(mem), alt, ctx, sig, act)
      ensures e.Entered? ==> mem == e.mem
      ensures e.Overflow? ==> mem == old(mem)
    {
      if AltPastEnd(alt, ctx.regs.rsp, act) {
        return Overflow;
      }
      var base := Base(alt, ctx.regs.rsp, act);
      if base < RED_ZONE {
        return Unusable;
      }
      if !Room(base) {
        return Overflow;
      }
      SplitMapped(mem, base);
      PlaceShape(base);
      var f := Place(base);
      var ok := CopyTo(f.info, Siginfo(sig));
      if !ok {
        return Unusable;
      }
      ok := CopyTo(f.fpstate, ctx.fpu);
      if !ok {
        return Unusable;
      }
      var uc := BuildUcontext(f.fpstate);
      ok := CopyTo(f.uc, uc[..]);
      if !ok {
        return Unusable;
      }
      ok := CopyTo(f.entry, Le(act.restorer, 8));
      if !ok {
        return Unusable;
      }
      e := Entered(HandlerRegs(ctx.regs, f, sig, act), mem);
    }

    /** Signal numbers are tried from 1 up, as the lowest set bit is. */
    method LowestDeliverable() returns (sig: nat)
      requires IsMask(pending)
      ensures sig == 0 <==> pending - ctx.blocked == {}
      ensures sig != 0 ==> Lowest(pending - ctx.blocked, sig)
    {
      sig := 1;
      while sig <= 64
        invariant 1 <= sig <= 65 && forall s :: s in pending - ctx.blocked ==> sig <= s
      {
        if sig in pending && sig !in ctx.blocked {
          assert sig in pending - ctx.blocked;
          return;
        }
        sig := sig + 1;
      }
      sig := 0;
    }

    /** Consumes pending signals until one decides. */
    method NextVerdict(arrivals: seq<set<nat>>) returns (v: Verdict)
      requires IsMask(pending) && forall i :: 0 <= i < |arrivals| ==> IsMask(arrivals[i])
      modifies this`pending
      ensures Outcome(v, pending) == Decide(old(pending), ctx.blocked, table, arrivals)
    {
      var rest := arrivals;
      while true
        invariant IsMask(pending) && forall i :: 0 <= i < |rest| ==> IsMask(rest[i])
        invariant Decide(pending, ctx.blocked, table, rest) == Decide(old(pending), ctx.blocked, table, arrivals)
        decreases |rest|, pending
      {
        var sig := LowestDeliverable();
        if sig == 0 {
          return Resume;
        }
        assert sig == Min(pending - ctx.blocked);
        if sig == SIGKILL {
          return Die(sig);
        }
        pending := pending - {sig};
        var act := table[sig];
        if act.handler == SIG_DFL {
          if TerminatesByDefault(sig) {
            return Die(sig);
          }
        } else if act.handler != SIG_IGN {
          if act.restorer != 0 {
            return Enter(sig);
          }
          if TerminatesByDefault(sig) {
            return Die(sig);
          }
        }
        if rest != [] {
          assert IsMask(rest[0]);
          pending := pending + rest[0];
          rest := rest[1..];
        }
      }
    }

    /** `deliver_user_signals`: at most one handler is entered, with the frame of
        `setup_frame` and its mask; everything else is as before. */
    method Deliver(arrivals: seq<set<nat>>) returns (v: Verdict)
      requires IsMask(pending) && WellFormed(ctx) && forall i :: 0 <= i < |arrivals| ==> IsMask(arrivals[i])
      modifies this
      ensures var d := Decide(old(pending), old(ctx.blocked), old(table), arrivals);
              && pending == d.pending
              && (!d.verdict.Enter? ==> v == d.verdict && ctx == old(ctx) && mem == old(mem) && table == old(table))
              && (d.verdict.Enter? ==>
                    var sig := d.verdict.sig;
                    && 1 <= sig <= 64
                    && var act := old(table)[sig]; var e := Setup(old(mem), alt, old(ctx), sig, act);
                    && (e.Entered? ==>
                          && v == Enter(sig) && mem == e.mem
                          && ctx == Context(e.regs, old(ctx.fpu), HandlerMask(old(ctx.blocked), sig, act))
                          && table == if act.resetHand then old(table)[sig := DFL] else old(table))
                    && (e.Unusable? ==> v == Die(SIGSEGV))
                    && (e.Overflow? ==> v == Panic && mem == old(mem)))
    {
      EnterIsCaught(pending, ctx.blocked, table, arrivals);
      v := NextVerdict(arrivals);
      if v.Enter? {
        var sig := v.sig;
        var act := table[sig];
        var e := SetupFrame(sig, act);
        if e.Overflow? {
          return Panic;
        }
        if e.Unusable? {
          return Die(SIGSEGV);
        }
        var mask := ctx.blocked + act.mask;
        if !act.noDefer {
          mask := mask + {sig};
        }
        ctx := Context(e.regs, ctx.fpu, Blockable(mask));
        if act.resetHand {
          table := table[sig := DFL];
        }
      }
    }

    /** `rt_sigreturn`: an intact frame at the stack pointer gives back the context it
        was built for; a context that cannot be read ends the process. */
    method SigReturn() returns (ok: bool)
      modifies this`ctx
      ensures ok <==> ReadableContext(mem, old(ctx.regs.rsp))
      ensures !ok ==> ctx == old(ctx)
      ensures forall f, c :: Holds(mem, f, c) && WellFormed(c) && f.fpstate != 0 && f.uc == old(ctx.regs.rsp) ==>
                ctx == c
    {
      var uc, fpu := ctx.regs.rsp, ctx.fpu;
      var r := Restore(mem, uc, fpu);
      ok := r.Some?;
      forall f, c | Holds(mem, f, c) && WellFormed(c) && f.fpstate != 0 && f.uc == uc
        ensures r.Some? && r.value.(blocked := Blockable(r.value.blocked)) == c
      {
        RestoredIs(mem, f, c, fpu);
      }
      if ok {
        ctx := r.value.(blocked := Blockable(r.value.blocked));
      }
    }
  }

  lemma RestoredIs(mem: Mem, f: Frame, c: Context, fpu: seq<byte>)
    requires Holds(mem, f, c) && WellFormed(c) && f.fpstate != 0
    ensures var r := Restore(mem, f.uc, fpu); r.Some? && r.value.(blocked := Blockable(r.value.blocked)) == c
  {
    RestoreExact(mem, f, c, fpu);
    assert Blockable(c.blocked) == c.blocked;
  }
}
