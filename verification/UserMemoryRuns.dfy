/** Whole runs of the memory machine: isolation of private pages, one contents
    for shared pages, no leaked and no early-freed frame. */
module UserMemoryRuns {
  import opened UserMemory
  import opened UserMemoryProofs
  import opened UserMemoryRefinement
  import opened UserMemoryExact

  // ---------------------------------------------------------------- runs

  /** Every step of the run is within its exact condition. */
  ghost predicate RunScoped(w: World, run: seq<Step>)
    requires Inv(w)
    decreases |run|
  {
    run == [] || (Scoped(w, run[0]) && (StepExact(w, run[0]); RunScoped(Next(w, run[0]), run[1..])))
  }

  ghost function Run(w: World, run: seq<Step>): (w': World)
    requires Inv(w) && RunScoped(w, run)
    ensures Inv(w')
    decreases |run|
  {
    if run == [] then w else (StepExact(w, run[0]); Run(Next(w, run[0]), run[1..]))
  }

  /** The same run on plain pages; `w` only says which writes were turned away. */
  ghost function SpecRun(a: Abs, w: World, run: seq<Step>): Abs
    requires Inv(w) && RunScoped(w, run)
    decreases |run|
  {
    if run == [] then a
    else (StepExact(w, run[0]);
          SpecRun(SpecNext(a, run[0], Effective(w, run[0])), Next(w, run[0]), run[1..]))
  }

  /** Demand paging, copy-on-write, reference counting and swapping are invisible
      over whole runs. */
  lemma {:induction false} RunRefines(w: World, run: seq<Step>)
    requires Inv(w) && RunScoped(w, run)
    ensures View(Run(w, run)) == SpecRun(View(w), w, run)
    decreases |run|
  {
    if run != [] {
      StepExact(w, run[0]);
      RunRefines(Next(w, run[0]), run[1..]);
    }
  }

  // ---------------------------------------------------------------- isolation

  /** The step is a write to, or the end of, the page `l` itself. */
  predicate Touches(st: Step, l: Loc)
  {
    match st
    case Store(m, _, _) => m == l
    case KernelCopy(m, _, _) => m == l
    case UnmapPage(m) => m == l
    case ReleaseSpace(s) => s == l.space
    case _ => false
  }

  lemma OthersKeep(a: Abs, st: Step, effective: bool, l: Loc)
    requires l in a.vmas && l in a.own && !Touches(st, l)
    ensures var b := SpecNext(a, st, effective); l in b.vmas && l in b.own && b.own[l] == a.own[l]
  {
  }

  /** Fork isolation: whatever any space does (forks, faults, stores, evictions,
      unmaps, releases), a private page keeps its contents until its own space
      writes or unmaps it. */
  lemma {:induction false} Isolation(w: World, run: seq<Step>, l: Loc)
    requires Inv(w) && RunScoped(w, run)
    requires l in OwnPages(w)
    requires forall i :: 0 <= i < |run| ==> !Touches(run[i], l)
    ensures l in OwnPages(Run(w, run)) && OwnPages(Run(w, run))[l] == OwnPages(w)[l]
    decreases |run|
  {
    if run != [] {
      StepIsolated(w, run[0], l);
      assert forall i :: 0 <= i < |run[1..]| ==> run[1..][i] == run[i + 1];
      Isolation(Next(w, run[0]), run[1..], l);
    }
  }

  lemma StepIsolated(w: World, st: Step, l: Loc)
    requires Inv(w) && Scoped(w, st) && l in OwnPages(w) && !Touches(st, l)
    ensures var w' := Next(w, st); Inv(w') && l in OwnPages(w') && OwnPages(w')[l] == OwnPages(w)[l]
  {
    var w' := Next(w, st);
    StepExact(w, st);
    OthersKeep(View(w), st, Effective(w, st), l);
    assert View(w').own == OwnPages(w') && View(w).own == OwnPages(w);
  }

  /** Two mappings of one page of a shared object are the same memory. */
  lemma SharedIsCommon(w: World, l: Loc, m: Loc)
    requires Inv(w) && l in w.table && m in w.table && w.table[l].Present? && w.table[m].Present?
    requires l in w.vmas && m in w.vmas && w.vmas[l].kind.Shared? && w.vmas[m].kind == w.vmas[l].kind
    ensures w.table[l].frame == w.table[m].frame
    ensures w.ram[w.table[l].frame] == SharedPages(w)[w.vmas[l].kind.key]
  {
    assert KindOk(w, l) && KindOk(w, m);
  }

  /** A load through a present entry reads what the abstract memory holds. */
  lemma LoadSeesView(w: World, l: Loc)
    requires Inv(w) && l in w.table && w.table[l].Present?
    ensures w.ram[w.table[l].frame]
         == if w.vmas[l].kind.Shared? then SharedPages(w)[w.vmas[l].kind.key] else OwnPages(w)[l]
  {
    assert KindOk(w, l);
  }

  /** The faults that have `f` in hand. */
  function HandRefs(fetches: map<Tid, Fetch>, f: Frame): set<Tid>
  {
    set t | t in fetches && Holds(fetches, t, f)
  }

  /** A frame is out of the allocator exactly while something refers to it: entries and
      objects, which its count counts, or the one fault that has it in hand. */
  lemma Conservation(w: World, run: seq<Step>, f: Frame)
    requires Inv(w) && RunScoped(w, run)
    ensures var w' := Run(w, run); var hands := HandRefs(w'.pending.fetches, f);
            && (f in w'.ram <==> PteRefs(w'.table, f) != {} || ObjRefs(w'.objects, f) != {})
            && (f in w'.ram ==> hands == {} && w'.count[f] == |PteRefs(w'.table, f)| + |ObjRefs(w'.objects, f)|)
            && |hands| == if InHand(w'.pending.fetches, f) then 1 else 0
  {
    var w' := Run(w, run);
    var hands := HandRefs(w'.pending.fetches, f);
    assert CountOf(w'.count, f) == |PteRefs(w'.table, f)| + |ObjRefs(w'.objects, f)|;
    assert f in w'.ram ==> hands == {} by {
      forall t | Holds(w'.pending.fetches, t, f) ensures f !in w'.ram {}
    }
    if InHand(w'.pending.fetches, f) {
      var t :| t in w'.pending.fetches && Holds(w'.pending.fetches, t, f);
      AtMostOne(hands, t);
    } else {
      assert hands == {};
    }
  }

  function SlotEntries(w: World, slot: Slot): set<Loc>
  {
    set l | l in w.table && w.table[l] == Swapped(slot)
  }

  function SlotFlights(w: World, slot: Slot): set<Flight>
  {
    set fl | fl in w.flights && fl.slot == slot
  }

  lemma AtMostOne<T>(s: set<T>, x: T)
    requires x in s && forall y :: y in s ==> y == x
    ensures |s| == 1
  {
    assert s == {x};
  }

  lemma OneOwner(w: World, slot: Slot)
    requires Inv(w) && slot in w.swap
    ensures |SlotEntries(w, slot)| + |SlotFlights(w, slot)| == 1
  {
    if InTable(w.table, slot) {
      var l :| l in w.table && w.table[l] == Swapped(slot);
      AtMostOne(SlotEntries(w, slot), l);
      assert SlotFlights(w, slot) == {};
    } else {
      var fl :| fl in w.flights && fl.slot == slot;
      AtMostOne(SlotFlights(w, slot), fl);
      assert SlotEntries(w, slot) == {};
    }
  }

  /** A swap slot is in use exactly while one swapped entry or one eviction in
      flight owns it: never two, and never without an owner. */
  lemma SlotConservation(w: World, run: seq<Step>, slot: Slot)
    requires Inv(w) && RunScoped(w, run)
    ensures var w' := Run(w, run);
            && |SlotEntries(w', slot)| + |SlotFlights(w', slot)| == if slot in w'.swap then 1 else 0
  {
    var w' := Run(w, run);
    if slot in w'.swap {
      OneOwner(w', slot);
    } else {
      assert SlotEntries(w', slot) == {} by {
        forall l | l in w'.table ensures w'.table[l] != Swapped(slot) { assert Backed(w', w'.table[l]); }
      }
      assert SlotFlights(w', slot) == {};
    }
  }

  /** A store through the mapping while its page is being staged makes the commit
      give up: the slot goes back, and the page holds what was stored. */
  lemma StoreAborts(w: World, fl: Flight, off: nat, b: Byte, charged: bool)
    requires Inv(w) && fl in w.flights && fl.loc in w.table && Unwritten(w.table[fl.loc], fl.frame)
    requires w.table[fl.loc].writable && off < PAGE_SIZE
    ensures var w1 := StoreNext(w, fl.loc, off, b);
            Inv(w1) &&
            var w2 := EvictCommitNext(w1, fl, charged);
            && Inv(w2) && w2.table == w1.table && fl.slot !in w2.swap && fl.loc in w2.vmas
            && OwnPage(w2, fl.loc) == Splice(OwnPage(w, fl.loc), off, [b])
  {
    var w1 := StoreNext(w, fl.loc, off, b);
    StoreKeepsInv(w, fl.loc, off, b);
    CommitKeepsInv(w1, fl, charged);
  }

  lemma BootInv()
    ensures Inv(Boot())
  {
    var w := Boot();
    forall f ensures CountOf(w.count, f) == |PteRefs(w.table, f)| + |ObjRefs(w.objects, f)| {
      assert PteRefs(w.table, f) == {} && ObjRefs(w.objects, f) == {};
    }
  }

  /** Once every space and object is gone, so is every frame and every slot. */
  lemma NothingLeft(w: World)
    requires Inv(w) && w.table == map[] && w.objects == map[] && w.flights == {}
    ensures w.ram == map[] && w.count == map[] && w.swap == map[]
  {
    forall f ensures f !in w.count {
      assert PteRefs(w.table, f) == {} && ObjRefs(w.objects, f) == {};
      assert CountOf(w.count, f) == 0;
    }
  }

  // ---------------------------------------------------------------- what fails outside the scope

  /** `fork` marks only writable pages copy-on-write. A page that is read-only
      when it is forked stays shared without the mark, so a later `protect` that
      adds WRITE lets the next store be seen by another space. */
  lemma ProtectLeaks(w: World, l: Loc, prot: Prot, off: nat, b: Byte) returns (m: Loc)
    requires Inv(w) && !Scoped(w, ProtectPage(l, prot))
    requires off < PAGE_SIZE && b != w.ram[w.table[l].frame][off]
    ensures m != l && m in OwnPages(w)
    ensures var w1 := ProtectPageNext(w, l, prot);
            WellFormed(w1) &&
            var w2 := StoreNext(w1, l, off, b);
            WellFormed(w2) && m in OwnPages(w2) && OwnPages(w2)[m] != OwnPages(w)[m]
  {
    m := OtherMapper(w, l);
    var f := w.table[l].frame;
    assert KindOk(w, l) && KindOk(w, m);
    var w1 := ProtectPageNext(w, l, prot);
    ProtectStaysFormed(w, l, prot);
    var w2 := StoreNext(w1, l, off, b);
    assert w2.ram[f] == Splice(w.ram[f], off, [b]);
    assert w2.ram[f][off] == b;
    assert WellFormed(w2);
    assert OwnPage(w2, m) == w2.ram[f] && OwnPage(w, m) == w.ram[f];
  }

  lemma VmaStaysFormed(w: World, l: Loc, v: Vma)
    requires WellFormed(w) && l in w.vmas
    ensures WellFormed(w.(vmas := w.vmas[l := v]))
  {
  }

  lemma EntryStaysFormed(w: World, l: Loc, e: Pte)
    requires WellFormed(w) && l in w.table && Backed(w, e)
    ensures WellFormed(w.(table := w.table[l := e]))
  {
  }

  lemma ProtectStaysFormed(w: World, l: Loc, prot: Prot)
    requires WellFormed(w)
    ensures WellFormed(ProtectPageNext(w, l, prot))
  {
    if l in w.vmas {
      VmaStaysFormed(w, l, w.vmas[l].(prot := prot));
      if l in w.table {
        EntryStaysFormed(w.(vmas := w.vmas[l := w.vmas[l].(prot := prot)]), l, ProtectedPte(w.table[l], prot));
      }
    }
  }

  /** Committing an eviction whose copy is out of date replaces the page by the
      old copy: `FlightsCurrent` is exactly what makes eviction invisible. */
  lemma StaleCommitShows(w: World, fl: Flight)
    requires WellFormed(w) && fl in w.flights && fl.loc in w.table && Unwritten(w.table[fl.loc], fl.frame)
    requires !w.vmas[fl.loc].kind.Shared? && w.swap[fl.slot] != w.ram[fl.frame]
    ensures var w' := EvictCommitNext(w, fl, true);
            && fl.loc in w'.table && w'.table[fl.loc] == Swapped(fl.slot)
            && w'.swap[fl.slot] == w.swap[fl.slot] && w.swap[fl.slot] != OwnPage(w, fl.loc)
  {
  }

  /** The bytes of a kernel copy to a page that is being staged are lost when the
      eviction commits, because the copy does not set DIRTY. */
  lemma KernelCopyLost(w: World, fl: Flight, off: nat, data: seq<Byte>)
    requires Inv(w) && fl in w.flights && fl.loc in w.table && Unwritten(w.table[fl.loc], fl.frame)
    requires CopyAllowed(w, fl.loc, off, data) && Splice(w.ram[fl.frame], off, data) != w.ram[fl.frame]
    ensures var w1 := KernelCopyNext(w, fl.loc, off, data);
            WellFormed(w1) && OwnPage(w1, fl.loc) == Splice(w.ram[fl.frame], off, data) &&
            var w2 := EvictCommitNext(w1, fl, true);
            fl.loc in w2.table && w2.table[fl.loc] == Swapped(fl.slot) && w2.swap[fl.slot] == OwnPage(w, fl.loc)
  {
    var w1 := KernelCopyNext(w, fl.loc, off, data);
    assert FlightOk(w, fl);
    assert WellFormed(w1) by {
      forall m | m in w1.table ensures Backed(w1, w1.table[m]) {
        assert Backed(w, w.table[m]);
      }
    }
    StaleCommitShows(w1, fl);
  }

  // ---------------------------------------------------------------- what can be reached

  ghost predicate Reachable(w: World)
  {
    exists run :: ReachedBy(w, run)
  }

  ghost predicate ReachedBy(w: World, run: seq<Step>)
  {
    Inv(Boot()) && RunScoped(Boot(), run) && Run(Boot(), run) == w
  }

  lemma {:induction false} RunAppend(w: World, run: seq<Step>, st: Step)
    requires Inv(w) && RunScoped(w, run) && Scoped(Run(w, run), st)
    ensures RunScoped(w, run + [st]) && Run(w, run + [st]) == Next(Run(w, run), st)
    decreases |run|
  {
    if run == [] {
      assert run + [st] == [st] && [st][1..] == [];
      StepExact(w, st);
    } else {
      assert (run + [st])[1..] == run[1..] + [st];
      StepExact(w, run[0]);
      RunAppend(Next(w, run[0]), run[1..], st);
    }
  }

  lemma ReachedInv(w: World)
    requires Reachable(w)
    ensures Inv(w)
  {
  }

  lemma ReachNext(w: World, st: Step)
    requires Reachable(w) && WellFormed(w) && Scoped(w, st)
    ensures Reachable(Next(w, st))
  {
    var run :| ReachedBy(w, run);
    RunAppend(Boot(), run, st);
    assert ReachedBy(Next(w, st), run + [st]);
  }

  lemma BootReachable()
    ensures Reachable(Boot())
  {
    BootInv();
    assert ReachedBy(Boot(), []);
  }
}
