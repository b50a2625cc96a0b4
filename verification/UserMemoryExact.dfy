/** The conditions of `Scoped` cannot be weakened: outside them the step breaks
    the invariant or shows a program the wrong contents. */
module UserMemoryExact {
  import opened UserMemory
  import opened UserMemoryProofs
  import opened UserMemoryRefinement

  /** A frame whose count was raised without a reference. */
  lemma Uncounted(w: World, w': World, f: Frame)
    requires Counted(w) && PteRefs(w'.table, f) == PteRefs(w.table, f) && w'.objects == w.objects
    requires CountOf(w'.count, f) != CountOf(w.count, f)
    ensures !Counted(w')
  {
  }

  /** A clean entry over the frame of an eviction in flight whose copy differs. */
  lemma StaleBreaks(w': World, fl: Flight)
    requires fl in w'.flights && fl.loc in w'.table && Unwritten(w'.table[fl.loc], fl.frame)
    requires fl.frame in w'.ram && fl.slot in w'.swap && fl.loc in w'.vmas
    requires w'.swap[fl.slot] != w'.ram[fl.frame] || w'.vmas[fl.loc].kind.Shared?
    ensures !FlightsCurrent(w')
  {
    assert !FlightOk(w', fl);
  }

  lemma InstallBreaks(w: World, w': World, l: Loc, f: Frame, c: Page, shared: bool)
    requires MeetsStaleFlight(w, l, f, c, shared) && w'.flights == w.flights
    requires l in w'.table && Unwritten(w'.table[l], f)
    requires f in w'.ram && (shared || w'.ram[f] == c)
    requires l in w'.vmas && (shared ==> w'.vmas[l].kind.Shared?)
    requires forall fl :: fl in w.flights ==>
               fl.slot in w.swap && fl.slot in w'.swap && w'.swap[fl.slot] == w.swap[fl.slot]
    ensures !FlightsCurrent(w')
  {
    var fl :| fl in w.flights && fl.loc == l && fl.frame == f
              && (shared || fl.slot !in w.swap || w.swap[fl.slot] != c);
    StaleBreaks(w', fl);
  }

  lemma FaultNecessary(w: World, t: Tid, l: Loc, write: bool, sup: Supply)
    requires Inv(w) && !FaultScoped(w, t, l, write, sup)
    ensures !Inv(FaultNext(w, t, l, write, sup))
  {
    var f, w' := sup.frame.value, FaultNext(w, t, l, write, sup);
    CopyToPlan(w, w', t, l, write, sup, f, w.table[l].frame);
    CopiedStale(w, w', l, f, w.table[l].frame);
  }

  lemma CopiedStale(w: World, w': World, l: Loc, f: Frame, prior: Frame)
    requires Around(w, l) && l in w.table && Maps(w.table[l], prior) && f !in w.ram
    requires MeetsStaleFlight(w, l, f, w.ram[prior], false)
    requires w' == w.(table := w.table[l := FreshPte(f, true)], ram := w.ram[f := w.ram[prior]], count := w'.count)
    ensures !FlightsCurrent(w')
  {
    InstallBreaks(w, w', l, f, w.ram[prior], false);
  }

  // ---------------------------------------------------------------- the end of a fault

  lemma SettleNecessary(w: World, t: Tid, mapOk: bool)
    requires Inv(w) && !SettleScoped(w, t, mapOk)
    ensures var w' := SettleNext(w, t, mapOk); !(Inv(w') && View(w') == View(w))
  {
    var fetch, w' := w.pending.fetches[t], SettleNext(w, t, mapOk);
    var l, f, c := fetch.loc, fetch.hand.value.frame, fetch.hand.value.contents;
    assert Holds(w.pending.fetches, t, f);
    if MapFails(w, l, mapOk) {
      LostFrame(w, w', f, c);
    } else {
      SettleBreaks(w, w', fetch);
    }
  }

  /** The frame of a failed mapping is allocated and belongs to nobody. */
  lemma LostFrame(w: World, w': World, f: Frame, c: Page)
    requires WellFormed(w) && Counted(w) && f !in w.ram
    requires w' == Alloc(w, f, c).(pending := w'.pending)
    ensures !Counted(w')
  {
    Uncounted(w, w', f);
  }

  /** The frame is mapped where it does not belong. */
  lemma SettleBreaks(w: World, w': World, fetch: Fetch)
    requires Inv(w) && fetch.hand.Some? && fetch.hand.value.frame !in w.ram && !MapFails(w, fetch.loc, true)
    requires !Settles(w, fetch, true) && Settled(w, w', fetch)
    ensures !(Inv(w') && View(w') == View(w))
  {
    var l, f, c := fetch.loc, fetch.hand.value.frame, fetch.hand.value.contents;
    if l !in w.vmas {
      assert l in w'.table && l !in w'.vmas;
    } else if w.vmas[l].kind.Shared? || w.vmas[l].prot.write != fetch.vma.prot.write {
      MisplacedFrame(w, w', fetch);
    } else if !SlotFits(w, fetch) {
      MisplacedSlot(w, w', fetch);
    } else if c != OwnPage(w, l) {
      if WellFormed(w') {
        WrongPage(w, w', fetch);
      }
    } else {
      SettledStale(w, w', fetch);
    }
  }

  ghost predicate Settled(w: World, w': World, fetch: Fetch)
    requires fetch.hand.Some?
  {
    var l, f := fetch.loc, fetch.hand.value.frame;
    w' == w.(table := w.table[l := FreshPte(f, fetch.vma.prot.write)], swap := w.swap - SlotSet(fetch.origin),
             ram := w.ram[f := fetch.hand.value.contents], count := w.count[f := 1], pending := w'.pending)
  }

  /** The slot that the end of the fault frees is the page's own, or nobody's. */
  predicate SlotFits(w: World, fetch: Fetch)
  {
    if fetch.loc in w.table then w.table[fetch.loc].Swapped? && fetch.origin == Some(w.table[fetch.loc].slot)
    else fetch.origin.Some? ==> fetch.origin.value !in w.swap
  }

  lemma MisplacedFrame(w: World, w': World, fetch: Fetch)
    requires WellFormed(w) && fetch.hand.Some? && fetch.hand.value.frame !in w.ram && fetch.loc in w.vmas
    requires w.vmas[fetch.loc].kind.Shared? || w.vmas[fetch.loc].prot.write != fetch.vma.prot.write
    requires Settled(w, w', fetch)
    ensures !Kinds(w')
  {
    assert !KindOk(w', fetch.loc);
  }

  lemma MisplacedSlot(w: World, w': World, fetch: Fetch)
    requires WellFormed(w) && SlotsOwned(w) && fetch.hand.Some? && !MapFails(w, fetch.loc, true)
    requires !SlotFits(w, fetch) && Settled(w, w', fetch)
    ensures !(WellFormed(w') && SlotsOwned(w'))
  {
    var l := fetch.loc;
    if l in w.table {
      var slot := w.table[l].slot;
      assert Backed(w, w.table[l]) && slot in w'.swap;
      forall m | m in w'.table ensures w'.table[m] != Swapped(slot) {
        assert m != l ==> m in w.table;
      }
      assert !InTable(w'.table, slot) && !InFlight(w'.flights, slot);
    } else {
      var slot := fetch.origin.value;
      if InTable(w.table, slot) {
        var m :| m in w.table && w.table[m] == Swapped(slot);
        assert m in w'.table && !Backed(w', w'.table[m]);
      } else {
        var fl :| fl in w.flights && fl.slot == slot;
        assert fl in w'.flights && fl.slot !in w'.swap;
      }
    }
  }

  lemma WrongPage(w: World, w': World, fetch: Fetch)
    requires WellFormed(w) && WellFormed(w') && fetch.hand.Some? && fetch.loc in w.vmas
    requires !w.vmas[fetch.loc].kind.Shared?
    requires fetch.hand.value.contents != OwnPage(w, fetch.loc) && Settled(w, w', fetch)
    ensures View(w') != View(w)
  {
    var l := fetch.loc;
    assert l in OwnPages(w') && OwnPages(w')[l] == fetch.hand.value.contents;
    assert l in OwnPages(w) && OwnPages(w)[l] == OwnPage(w, l);
  }

  lemma SettledStale(w: World, w': World, fetch: Fetch)
    requires Core(w) && fetch.hand.Some? && fetch.loc in w.vmas && SlotFits(w, fetch) && Settled(w, w', fetch)
    requires MeetsStaleFlight(w, fetch.loc, fetch.hand.value.frame, fetch.hand.value.contents, false)
    ensures !FlightsCurrent(w')
  {
    CoreAround(w, fetch.loc);
    FlightSlotsKept(w, w', fetch.loc);
    InstallBreaks(w, w', fetch.loc, fetch.hand.value.frame, fetch.hand.value.contents, false);
  }

  lemma FlightSlotsKept(w: World, w': World, l: Loc)
    requires Around(w, l)
    requires w'.swap == w.swap || (l in w.table && w.table[l].Swapped? && w'.swap == w.swap - {w.table[l].slot})
    ensures forall fl :: fl in w.flights ==>
              fl.slot in w.swap && fl.slot in w'.swap && w'.swap[fl.slot] == w.swap[fl.slot]
  {
  }

  lemma JoinNecessary(w: World, t: Tid, sup: Supply)
    requires Inv(w) && !JoinScoped(w, t, sup)
    ensures !Inv(JoinNext(w, t, sup))
  {
    var fetch, w' := w.pending.fetches[t], JoinNext(w, t, sup);
    var l, k := fetch.loc, fetch.vma.kind.key;
    var f := if k in w.objects then w.objects[k] else sup.frame.value;
    if MapFails(w, l, sup.mapOk) {
      LostJoin(w, w', t, sup, fetch, f);
    } else {
      if k in w.objects {
        OldJoinIs(w, w', t, sup, fetch, f);
      } else {
        NewJoinIs(w, w', t, sup, fetch, f);
      }
      JoinBreaks(w, w', fetch, f);
    }
  }

  lemma LostJoin(w: World, w': World, t: Tid, sup: Supply, fetch: Fetch, f: Frame)
    requires WellFormed(w) && Counted(w) && Joining(w, t, sup) && fetch == w.pending.fetches[t]
    requires f == if fetch.vma.kind.key in w.objects then w.objects[fetch.vma.kind.key] else sup.frame.value
    requires MapFails(w, fetch.loc, sup.mapOk) && w' == JoinNext(w, t, sup)
    ensures !Counted(w')
  {
    if fetch.vma.kind.key in w.objects {
      Uncounted(w, w', f);
    } else {
      UnusedFrame(w, f);
      ObjRefsSet(w.objects, fetch.vma.kind.key, f, f);
      assert CountOf(w'.count, f) == 2;
      assert |PteRefs(w'.table, f)| + |ObjRefs(w'.objects, f)| == 1;
    }
  }

  /** A page of an object is mapped where its region does not say so. */
  lemma JoinBreaks(w: World, w': World, fetch: Fetch, f: Frame)
    requires Core(w) && fetch.vma.kind.Shared?
    requires w'.vmas == w.vmas && w'.flights == w.flights && w'.swap == w.swap && f in w'.ram
    requires w'.objects == w.objects[fetch.vma.kind.key := f]
    requires w'.table == w.table[fetch.loc := FreshPte(f, fetch.vma.prot.write)]
    requires (&& fetch.loc in w.vmas && w.vmas[fetch.loc].kind == fetch.vma.kind
              && w.vmas[fetch.loc].prot.write == fetch.vma.prot.write) ==>
               MeetsStaleFlight(w, fetch.loc, f, ZeroPage(), true)
    ensures !Core(w')
  {
    var l, k := fetch.loc, fetch.vma.kind.key;
    if l !in w.vmas {
      assert l in w'.table && l !in w'.vmas;
    } else if w.vmas[l].kind != fetch.vma.kind || w.vmas[l].prot.write != fetch.vma.prot.write {
      assert k in w'.objects && w'.objects[k] == f;
      assert !(Kinds(w') && KindOk(w', l));
    } else {
      CoreAround(w, l);
      FlightSlotsKept(w, w', l);
      InstallBreaks(w, w', l, f, ZeroPage(), true);
    }
  }

  lemma KernelCopyNecessary(w: World, l: Loc, off: nat, data: seq<Byte>)
    requires Inv(w) && !Scoped(w, KernelCopy(l, off, data))
    ensures !FlightsCurrent(KernelCopyNext(w, l, off, data))
  {
    var c := Splice(w.ram[w.table[l].frame], off, data);
    var fl :| fl in w.flights && fl.loc == l && fl.frame == w.table[l].frame && w.swap[fl.slot] != c;
    StaleBreaks(KernelCopyNext(w, l, off, data), fl);
  }

  lemma StageNecessary(w: World, t: Tid, l: Loc, force: bool)
    requires Inv(w) && !Scoped(w, EvictStage(t, l, force))
    ensures !FlightsCurrent(EvictStageNext(w, t, l, force))
  {
    var f := w.table[l].frame;
    var fl :| fl in w.flights && fl.loc == l && fl.frame == f && w.swap[fl.slot] != w.ram[f];
    StaleBreaks(EvictStageNext(w, t, l, force), fl);
  }

  lemma WriteNecessary(w: World, t: Tid, slot: Option<Slot>, other: Page)
    requires Inv(w) && !WriteScoped(w, t, slot)
    ensures !FlightsCurrent(EvictWriteNext(w, t, slot, other))
  {
    var p := w.pending.preps[t];
    assert Backed(w, w.table[p.loc]);
    StaleBreaks(EvictWriteNext(w, t, slot, other), Flight(p.loc, p.frame, slot.value));
  }

  /** Somebody else maps a private frame whose count is not one. */
  lemma OtherMapper(w: World, l: Loc) returns (m: Loc)
    requires Inv(w) && l in w.table && w.table[l].Present? && !w.vmas[l].kind.Shared?
    requires w.count[w.table[l].frame] != 1
    ensures m != l && m in w.table && Maps(w.table[m], w.table[l].frame)
  {
    var f := w.table[l].frame;
    assert KindOk(w, l);
    assert ObjRefs(w.objects, f) == {};
    var refs := PteRefs(w.table, f);
    assert CountOf(w.count, f) == |refs|;
    assert l in refs;
    assert |refs - {l}| == |refs| - 1;
    m :| m in refs - {l};
  }

  lemma ProtectNecessary(w: World, l: Loc, prot: Prot)
    requires Inv(w) && !Scoped(w, ProtectPage(l, prot))
    ensures !Exclusive(ProtectPageNext(w, l, prot))
  {
    var w' := ProtectPageNext(w, l, prot);
    var m := OtherMapper(w, l);
    assert OwnsFrame(w', l) && m in w'.table && Maps(w'.table[m], w'.table[l].frame);
  }

  lemma ReleaseNecessary(w: World, s: SpaceId)
    requires Inv(w) && !Busy(w, s) && !NoEntries(w.table, s)
    ensures !Inv(Next(w, ReleaseSpace(s)))
  {
    var w' := Next(w, ReleaseSpace(s));
    var l :| l in w.table && l.space == s;
    match w.table[l]
    case Present(f, _, _, _, _) => LeftFrame(w, w', l, f);
    case Swapped(slot) => LeftSlot(w, w', l, slot);
  }

  lemma LeftFrame(w: World, w': World, l: Loc, f: Frame)
    requires Counted(w) && l in w.table && Maps(w.table[l], f) && w'.count == w.count && w'.objects == w.objects
    requires w'.table == Without(w.table, l.space)
    ensures !Counted(w')
  {
    assert PteRefs(w'.table, f) <= PteRefs(w.table, f) - {l};
    SubsetSize(PteRefs(w'.table, f), PteRefs(w.table, f) - {l});
    assert l in PteRefs(w.table, f);
    assert CountOf(w'.count, f) != |PteRefs(w'.table, f)| + |ObjRefs(w'.objects, f)|;
  }

  lemma LeftSlot(w: World, w': World, l: Loc, slot: Slot)
    requires WellFormed(w) && SlotsOwned(w) && l in w.table && w.table[l] == Swapped(slot)
    requires w'.table == Without(w.table, l.space) && w'.swap == w.swap && w'.flights == w.flights
    ensures !SlotsOwned(w')
  {
    assert Backed(w, w.table[l]);
    forall m | m in w'.table ensures w'.table[m] != Swapped(slot) {
      assert m in w.table && m != l;
    }
    assert !InTable(w'.table, slot) && !InFlight(w'.flights, slot);
  }

  // ---------------------------------------------------------------- fork

  lemma ForkPresentNecessary(w: World, w': World, l: Loc, child: SpaceId, vma: Vma, ok: bool)
    requires Inv(w) && l in w.table && w.table[l].Present? && child in w.spaces && Loc(child, l.vpn) !in w.vmas
    requires vma == w.vmas[l] && w' == ForkPageNext(w, l, child, vma, ok)
    requires !ok || (!w.table[l].dirty && MeetsStaleFlight(w, Loc(child, l.vpn), w.table[l].frame,
                                                          w.ram[w.table[l].frame], w.vmas[l].kind.Shared?))
    ensures !Inv(w')
  {
    var c, f := Loc(child, l.vpn), w.table[l].frame;
    if !ok {
      PteRefsSet(w.table, l, w'.table[l], f);
      assert CountOf(w'.count, f) == CountOf(w.count, f) + 1;
      assert w'.objects == w.objects;
      assert !Counted(w');
    } else {
      InstallBreaks(w, w', c, f, w.ram[f], w.vmas[l].kind.Shared?);
    }
  }

  lemma ForkSwappedView(w: World, w': World, l: Loc, child: SpaceId, vma: Vma, ok: bool)
    requires WellFormed(w) && Kinds(w) && l in w.table && w.table[l].Swapped? && child in w.spaces
    requires Loc(child, l.vpn) !in w.vmas
    requires vma == w.vmas[l] && w' == ForkPageNext(w, l, child, vma, ok) && WellFormed(w')
    requires w.swap[w.table[l].slot] != InitialPage(vma.kind)
    ensures View(w') != SpecNext(View(w), ForkPage(l, child, vma, ok), true)
  {
    var c := Loc(child, l.vpn);
    assert KindOk(w, l);
    assert l in OwnPages(w) && OwnPages(w)[l] == w.swap[w.table[l].slot];
    ChildBlank(w, w', l, c);
    assert SpecNext(View(w), ForkPage(l, child, vma, ok), true).own[c] == OwnPages(w)[l];
  }

  lemma ChildBlank(w: World, w': World, l: Loc, c: Loc)
    requires WellFormed(w) && WellFormed(w') && l in w.vmas && c !in w.vmas && !w.vmas[l].kind.Shared?
    requires w' == w.(vmas := w.vmas[c := w.vmas[l]])
    ensures c in OwnPages(w') && OwnPages(w')[c] == InitialPage(w.vmas[l].kind)
  {
  }

  lemma ForkNecessary(w: World, l: Loc, child: SpaceId, vma: Vma, ok: bool)
    requires Inv(w) && !ForkScoped(w, l, child, vma, ok)
    ensures var w' := ForkPageNext(w, l, child, vma, ok);
            !(Inv(w') && View(w') == SpecNext(View(w), ForkPage(l, child, vma, ok), true))
  {
    var w' := ForkPageNext(w, l, child, vma, ok);
    if l !in w.vmas || w.vmas[l] != vma {
      ForkRegion(w, w', l, child, vma, ok);
    } else if w.table[l].Present? {
      ForkPresentNecessary(w, w', l, child, vma, ok);
    } else if WellFormed(w') {
      ForkSwappedView(w, w', l, child, vma, ok);
    }
  }

  /** The child has the region as it was, not as it is. */
  lemma ForkRegion(w: World, w': World, l: Loc, child: SpaceId, vma: Vma, ok: bool)
    requires WellFormed(w) && child in w.spaces && Loc(child, l.vpn) !in w.vmas && (l !in w.vmas || w.vmas[l] != vma)
    requires w' == ForkPageNext(w, l, child, vma, ok)
    ensures w'.vmas != SpecNext(View(w), ForkPage(l, child, vma, ok), true).vmas
  {
    assert w'.vmas[Loc(child, l.vpn)] == vma;
  }

  // ---------------------------------------------------------------- the theorem

  /** A step from a consistent world keeps it consistent and has exactly the
      effect that programs expect if and only if `Scoped` holds beforehand. */
  lemma StepExact(w: World, st: Step)
    requires Inv(w)
    ensures var w' := Next(w, st);
            Scoped(w, st) <==> Inv(w') && View(w') == SpecNext(View(w), st, Effective(w, st))
  {
    if Scoped(w, st) {
      NextRefines(w, st);
    } else {
      match st
      case Fault(t, l, write, sup) => FaultNecessary(w, t, l, write, sup);
      case Settle(t, mapOk) => SettleNecessary(w, t, mapOk);
      case Join(t, sup) => JoinNecessary(w, t, sup);
      case KernelCopy(l, off, data) => KernelCopyNecessary(w, l, off, data);
      case ProtectPage(l, prot) => ProtectNecessary(w, l, prot);
      case ForkPage(l, child, vma, ok) => ForkNecessary(w, l, child, vma, ok);
      case EvictStage(t, l, force) => StageNecessary(w, t, l, force);
      case EvictWrite(t, slot, other) => WriteNecessary(w, t, slot, other);
      case ReleaseSpace(s) => ReleaseNecessary(w, s);
    }
  }
}
