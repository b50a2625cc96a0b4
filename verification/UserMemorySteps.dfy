/** What each step of the memory machine gets done: a fault is served, a store and a copy
    land, an eviction ends with the page in swap, and a step that is turned away was
    turned away for a reason its caller could see. */
module UserMemorySteps {
  import opened UserMemory
  import opened UserMemoryProofs
  import opened UserMemoryRefinement
  import opened UserMemoryExact
  import opened UserMemoryRuns
  import opened UserMemoryFaults

  // ---------------------------------------------------------------- faults

  /** The region allows the access. */
  predicate Permitted(w: World, l: Loc, write: bool)
  {
    l in w.vmas && (write ==> w.vmas[l].prot.write)
  }

  /** The page has a frame. */
  predicate Resides(w: World, l: Loc)
  {
    l in w.table && w.table[l].Present?
  }

  /** A write to a page that others map too, and no frame to copy it to. */
  ghost predicate Starved(w: World, l: Loc, write: bool, sup: Supply)
    requires WellFormed(w) && Resides(w, l)
  {
    write && w.table[l].cow && w.count[w.table[l].frame] != 1 && !Available(w, sup)
  }

  /** The page can be accessed, and shows what it showed before. */
  ghost predicate Served(w: World, w': World, l: Loc, write: bool)
    requires WellFormed(w) && Resides(w, l)
  {
    && Resides(w', l) && w'.table[l].frame in w'.ram
    && w'.ram[w'.table[l].frame] == w.ram[w.table[l].frame]
    && (write ==> w'.table[l].writable && !w'.table[l].cow)
    && w'.vmas == w.vmas && w'.pending == w.pending && w'.flights == w.flights
  }

  /** A fault on a page that has a frame is served at once, unless it is a write to a
      shared copy and there is no frame to be had; then nothing changes. */
  lemma FaultServes(w: World, t: Tid, l: Loc, write: bool, sup: Supply)
    requires Inv(w) && t !in w.pending.fetches && Permitted(w, l, write) && Resides(w, l)
    ensures var w' := FaultNext(w, t, l, write, sup);
            if Starved(w, l, write, sup) then w' == w else Served(w, w', l, write)
  {
    var w', f := FaultNext(w, t, l, write, sup), w.table[l].frame;
    assert Backed(w, w.table[l]) && KindOk(w, l);
    assert f in w.count && w.count[f] > 0;
    if write && w.table[l].cow {
      if w.count[f] == 1 {
        TakenOver(w, w', l);
      } else if Available(w, sup) {
        CopiedOut(w, w', l, sup.frame.value);
      }
    }
  }

  /** The only holder keeps its frame. */
  lemma TakenOver(w: World, w': World, l: Loc)
    requires WellFormed(w) && Resides(w, l) && w.table[l].frame in w.ram
    requires w' == w.(table := w.table[l := w.table[l].(cow := false, writable := true)])
    ensures Served(w, w', l, true) && w'.table[l].frame == w.table[l].frame && w'.count == w.count
  {
  }

  /** One of several gets a copy of its own, and gives its reference back. */
  lemma CopiedOut(w: World, w': World, l: Loc, f: Frame)
    requires WellFormed(w) && Resides(w, l) && l in w.vmas && w.vmas[l].prot.write
    requires w.table[l].frame in w.ram && w.count[w.table[l].frame] > 1 && f !in w.ram && f !in w.count
    requires w' == Put(Install(w, l, f, w.ram[w.table[l].frame]), w.table[l].frame)
    ensures Served(w, w', l, true) && w'.table[l].frame == f
    ensures var f0 := w.table[l].frame;
            && f0 in w'.count && w'.count[f0] == w.count[f0] - 1
            && f0 in w'.ram && w'.ram[f0] == w.ram[f0]
    ensures forall m :: m in w.table && m != l ==> m in w'.table && w'.table[m] == w.table[m]
  {
    var f0 := w.table[l].frame;
    var w1 := Install(w, l, f, w.ram[f0]);
    assert w1.table == w.table[l := FreshPte(f, true)];
    assert w1.count[f0] == w.count[f0] && w1.ram == w.ram[f := w.ram[f0]];
  }

  /** Who else maps the page keeps it, with one reference less. */
  lemma CopyLeaves(w: World, t: Tid, l: Loc, sup: Supply)
    requires Inv(w) && t !in w.pending.fetches && Permitted(w, l, true) && Resides(w, l)
    requires w.table[l].cow && w.count[w.table[l].frame] > 1 && Available(w, sup)
    ensures var w', f := FaultNext(w, t, l, true, sup), w.table[l].frame;
            && Resides(w', l) && w'.table[l].frame == sup.frame.value != f
            && f in w'.count && w'.count[f] == w.count[f] - 1 && f in w'.ram && w'.ram[f] == w.ram[f]
            && forall m :: m in w.table && m != l ==> m in w'.table && w'.table[m] == w.table[m]
  {
    assert Backed(w, w.table[l]);
    CopiedOut(w, FaultNext(w, t, l, true, sup), l, sup.frame.value);
  }

  /** A fault on a page without a frame begins to wait for it, and does nothing else. */
  lemma FaultBegins(w: World, t: Tid, l: Loc, write: bool, sup: Supply)
    requires Inv(w) && t !in w.pending.fetches && Permitted(w, l, write) && !Resides(w, l)
    ensures var origin := if l in w.table then Some(w.table[l].slot) else None;
            FaultNext(w, t, l, write, sup)
            == w.(pending := w.pending.(fetches := w.pending.fetches[t := Fetch(l, w.vmas[l], origin, None)]))
  {
  }

  /** A fault outside every region, or a write to one that forbids it, changes nothing. */
  lemma FaultRefused(w: World, t: Tid, l: Loc, write: bool, sup: Supply)
    requires WellFormed(w) && !Permitted(w, l, write)
    ensures FaultNext(w, t, l, write, sup) == w
  {
  }

  /** No eviction of `l` in flight knows the frame that is handed out. */
  ghost predicate NewToPage(w: World, l: Loc, sup: Supply)
  {
    sup.frame.Some? ==> forall fl :: fl in w.flights && fl.loc == l ==> fl.frame != sup.frame.value
  }

  lemma NewIsScoped(w: World, t: Tid, l: Loc, write: bool, sup: Supply)
    requires Inv(w) && NewToPage(w, l, sup)
    ensures FaultScoped(w, t, l, write, sup)
  {
  }

  /** After a write fault the store gets through, and it changes its byte of that page and
      of no other. */
  lemma FaultThenStore(w: World, t: Tid, l: Loc, sup: Supply, off: nat, b: Byte)
    requires Inv(w) && t !in w.pending.fetches && Permitted(w, l, true) && Resides(w, l)
    requires !Starved(w, l, true, sup) && NewToPage(w, l, sup) && off < PAGE_SIZE
    ensures var w' := FaultNext(w, t, l, true, sup);
            && Inv(w') && Inv(StoreNext(w', l, off, b))
            && View(StoreNext(w', l, off, b)) == Write(View(w), l, off, [b])
  {
    var w' := FaultNext(w, t, l, true, sup);
    NewIsScoped(w, t, l, true, sup);
    FaultKeepsInv(w, t, l, true, sup);
    FaultSilent(w, t, l, true, sup);
    FaultServes(w, t, l, true, sup);
    StoreLands(w', l, off, b);
  }

  lemma StoreLands(w: World, l: Loc, off: nat, b: Byte)
    requires Inv(w) && Resides(w, l) && w.table[l].writable && off < PAGE_SIZE
    ensures Inv(StoreNext(w, l, off, b)) && View(StoreNext(w, l, off, b)) == Write(View(w), l, off, [b])
  {
    assert Effective(w, Store(l, off, b));
    StepExact(w, Store(l, off, b));
    assert SpecNext(View(w), Store(l, off, b), true) == Write(View(w), l, off, [b]);
  }

  // ---------------------------------------------------------------- kernel copies

  /** A copy into a page that has a frame of its own, in a writable region, always lands:
      the frame holds the bytes, and nothing else changes. */
  lemma CopyLands(w: World, l: Loc, off: nat, data: seq<Byte>)
    requires Inv(w) && Permitted(w, l, true) && Resides(w, l) && !w.table[l].cow && off + |data| <= PAGE_SIZE
    ensures var w', f := KernelCopyNext(w, l, off, data), w.table[l].frame;
            w' == w.(ram := w'.ram) && f in w.ram && w'.ram == w.ram[f := Splice(w.ram[f], off, data)]
  {
    assert Backed(w, w.table[l]);
  }

  /** As programs see it, the bytes are then in that page and in no other, if its clean
      copy is not on the way to swap. */
  lemma CopySeen(w: World, l: Loc, off: nat, data: seq<Byte>)
    requires Inv(w) && Permitted(w, l, true) && Resides(w, l) && !w.table[l].cow && off + |data| <= PAGE_SIZE
    requires w.table[l].dirty || forall fl :: fl in w.flights && fl.loc == l ==> fl.frame != w.table[l].frame
    ensures var w' := KernelCopyNext(w, l, off, data);
            Inv(w') && View(w') == Write(View(w), l, off, data)
  {
    var st := KernelCopy(l, off, data);
    assert Scoped(w, st) && Effective(w, st);
    StepExact(w, st);
    assert SpecNext(View(w), st, true) == Write(View(w), l, off, data);
  }

  /** `AddressSpace::write` of one chunk: the fault, and then the copy. */
  lemma FaultThenCopy(w: World, t: Tid, l: Loc, sup: Supply, off: nat, data: seq<Byte>)
    requires Inv(w) && t !in w.pending.fetches && Permitted(w, l, true) && Resides(w, l)
    requires !Starved(w, l, true, sup) && NewToPage(w, l, sup) && off + |data| <= PAGE_SIZE
    requires forall fl :: fl in w.flights ==> fl.loc != l
    ensures var w' := FaultNext(w, t, l, true, sup);
            && Inv(w') && Inv(KernelCopyNext(w', l, off, data))
            && View(KernelCopyNext(w', l, off, data)) == Write(View(w), l, off, data)
  {
    var w' := FaultNext(w, t, l, true, sup);
    NewIsScoped(w, t, l, true, sup);
    FaultKeepsInv(w, t, l, true, sup);
    FaultSilent(w, t, l, true, sup);
    FaultServes(w, t, l, true, sup);
    CopySeen(w', l, off, data);
  }

  // ---------------------------------------------------------------- the end of a fault

  /** A fault whose frame or read fails is over, and has changed nothing. */
  lemma LoadGivesUp(w: World, t: Tid, sup: Supply)
    requires Inv(w) && t in w.pending.fetches && w.pending.fetches[t].hand.None? && !Joint(w.pending.fetches[t])
    requires !Available(w, sup) || (w.pending.fetches[t].origin.Some? && !sup.readOk)
    ensures LoadNext(w, t, sup) == w.(pending := w.pending.(fetches := w.pending.fetches - {t}))
  {
  }

  /** A page that was not there, once its fault has ended undisturbed, takes a store. */
  lemma SettledTakesStore(w: World, t: Tid, off: nat, b: Byte)
    requires Inv(w) && Current(w, t) && w.pending.fetches[t].hand.Some? && off < PAGE_SIZE
    requires w.pending.fetches[t].vma.prot.write
    ensures var l, w' := w.pending.fetches[t].loc, SettleNext(w, t, true);
            && Inv(w') && Inv(StoreNext(w', l, off, b))
            && View(StoreNext(w', l, off, b)) == Write(View(w), l, off, [b])
  {
    var l, w' := w.pending.fetches[t].loc, SettleNext(w, t, true);
    SettleCurrent(w, t, true);
    SettleSilent(w, t, true);
    SettledVmas(w, w', t);
    StoreLands(w', l, off, b);
  }

  lemma SettledVmas(w: World, w': World, t: Tid)
    requires t in w.pending.fetches && w.pending.fetches[t].hand.Some? && w' == SettleNext(w, t, true)
    ensures w'.vmas == w.vmas
  {
  }

  // ---------------------------------------------------------------- fork

  /** A page that has a frame is shared with the child: one more reference, the same entry on
      both sides, and a private page that could be written now read-only and copy-on-write
      on both. */
  lemma ForkShares(w: World, l: Loc, child: SpaceId)
    requires Inv(w) && Resides(w, l) && child in w.spaces && Loc(child, l.vpn) !in w.vmas
    ensures var c, e, w' := Loc(child, l.vpn), w.table[l], ForkPageNext(w, l, child, w.vmas[l], true);
            && l in w'.table && c in w'.table && w'.table[c] == w'.table[l] && c in w'.vmas && w'.vmas[c] == w.vmas[l]
            && e.frame in w.count && w'.count == w.count[e.frame := w.count[e.frame] + 1] && w'.ram == w.ram
            && (w'.table[l] == if e.writable && !w.vmas[l].kind.Shared? then e.(writable := false, cow := true) else e)
            && forall m :: m in w.table && m != l ==> m in w'.table && w'.table[m] == w.table[m]
  {
    assert Backed(w, w.table[l]);
  }

  // ---------------------------------------------------------------- eviction

  /** A private page with a frame of its own. */
  ghost predicate Alone(w: World, l: Loc)
    requires WellFormed(w)
  {
    Resides(w, l) && !w.table[l].cow && w.count[w.table[l].frame] == 1
  }

  /** A page used since the last pass gets a second chance: only its ACCESSED bit goes. */
  lemma SecondChance(w: World, t: Tid, l: Loc)
    requires Inv(w) && t !in w.pending.preps && Alone(w, l) && w.table[l].accessed
    ensures var w' := EvictStageNext(w, t, l, false);
            w' == w.(table := w'.table) && w'.table == w.table[l := w.table[l].(accessed := false)]
  {
  }

  /** A page that is shared, or has no frame, is left alone. */
  lemma StageRefused(w: World, t: Tid, l: Loc, force: bool)
    requires Inv(w) && !Alone(w, l)
    ensures EvictStageNext(w, t, l, force) == w
  {
  }

  /** Any other page is noted with its frame, its DIRTY bit cleared. */
  lemma StageNotes(w: World, t: Tid, l: Loc, force: bool)
    requires Inv(w) && t !in w.pending.preps && Alone(w, l) && (force || !w.table[l].accessed)
    ensures var w' := EvictStageNext(w, t, l, force);
            && t in w'.pending.preps && w'.pending.preps[t] == Prep(l, w.table[l].frame)
            && w'.table == w.table[l := w.table[l].(dirty := false)]
            && SameFrames(w, w')
  {
  }

  ghost predicate SameFrames(w: World, w': World)
  {
    && w'.ram == w.ram && w'.count == w.count && w'.swap == w.swap && w'.flights == w.flights
    && w'.vmas == w.vmas && w'.objects == w.objects
  }

  /** With a free slot the page is copied there; without one the eviction is over. */
  lemma StoreCopies(w: World, t: Tid, slot: Option<Slot>, other: Page)
    requires Inv(w) && t in w.pending.preps && w.pending.preps[t].frame in w.ram
    ensures var w', p := EvictWriteNext(w, t, slot, other), w.pending.preps[t];
            && t !in w'.pending.preps && w'.table == w.table && w'.ram == w.ram && w'.count == w.count
            && (slot.Some? && slot.value !in w.swap ==>
                  && w'.swap == w.swap[slot.value := w.ram[p.frame]]
                  && w'.flights == w.flights + {Flight(p.loc, p.frame, slot.value)})
            && (slot.None? || slot.value in w.swap ==> w'.swap == w.swap && w'.flights == w.flights)
  {
    WriteFields(w, EvictWriteNext(w, t, slot, other), t, slot, other);
  }

  /** The commit takes place exactly when it is charged and the page is still there, in the
      same frame and unwritten; otherwise the slot is free again and the table is as it was. */
  lemma CommitDecides(w: World, fl: Flight, charged: bool)
    requires Inv(w) && fl in w.flights
    ensures var w' := EvictCommitNext(w, fl, charged);
            && w'.flights == w.flights - {fl}
            && (if charged && Resides(w, fl.loc) && w.table[fl.loc].frame == fl.frame && !w.table[fl.loc].dirty
                then w'.table == w.table[fl.loc := Swapped(fl.slot)] && w'.swap == w.swap
                else w'.table == w.table && w'.ram == w.ram && w'.count == w.count && w'.swap == w.swap - {fl.slot})
  {
    if charged && Resides(w, fl.loc) && w.table[fl.loc].frame == fl.frame && !w.table[fl.loc].dirty {
      assert Backed(w, w.table[fl.loc]);
      PutFields(w.(flights := w.flights - {fl}, table := w.table[fl.loc := Swapped(fl.slot)]),
                EvictCommitNext(w, fl, charged), fl.frame);
    }
  }

  /** An eviction that nothing comes in between of ends with the page in its slot and the
      frame given back. */
  lemma Evicts(w: World, t: Tid, l: Loc, force: bool, slot: Slot, other: Page)
    requires Inv(w) && t !in w.pending.preps && Alone(w, l) && (force || !w.table[l].accessed) && slot !in w.swap
    ensures var f, fl := w.table[l].frame, Flight(l, w.table[l].frame, slot);
            var w1 := EvictStageNext(w, t, l, force);
            var w2 := EvictWriteNext(w1, t, Some(slot), other);
            && WellFormed(w2) && fl in w2.flights
            && var w3 := EvictCommitNext(w2, fl, true);
               && l in w3.table && w3.table[l] == Swapped(slot) && slot in w3.swap && w3.swap[slot] == w.ram[f]
               && f !in w3.count && f !in w3.ram && w3.flights == w.flights
  {
    var f, fl := w.table[l].frame, Flight(l, w.table[l].frame, slot);
    var w1 := EvictStageNext(w, t, l, force);
    StageNotes(w, t, l, force);
    assert Backed(w, w.table[l]);
    StageFormed(w, w1, l);
    var w2 := EvictWriteNext(w1, t, Some(slot), other);
    WrittenFormed(w1, w2, t, slot, other);
    CommitsLast(w2, EvictCommitNext(w2, fl, true), fl);
    assert fl !in w.flights;
  }

  lemma StageFormed(w: World, w1: World, l: Loc)
    requires WellFormed(w) && Resides(w, l) && SameFrames(w, w1) && w1.spaces == w.spaces
    requires w1.table == w.table[l := w.table[l].(dirty := false)]
    ensures WellFormed(w1)
  {
    assert Backed(w, w.table[l]);
    forall m | m in w1.table ensures Backed(w1, w1.table[m]) {
      assert m in w.table && Backed(w, w.table[m]);
    }
  }

  lemma WrittenFormed(w: World, w': World, t: Tid, slot: Slot, other: Page)
    requires WellFormed(w) && t in w.pending.preps && slot !in w.swap && w.pending.preps[t].frame in w.ram
    requires w' == EvictWriteNext(w, t, Some(slot), other)
    ensures WellFormed(w') && w'.table == w.table && w'.ram == w.ram && w'.count == w.count
    ensures w'.swap == w.swap[slot := w.ram[w.pending.preps[t].frame]]
    ensures w'.flights == w.flights + {Flight(w.pending.preps[t].loc, w.pending.preps[t].frame, slot)}
  {
    forall m | m in w'.table ensures Backed(w', w'.table[m]) {
      assert Backed(w, w.table[m]);
    }
  }

  lemma CommitsLast(w: World, w': World, fl: Flight)
    requires WellFormed(w) && fl in w.flights && fl.loc in w.table && Unwritten(w.table[fl.loc], fl.frame)
    requires fl.frame in w.count && w.count[fl.frame] == 1 && w' == EvictCommitNext(w, fl, true)
    ensures fl.loc in w'.table && w'.table[fl.loc] == Swapped(fl.slot) && w'.swap == w.swap
    ensures fl.frame !in w'.count && fl.frame !in w'.ram && w'.flights == w.flights - {fl}
  {
  }

  // ---------------------------------------------------------------- ends of spaces and objects

  /** A space that no fault or eviction is at work in ends. */
  lemma ReleaseEnds(w: World, s: SpaceId)
    requires Inv(w) && (forall fl :: fl in w.flights ==> fl.loc.space != s)
    requires forall t :: t in w.pending.preps ==> w.pending.preps[t].loc.space != s
    requires forall t :: t in w.pending.fetches ==> w.pending.fetches[t].loc.space != s
    ensures var w' := Next(w, ReleaseSpace(s));
            && w'.spaces == w.spaces - {s} && (forall l :: l in w'.vmas <==> l in w.vmas && l.space != s)
            && (forall l :: l in w'.table <==> l in w.table && l.space != s)
            && (forall l :: l in w'.table ==> w'.table[l] == w.table[l])
  {
    assert !Busy(w, s);
  }

  /** An object's page goes with the last mapping of the object, and its frame with it if no
      entry maps that. */
  lemma DropEnds(w: World, k: Key)
    requires Inv(w) && k in w.objects
    requires forall l :: l in w.vmas ==> !HoldsObject(w.vmas[l], k.obj)
    requires forall t :: t in w.pending.fetches ==> !HoldsObject(w.pending.fetches[t].vma, k.obj)
    ensures var w', f := Next(w, DropKey(k)), w.objects[k];
            k !in w'.objects && w'.table == w.table && CountOf(w'.count, f) == CountOf(w.count, f) - 1
  {
    assert !ObjectHeld(w, k.obj);
    assert w.objects[k] in w.ram;
  }
}
