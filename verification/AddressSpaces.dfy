/** The memory operations of `mm/aspace.rs` in their imperative form: one object
    holds page tables, frame counts, shared objects and swap slots, and each
    method, page loops included, is proved against the steps of `UserMemory`. */
module AddressSpaces {
  import opened UserMemory
  import opened UserMemoryProofs
  import opened UserMemoryRuns
  import opened UserMemorySteps
  import opened PageLoops

  class Memory {
    var spaces: set<SpaceId>
    var vmas: map<Loc, Vma>
    var table: map<Loc, Pte>
    var ram: map<Frame, Page>
    var count: map<Frame, nat>
    var objects: map<Key, Frame>
    var swap: map<Slot, Page>
    var flights: set<Flight>
    var pending: Pending

    function State(): World
      reads this
    {
      World(spaces, vmas, table, ram, count, objects, swap, flights, pending)
    }

    constructor ()
      ensures State() == Boot() && Inv(State())
    {
      spaces, vmas, table, ram := {}, map[], map[], map[];
      count, objects, swap, flights := map[], map[], map[], {};
      pending := Pending(map[], map[]);
      new;
      BootInv();
    }

    /** `frame::page_get`. */
    method PageGet(f: Frame)
      requires f in count
      modifies this`count
      ensures State() == Get(old(State()), f)
    {
      count := count[f := count[f] + 1];
    }

    /** `frame::page_put`. */
    method PagePut(f: Frame)
      requires f in count
      modifies this`count, this`ram
      ensures State() == Put(old(State()), f)
    {
      var n := count[f];
      if n <= 1 {
        count := count - {f};
        ram := ram - {f};
      } else {
        count := count[f := n - 1];
      }
    }

    /** Whether the allocator may hand out `f`. */
    method IsFree(f: Option<Frame>) returns (free: bool)
      ensures forall sup: Supply :: sup.frame == f ==> free == Available(State(), sup)
    {
      free := f.Some? && f.value !in ram && f.value !in count && !InHand(pending.fetches, f.value);
    }

    /** `ensure_page`, called by `fault_in` and `handle_fault` once the region allows the
        access, up to where it may sleep. */
    method FaultIn(t: Tid, l: Loc, write: bool, sup: Supply) returns (plan: Plan)
      requires WellFormed(State()) && t !in pending.fetches
      modifies this
      ensures plan == FaultPlan(old(State()), l, write, sup)
      ensures State() == FaultNext(old(State()), t, l, write, sup)
      ensures plan == Fail(EFAULT) <==> !Permitted(old(State()), l, write)
      ensures plan == Fail(ENOMEM) <==> old(Permitted(State(), l, write) && Resides(State(), l)
                                            && Starved(State(), l, write, sup))
      ensures plan.Start? <==> old(Permitted(State(), l, write) && !Resides(State(), l))
      ensures old(Inv(State())) && !plan.Fail? && !plan.Start? ==> Served(old(State()), State(), l, write)
    {
      if Inv(State()) && Permitted(State(), l, write) && Resides(State(), l) {
        FaultServes(State(), t, l, write, sup);
      }
      if l !in vmas || (write && !vmas[l].prot.write) {
        return Fail(EFAULT);
      }
      if l in table && table[l].Present? {
        if write && table[l].cow {
          plan := DoCow(t, l, sup);
        } else {
          plan := Resident;
        }
        return;
      }
      var fetch := Fetch(l, vmas[l], if l in table then Some(table[l].slot) else None, None);
      pending := pending.(fetches := pending.fetches[t := fetch]);
      plan := Start(fetch);
    }

    /** The new frame of a fault, and the read from the slot or the file into it. */
    method LoadPage(t: Tid, sup: Supply)
      requires WellFormed(State()) && t in pending.fetches && pending.fetches[t].hand.None?
      requires !Joint(pending.fetches[t])
      modifies this`pending
      ensures State() == LoadNext(old(State()), t, sup)
    {
      var fetch := pending.fetches[t];
      var free := IsFree(sup.frame);
      if !free || (fetch.origin.Some? && !sup.readOk) {
        pending := pending.(fetches := pending.fetches - {t});
        return;
      }
      var c: Page;
      if fetch.origin.Some? {
        c := if InTable(table, fetch.origin.value) && fetch.origin.value in swap then swap[fetch.origin.value]
             else sup.other;
      } else {
        c := if sup.readOk then InitialPage(fetch.vma.kind) else ZeroPage();
      }
      pending := pending.(fetches := pending.fetches[t := fetch.(hand := Some(Hand(sup.frame.value, c)))]);
    }

    /** `map_4k`: false when the entry is present or no page table can be had. */
    method MapPage(l: Loc, f: Frame, writable: bool, mapOk: bool) returns (ok: bool)
      modifies this`table
      ensures ok <==> !MapFails(old(State()), l, mapOk)
      ensures table == if ok then old(table)[l := FreshPte(f, writable)] else old(table)
    {
      ok := mapOk && (l in table ==> !table[l].Present?);
      if ok {
        table := table[l := FreshPte(f, writable)];
      }
    }

    /** The end of `swap_in` or of a private `ensure_page`; true when the page is mapped. */
    method FinishFault(t: Tid, mapOk: bool) returns (ok: bool)
      requires t in pending.fetches && pending.fetches[t].hand.Some?
      modifies this
      ensures ok <==> !MapFails(old(State()), old(pending).fetches[t].loc, mapOk)
      ensures State() == SettleNext(old(State()), t, mapOk)
    {
      var fetch := pending.fetches[t];
      var f := fetch.hand.value.frame;
      pending := pending.(fetches := pending.fetches - {t});
      ram, count := ram[f := fetch.hand.value.contents], count[f := 1];
      ok := MapPage(fetch.loc, f, fetch.vma.prot.write, mapOk);
      if ok && fetch.origin.Some? {
        swap := swap - {fetch.origin.value};
      } else {
        assert swap - {} == swap;
      }
    }

    /** The shared branch of `ensure_page`, from taking the object's lock to its end. */
    method JoinObject(t: Tid, sup: Supply) returns (ok: bool)
      requires WellFormed(State()) && t in pending.fetches && Joint(pending.fetches[t])
      modifies this
      ensures State() == JoinNext(old(State()), t, sup)
      ensures ok <==> Joining(old(State()), t, sup) && !MapFails(old(State()), old(pending).fetches[t].loc, sup.mapOk)
    {
      var fetch := pending.fetches[t];
      var k := fetch.vma.kind.key;
      var free := IsFree(sup.frame);
      pending := pending.(fetches := pending.fetches - {t});
      if k !in objects {
        if !free {
          return false;
        }
        NewObject(k, sup.frame.value);
      }
      PageGet(objects[k]);
      ok := MapPage(fetch.loc, objects[k], fetch.vma.prot.write, sup.mapOk);
    }

    /** A zeroed frame that the object holds from now on. */
    method NewObject(k: Key, f: Frame)
      modifies this`ram, this`count, this`objects
      ensures State() == Alloc(old(State()), f, ZeroPage()).(objects := old(objects)[k := f])
    {
      ram, count := ram[f := ZeroPage()], count[f := 1];
      objects := objects[k := f];
    }

    /** `do_cow`. */
    method DoCow(ghost t: Tid, l: Loc, sup: Supply) returns (plan: Plan)
      requires WellFormed(State()) && l in vmas && vmas[l].prot.write && t !in pending.fetches
      requires l in table && table[l].Present? && table[l].cow
      modifies this`table, this`ram, this`count
      ensures plan == FaultPlan(old(State()), l, true, sup)
      ensures State() == FaultNext(old(State()), t, l, true, sup)
      ensures plan == Fail(ENOMEM) <==> old(count[table[l].frame]) != 1 && !Available(old(State()), sup)
      ensures plan != Fail(ENOMEM) ==> table[l].Present? && table[l].writable && !table[l].cow
      ensures plan != Fail(ENOMEM) ==> table[l].frame in ram && ram[table[l].frame] == old(ram[table[l].frame])
    {
      var prior := table[l].frame;
      if count[prior] == 1 {
        table := table[l := table[l].(cow := false, writable := true)];
        return TakeOver;
      }
      var free := IsFree(sup.frame);
      if !free {
        return Fail(ENOMEM);
      }
      var f := sup.frame.value;
      ram, count := ram[f := ram[prior]], count[f := 1];
      table := table[l := FreshPte(f, true)];
      PagePut(prior);
      plan := CopyTo(f);
    }

    /** The loop of `unmap` over pages `lo..hi` of space `s`. */
    method Unmap(s: SpaceId, lo: nat, hi: nat)
      requires Inv(State()) && lo <= hi
      modifies this
      ensures Inv(State()) && State() == UnmapPages(old(State()), s, lo, hi)
    {
      var va := lo;
      while va < hi
        invariant lo <= va <= hi && Inv(State())
        invariant UnmapPages(State(), s, va, hi) == UnmapPages(old(State()), s, lo, hi)
      {
        UnmapKeepsInv(State(), Loc(s, va));
        UnmapOne(Loc(s, va));
        va := va + 1;
      }
    }

    /** `free_swap_entry`, or `unmap_4k` and `page_put`. */
    method UnmapOne(l: Loc)
      requires WellFormed(State())
      modifies this
      ensures State() == UnmapPageNext(old(State()), l)
    {
      vmas := vmas - {l};
      if l in table {
        var e := table[l];
        table := table - {l};
        match e
        case Swapped(slot) => swap := swap - {slot};
        case Present(f, _, _, _, _) => PagePut(f);
      } else {
        assert table - {l} == table;
      }
    }

    /** The loop of `protect`. */
    method Protect(s: SpaceId, lo: nat, hi: nat, prot: Prot)
      requires lo <= hi
      modifies this`vmas, this`table
      ensures State() == ProtectPages(old(State()), s, lo, hi, prot)
    {
      var va := lo;
      while va < hi
        invariant lo <= va <= hi
        invariant ProtectPages(State(), s, va, hi, prot) == ProtectPages(old(State()), s, lo, hi, prot)
      {
        var l := Loc(s, va);
        if l in vmas {
          vmas := vmas[l := vmas[l].(prot := prot)];
          if l in table {
            table := table[l := ProtectedPte(table[l], prot)];
          }
        }
        va := va + 1;
      }
    }

    /** `swap_in` of a page by a thread that nothing comes in between of. */
    method SwapIn(t: Tid, l: Loc, sup: Supply)
      requires Formed(State(), t) && l in table && table[l].Swapped?
      modifies this
      ensures State() == SwappedIn(old(State()), t, l, sup)
    {
      var _ := FaultIn(t, l, false, sup);
      LoadPage(t, sup);
      if t in pending.fetches {
        var _ := FinishFault(t, sup.mapOk);
      }
    }

    /** One iteration of `fork`'s loop; false when the child's page could not be mapped. */
    method ForkOne(t: Tid, l: Loc, child: SpaceId, a: Answer) returns (ok: bool)
      requires Formed(State(), t)
      modifies this
      ensures WellFormed(SwappedIn(old(State()), t, l, a.supply))
      ensures State() == Forked(old(State()), t, l, child, a)
      ensures ok <==> !ForkStops(old(State()), t, l, a)
    {
      SwappedInFormed(State(), t, l, a.supply);
      if l in table && table[l].Swapped? {
        SwapIn(t, l, a.supply);
      }
      ok := a.mapOk || l !in table || !table[l].Present?;
      if l in vmas {
        SharePage(l, child, vmas[l], a.mapOk);
      }
    }

    /** The sharing half of `fork`'s loop body, for a region as it was when `fork` began. */
    method SharePage(l: Loc, child: SpaceId, vma: Vma, mapOk: bool)
      requires WellFormed(State())
      modifies this`vmas, this`table, this`count
      ensures State() == ForkPageNext(old(State()), l, child, vma, mapOk)
    {
      var c := Loc(child, l.vpn);
      if child !in spaces || c in vmas || c in table {
        return;
      }
      if l in table && table[l].Present? {
        var e := table[l];
        if !vma.kind.Shared? && e.writable {
          e := e.(writable := false, cow := true);
        }
        table := table[l := e];
        PageGet(e.frame);
        if mapOk {
          table := table[c := e];
        }
      }
      vmas := vmas[c := vma];
    }

    /** `fork` over the pages `lo..` of the parent, answered by `answers`; false when it
        gives up. */
    method Fork(t: Tid, s: SpaceId, child: SpaceId, lo: nat, answers: seq<Answer>) returns (ok: bool)
      requires Formed(State(), t)
      modifies this
      ensures (State(), ok) == ForkPages(old(State()), t, s, child, lo, answers)
    {
      ghost var w := State();
      ghost var goal := ForkPages(w, t, s, child, lo, answers);
      var va, left := lo, answers;
      while left != []
        invariant w == State() && Formed(w, t) && ForkPages(w, t, s, child, va, left) == goal
        decreases |left|
      {
        ForkPagesNext(w, t, s, child, va, left);
        var go := ForkOne(t, Loc(s, va), child, left[0]);
        if !go {
          return false;
        }
        w := Forked(w, t, Loc(s, va), child, left[0]);
        va, left := va + 1, left[1..];
      }
      ok := true;
    }

    /** `Drop for AddressSpace`: free every page below `hi`, then the space. */
    method Drop(s: SpaceId, hi: nat)
      requires Inv(State()) && !Busy(State(), s)
      requires forall l :: l in vmas && l.space == s ==> l.vpn < hi
      modifies this
      ensures WellFormed(UnmapPages(old(State()), s, 0, hi))
      ensures State() == Next(UnmapPages(old(State()), s, 0, hi), ReleaseSpace(s))
    {
      Unmap(s, 0, hi);
      DropIs(old(State()), State(), s, hi);
      spaces := spaces - {s};
      vmas := Without(vmas, s);
      table := Without(table, s);
    }

    /** The first section of `try_evict`; true when the page is to be stored. */
    method EvictBegin(t: Tid, l: Loc, force: bool) returns (begun: bool)
      requires WellFormed(State()) && t !in pending.preps
      modifies this`table, this`pending
      ensures State() == EvictStageNext(old(State()), t, l, force)
      ensures begun <==> t in pending.preps
      ensures begun <==> old(Alone(State(), l)) && (force || !old(table[l]).accessed)
    {
      begun := false;
      if l !in table {
        return;
      }
      var e := table[l];
      if !e.Present? || e.cow || count[e.frame] != 1 {
        return;
      }
      if !force && e.accessed {
        table := table[l := e.(accessed := false)];
        return;
      }
      table := table[l := e.(dirty := false)];
      pending := pending.(preps := pending.preps[t := Prep(l, e.frame)]);
      begun := true;
    }

    /** `store_page`: the slot it went to, if there was one. `other` is what a frame holds
        that has been given back. */
    method StorePage(t: Tid, slot: Option<Slot>, other: Page) returns (fl: Option<Flight>)
      requires t in pending.preps
      modifies this`swap, this`flights, this`pending
      ensures State() == EvictWriteNext(old(State()), t, slot, other)
      ensures fl.Some? <==> slot.Some? && slot.value !in old(swap)
      ensures fl.Some? ==> fl.value in flights && fl.value.loc == old(pending).preps[t].loc
    {
      var p := pending.preps[t];
      pending := pending.(preps := pending.preps - {t});
      if slot.None? || slot.value in swap {
        return None;
      }
      swap := swap[slot.value := if p.frame in ram then ram[p.frame] else other];
      flights := flights + {Flight(p.loc, p.frame, slot.value)};
      fl := Some(Flight(p.loc, p.frame, slot.value));
    }

    /** The last section of `try_evict`; true when the page is now in swap. */
    method EvictFinish(fl: Flight, charged: bool) returns (evicted: bool)
      requires WellFormed(State()) && fl in flights
      modifies this
      ensures State() == EvictCommitNext(old(State()), fl, charged)
      ensures evicted <==> charged && old(Resides(State(), fl.loc)) && old(table[fl.loc]).frame == fl.frame
                           && !old(table[fl.loc]).dirty
      ensures evicted ==> fl.loc in table && table[fl.loc] == Swapped(fl.slot)
      ensures !evicted ==> table == old(table) && fl.slot !in swap
    {
      flights := flights - {fl};
      if charged && fl.loc in table && table[fl.loc].Present? && table[fl.loc].frame == fl.frame
         && !table[fl.loc].dirty {
        table := table[fl.loc := Swapped(fl.slot)];
        PagePut(fl.frame);
        evicted := true;
      } else {
        swap := swap - {fl.slot};
        evicted := false;
      }
    }
  }
}
