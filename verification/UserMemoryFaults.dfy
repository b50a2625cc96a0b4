/** Faults that nothing disturbs. A fault sleeps before it reads its page and again
    before it maps it. Here is what other tasks may do in the meantime: whatever
    leaves the page itself alone, a fault then ends with the contents it began with. */
module UserMemoryFaults {
  import opened UserMemory
  import opened UserMemoryProofs
  import opened UserMemoryRefinement
  import opened UserMemoryExact
  import opened UserMemoryRuns

  /** The page that a fault was begun for is as the fault found it. */
  ghost predicate Matches(w: World, fetch: Fetch)
  {
    && fetch.loc in w.vmas && w.vmas[fetch.loc] == fetch.vma
    && match fetch.origin
       case Some(slot) => fetch.loc in w.table && w.table[fetch.loc] == Swapped(slot)
       case None => fetch.loc !in w.table
  }

  /** No eviction of page `l` with frame `f` is under way. */
  ghost predicate Unknown(w: World, l: Loc, f: Frame)
  {
    && (forall fl :: fl in w.flights && fl.loc == l ==> fl.frame != f)
    && (forall u :: u in w.pending.preps && w.pending.preps[u].loc == l ==> w.pending.preps[u].frame != f)
  }

  /** What is in hand is what the slot or the file holds. */
  ghost predicate Fresh(w: World, fetch: Fetch, h: Hand)
  {
    && !fetch.vma.kind.Shared? && Unknown(w, fetch.loc, h.frame)
    && match fetch.origin
       case Some(slot) => slot in w.swap && w.swap[slot] == h.contents
       case None => h.contents == InitialPage(fetch.vma.kind)
  }

  /** The fault of thread `t` can still end well: its page is as it was and what it has
      read, if it has, is that page. */
  ghost predicate Current(w: World, t: Tid)
  {
    && t in w.pending.fetches
    && var fetch := w.pending.fetches[t];
       Matches(w, fetch) && (fetch.hand.Some? ==> Fresh(w, fetch, fetch.hand.value))
  }

  /** The fault itself goes on. */
  predicate Continues(st: Step, t: Tid)
  {
    match st
    case Load(u, _) => u == t
    case Settle(u, _) => u == t
    case Join(u, _) => u == t
    case _ => false
  }

  /** A step that unmaps or re-protects the page, or ends another fault on it. */
  predicate Disturbs(w: World, st: Step, t: Tid)
    requires t in w.pending.fetches
  {
    var l := w.pending.fetches[t].loc;
    match st
    case UnmapPage(m) => m == l
    case ProtectPage(m, _) => m == l
    case Settle(u, _) => u != t && u in w.pending.fetches && w.pending.fetches[u].loc == l
    case Join(u, _) => u != t && u in w.pending.fetches && w.pending.fetches[u].loc == l
    case _ => false
  }

  // ---------------------------------------------------------------- steps in between

  /** Nothing that a fault waits for has changed. */
  ghost predicate Stays(w: World, w': World, t: Tid)
  {
    && t in w.pending.fetches && t in w'.pending.fetches && w'.pending.fetches[t] == w.pending.fetches[t]
    && var l := w.pending.fetches[t].loc;
       && (l in w.vmas ==> l in w'.vmas && w'.vmas[l] == w.vmas[l])
       && (l in w'.table <==> l in w.table)
       && (l in w.table ==> w'.table[l] == w.table[l] && (w.table[l].Swapped? ==> SlotKept(w, w', w.table[l].slot)))
  }

  predicate SlotKept(w: World, w': World, slot: Slot)
  {
    slot in w.swap && slot in w'.swap && w'.swap[slot] == w.swap[slot]
  }

  /** The fault waits for a page that is not there. */
  ghost predicate Absent(w: World, t: Tid)
  {
    && WellFormed(w) && t in w.pending.fetches
    && var l := w.pending.fetches[t].loc; l in w.vmas && (l in w.table ==> w.table[l].Swapped?)
  }

  /** At most the entry of page `m` has changed, and the evictions under way are as they
      were or fewer. */
  ghost predicate OneEntry(w: World, w': World, m: Loc)
  {
    && w'.vmas == w.vmas && w'.flights <= w.flights && w'.pending.preps == w.pending.preps
    && (w'.table == w.table || (m in w'.table && w'.table == w.table[m := w'.table[m]]))
  }

  lemma OneEntryStays(w: World, w': World, t: Tid, m: Loc)
    requires Absent(w, t) && OneEntry(w, w', m) && (w'.table == w.table || m != w.pending.fetches[t].loc)
    requires t in w'.pending.fetches && w'.pending.fetches[t] == w.pending.fetches[t]
    requires forall slot :: slot in w.swap && OwnSlot(w, t, slot) ==> SlotKept(w, w', slot)
    ensures Stays(w, w', t)
  {
    var l := w.pending.fetches[t].loc;
    if l in w.table {
      assert OwnSlot(w, t, w.table[l].slot) && Backed(w, w.table[l]);
    }
  }

  /** The slot that the page of the fault is in. */
  predicate OwnSlot(w: World, t: Tid, slot: Slot)
  {
    && t in w.pending.fetches && w.pending.fetches[t].loc in w.table
    && w.table[w.pending.fetches[t].loc] == Swapped(slot)
  }

  lemma PutFields(w: World, w': World, f: Frame)
    requires f in w.count && w' == Put(w, f)
    ensures w'.vmas == w.vmas && w'.table == w.table && w'.swap == w.swap && w'.flights == w.flights
    ensures w'.spaces == w.spaces && w'.pending == w.pending
  {
  }

  lemma FaultFields(w: World, w': World, u: Tid, m: Loc, write: bool, sup: Supply)
    requires WellFormed(w) && w' == FaultNext(w, u, m, write, sup)
    ensures OneEntry(w, w', m) && w'.swap == w.swap
    ensures w'.table != w.table ==> m in w.table && w.table[m].Present?
    ensures w'.pending.fetches == w.pending.fetches
         || (&& u !in w.pending.fetches && FaultPlan(w, m, write, sup).Start?
             && w'.pending.fetches == w.pending.fetches[u := FaultPlan(w, m, write, sup).fetch])
  {
    if u !in w.pending.fetches {
      match FaultPlan(w, m, write, sup)
      case CopyTo(f) => CopyFields(w, w', m, f);
      case TakeOver => TakeOverFields(w, w', m);
      case Start(fetch) => StartFields(w, w', u, fetch);
      case _ => assert w' == w;
    }
  }

  lemma TakeOverFields(w: World, w': World, m: Loc)
    requires m in w.table && w.table[m].Present?
    requires w' == w.(table := w.table[m := w.table[m].(cow := false, writable := true)])
    ensures OneEntry(w, w', m) && w'.swap == w.swap && w'.pending == w.pending
  {
  }

  lemma StartFields(w: World, w': World, u: Tid, fetch: Fetch)
    requires w' == WithFetch(w, u, fetch)
    ensures OneEntry(w, w', fetch.loc) && w'.swap == w.swap && w'.table == w.table
    ensures w'.pending.fetches == w.pending.fetches[u := fetch]
  {
  }

  lemma CopyFields(w: World, w': World, m: Loc, f: Frame)
    requires WellFormed(w) && m in w.vmas && m in w.table && w.table[m].Present?
    requires w' == Put(Install(w, m, f, w.ram[w.table[m].frame]), w.table[m].frame)
    ensures OneEntry(w, w', m) && w'.swap == w.swap && w'.pending == w.pending
  {
    var w1 := Install(w, m, f, w.ram[w.table[m].frame]);
    PutFields(w1, w', w.table[m].frame);
    assert w1.table[m] == FreshPte(f, w.vmas[m].prot.write);
  }

  lemma FaultStays(w: World, w': World, t: Tid, u: Tid, m: Loc, write: bool, sup: Supply)
    requires Absent(w, t) && w' == FaultNext(w, u, m, write, sup)
    ensures Stays(w, w', t)
  {
    FaultFields(w, w', u, m, write, sup);
    OneEntryStays(w, w', t, m);
  }

  lemma LoadStays(w: World, w': World, t: Tid, u: Tid, sup: Supply)
    requires Absent(w, t) && u != t && w' == LoadNext(w, u, sup)
    ensures Stays(w, w', t)
  {
    LoadFields(w, w', u, sup);
    OneEntryStays(w, w', t, w.pending.fetches[t].loc);
  }

  lemma SettleFields(w: World, w': World, u: Tid, mapOk: bool)
    requires w' == SettleNext(w, u, mapOk) && u in w.pending.fetches
    ensures OneEntry(w, w', w.pending.fetches[u].loc)
    ensures var fetch := w.pending.fetches[u];
            || w'.swap == w.swap
            || (w'.swap == w.swap - SlotSet(fetch.origin) && fetch.hand.Some? && !MapFails(w, fetch.loc, mapOk))
    ensures w'.pending.fetches == w.pending.fetches || w'.pending.fetches == w.pending.fetches - {u}
  {
  }

  lemma SettleStays(w: World, w': World, t: Tid, u: Tid, mapOk: bool)
    requires Absent(w, t) && SlotsOwned(w) && SettleScoped(w, u, mapOk) && u != t && !Disturbs(w, Settle(u, mapOk), t)
    requires w' == SettleNext(w, u, mapOk)
    ensures Stays(w, w', t)
  {
    if u in w.pending.fetches {
      SettleFields(w, w', u, mapOk);
      OneEntryStays(w, w', t, w.pending.fetches[u].loc);
    }
  }

  lemma JoinFields(w: World, w': World, u: Tid, sup: Supply)
    requires WellFormed(w) && w' == JoinNext(w, u, sup) && u in w.pending.fetches
    ensures OneEntry(w, w', w.pending.fetches[u].loc) && w'.swap == w.swap
    ensures w'.pending.fetches == w.pending.fetches || w'.pending.fetches == w.pending.fetches - {u}
  {
    if Joining(w, u, sup) {
      var fetch := w.pending.fetches[u];
      if MapFails(w, fetch.loc, sup.mapOk) {
      } else if fetch.vma.kind.key in w.objects {
        OldJoinIs(w, w', u, sup, fetch, w.objects[fetch.vma.kind.key]);
      } else {
        NewJoinIs(w, w', u, sup, fetch, sup.frame.value);
      }
    }
  }

  lemma JoinStays(w: World, w': World, t: Tid, u: Tid, sup: Supply)
    requires Absent(w, t) && u != t && !Disturbs(w, Join(u, sup), t) && w' == JoinNext(w, u, sup)
    ensures Stays(w, w', t)
  {
    if u in w.pending.fetches {
      JoinFields(w, w', u, sup);
      OneEntryStays(w, w', t, w.pending.fetches[u].loc);
    }
  }

  /** Unmapping one page removes exactly that page. */
  lemma UnmapPageExact(w: World, w': World, m: Loc)
    requires WellFormed(w) && w' == UnmapPageNext(w, m)
    ensures w'.vmas == w.vmas - {m} && w'.table == w.table - {m} && w'.flights == w.flights
    ensures w'.spaces == w.spaces && w'.pending == w.pending
    ensures w'.swap == if m in w.table && w.table[m].Swapped? then w.swap - {w.table[m].slot} else w.swap
  {
    if m in w.table && w.table[m].Present? {
      PutFields(w.(vmas := w.vmas - {m}, table := w.table - {m}), w', w.table[m].frame);
    }
  }

  lemma UnmapStays(w: World, w': World, t: Tid, m: Loc)
    requires Absent(w, t) && SlotsOwned(w) && m != w.pending.fetches[t].loc && w' == UnmapPageNext(w, m)
    ensures Stays(w, w', t)
  {
    UnmapPageExact(w, w', m);
    var l := w.pending.fetches[t].loc;
    if l in w.table {
      assert Backed(w, w.table[l]);
    }
  }

  lemma ForkStays(w: World, w': World, t: Tid, l: Loc, child: SpaceId, vma: Vma, ok: bool)
    requires Absent(w, t) && w' == ForkPageNext(w, l, child, vma, ok)
    ensures Stays(w, w', t)
  {
  }

  lemma StageStays(w: World, w': World, t: Tid, u: Tid, l: Loc, force: bool)
    requires Absent(w, t) && w' == EvictStageNext(w, u, l, force)
    ensures Stays(w, w', t)
  {
  }

  lemma WriteStays(w: World, w': World, t: Tid, u: Tid, slot: Option<Slot>, other: Page)
    requires Absent(w, t) && w' == EvictWriteNext(w, u, slot, other)
    ensures Stays(w, w', t)
  {
    WriteFields(w, w', u, slot, other);
    var l := w.pending.fetches[t].loc;
    if l in w.table {
      assert Backed(w, w.table[l]);
    }
  }

  lemma WriteFields(w: World, w': World, u: Tid, slot: Option<Slot>, other: Page)
    requires w' == EvictWriteNext(w, u, slot, other)
    ensures w'.vmas == w.vmas && w'.table == w.table && w'.pending.fetches == w.pending.fetches
    ensures || w'.swap == w.swap
            || (&& slot.Some? && slot.value !in w.swap && slot.value in w'.swap
                && w'.swap == w.swap[slot.value := w'.swap[slot.value]])
    ensures w'.pending.preps == w.pending.preps - {u}
    ensures w'.flights == w.flights
         || (u in w.pending.preps && slot.Some?
             && w'.flights == w.flights + {Flight(w.pending.preps[u].loc, w.pending.preps[u].frame, slot.value)})
  {
  }

  lemma CommitStays(w: World, w': World, t: Tid, fl: Flight, charged: bool)
    requires Absent(w, t) && SlotsOwned(w) && w' == EvictCommitNext(w, fl, charged)
    ensures Stays(w, w', t)
  {
  }

  lemma ReleaseStays(w: World, w': World, t: Tid, s: SpaceId)
    requires Absent(w, t) && w' == Next(w, ReleaseSpace(s))
    ensures Stays(w, w', t)
  {
    assert Busy(w, w.pending.fetches[t].loc.space);
  }

  predicate Plain(st: Step)
  {
    st.NewSpace? || st.MapPage? || st.Store? || st.KernelCopy? || st.ProtectPage? || st.DropKey?
  }

  lemma PlainStays(w: World, w': World, st: Step, t: Tid)
    requires Absent(w, t) && Plain(st) && !Disturbs(w, st, t) && w' == Next(w, st)
    ensures Stays(w, w', t)
  {
    match st
    case Store(m, off, b) =>
      StoreFields(w, w', m, off, b);
      OneEntryStays(w, w', t, m);
    case KernelCopy(m, off, data) =>
      CopyInFields(w, w', m, off, data);
      OneEntryStays(w, w', t, m);
    case DropKey(k) =>
      DropFields(w, w', k);
      OneEntryStays(w, w', t, w.pending.fetches[t].loc);
    case ProtectPage(m, prot) => ProtectStays(w, w', t, m, prot);
    case MapPage(m, vma) => MapStays(w, w', t, m, vma);
    case NewSpace(s) => OneEntryStays(w, w', t, w.pending.fetches[t].loc);
  }

  lemma MapStays(w: World, w': World, t: Tid, m: Loc, vma: Vma)
    requires Absent(w, t)
    requires w' == if m.space in w.spaces && m !in w.vmas && m !in w.table then w.(vmas := w.vmas[m := vma]) else w
    ensures Stays(w, w', t)
  {
    var l := w.pending.fetches[t].loc;
    if l in w.table {
      assert Backed(w, w.table[l]);
    }
  }

  lemma ProtectStays(w: World, w': World, t: Tid, m: Loc, prot: Prot)
    requires Absent(w, t) && m != w.pending.fetches[t].loc && w' == ProtectPageNext(w, m, prot)
    ensures Stays(w, w', t)
  {
  }

  lemma StoreFields(w: World, w': World, m: Loc, off: nat, b: Byte)
    requires WellFormed(w) && w' == StoreNext(w, m, off, b)
    ensures OneEntry(w, w', m) && w'.swap == w.swap && w'.pending == w.pending
    ensures w'.table != w.table ==> m in w.table && w.table[m].Present?
  {
  }

  lemma CopyInFields(w: World, w': World, m: Loc, off: nat, data: seq<Byte>)
    requires WellFormed(w) && w' == KernelCopyNext(w, m, off, data)
    ensures OneEntry(w, w', m) && w'.swap == w.swap && w'.pending == w.pending && w'.table == w.table
  {
  }

  lemma StepStays(w: World, w': World, st: Step, t: Tid)
    requires Absent(w, t) && SlotsOwned(w) && Scoped(w, st) && w' == Next(w, st)
    requires !Disturbs(w, st, t) && !Continues(st, t)
    ensures Stays(w, w', t)
  {
    match st
    case Fault(u, l, write, sup) => FaultStays(w, w', t, u, l, write, sup);
    case Load(u, sup) => LoadStays(w, w', t, u, sup);
    case Settle(u, mapOk) => SettleStays(w, w', t, u, mapOk);
    case Join(u, sup) => JoinStays(w, w', t, u, sup);
    case UnmapPage(l) => UnmapStays(w, w', t, l);
    case ForkPage(l, child, vma, ok) => ForkStays(w, w', t, l, child, vma, ok);
    case EvictStage(u, l, force) => StageStays(w, w', t, u, l, force);
    case EvictWrite(u, slot, other) => WriteStays(w, w', t, u, slot, other);
    case EvictCommit(fl, charged) => CommitStays(w, w', t, fl, charged);
    case ReleaseSpace(s) => ReleaseStays(w, w', t, s);
    case _ => PlainStays(w, w', st, t);
  }

  // ---------------------------------------------------------------- evictions in between

  /** Which evictions of page `l` can be under way after a step. */
  ghost predicate NoneNew(w: World, w': World, l: Loc)
  {
    && (forall fl :: fl in w'.flights && fl.loc == l ==> fl in w.flights || Prepared(w.pending.preps, l, fl.frame))
    && (forall u :: u in w'.pending.preps && w'.pending.preps[u].loc == l ==>
          Prepared(w.pending.preps, l, w'.pending.preps[u].frame))
  }

  predicate Prepared(preps: map<Tid, Prep>, l: Loc, f: Frame)
  {
    exists u :: u in preps && preps[u] == Prep(l, f)
  }

  lemma SameEvictions(w: World, w': World, l: Loc)
    requires w'.flights <= w.flights && w'.pending.preps == w.pending.preps
    ensures NoneNew(w, w', l)
  {
    forall u | u in w'.pending.preps && w'.pending.preps[u].loc == l
      ensures Prepared(w.pending.preps, l, w'.pending.preps[u].frame)
    {
      assert w.pending.preps[u] == Prep(l, w'.pending.preps[u].frame);
    }
  }

  lemma StageNoneNew(w: World, w': World, u: Tid, m: Loc, force: bool, l: Loc)
    requires WellFormed(w) && (l in w.table ==> w.table[l].Swapped?) && w' == EvictStageNext(w, u, m, force)
    ensures NoneNew(w, w', l)
  {
    SameEvictions(w, w.(table := w'.table), l);
  }

  lemma WriteNoneNew(w: World, w': World, u: Tid, slot: Option<Slot>, other: Page, l: Loc)
    requires w' == EvictWriteNext(w, u, slot, other)
    ensures NoneNew(w, w', l)
  {
    WriteFields(w, w', u, slot, other);
    SameEvictions(w, w, l);
  }

  predicate OfFault(st: Step)
  {
    st.Fault? || st.Load? || st.Settle? || st.Join?
  }

  lemma FlightsFollow(w: World, w': World, st: Step)
    requires WellFormed(w) && !st.EvictStage? && !st.EvictWrite? && w' == Next(w, st)
    ensures w'.flights <= w.flights && w'.pending.preps == w.pending.preps
  {
    match st
    case Fault(u, l, write, sup) => FaultFields(w, w', u, l, write, sup);
    case Load(u, sup) => LoadFields(w, w', u, sup);
    case Settle(u, mapOk) => if u in w.pending.fetches { SettleFields(w, w', u, mapOk); }
    case Join(u, sup) => if u in w.pending.fetches { JoinFields(w, w', u, sup); }
    case _ => OthersFollow(w, w', st);
  }

  lemma OthersFollow(w: World, w': World, st: Step)
    requires WellFormed(w) && !st.EvictStage? && !st.EvictWrite? && !OfFault(st) && w' == Next(w, st)
    ensures w'.flights <= w.flights && w'.pending == w.pending
  {
    match st
    case UnmapPage(l) => UnmapPageExact(w, w', l);
    case ForkPage(l, child, vma, ok) => ForkFollow(w, w', l, child, vma, ok);
    case Store(l, off, b) => StoreFields(w, w', l, off, b);
    case KernelCopy(l, off, data) => CopyInFields(w, w', l, off, data);
    case EvictCommit(fl, charged) => CommitFollow(w, w', fl, charged);
    case DropKey(k) => DropFields(w, w', k);
    case _ =>
  }

  lemma DropFields(w: World, w': World, k: Key)
    requires WellFormed(w) && w' == Next(w, DropKey(k))
    ensures w'.vmas == w.vmas && w'.table == w.table && w'.swap == w.swap && w'.flights == w.flights
    ensures w'.pending == w.pending
  {
    if !(k !in w.objects || ObjectHeld(w, k.obj)) {
      PutFields(w.(objects := w.objects - {k}), w', w.objects[k]);
    }
  }

  lemma ForkFollow(w: World, w': World, l: Loc, child: SpaceId, vma: Vma, ok: bool)
    requires WellFormed(w) && w' == ForkPageNext(w, l, child, vma, ok)
    ensures w'.flights == w.flights && w'.pending == w.pending
  {
  }

  lemma CommitFollow(w: World, w': World, fl: Flight, charged: bool)
    requires WellFormed(w) && w' == EvictCommitNext(w, fl, charged)
    ensures w'.flights <= w.flights && w'.pending == w.pending
  {
  }

  /** A page without a present entry is not being evicted anew. */
  lemma StepNoneNew(w: World, w': World, st: Step, l: Loc)
    requires WellFormed(w) && (l in w.table ==> w.table[l].Swapped?) && w' == Next(w, st)
    ensures NoneNew(w, w', l)
  {
    match st
    case EvictStage(u, m, force) => StageNoneNew(w, w', u, m, force, l);
    case EvictWrite(u, slot, other) => WriteNoneNew(w, w', u, slot, other, l);
    case _ =>
      FlightsFollow(w, w', st);
      SameEvictions(w, w', l);
  }

  lemma UnknownStays(w: World, w': World, l: Loc, f: Frame)
    requires NoneNew(w, w', l) && Unknown(w, l, f)
    ensures Unknown(w', l, f)
  {
  }

  /** Every step that does not disturb a fault leaves it current, with the same page. */
  lemma StepKeepsCurrent(w: World, st: Step, t: Tid)
    requires Inv(w) && Scoped(w, st) && Current(w, t) && !Disturbs(w, st, t) && !Continues(st, t)
    ensures Inv(Next(w, st)) && Current(Next(w, st), t)
    ensures Next(w, st).pending.fetches[t] == w.pending.fetches[t]
    ensures var l := w.pending.fetches[t].loc; OwnPage(Next(w, st), l) == OwnPage(w, l)
  {
    StepExact(w, st);
    var fetch := w.pending.fetches[t];
    StepStays(w, Next(w, st), st, t);
    if fetch.hand.Some? {
      StepNoneNew(w, Next(w, st), st, fetch.loc);
      UnknownStays(w, Next(w, st), fetch.loc, fetch.hand.value.frame);
    }
  }

  // ---------------------------------------------------------------- the steps of the fault

  /** The region allows the access, and the page has no frame. */
  predicate Missing(w: World, l: Loc, write: bool)
  {
    l in w.vmas && (write ==> w.vmas[l].prot.write) && (l in w.table ==> w.table[l].Swapped?)
  }

  /** A fault on a page without a frame begins, and begins current. */
  lemma StartCurrent(w: World, t: Tid, l: Loc, write: bool, sup: Supply)
    requires Inv(w) && t !in w.pending.fetches && Missing(w, l, write)
    ensures Scoped(w, Fault(t, l, write, sup))
    ensures var w' := FaultNext(w, t, l, write, sup);
            && Inv(w') && Current(w', t) && OwnPage(w', l) == OwnPage(w, l)
            && w'.pending.fetches[t].loc == l && w'.pending.fetches[t].hand.None?
            && w'.pending.fetches[t].vma == w.vmas[l]
  {
    var w' := FaultNext(w, t, l, write, sup);
    FaultKeepsInv(w, t, l, write, sup);
    BeginsCurrent(w, w', t, l, Fetch(l, w.vmas[l], if l in w.table then Some(w.table[l].slot) else None, None));
  }

  lemma BeginsCurrent(w: World, w': World, t: Tid, l: Loc, fetch: Fetch)
    requires WellFormed(w) && WellFormed(w') && l in w.vmas && (l in w.table ==> w.table[l].Swapped?)
    requires fetch == Fetch(l, w.vmas[l], if l in w.table then Some(w.table[l].slot) else None, None)
    requires w' == WithFetch(w, t, fetch)
    ensures Current(w', t) && OwnPage(w', l) == OwnPage(w, l) && w'.pending.fetches[t] == fetch
  {
  }

  /** The allocator and the device answer, and no eviction of the page still knows the
      frame. A failing read of a file goes unnoticed. */
  ghost predicate Reads(w: World, t: Tid, sup: Supply)
    requires t in w.pending.fetches
  {
    var fetch := w.pending.fetches[t];
    && Available(w, sup) && (fetch.origin.Some? || fetch.vma.kind.File? ==> sup.readOk)
    && Unknown(w, fetch.loc, sup.frame.value)
  }

  /** The read of a current fault brings in the page. */
  lemma LoadCurrent(w: World, t: Tid, sup: Supply)
    requires Inv(w) && Current(w, t) && w.pending.fetches[t].hand.None? && !Joint(w.pending.fetches[t])
    requires Reads(w, t, sup)
    ensures var w' := LoadNext(w, t, sup); var fetch := w.pending.fetches[t];
            && Inv(w') && Current(w', t) && OwnPage(w', fetch.loc) == OwnPage(w, fetch.loc)
            && w'.pending.fetches[t] == fetch.(hand := Some(Hand(sup.frame.value, OwnPage(w, fetch.loc))))
  {
    var fetch := w.pending.fetches[t];
    LoadKeepsInv(w, t, sup);
    assert fetch.loc in w.table ==> KindOk(w, fetch.loc);
    assert fetch.origin.Some? ==> InTable(w.table, fetch.origin.value);
  }

  /** A current fault that has read its page ends well exactly when the page table takes
      the entry; a load through it then sees the page. */
  lemma SettleCurrent(w: World, t: Tid, mapOk: bool)
    requires Inv(w) && Current(w, t) && w.pending.fetches[t].hand.Some?
    ensures Scoped(w, Settle(t, mapOk)) <==> mapOk
    ensures var l, w' := w.pending.fetches[t].loc, SettleNext(w, t, mapOk);
            mapOk ==> && Inv(w') && l in w'.table && w'.table[l].Present? && t !in w'.pending.fetches
                      && w'.ram[w'.table[l].frame] == OwnPage(w, l) && Open(w', l)
  {
    CurrentSettles(w, w.pending.fetches[t], mapOk);
    if mapOk {
      SettleKeepsInv(w, t, mapOk);
    }
  }

  /** The page may be written in place if its region may be written. */
  ghost predicate Open(w: World, l: Loc)
  {
    && l in w.vmas && l in w.table && w.table[l].Present?
    && w.table[l].writable == w.vmas[l].prot.write && !w.table[l].cow
  }

  lemma CurrentSettles(w: World, fetch: Fetch, mapOk: bool)
    requires WellFormed(w) && fetch.hand.Some? && Matches(w, fetch) && Fresh(w, fetch, fetch.hand.value)
    ensures Settles(w, fetch, mapOk) <==> mapOk
    ensures fetch.hand.value.contents == OwnPage(w, fetch.loc)
  {
  }

  /** A current fault on a shared page ends well exactly when the page table takes the
      entry and no eviction of that page with the object's frame is in flight. */
  lemma JoinCurrent(w: World, t: Tid, sup: Supply)
    requires Inv(w) && Current(w, t) && Joining(w, t, sup)
    ensures var fetch := w.pending.fetches[t];
            var f := if fetch.vma.kind.key in w.objects then w.objects[fetch.vma.kind.key] else sup.frame.value;
            Scoped(w, Join(t, sup)) <==>
              sup.mapOk && forall fl :: fl in w.flights && fl.loc == fetch.loc ==> fl.frame != f
  {
  }

  /** The page is then the object's: any other mapping of it shows the same frame. */
  lemma JoinMaps(w: World, w': World, t: Tid, sup: Supply)
    requires Inv(w) && Current(w, t) && Joining(w, t, sup) && sup.mapOk && w' == JoinNext(w, t, sup)
    ensures var fetch := w.pending.fetches[t]; var l, k := fetch.loc, fetch.vma.kind.key;
            && Open(w', l) && k in w'.objects && w'.table[l].frame == w'.objects[k] && t !in w'.pending.fetches
            && (k in w.objects ==> w'.objects == w.objects && w'.ram == w.ram)
            && (k !in w.objects ==> w'.objects[k] == sup.frame.value && w'.ram == w.ram[sup.frame.value := ZeroPage()])
  {
    JoinFields(w, w', t, sup);
  }

  // ---------------------------------------------------------------- runs in between

  /** No step of the run disturbs the fault of `t` or is part of it. */
  ghost predicate Quiet(w: World, run: seq<Step>, t: Tid)
    requires Inv(w) && RunScoped(w, run)
    decreases |run|
  {
    run == [] ||
    (&& t in w.pending.fetches && !Disturbs(w, run[0], t) && !Continues(run[0], t)
     && (StepExact(w, run[0]); Quiet(Next(w, run[0]), run[1..], t)))
  }

  lemma {:induction false} RunKeepsCurrent(w: World, run: seq<Step>, t: Tid)
    requires Inv(w) && RunScoped(w, run) && Current(w, t) && Quiet(w, run, t)
    ensures var w' := Run(w, run); var l := w.pending.fetches[t].loc;
            Current(w', t) && w'.pending.fetches[t] == w.pending.fetches[t] && OwnPage(w', l) == OwnPage(w, l)
    decreases |run|
  {
    if run != [] {
      StepKeepsCurrent(w, run[0], t);
      RunKeepsCurrent(Next(w, run[0]), run[1..], t);
    }
  }

  ghost predicate Leads(w: World, run: seq<Step>, w': World)
  {
    Inv(w) && RunScoped(w, run) && w' == Run(w, run)
  }

  /** Other tasks take `w` to `w'` without disturbing the fault of `t`. */
  ghost predicate Interlude(w: World, run: seq<Step>, t: Tid, w': World)
  {
    Leads(w, run, w') && Quiet(w, run, t)
  }

  /** A fault on a private page, with any other tasks in both its sleeps that do not
      disturb it, ends well, and a load sees what the page held when it began. */
  lemma FaultBringsBack(w: World, t: Tid, l: Loc, write: bool, sup: Supply, before: seq<Step>, w2: World,
                        read: Supply, after: seq<Step>, w4: World)
    requires Inv(w) && t !in w.pending.fetches && Missing(w, l, write)
    requires l in w.table || !w.vmas[l].kind.Shared?
    requires Interlude(FaultNext(w, t, l, write, sup), before, t, w2)
    requires t in w2.pending.fetches && Reads(w2, t, read)
    requires Interlude(LoadNext(w2, t, read), after, t, w4)
    ensures Scoped(w4, Settle(t, true))
    ensures var w5 := SettleNext(w4, t, true);
            Inv(w5) && Open(w5, l) && w5.ram[w5.table[l].frame] == OwnPage(w, l)
  {
    FaultWaits(w, t, l, write, sup, before, w2);
    LoadCurrent(w2, t, read);
    FaultEnds(LoadNext(w2, t, read), t, after, w4);
  }

  lemma FaultWaits(w: World, t: Tid, l: Loc, write: bool, sup: Supply, before: seq<Step>, w2: World)
    requires Inv(w) && t !in w.pending.fetches && Missing(w, l, write)
    requires l in w.table || !w.vmas[l].kind.Shared?
    requires Interlude(FaultNext(w, t, l, write, sup), before, t, w2)
    ensures Inv(w2) && Current(w2, t)
    ensures var fetch := w2.pending.fetches[t]; fetch.loc == l && fetch.hand.None? && !Joint(fetch)
    ensures OwnPage(w2, l) == OwnPage(w, l)
  {
    StartCurrent(w, t, l, write, sup);
    RunKeepsCurrent(FaultNext(w, t, l, write, sup), before, t);
  }

  lemma FaultEnds(w: World, t: Tid, after: seq<Step>, w': World)
    requires Interlude(w, after, t, w') && Current(w, t) && w.pending.fetches[t].hand.Some?
    ensures Scoped(w', Settle(t, true))
    ensures var l, w5 := w.pending.fetches[t].loc, SettleNext(w', t, true);
            Inv(w5) && Open(w5, l) && w5.ram[w5.table[l].frame] == OwnPage(w, l)
  {
    RunKeepsCurrent(w, after, t);
    SettleCurrent(w', t, true);
  }

  /** A page that was evicted and is faulted back, with any run in between in which its
      own space does not write or unmap it, holds what it held before. */
  lemma EvictedComesBack(w: World, fl: Flight, run: seq<Step>, w1: World, t: Tid, write: bool, sup: Supply,
                         before: seq<Step>, w2: World, read: Supply, after: seq<Step>, w4: World)
    requires Inv(w) && fl in w.flights && fl.loc in w.table && Unwritten(w.table[fl.loc], fl.frame)
    requires Leads(EvictCommitNext(w, fl, true), run, w1) && forall i :: 0 <= i < |run| ==> !Touches(run[i], fl.loc)
    requires t !in w1.pending.fetches && Missing(w1, fl.loc, write)
    requires Interlude(FaultNext(w1, t, fl.loc, write, sup), before, t, w2)
    requires t in w2.pending.fetches && Reads(w2, t, read)
    requires Interlude(LoadNext(w2, t, read), after, t, w4)
    ensures Scoped(w4, Settle(t, true))
    ensures var l, w5 := fl.loc, SettleNext(w4, t, true);
            Inv(w5) && Open(w5, l) && w5.ram[w5.table[l].frame] == w.ram[fl.frame]
  {
    var l, w0 := fl.loc, EvictCommitNext(w, fl, true);
    assert FlightOk(w, fl);
    CommitSilent(w, fl, true);
    assert View(w0).own == OwnPages(w0) && View(w).own == OwnPages(w) && View(w0).vmas == w0.vmas;
    Isolation(w0, run, l);
    FaultBringsBack(w1, t, l, write, sup, before, w2, read, after, w4);
  }

  // ---------------------------------------------------------------- runs of undisturbed faults

  ghost predicate AllCurrent(w: World)
  {
    forall t :: t in w.pending.fetches ==> Current(w, t)
  }

  /** What is asked of a step where no fault is disturbed: nothing about what faults have
      in hand. */
  ghost predicate Calm(w: World, st: Step)
    requires WellFormed(w)
  {
    && (forall t :: t in w.pending.fetches ==> !Disturbs(w, st, t))
    && match st
       case Load(t, sup) => Loading(w, t, sup) ==> Reads(w, t, sup)
       case Settle(t, mapOk) => mapOk
       case _ => Scoped(w, st)
  }

  /** The read of the fault goes through. */
  predicate Loading(w: World, t: Tid, sup: Supply)
  {
    && t in w.pending.fetches && w.pending.fetches[t].hand.None? && !Joint(w.pending.fetches[t])
    && Available(w, sup) && (w.pending.fetches[t].origin.Some? ==> sup.readOk)
  }

  lemma CalmScoped(w: World, st: Step)
    requires Inv(w) && AllCurrent(w) && Calm(w, st)
    ensures Scoped(w, st)
  {
    if st.Settle? && st.tid in w.pending.fetches && w.pending.fetches[st.tid].hand.Some? {
      SettleCurrent(w, st.tid, st.mapOk);
    }
  }

  lemma OwnStepCurrent(w: World, st: Step, t: Tid)
    requires Inv(w) && Current(w, t) && Calm(w, st) && Scoped(w, st) && Continues(st, t)
    ensures t in Next(w, st).pending.fetches ==> Current(Next(w, st), t)
  {
    match st
    case Load(_, sup) =>
      if Loading(w, t, sup) {
        LoadCurrent(w, t, sup);
      } else {
        LoadFields(w, LoadNext(w, t, sup), t, sup);
      }
    case Settle(_, mapOk) =>
    case Join(_, sup) =>
  }

  lemma FetchesKept(w: World, w': World, st: Step)
    requires WellFormed(w) && w' == Next(w, st) && !OfFault(st)
    ensures w'.pending.fetches == w.pending.fetches
  {
    match st
    case EvictStage(u, l, force) => StageFollow(w, w', u, l, force);
    case EvictWrite(u, slot, other) => WriteFields(w, w', u, slot, other);
    case _ => OthersFollow(w, w', st);
  }

  /** Only a fault adds to the faults under way. */
  lemma FetchesFollow(w: World, w': World, st: Step, t: Tid)
    requires WellFormed(w) && w' == Next(w, st) && t in w'.pending.fetches
    ensures t in w.pending.fetches || (st.Fault? && st.tid == t && FaultPlan(w, st.loc, st.write, st.supply).Start?)
  {
    match st
    case Fault(u, l, write, sup) => FaultFields(w, w', u, l, write, sup);
    case Load(u, sup) => LoadFields(w, w', u, sup);
    case Settle(u, mapOk) => if u in w.pending.fetches { SettleFields(w, w', u, mapOk); }
    case Join(u, sup) => if u in w.pending.fetches { JoinFields(w, w', u, sup); }
    case _ => FetchesKept(w, w', st);
  }

  lemma StageFollow(w: World, w': World, u: Tid, l: Loc, force: bool)
    requires WellFormed(w) && w' == EvictStageNext(w, u, l, force)
    ensures w'.pending.fetches == w.pending.fetches
  {
  }

  /** Where no fault is disturbed every step is in scope, and every fault stays current. */
  lemma CalmKeeps(w: World, st: Step)
    requires Inv(w) && AllCurrent(w) && Calm(w, st)
    ensures Scoped(w, st) && Inv(Next(w, st)) && AllCurrent(Next(w, st))
  {
    CalmScoped(w, st);
    StepExact(w, st);
    forall t | t in Next(w, st).pending.fetches
      ensures Current(Next(w, st), t)
    {
      FetchesFollow(w, Next(w, st), st, t);
      CalmKeepsOne(w, st, t);
    }
  }

  lemma CalmKeepsOne(w: World, st: Step, t: Tid)
    requires Inv(w) && Calm(w, st) && Scoped(w, st) && t in Next(w, st).pending.fetches
    requires t in w.pending.fetches ==> Current(w, t)
    requires t in w.pending.fetches || (st.Fault? && st.tid == t && FaultPlan(w, st.loc, st.write, st.supply).Start?)
    ensures Current(Next(w, st), t)
  {
    if t !in w.pending.fetches {
      StartCurrent(w, t, st.loc, st.write, st.supply);
    } else if Continues(st, t) {
      OwnStepCurrent(w, st, t);
    } else {
      StepKeepsCurrent(w, st, t);
    }
  }

  ghost predicate CalmRun(w: World, run: seq<Step>)
    requires Inv(w) && AllCurrent(w)
    decreases |run|
  {
    run == [] || (Calm(w, run[0]) && (CalmKeeps(w, run[0]); CalmRun(Next(w, run[0]), run[1..])))
  }

  /** A run of any tasks in which no fault is disturbed is in scope: nothing has to be said
      about what its faults read. With `RunRefines`, `Isolation` and `Conservation`,
      demand paging and swapping are then invisible. */
  lemma {:induction false} CalmRunScoped(w: World, run: seq<Step>)
    requires Inv(w) && AllCurrent(w) && CalmRun(w, run)
    ensures RunScoped(w, run) && AllCurrent(Run(w, run)) && View(Run(w, run)) == SpecRun(View(w), w, run)
    decreases |run|
  {
    if run != [] {
      CalmKeeps(w, run[0]);
      CalmRunScoped(Next(w, run[0]), run[1..]);
    }
    RunRefines(w, run);
  }

  /** In such a run a private page keeps its contents until its own space writes or
      unmaps it. */
  lemma CalmIsolation(w: World, run: seq<Step>, l: Loc)
    requires Inv(w) && AllCurrent(w) && CalmRun(w, run) && l in OwnPages(w)
    requires forall i :: 0 <= i < |run| ==> !Touches(run[i], l)
    ensures RunScoped(w, run) && l in OwnPages(Run(w, run)) && OwnPages(Run(w, run))[l] == OwnPages(w)[l]
  {
    CalmRunScoped(w, run);
    Isolation(w, run, l);
  }

  lemma BootCurrent()
    ensures Inv(Boot()) && AllCurrent(Boot())
  {
    BootInv();
  }
}
