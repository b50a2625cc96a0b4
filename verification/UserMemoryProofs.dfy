/** Proofs about `UserMemory`: each step keeps the invariant and does to the
    abstract memory exactly what programs expect, precisely under `Scoped`. */
module UserMemoryProofs {
  import opened UserMemory

  // ---------------------------------------------------------------- counting references

  lemma PteRefsSet(t: map<Loc, Pte>, l: Loc, e: Pte, f: Frame)
    ensures |PteRefs(t[l := e], f)|
         == |PteRefs(t, f)| - (if l in t && Maps(t[l], f) then 1 else 0) + (if Maps(e, f) then 1 else 0)
  {
    PteRefsUnset(t, l, f);
    var rest := PteRefs(t - {l}, f);
    if Maps(e, f) {
      assert PteRefs(t[l := e], f) == rest + {l};
    } else {
      assert PteRefs(t[l := e], f) == rest;
    }
  }

  lemma PteRefsUnset(t: map<Loc, Pte>, l: Loc, f: Frame)
    ensures |PteRefs(t - {l}, f)| == |PteRefs(t, f)| - (if l in t && Maps(t[l], f) then 1 else 0)
  {
    if l in t && Maps(t[l], f) {
      assert PteRefs(t, f) == PteRefs(t - {l}, f) + {l};
    } else {
      assert PteRefs(t, f) == PteRefs(t - {l}, f);
    }
  }

  lemma ObjRefsSet(m: map<Key, Frame>, k: Key, g: Frame, f: Frame)
    requires k !in m
    ensures |ObjRefs(m[k := g], f)| == |ObjRefs(m, f)| + (if g == f then 1 else 0)
  {
    if g == f {
      assert ObjRefs(m[k := g], f) == ObjRefs(m, f) + {k};
    } else {
      assert ObjRefs(m[k := g], f) == ObjRefs(m, f);
    }
  }

  lemma ObjRefsUnset(m: map<Key, Frame>, k: Key, f: Frame)
    requires k in m
    ensures |ObjRefs(m - {k}, f)| == |ObjRefs(m, f)| - (if m[k] == f then 1 else 0)
  {
    if m[k] == f {
      assert ObjRefs(m, f) == ObjRefs(m - {k}, f) + {k};
    } else {
      assert ObjRefs(m, f) == ObjRefs(m - {k}, f);
    }
  }

  /** A frame that is not allocated is mapped nowhere. */
  lemma UnusedFrame(w: World, f: Frame)
    requires WellFormed(w) && f !in w.ram
    ensures PteRefs(w.table, f) == {} && ObjRefs(w.objects, f) == {}
    ensures forall l :: l in w.table ==> !Maps(w.table[l], f)
    ensures !SharedFrame(w.objects, f)
  {
  }

  /** A frame with count one that is mapped at `l` is held by nothing else. */
  lemma SoleMapper(w: World, l: Loc)
    requires WellFormed(w) && Counted(w)
    requires l in w.table && w.table[l].Present? && w.count[w.table[l].frame] == 1
    ensures forall m :: m in w.table && Maps(w.table[m], w.table[l].frame) ==> m == l
    ensures !SharedFrame(w.objects, w.table[l].frame)
  {
    var f := w.table[l].frame;
    assert l in PteRefs(w.table, f);
    SubsetSize({l}, PteRefs(w.table, f));
    forall m | m in w.table && Maps(w.table[m], f) ensures m == l {
      SubsetSize({l, m}, PteRefs(w.table, f));
    }
    forall k | k in w.objects ensures w.objects[k] != f {
      assert w.objects[k] == f ==> k in ObjRefs(w.objects, f);
    }
  }

  lemma SubsetSize<T>(a: set<T>, b: set<T>)
    requires a <= b
    ensures |a| <= |b|
  {
    assert b == a + (b - a);
  }

  // ---------------------------------------------------------------- changing one entry

  /** The worlds agree on every entry and every region page but `l`. */
  ghost predicate SameBut(w: World, w': World, l: Loc)
  {
    && w'.table - {l} == w.table - {l}
    && w'.vmas - {l} == w.vmas - {l}
    && w'.spaces == w.spaces
  }

  lemma SameButAt(w: World, w': World, l: Loc, m: Loc)
    requires SameBut(w, w', l) && m != l
    ensures m in w'.table <==> m in w.table
    ensures m in w.table ==> w'.table[m] == w.table[m]
    ensures m in w'.vmas <==> m in w.vmas
    ensures m in w.vmas ==> w'.vmas[m] == w.vmas[m]
  {
    assert m in w'.table <==> m in w'.table - {l};
    assert m in w'.vmas <==> m in w'.vmas - {l};
    assert m in w.table <==> m in w.table - {l};
    assert m in w.vmas <==> m in w.vmas - {l};
    assert m in w.table ==> (w'.table - {l})[m] == (w.table - {l})[m];
    assert m in w.vmas ==> (w'.vmas - {l})[m] == (w.vmas - {l})[m];
  }

  /** References held by the entry at `l`. */
  function Held(w: World, l: Loc, f: Frame): nat
  {
    if l in w.table && Maps(w.table[l], f) then 1 else 0
  }

  lemma CountedKept(w: World, w': World, l: Loc)
    requires Counted(w) && SameBut(w, w', l) && w'.objects == w.objects
    requires forall f :: CountOf(w'.count, f) - Held(w', l, f) == CountOf(w.count, f) - Held(w, l, f)
    requires forall f :: f in w'.count ==> w'.count[f] > 0
    ensures Counted(w')
  {
    forall f
      ensures CountOf(w'.count, f) == |PteRefs(w'.table, f)| + |ObjRefs(w'.objects, f)|
    {
      PteRefsUnset(w.table, l, f);
      PteRefsUnset(w'.table, l, f);
    }
  }

  lemma KindsKept(w: World, w': World, l: Loc)
    requires Kinds(w) && SameBut(w, w', l) && w'.objects == w.objects
    requires l in w'.table ==> KindOk(w', l)
    ensures Kinds(w')
  {
    forall m | m in w'.table ensures KindOk(w', m) {
      if m != l {
        SameButAt(w, w', l, m);
        assert KindOk(w, m);
      }
    }
  }

  lemma ExclusiveKept(w: World, w': World, l: Loc)
    requires Exclusive(w) && SameBut(w, w', l)
    requires forall m | l in w'.table && w'.table[l].Present? && m in w.table && m != l
               && Maps(w.table[m], w'.table[l].frame) :: !OwnsFrame(w', l) && !OwnsFrame(w, m)
    ensures Exclusive(w')
  {
    forall a, b | a in w'.table && b in w'.table && OwnsFrame(w', a) && Maps(w'.table[b], w'.table[a].frame)
      ensures a == b
    {
      if a != l { SameButAt(w, w', l, a); }
      if b != l { SameButAt(w, w', l, b); }
      if a != l && b != l {
        assert OwnsFrame(w, a) && Maps(w.table[b], w.table[a].frame);
      }
    }
  }

  lemma FlightsKept(w: World, w': World, l: Loc)
    requires FlightsCurrent(w) && SameBut(w, w', l) && w'.flights <= w.flights
    requires forall fl :: fl in w'.flights && fl.loc == l ==> FlightOk(w', fl)
    requires forall fl | fl in w'.flights && fl.loc != l && fl.loc in w.table
               && Unwritten(w.table[fl.loc], fl.frame) :: SameCopy(w, w', fl)
    ensures FlightsCurrent(w')
  {
    forall fl | fl in w'.flights ensures FlightOk(w', fl) {
      if fl.loc != l {
        SameButAt(w, w', l, fl.loc);
        assert FlightOk(w, fl);
      }
    }
  }

  predicate SameCopy(w: World, w': World, fl: Flight)
  {
    && (fl.frame in w.ram ==> fl.frame in w'.ram && w'.ram[fl.frame] == w.ram[fl.frame])
    && (fl.slot in w.swap ==> fl.slot in w'.swap && w'.swap[fl.slot] == w.swap[fl.slot])
  }

  function SlotOf(w: World, l: Loc): set<Slot>
  {
    if l in w.table && w.table[l].Swapped? then {w.table[l].slot} else {}
  }

  /** Slots stay owned when the slots given up by the entry and the flights are
      freed and those taken over change hands. */
  lemma SlotsKept(w: World, w': World, l: Loc)
    requires SlotsOwned(w) && SameBut(w, w', l)
    requires w'.flights <= w.flights
    requires forall slot :: slot in SlotOf(w', l) ==>
               slot in SlotOf(w, l) || (exists fl :: fl in w.flights && fl !in w'.flights && fl.slot == slot)
    requires forall slot :: slot in w'.swap ==> slot in w.swap
    requires forall slot :: slot in w'.swap && slot in SlotOf(w, l) ==> slot in SlotOf(w', l)
    requires forall fl :: fl in w.flights && fl !in w'.flights && fl.slot in w'.swap ==> fl.slot in SlotOf(w', l)
    ensures SlotsOwned(w')
  {
    forall slot | slot in w'.swap ensures InTable(w'.table, slot) || InFlight(w'.flights, slot) {
      if slot in SlotOf(w', l) {
        assert w'.table[l] == Swapped(slot);
      } else if InTable(w.table, slot) {
        var m :| m in w.table && w.table[m] == Swapped(slot);
        assert m != l;
        SameButAt(w, w', l, m);
      } else {
        var fl :| fl in w.flights && fl.slot == slot;
        assert fl in w'.flights;
      }
    }
    forall a, b | a in w'.table && b in w'.table && w'.table[a].Swapped? && w'.table[b] == w'.table[a]
      ensures a == b
    {
      if a != l { SameButAt(w, w', l, a); } else { assert w'.table[l].slot in SlotOf(w', l); }
      if b != l { SameButAt(w, w', l, b); } else { assert w'.table[l].slot in SlotOf(w', l); }
    }
    forall a, fl | a in w'.table && fl in w'.flights && w'.table[a].Swapped?
      ensures w'.table[a].slot != fl.slot
    {
      if a != l { SameButAt(w, w', l, a); } else { assert w'.table[l].slot in SlotOf(w', l); }
    }
  }

  /** What a change to the entry at `l` (and to its frame, slot and region page)
      has to respect for the whole world to stay consistent. */
  ghost predicate LocalChange(w: World, w': World, l: Loc)
  {
    && SameBut(w, w', l) && w'.objects == w.objects && w'.flights <= w.flights
    && w'.count.Keys == w'.ram.Keys
    && (forall f :: CountOf(w'.count, f) - Held(w', l, f) == CountOf(w.count, f) - Held(w, l, f))
    && (forall f :: f in w'.count ==> w'.count[f] > 0)
    && (l in w'.vmas ==> l.space in w'.spaces)
    && (l in w'.table ==> KindOk(w', l))
  }

  ghost predicate LocalSlots(w: World, w': World, l: Loc)
  {
    && (forall slot :: slot in SlotOf(w', l) ==>
          || slot in SlotOf(w, l)
          || (exists fl :: fl in w.flights && fl !in w'.flights && fl.slot == slot))
    && w'.swap.Keys == w.swap.Keys - (Given(w, w', l) - SlotOf(w', l))
  }

  /** The slots that the entry and the ended flights owned. */
  function Given(w: World, w': World, l: Loc): set<Slot>
  {
    SlotOf(w, l) + set fl | fl in w.flights - w'.flights :: fl.slot
  }

  ghost predicate LocalFlights(w: World, w': World, l: Loc)
  {
    && (forall fl :: fl in w'.flights && fl.loc == l ==> FlightOk(w', fl))
    && (forall fl | fl in w'.flights && fl.loc != l && fl.loc in w.table
                    && Unwritten(w.table[fl.loc], fl.frame) :: SameCopy(w, w', fl))
  }

  ghost predicate LocalExclusive(w: World, w': World, l: Loc)
  {
    forall m | l in w'.table && w'.table[l].Present? && m in w.table && m != l
               && Maps(w.table[m], w'.table[l].frame) :: !OwnsFrame(w', l) && !OwnsFrame(w, m)
  }

  lemma CountedBacks(w: World, l: Loc, f: Frame)
    requires Counted(w) && w.count.Keys == w.ram.Keys && l in w.table && Maps(w.table[l], f)
    ensures f in w.ram
  {
    assert l in PteRefs(w.table, f);
  }

  lemma CountedBacksObject(w: World, k: Key)
    requires Counted(w) && w.count.Keys == w.ram.Keys && k in w.objects
    ensures w.objects[k] in w.ram
  {
    assert k in ObjRefs(w.objects, w.objects[k]);
  }

  lemma WellFormedKept(w: World, w': World, l: Loc)
    requires WellFormed(w) && SlotsOwned(w) && LocalChange(w, w', l) && LocalSlots(w, w', l) && Counted(w')
    ensures WellFormed(w')
  {
    forall m | m in w'.table ensures Backed(w', w'.table[m]) && m in w'.vmas {
      if m != l { SameButAt(w, w', l, m); }
      if w'.table[m].Present? {
        CountedBacks(w', m, w'.table[m].frame);
      }
    }
    forall k | k in w'.objects ensures w'.objects[k] in w'.ram {
      CountedBacksObject(w', k);
    }
    forall m | m in w'.vmas ensures m.space in w'.spaces {
      if m != l { SameButAt(w, w', l, m); }
    }
  }

  lemma EntryChange(w: World, w': World, l: Loc)
    requires Core(w)
    requires LocalChange(w, w', l) && LocalSlots(w, w', l) && LocalFlights(w, w', l) && LocalExclusive(w, w', l)
    ensures Core(w')
  {
    assert Counted(w') by { CountedKept(w, w', l); }
    assert WellFormed(w') by { WellFormedKept(w, w', l); }
    assert SlotsOwned(w') by { SlotsKept(w, w', l); }
    assert Kinds(w') by { KindsKept(w, w', l); }
    assert Exclusive(w') by { ExclusiveKept(w, w', l); }
    assert FlightsCurrent(w') by { FlightsKept(w, w', l); }
  }

  // ---------------------------------------------------------------- faults

  /** What every local argument below needs to know about the world. */
  ghost predicate Around(w: World, l: Loc)
  {
    && WellFormed(w)
    && (forall f :: f in w.count ==> w.count[f] > 0)
    && (l in w.table ==> KindOk(w, l))
    && (forall fl :: fl in w.flights && l in w.table && w.table[l].Swapped? ==> fl.slot != w.table[l].slot)
  }

  ghost predicate LocallySound(w: World, w': World, l: Loc)
  {
    LocalChange(w, w', l) && LocalSlots(w, w', l) && LocalFlights(w, w', l) && LocalExclusive(w, w', l)
  }

  lemma CoreAround(w: World, l: Loc)
    requires Core(w)
    ensures Around(w, l)
  {
  }

  lemma TakeOverLocal(w: World, w': World, l: Loc)
    requires Around(w, l) && l in w.table && w.table[l].Present? && w.table[l].cow && w.vmas[l].prot.write
    requires forall m :: m in w.table && Maps(w.table[m], w.table[l].frame) ==> m == l
    requires forall fl :: fl in w.flights && fl.loc == l ==> FlightOk(w, fl)
    requires w' == w.(table := w.table[l := w.table[l].(cow := false, writable := true)])
    ensures LocallySound(w, w', l)
  {
  }

  lemma CopyToLocal(w: World, w': World, l: Loc, f: Frame, prior: Frame)
    requires Around(w, l) && l in w.table && Maps(w.table[l], prior) && w.table[l].cow && w.vmas[l].prot.write
    requires w.count[prior] > 1
    requires f !in w.ram && !MeetsStaleFlight(w, l, f, w.ram[prior], false)
    requires w' == w.(table := w.table[l := FreshPte(f, true)], ram := w.ram[f := w.ram[prior]],
                      count := w.count[f := 1][prior := w.count[prior] - 1])
    ensures LocallySound(w, w', l)
  {
    UnusedFrame(w, f);
  }

  /** A new frame goes where there is no entry or a swapped one. */
  lemma SettleLocal(w: World, w': World, l: Loc, f: Frame, c: Page)
    requires Around(w, l) && l in w.vmas && !w.vmas[l].kind.Shared? && (l in w.table ==> w.table[l].Swapped?)
    requires f !in w.ram && !MeetsStaleFlight(w, l, f, c, false)
    requires w' == w.(table := w.table[l := FreshPte(f, w.vmas[l].prot.write)], swap := w.swap - SlotOf(w, l),
                      ram := w.ram[f := c], count := w.count[f := 1], pending := w'.pending)
    ensures LocallySound(w, w', l)
  {
    UnusedFrame(w, f);
    assert LocalFlights(w, w', l) by {
      SettleFlights(w, w', l, f, c);
    }
  }

  lemma SettleFlights(w: World, w': World, l: Loc, f: Frame, c: Page)
    requires Around(w, l) && l in w.vmas && !w.vmas[l].kind.Shared? && f !in w.ram
    requires !MeetsStaleFlight(w, l, f, c, false)
    requires w' == w.(table := w'.table, swap := w.swap - SlotOf(w, l), ram := w.ram[f := c], count := w'.count,
                      pending := w'.pending)
    requires l in w'.table && w'.table == w.table[l := w'.table[l]] && Maps(w'.table[l], f)
    ensures LocalFlights(w, w', l)
  {
    UnusedFrame(w, f);
  }

  lemma JoinLocal(w: World, w': World, l: Loc, k: Key)
    requires Around(w, l) && l in w.vmas && l !in w.table && w.vmas[l].kind == Shared(k) && k in w.objects
    requires forall m :: m in w.table && OwnsFrame(w, m) ==> w.table[m].frame != w.objects[k]
    requires !MeetsStaleFlight(w, l, w.objects[k], ZeroPage(), true)
    requires w' == w.(table := w.table[l := FreshPte(w.objects[k], w.vmas[l].prot.write)],
                      count := w.count[w.objects[k] := w.count[w.objects[k]] + 1], pending := w'.pending)
    ensures LocallySound(w, w', l)
  {
  }

  lemma OwnersNotShared(w: World, k: Key)
    requires Kinds(w) && k in w.objects
    ensures forall m :: m in w.table && OwnsFrame(w, m) ==> w.table[m].frame != w.objects[k]
  {
    forall m | m in w.table && OwnsFrame(w, m) ensures w.table[m].frame != w.objects[k] {
      assert KindOk(w, m);
    }
  }

  /** Give page `k` of a shared object a zeroed frame. */
  function AddObject(w: World, k: Key, f: Frame): World
  {
    w.(ram := w.ram[f := ZeroPage()], count := w.count[f := 1], objects := w.objects[k := f])
  }

  lemma AddObjectCore(w: World, k: Key, f: Frame)
    requires Core(w) && k !in w.objects && f !in w.ram
    ensures Core(AddObject(w, k, f))
  {
    var w' := AddObject(w, k, f);
    UnusedFrame(w, f);
    assert Counted(w') by {
      forall g
        ensures CountOf(w'.count, g) == |PteRefs(w'.table, g)| + |ObjRefs(w'.objects, g)|
      {
        ObjRefsSet(w.objects, k, f, g);
      }
    }
    AddObjectRest(w, w', k, f);
  }

  lemma AddObjectRest(w: World, w': World, k: Key, f: Frame)
    requires WellFormed(w) && SlotsOwned(w) && Kinds(w) && Exclusive(w) && FlightsCurrent(w)
    requires k !in w.objects && f !in w.ram && w' == AddObject(w, k, f)
    requires !SharedFrame(w.objects, f)
    ensures WellFormed(w') && SlotsOwned(w') && Kinds(w') && Exclusive(w') && FlightsCurrent(w')
  {
    forall m | m in w'.table ensures KindOk(w', m) {
      assert KindOk(w, m) && Backed(w, w.table[m]);
    }
    forall fl | fl in w'.flights ensures FlightOk(w', fl) {
      assert FlightOk(w, fl);
    }
  }

  lemma TakeOverCore(w: World, w': World, l: Loc)
    requires Core(w) && l in w.table && w.table[l].Present? && w.table[l].cow && w.vmas[l].prot.write
    requires w.count[w.table[l].frame] == 1
    requires w' == w.(table := w.table[l := w.table[l].(cow := false, writable := true)])
    ensures Core(w')
  {
    CoreAround(w, l);
    SoleMapper(w, l);
    TakeOverLocal(w, w', l);
    EntryChange(w, w', l);
  }

  lemma CopyToCore(w: World, w': World, l: Loc, f: Frame, prior: Frame)
    requires Core(w) && l in w.table && Maps(w.table[l], prior) && w.table[l].cow && w.vmas[l].prot.write
    requires w.count[prior] > 1 && f !in w.ram && !MeetsStaleFlight(w, l, f, w.ram[prior], false)
    requires w' == w.(table := w.table[l := FreshPte(f, true)], ram := w.ram[f := w.ram[prior]],
                      count := w.count[f := 1][prior := w.count[prior] - 1])
    ensures Core(w')
  {
    CoreAround(w, l);
    CopyToLocal(w, w', l, f, prior);
    EntryChange(w, w', l);
  }

  /** Frames that come into use were not in anybody's hand. */
  lemma MoreFrames(fetches: map<Tid, Fetch>, used: set<Frame>, more: set<Frame>, f: Frame)
    requires HandsApart(fetches, used) && more <= used + {f} && (f in used || !InHand(fetches, f))
    ensures HandsApart(fetches, more)
  {
    forall t, g | Holds(fetches, t, g) ensures g !in more {
      assert t in fetches;
    }
  }

  lemma FewerHands(a: map<Tid, Fetch>, used: set<Frame>, b: map<Tid, Fetch>, fewer: set<Frame>)
    requires HandsApart(a, used) && fewer <= used
    requires forall t, f :: Holds(b, t, f) ==> Holds(a, t, f)
    ensures HandsApart(b, fewer)
  {
  }

  lemma HandsFewer(w: World, w': World)
    requires Hands(w) && w'.ram.Keys <= w.ram.Keys && w'.pending.fetches == w.pending.fetches
    ensures Hands(w')
  {
    FewerHands(w.pending.fetches, w.ram.Keys, w'.pending.fetches, w'.ram.Keys);
  }

  /** Faults and evictions under way are no part of what `Core` speaks of. */
  lemma SameTables(w: World, w': World)
    requires Core(w) && w' == w.(pending := w'.pending)
    ensures Core(w')
  {
    forall m | m in w'.table ensures KindOk(w', m) && Backed(w', w'.table[m]) {
      assert KindOk(w, m) && Backed(w, w.table[m]);
    }
    forall fl | fl in w'.flights ensures FlightOk(w', fl) {
      assert FlightOk(w, fl);
    }
    assert Counted(w') by {
      assert w'.count == w.count && w'.table == w.table && w'.objects == w.objects;
    }
  }

  lemma CopyToPlan(w: World, w': World, t: Tid, l: Loc, write: bool, sup: Supply, f: Frame, prior: Frame)
    requires WellFormed(w) && t !in w.pending.fetches && FaultPlan(w, l, write, sup) == CopyTo(f)
    requires prior == w.table[l].frame
    requires w' == FaultNext(w, t, l, write, sup) && forall g :: g in w.count ==> w.count[g] > 0
    ensures w' == w.(table := w.table[l := FreshPte(f, true)], ram := w.ram[f := w.ram[prior]],
                     count := w.count[f := 1][prior := w.count[prior] - 1])
  {
    assert w.count[f := 1][prior := w.count[prior] - 1] == w'.count;
  }

  lemma CopyToInv(w: World, w': World, t: Tid, l: Loc, write: bool, sup: Supply, f: Frame)
    requires Inv(w) && FaultScoped(w, t, l, write, sup) && t !in w.pending.fetches
    requires FaultPlan(w, l, write, sup) == CopyTo(f)
    requires w' == FaultNext(w, t, l, write, sup)
    ensures Inv(w')
  {
    var prior := w.table[l].frame;
    assert f !in w.ram && !InHand(w.pending.fetches, f);
    CopyToPlan(w, w', t, l, write, sup, f, prior);
    CopyToCore(w, w', l, f, prior);
    MoreFrames(w.pending.fetches, w.ram.Keys, w'.ram.Keys, f);
  }

  lemma StartInv(w: World, w': World, t: Tid, fetch: Fetch)
    requires Inv(w) && t !in w.pending.fetches && fetch.hand.None? && w' == WithFetch(w, t, fetch)
    ensures Inv(w')
  {
    SameTables(w, w');
    FewerHands(w.pending.fetches, w.ram.Keys, w'.pending.fetches, w'.ram.Keys);
  }

  lemma FaultKeepsInv(w: World, t: Tid, l: Loc, write: bool, sup: Supply)
    requires Inv(w) && FaultScoped(w, t, l, write, sup)
    ensures Inv(FaultNext(w, t, l, write, sup))
  {
    var w' := FaultNext(w, t, l, write, sup);
    if t !in w.pending.fetches {
      match FaultPlan(w, l, write, sup)
      case TakeOver =>
        TakeOverCore(w, w', l);
        HandsFewer(w, w');
      case CopyTo(f) => CopyToInv(w, w', t, l, write, sup, f);
      case Start(fetch) => StartInv(w, w', t, fetch);
      case _ =>
    }
  }

  /** A free frame goes into the hand of one fault. */
  lemma NewHand(fetches: map<Tid, Fetch>, used: set<Frame>, t: Tid, fetch: Fetch)
    requires HandsApart(fetches, used) && fetch.hand.Some?
    requires fetch.hand.value.frame !in used && !InHand(fetches, fetch.hand.value.frame)
    ensures HandsApart(fetches[t := fetch], used)
  {
    var more := fetches[t := fetch];
    forall u, f | Holds(more, u, f) ensures f !in used {
      assert u != t ==> Holds(fetches, u, f);
    }
    forall u, v, f | Holds(more, u, f) && Holds(more, v, f) ensures u == v {
      if u != t { assert u in fetches && Holds(fetches, u, f); }
      if v != t { assert v in fetches && Holds(fetches, v, f); }
    }
  }

  lemma LoadKeepsInv(w: World, t: Tid, sup: Supply)
    requires Inv(w)
    ensures Inv(LoadNext(w, t, sup))
  {
    var w' := LoadNext(w, t, sup);
    LoadFields(w, w', t, sup);
    SameTables(w, w');
    if t in w'.pending.fetches && w'.pending.fetches != w.pending.fetches {
      NewHand(w.pending.fetches, w.ram.Keys, t, w'.pending.fetches[t]);
    } else {
      FewerHands(w.pending.fetches, w.ram.Keys, w'.pending.fetches, w'.ram.Keys);
    }
  }

  lemma LoadFields(w: World, w': World, t: Tid, sup: Supply)
    requires WellFormed(w) && w' == LoadNext(w, t, sup)
    ensures w' == w.(pending := w'.pending)
    ensures w'.pending.fetches == w.pending.fetches || w'.pending.fetches == w.pending.fetches - {t}
         || (&& t in w'.pending.fetches && w'.pending.fetches == w.pending.fetches[t := w'.pending.fetches[t]]
             && w'.pending.fetches[t].hand.Some?
             && w'.pending.fetches[t].hand.value.frame !in w.ram
             && !InHand(w.pending.fetches, w'.pending.fetches[t].hand.value.frame))
  {
  }

  /** Nobody else has the frame that a fault takes out of its hand. */
  lemma HandEmptied(fetches: map<Tid, Fetch>, used: set<Frame>, t: Tid, f: Frame, more: set<Frame>)
    requires HandsApart(fetches, used) && Holds(fetches, t, f) && more <= used + {f}
    ensures HandsApart(fetches - {t}, more) && f !in used
  {
    var rest := fetches - {t};
    forall u, g | Holds(rest, u, g) ensures g !in more {
      assert Holds(fetches, u, g) && u != t;
    }
    forall u, v, g | Holds(rest, u, g) && Holds(rest, v, g) ensures u == v {
      assert Holds(fetches, u, g) && Holds(fetches, v, g);
    }
  }

  lemma SettleKeepsInv(w: World, t: Tid, mapOk: bool)
    requires Inv(w) && SettleScoped(w, t, mapOk)
    ensures Inv(SettleNext(w, t, mapOk))
  {
    var w' := SettleNext(w, t, mapOk);
    if t in w.pending.fetches && w.pending.fetches[t].hand.Some? {
      var fetch := w.pending.fetches[t];
      var l, f := fetch.loc, fetch.hand.value.frame;
      assert Holds(w.pending.fetches, t, f);
      HandEmptied(w.pending.fetches, w.ram.Keys, t, f, w'.ram.Keys);
      SettleCore(w, w', fetch, mapOk);
    }
  }

  lemma SettleCore(w: World, w': World, fetch: Fetch, mapOk: bool)
    requires Core(w) && fetch.hand.Some? && Settles(w, fetch, mapOk) && fetch.hand.value.frame !in w.ram
    requires var l, f := fetch.loc, fetch.hand.value.frame;
             w' == w.(table := w.table[l := FreshPte(f, fetch.vma.prot.write)], swap := w.swap - SlotSet(fetch.origin),
                      ram := w.ram[f := fetch.hand.value.contents], count := w.count[f := 1], pending := w'.pending)
    ensures Core(w')
  {
    var l := fetch.loc;
    CoreAround(w, l);
    assert w.swap - SlotSet(fetch.origin) == w.swap - SlotOf(w, l);
    SettleLocal(w, w', l, fetch.hand.value.frame, fetch.hand.value.contents);
    EntryChange(w, w', l);
  }

  lemma JoinCore(w: World, w': World, l: Loc, k: Key)
    requires Core(w) && l in w.vmas && l !in w.table && w.vmas[l].kind == Shared(k) && k in w.objects
    requires !MeetsStaleFlight(w, l, w.objects[k], ZeroPage(), true)
    requires w' == w.(table := w.table[l := FreshPte(w.objects[k], w.vmas[l].prot.write)],
                      count := w.count[w.objects[k] := w.count[w.objects[k]] + 1], pending := w'.pending)
    ensures Core(w')
  {
    CoreAround(w, l);
    OwnersNotShared(w, k);
    JoinLocal(w, w', l, k);
    EntryChange(w, w', l);
  }

  lemma JoinKeepsInv(w: World, t: Tid, sup: Supply)
    requires Inv(w) && JoinScoped(w, t, sup)
    ensures Inv(JoinNext(w, t, sup))
  {
    var w' := JoinNext(w, t, sup);
    if Joining(w, t, sup) {
      JoinHands(w, w', t, sup);
      var fetch := w.pending.fetches[t];
      if fetch.vma.kind.key in w.objects {
        OldJoinIs(w, w', t, sup, fetch, w.objects[fetch.vma.kind.key]);
        OldJoinCore(w, w', fetch, sup);
      } else {
        NewJoinIs(w, w', t, sup, fetch, sup.frame.value);
        NewJoinCore(w, w', fetch, sup);
      }
    } else {
      SameTables(w, w');
      FewerHands(w.pending.fetches, w.ram.Keys, w'.pending.fetches, w'.ram.Keys);
    }
  }

  /** Nothing but a present entry can be at a shared page. */
  lemma SharedAbsent(w: World, l: Loc)
    requires Kinds(w) && l in w.vmas && w.vmas[l].kind.Shared? && (l in w.table ==> !w.table[l].Present?)
    ensures l !in w.table
  {
    assert l in w.table ==> KindOk(w, l);
  }

  lemma OldJoinCore(w: World, w': World, fetch: Fetch, sup: Supply)
    requires Core(w) && fetch.vma.kind.Shared? && fetch.vma.kind.key in w.objects && Joins(w, fetch, sup)
    requires var f := w.objects[fetch.vma.kind.key];
             w' == w.(table := w.table[fetch.loc := FreshPte(f, fetch.vma.prot.write)],
                      count := w.count[f := w.count[f] + 1], pending := w'.pending)
    ensures Core(w')
  {
    SharedAbsent(w, fetch.loc);
    JoinCore(w, w', fetch.loc, fetch.vma.kind.key);
  }

  lemma NewJoinCore(w: World, w': World, fetch: Fetch, sup: Supply)
    requires Core(w) && fetch.vma.kind.Shared? && fetch.vma.kind.key !in w.objects
    requires sup.frame.Some? && sup.frame.value !in w.ram && Joins(w, fetch, sup)
    requires var f := sup.frame.value;
             var w1 := AddObject(w, fetch.vma.kind.key, f);
             w' == w1.(table := w.table[fetch.loc := FreshPte(f, fetch.vma.prot.write)],
                       count := w1.count[f := w1.count[f] + 1], pending := w'.pending)
    ensures Core(w')
  {
    SharedAbsent(w, fetch.loc);
    AddObjectCore(w, fetch.vma.kind.key, sup.frame.value);
    JoinCore(AddObject(w, fetch.vma.kind.key, sup.frame.value), w', fetch.loc, fetch.vma.kind.key);
  }

  lemma OldJoinIs(w: World, w': World, t: Tid, sup: Supply, fetch: Fetch, f: Frame)
    requires WellFormed(w) && Joining(w, t, sup) && fetch == w.pending.fetches[t] && fetch.vma.kind.key in w.objects
    requires w' == JoinNext(w, t, sup) && f == w.objects[fetch.vma.kind.key] && !MapFails(w, fetch.loc, sup.mapOk)
    ensures w' == w.(table := w.table[fetch.loc := FreshPte(f, fetch.vma.prot.write)],
                     count := w.count[f := w.count[f] + 1], pending := w'.pending)
  {
  }

  lemma NewJoinIs(w: World, w': World, t: Tid, sup: Supply, fetch: Fetch, f: Frame)
    requires WellFormed(w) && Joining(w, t, sup) && fetch == w.pending.fetches[t] && fetch.vma.kind.key !in w.objects
    requires w' == JoinNext(w, t, sup) && f == sup.frame.value && !MapFails(w, fetch.loc, sup.mapOk)
    ensures var w1 := AddObject(w, fetch.vma.kind.key, f);
            w' == w1.(table := w.table[fetch.loc := FreshPte(f, fetch.vma.prot.write)],
                      count := w1.count[f := w1.count[f] + 1], pending := w'.pending)
  {
  }

  lemma JoinHands(w: World, w': World, t: Tid, sup: Supply)
    requires WellFormed(w) && Hands(w) && Joining(w, t, sup) && w' == JoinNext(w, t, sup)
    ensures Hands(w')
  {
    FewerHands(w.pending.fetches, w.ram.Keys, w.pending.fetches - {t}, w.ram.Keys);
    var k := w.pending.fetches[t].vma.kind.key;
    var f := if k in w.objects then w.objects[k] else sup.frame.value;
    NotInHand(w.pending.fetches, t, f);
    MoreFrames(w.pending.fetches - {t}, w.ram.Keys, w'.ram.Keys, f);
  }

  lemma NotInHand(fetches: map<Tid, Fetch>, t: Tid, f: Frame)
    ensures InHand(fetches - {t}, f) ==> InHand(fetches, f)
  {
    if InHand(fetches - {t}, f) {
      var u :| u in fetches - {t} && Holds(fetches - {t}, u, f);
      assert u in fetches && Holds(fetches, u, f);
    }
  }

  // ---------------------------------------------------------------- stores and kernel copies

  /** No other staged copy is of this frame. */
  lemma FlightsElsewhere(w: World, l: Loc)
    requires WellFormed(w) && Kinds(w) && Exclusive(w) && FlightsCurrent(w)
    requires l in w.table && w.table[l].Present? && w.table[l].writable
    ensures forall fl | fl in w.flights && fl.loc != l && fl.loc in w.table
              && Unwritten(w.table[fl.loc], fl.frame) :: fl.frame != w.table[l].frame
  {
    forall fl | fl in w.flights && fl.loc != l && fl.loc in w.table && Unwritten(w.table[fl.loc], fl.frame)
      ensures fl.frame != w.table[l].frame
    {
      assert FlightOk(w, fl) && KindOk(w, fl.loc) && KindOk(w, l);
      if !w.vmas[l].kind.Shared? {
        assert OwnsFrame(w, l);
      }
    }
  }

  lemma WriteLocal(w: World, w': World, l: Loc, e: Pte, c: Page)
    requires Around(w, l) && l in w.table && w.table[l].Present? && w.table[l].writable
    requires forall fl | fl in w.flights && fl.loc != l && fl.loc in w.table
               && Unwritten(w.table[fl.loc], fl.frame) :: fl.frame != w.table[l].frame
    requires forall m | m in w.table && OwnsFrame(w, m) && Maps(w.table[l], w.table[m].frame) :: m == l
    requires OwnsFrame(w, l) ==> forall m | m in w.table && Maps(w.table[m], w.table[l].frame) :: m == l
    requires e == w.table[l] || e == w.table[l].(accessed := true, dirty := true)
    requires w' == w.(ram := w.ram[w.table[l].frame := c], table := w.table[l := e])
    requires forall fl :: fl in w.flights && fl.loc == l && Unwritten(e, fl.frame) ==>
               fl.slot in w.swap && w.swap[fl.slot] == c && !w.vmas[l].kind.Shared?
    ensures LocallySound(w, w', l)
  {
  }

  lemma StoreKeepsInv(w: World, l: Loc, off: nat, b: Byte)
    requires Inv(w)
    ensures Inv(StoreNext(w, l, off, b))
  {
    var w' := StoreNext(w, l, off, b);
    if Effective(w, Store(l, off, b)) {
      CoreAround(w, l);
      FlightsElsewhere(w, l);
      WriteLocal(w, w', l, w'.table[l], w'.ram[w.table[l].frame]);
      EntryChange(w, w', l);
    }
    HandsFewer(w, w');
  }

  lemma KernelCopyKeepsInv(w: World, l: Loc, off: nat, data: seq<Byte>)
    requires Inv(w) && Scoped(w, KernelCopy(l, off, data))
    ensures Inv(KernelCopyNext(w, l, off, data))
  {
    var w' := KernelCopyNext(w, l, off, data);
    if CopyAllowed(w, l, off, data) {
      CoreAround(w, l);
      FlightsElsewhere(w, l);
      CopyAtFlights(w, l, off, data);
      assert w'.table == w.table[l := w.table[l]];
      WriteLocal(w, w', l, w.table[l], w'.ram[w.table[l].frame]);
      EntryChange(w, w', l);
    }
    HandsFewer(w, w');
  }

  lemma CopyAtFlights(w: World, l: Loc, off: nat, data: seq<Byte>)
    requires WellFormed(w) && FlightsCurrent(w) && CopyAllowed(w, l, off, data)
    requires Scoped(w, KernelCopy(l, off, data))
    ensures forall fl :: fl in w.flights && fl.loc == l && Unwritten(w.table[l], fl.frame) ==>
              && fl.slot in w.swap && w.swap[fl.slot] == Splice(w.ram[w.table[l].frame], off, data)
              && !w.vmas[l].kind.Shared?
  {
    forall fl | fl in w.flights && fl.loc == l && Unwritten(w.table[l], fl.frame)
      ensures fl.slot in w.swap && w.swap[fl.slot] == Splice(w.ram[w.table[l].frame], off, data)
      ensures !w.vmas[l].kind.Shared?
    {
      assert FlightOk(w, fl);
    }
  }

  // ---------------------------------------------------------------- unmap and protect

  /** A region page changes, or goes, where there is no entry. */
  lemma NoEntryLocal(w: World, w': World, l: Loc)
    requires Around(w, l) && l !in w.table && SameBut(w, w', l) && w' == w.(vmas := w'.vmas)
    requires l in w'.vmas ==> l.space in w.spaces
    ensures LocallySound(w, w', l)
  {
  }

  lemma UnmapSwappedLocal(w: World, w': World, l: Loc, slot: Slot)
    requires Around(w, l) && l in w.table && w.table[l] == Swapped(slot)
    requires w' == w.(vmas := w.vmas - {l}, table := w.table - {l}, swap := w.swap - {slot})
    ensures LocallySound(w, w', l)
  {
  }

  lemma UnmapPresentLocal(w: World, w': World, l: Loc, f: Frame)
    requires Around(w, l) && l in w.table && Maps(w.table[l], f)
    requires w.count[f] == 1 ==> forall m :: m in w.table && Maps(w.table[m], f) ==> m == l
    requires w' == Put(w.(vmas := w.vmas - {l}, table := w.table - {l}), f)
    ensures LocallySound(w, w', l)
  {
    if w.count[f] == 1 {
      UnmapLastLocal(w, w', l, f);
    } else {
      UnmapSharedLocal(w, w', l, f);
    }
  }

  lemma UnmapLastLocal(w: World, w': World, l: Loc, f: Frame)
    requires Around(w, l) && l in w.table && Maps(w.table[l], f) && w.count[f] == 1
    requires forall m :: m in w.table && Maps(w.table[m], f) ==> m == l
    requires w' == w.(vmas := w.vmas - {l}, table := w.table - {l}, ram := w.ram - {f}, count := w.count - {f})
    ensures LocallySound(w, w', l)
  {
  }

  lemma UnmapSharedLocal(w: World, w': World, l: Loc, f: Frame)
    requires Around(w, l) && l in w.table && Maps(w.table[l], f) && w.count[f] > 1
    requires w' == w.(vmas := w.vmas - {l}, table := w.table - {l}, count := w.count[f := w.count[f] - 1])
    ensures LocallySound(w, w', l)
  {
  }

  lemma UnmapLocal(w: World, w': World, l: Loc)
    requires Around(w, l) && w' == UnmapPageNext(w, l)
    requires l in w.table && w.table[l].Present? && w.count[w.table[l].frame] == 1 ==>
               forall m :: m in w.table && Maps(w.table[m], w.table[l].frame) ==> m == l
    ensures LocallySound(w, w', l)
  {
    if l !in w.table {
      assert w' == w.(vmas := w'.vmas);
      NoEntryLocal(w, w', l);
    } else if w.table[l].Swapped? {
      UnmapSwappedLocal(w, w', l, w.table[l].slot);
    } else {
      UnmapPresentLocal(w, w', l, w.table[l].frame);
    }
  }

  lemma PutFrames(w: World, f: Frame)
    requires f in w.count
    ensures Put(w, f).ram.Keys <= w.ram.Keys && Put(w, f).pending == w.pending
  {
  }

  lemma UnmapFrames(w: World, w': World, l: Loc)
    requires WellFormed(w) && w' == UnmapPageNext(w, l)
    ensures w'.ram.Keys <= w.ram.Keys && w'.pending == w.pending
  {
    if l in w.table && w.table[l].Present? {
      PutFrames(w.(vmas := w.vmas - {l}, table := w.table - {l}), w.table[l].frame);
    }
  }

  lemma UnmapKeepsInv(w: World, l: Loc)
    requires Inv(w)
    ensures Inv(UnmapPageNext(w, l))
  {
    var w' := UnmapPageNext(w, l);
    CoreAround(w, l);
    if l in w.table && w.table[l].Present? && w.count[w.table[l].frame] == 1 {
      SoleMapper(w, l);
    }
    UnmapLocal(w, w', l);
    EntryChange(w, w', l);
    UnmapFrames(w, w', l);
    HandsFewer(w, w');
  }

  lemma ProtectLocal(w: World, w': World, l: Loc, prot: Prot)
    requires Around(w, l) && l in w.vmas && l in w.table
    requires w' == w.(vmas := w.vmas[l := w.vmas[l].(prot := prot)],
                      table := w.table[l := ProtectedPte(w.table[l], prot)])
    requires Promotes(w, l, prot) ==> forall m :: m in w.table && Maps(w.table[m], w.table[l].frame) ==> m == l
    requires forall m | m in w.table && OwnsFrame(w, m) && Maps(w.table[l], w.table[m].frame) :: m == l
    requires forall fl :: fl in w.flights && fl.loc == l ==> FlightOk(w, fl)
    ensures LocallySound(w, w', l)
  {
    if w.table[l].Swapped? {
      assert w'.table == w.table;
      ProtectSwappedLocal(w, w', l, prot);
    } else {
      ProtectPresentLocal(w, w', l, prot);
    }
  }

  lemma ProtectSwappedLocal(w: World, w': World, l: Loc, prot: Prot)
    requires Around(w, l) && l in w.vmas && l in w.table && w.table[l].Swapped?
    requires w' == w.(vmas := w.vmas[l := w.vmas[l].(prot := prot)])
    requires forall fl :: fl in w.flights && fl.loc == l ==> FlightOk(w, fl)
    ensures LocallySound(w, w', l)
  {
  }

  lemma ProtectPresentLocal(w: World, w': World, l: Loc, prot: Prot)
    requires Around(w, l) && l in w.vmas && l in w.table && w.table[l].Present?
    requires w' == w.(vmas := w.vmas[l := w.vmas[l].(prot := prot)],
                      table := w.table[l := ProtectedPte(w.table[l], prot)])
    requires Promotes(w, l, prot) ==> forall m :: m in w.table && Maps(w.table[m], w.table[l].frame) ==> m == l
    requires forall m | m in w.table && OwnsFrame(w, m) && Maps(w.table[l], w.table[m].frame) :: m == l
    requires forall fl :: fl in w.flights && fl.loc == l ==> FlightOk(w, fl)
    ensures LocallySound(w, w', l)
  {
  }

  lemma ProtectSound(w: World, w': World, l: Loc, prot: Prot)
    requires Around(w, l) && l in w.vmas && w' == ProtectPageNext(w, l, prot)
    requires Promotes(w, l, prot) ==> forall m :: m in w.table && Maps(w.table[m], w.table[l].frame) ==> m == l
    requires forall m | m in w.table && l in w.table && OwnsFrame(w, m) && Maps(w.table[l], w.table[m].frame) :: m == l
    requires forall fl :: fl in w.flights && fl.loc == l ==> FlightOk(w, fl)
    ensures LocallySound(w, w', l)
  {
    if l in w.table {
      ProtectLocal(w, w', l, prot);
    } else {
      NoEntryLocal(w, w', l);
    }
  }

  lemma ProtectKeepsInv(w: World, l: Loc, prot: Prot)
    requires Inv(w) && Scoped(w, ProtectPage(l, prot))
    ensures Inv(ProtectPageNext(w, l, prot))
  {
    if l in w.vmas {
      var w' := ProtectPageNext(w, l, prot);
      CoreAround(w, l);
      if Promotes(w, l, prot) {
        SoleMapper(w, l);
      }
      ProtectSound(w, w', l, prot);
      EntryChange(w, w', l);
      HandsFewer(w, w');
    }
  }

  // ---------------------------------------------------------------- fork

  lemma MarkCowLocal(w: World, w': World, l: Loc)
    requires Around(w, l) && l in w.table && w.table[l].Present?
    requires forall m | m in w.table && OwnsFrame(w, m) && Maps(w.table[l], w.table[m].frame) :: m == l
    requires forall fl :: fl in w.flights && fl.loc == l ==> FlightOk(w, fl)
    requires OwnsFrame(w, l) ==> forall m | m in w.table && Maps(w.table[m], w.table[l].frame) :: m == l
    requires w' == w.(table := w.table[l := ForkedPte(w.table[l], w.vmas[l].kind.Shared?)])
    ensures LocallySound(w, w', l)
  {
  }

  lemma MarkCowCore(w: World, w': World, l: Loc)
    requires Core(w) && l in w.table && w.table[l].Present?
    requires w' == w.(table := w.table[l := ForkedPte(w.table[l], w.vmas[l].kind.Shared?)])
    ensures Core(w')
  {
    CoreAround(w, l);
    MarkCowLocal(w, w', l);
    EntryChange(w, w', l);
  }

  lemma ShareLocal(w: World, w': World, l: Loc, c: Loc)
    requires Around(w, c) && l in w.table && w.table[l].Present? && KindOk(w, l)
    requires c !in w.table && c !in w.vmas && c.space in w.spaces
    requires !OwnsFrame(w, l)
    requires forall m :: m in w.table && OwnsFrame(w, m) ==> w.table[m].frame != w.table[l].frame
    requires w.table[l].dirty
             || !MeetsStaleFlight(w, c, w.table[l].frame, w.ram[w.table[l].frame], w.vmas[l].kind.Shared?)
    requires w' == w.(vmas := w.vmas[c := w.vmas[l]], table := w.table[c := w.table[l]],
                      count := w.count[w.table[l].frame := w.count[w.table[l].frame] + 1])
    ensures LocallySound(w, w', c)
  {
  }

  lemma ShareCore(w: World, w': World, l: Loc, c: Loc)
    requires Core(w) && l in w.table && w.table[l].Present? && !OwnsFrame(w, l)
    requires c !in w.vmas && c.space in w.spaces
    requires w.table[l].dirty
             || !MeetsStaleFlight(w, c, w.table[l].frame, w.ram[w.table[l].frame], w.vmas[l].kind.Shared?)
    requires w' == w.(vmas := w.vmas[c := w.vmas[l]], table := w.table[c := w.table[l]],
                      count := w.count[w.table[l].frame := w.count[w.table[l].frame] + 1])
    ensures Core(w')
  {
    CoreAround(w, c);
    assert KindOk(w, l);
    assert forall m :: m in w.table && OwnsFrame(w, m) ==> w.table[m].frame != w.table[l].frame;
    ShareLocal(w, w', l, c);
    EntryChange(w, w', c);
  }

  /** `fork` of a page that is present marks it and then shares it. */
  lemma ForkPresentIs(w: World, w1: World, w': World, l: Loc, child: SpaceId)
    requires WellFormed(w) && l in w.table && w.table[l].Present? && child in w.spaces && Loc(child, l.vpn) !in w.vmas
    requires w1 == w.(table := w.table[l := ForkedPte(w.table[l], w.vmas[l].kind.Shared?)])
    requires w' == ForkPageNext(w, l, child, w.vmas[l], true)
    ensures w' == w1.(vmas := w1.vmas[Loc(child, l.vpn) := w1.vmas[l]],
                      table := w1.table[Loc(child, l.vpn) := w1.table[l]],
                      count := w1.count[w1.table[l].frame := w1.count[w1.table[l].frame] + 1])
  {
  }

  lemma ForkPresentCore(w: World, w': World, l: Loc, child: SpaceId)
    requires Core(w) && l in w.table && w.table[l].Present?
    requires child in w.spaces && Loc(child, l.vpn) !in w.vmas
    requires w.table[l].dirty
          || !MeetsStaleFlight(w, Loc(child, l.vpn), w.table[l].frame, w.ram[w.table[l].frame], w.vmas[l].kind.Shared?)
    requires w' == ForkPageNext(w, l, child, w.vmas[l], true)
    ensures Core(w')
  {
    var c := Loc(child, l.vpn);
    var w1 := w.(table := w.table[l := ForkedPte(w.table[l], w.vmas[l].kind.Shared?)]);
    ForkPresentIs(w, w1, w', l, child);
    MarkCowCore(w, w1, l);
    assert KindOk(w, l);
    ShareCore(w1, w', l, c);
  }

  lemma ForkAbsentCore(w: World, w': World, l: Loc, c: Loc)
    requires Core(w) && l in w.vmas && c !in w.vmas && c.space in w.spaces
    requires w' == w.(vmas := w.vmas[c := w.vmas[l]])
    ensures Core(w')
  {
    CoreAround(w, c);
    NoEntryLocal(w, w', c);
    EntryChange(w, w', c);
  }

  lemma ForkKeepsInv(w: World, l: Loc, child: SpaceId, vma: Vma, ok: bool)
    requires Inv(w) && ForkScoped(w, l, child, vma, ok)
    ensures Inv(ForkPageNext(w, l, child, vma, ok))
  {
    var c, w' := Loc(child, l.vpn), ForkPageNext(w, l, child, vma, ok);
    if child in w.spaces && c !in w.vmas {
      if l in w.table && w.table[l].Present? {
        ForkPresentCore(w, w', l, child);
      } else {
        ForkAbsentCore(w, w', l, c);
      }
      HandsFewer(w, w');
    }
  }

  // ---------------------------------------------------------------- eviction

  lemma FlagsLocal(w: World, w': World, l: Loc, e: Pte)
    requires Around(w, l) && l in w.table && w.table[l].Present?
    requires e.Present? && e == w.table[l].(accessed := e.accessed, dirty := e.dirty)
    requires forall m | m in w.table && OwnsFrame(w, m) && Maps(w.table[l], w.table[m].frame) :: m == l
    requires OwnsFrame(w, l) ==> forall m | m in w.table && Maps(w.table[m], w.table[l].frame) :: m == l
    requires w' == w.(table := w.table[l := e], pending := w'.pending)
    requires forall fl :: fl in w.flights && fl.loc == l && Unwritten(e, fl.frame) ==>
               fl.slot in w.swap && w.swap[fl.slot] == w.ram[fl.frame] && !w.vmas[l].kind.Shared?
    ensures LocallySound(w, w', l)
  {
  }

  lemma SecondChanceCore(w: World, w': World, l: Loc)
    requires Core(w) && Evictable(w, l)
    requires w' == w.(table := w.table[l := w.table[l].(accessed := false)])
    ensures Core(w')
  {
    CoreAround(w, l);
    forall fl | fl in w.flights && fl.loc == l && Unwritten(w'.table[l], fl.frame)
      ensures fl.slot in w.swap && w.swap[fl.slot] == w.ram[fl.frame]
    {
      assert FlightOk(w, fl);
    }
    FlagsLocal(w, w', l, w'.table[l]);
    EntryChange(w, w', l);
  }

  /** A page that nobody else holds a reference to is private. */
  lemma SoleIsPrivate(w: World, l: Loc)
    requires Core(w) && Evictable(w, l)
    ensures !w.vmas[l].kind.Shared?
  {
    assert KindOk(w, l);
    SoleMapper(w, l);
  }

  lemma CleanCore(w: World, w': World, l: Loc)
    requires Core(w) && Evictable(w, l) && !StaleCopy(w, l, w.ram[w.table[l].frame])
    requires w' == w.(table := w.table[l := w.table[l].(dirty := false)], pending := w'.pending)
    ensures Core(w')
  {
    CoreAround(w, l);
    SoleIsPrivate(w, l);
    FlagsLocal(w, w', l, w'.table[l]);
    EntryChange(w, w', l);
  }

  lemma StageKeepsInv(w: World, t: Tid, l: Loc, force: bool)
    requires Inv(w) && Scoped(w, EvictStage(t, l, force))
    ensures Inv(EvictStageNext(w, t, l, force))
  {
    var w' := EvictStageNext(w, t, l, force);
    if t !in w.pending.preps && Evictable(w, l) {
      if !force && w.table[l].accessed {
        SecondChanceCore(w, w', l);
      } else {
        CleanCore(w, w', l);
      }
    }
    HandsFewer(w, w');
  }

  lemma TakeOffCore(w: World, w': World, fl: Flight, c: Page)
    requires Core(w) && fl.slot !in w.swap
    requires fl.frame in w.ram ==> c == w.ram[fl.frame]
    requires fl.loc in w.table && Unwritten(w.table[fl.loc], fl.frame) ==> !w.vmas[fl.loc].kind.Shared?
    requires w' == w.(swap := w.swap[fl.slot := c], flights := w.flights + {fl}, pending := w'.pending)
    ensures Core(w')
  {
    TakeOffSlots(w, w', fl, c);
    TakeOffRest(w, w', fl, c);
  }

  lemma TakeOffSlots(w: World, w': World, fl: Flight, c: Page)
    requires WellFormed(w) && SlotsOwned(w) && fl.slot !in w.swap
    requires w' == w.(swap := w.swap[fl.slot := c], flights := w.flights + {fl}, pending := w'.pending)
    ensures SlotsOwned(w')
  {
    forall slot | slot in w'.swap ensures InTable(w'.table, slot) || InFlight(w'.flights, slot) {
      if slot == fl.slot {
        assert fl in w'.flights;
      } else if !InTable(w.table, slot) {
        var gl :| gl in w.flights && gl.slot == slot;
        assert gl in w'.flights;
      }
    }
    forall l | l in w.table && w.table[l].Swapped? ensures w.table[l].slot in w.swap {
      assert Backed(w, w.table[l]);
    }
  }

  lemma TakeOffRest(w: World, w': World, fl: Flight, c: Page)
    requires WellFormed(w) && Counted(w) && Kinds(w) && Exclusive(w) && FlightsCurrent(w) && fl.slot !in w.swap
    requires (fl.frame in w.ram ==> c == w.ram[fl.frame])
    requires fl.loc in w.table && Unwritten(w.table[fl.loc], fl.frame) ==> !w.vmas[fl.loc].kind.Shared?
    requires w' == w.(swap := w.swap[fl.slot := c], flights := w.flights + {fl}, pending := w'.pending)
    ensures WellFormed(w') && Counted(w') && Kinds(w') && Exclusive(w') && FlightsCurrent(w')
  {
    forall m | m in w'.table ensures KindOk(w', m) && Backed(w', w'.table[m]) {
      assert KindOk(w, m) && Backed(w, w.table[m]);
    }
    forall gl | gl in w'.flights ensures FlightOk(w', gl) {
      if gl != fl {
        assert FlightOk(w, gl);
      } else if fl.loc in w.table && Unwritten(w.table[fl.loc], fl.frame) {
        assert Backed(w, w.table[fl.loc]);
      }
    }
  }

  lemma WriteKeepsInv(w: World, t: Tid, slot: Option<Slot>, other: Page)
    requires Inv(w) && WriteScoped(w, t, slot)
    ensures Inv(EvictWriteNext(w, t, slot, other))
  {
    var w' := EvictWriteNext(w, t, slot, other);
    if t in w.pending.preps && slot.Some? && slot.value !in w.swap {
      var p := w.pending.preps[t];
      var c := if p.frame in w.ram then w.ram[p.frame] else other;
      TakeOffCore(w, w', Flight(p.loc, p.frame, slot.value), c);
    } else {
      SameTables(w, w');
    }
    HandsFewer(w, w');
  }

  lemma CommitLocal(w: World, w': World, fl: Flight)
    requires Around(w, fl.loc) && fl in w.flights && FlightOk(w, fl)
    requires fl.loc in w.table && Unwritten(w.table[fl.loc], fl.frame)
    requires w.count[fl.frame] == 1 ==> forall m :: m in w.table && Maps(w.table[m], fl.frame) ==> m == fl.loc
    requires w' == Put(w.(flights := w.flights - {fl}, table := w.table[fl.loc := Swapped(fl.slot)]), fl.frame)
    ensures LocallySound(w, w', fl.loc)
  {
    assert Given(w, w', fl.loc) == {fl.slot};
    assert SlotOf(w', fl.loc) == {fl.slot};
  }

  lemma AbortLocal(w: World, w': World, fl: Flight)
    requires Around(w, fl.loc) && fl in w.flights
    requires forall gl :: gl in w.flights && gl.slot == fl.slot ==> gl == fl
    requires forall gl :: gl in w.flights && gl.loc == fl.loc ==> FlightOk(w, gl)
    requires forall m | && m in w.table && fl.loc in w.table && OwnsFrame(w, m)
                        && Maps(w.table[fl.loc], w.table[m].frame) :: m == fl.loc
    requires fl.loc in w.table && OwnsFrame(w, fl.loc) ==>
               forall m | m in w.table && Maps(w.table[m], w.table[fl.loc].frame) :: m == fl.loc
    requires w' == w.(flights := w.flights - {fl}, swap := w.swap - {fl.slot})
    ensures LocallySound(w, w', fl.loc)
  {
    assert Given(w, w', fl.loc) == SlotOf(w, fl.loc) + {fl.slot};
    assert SlotOf(w', fl.loc) == SlotOf(w, fl.loc);
  }

  lemma CommitKeepsInv(w: World, fl: Flight, charged: bool)
    requires Inv(w)
    ensures Inv(EvictCommitNext(w, fl, charged))
  {
    var w' := EvictCommitNext(w, fl, charged);
    if fl in w.flights {
      CoreAround(w, fl.loc);
      assert FlightOk(w, fl);
      if charged && fl.loc in w.table && Unwritten(w.table[fl.loc], fl.frame) {
        if w.count[fl.frame] == 1 {
          SoleMapper(w, fl.loc);
        }
        CommitLocal(w, w', fl);
      } else {
        AbortLocal(w, w', fl);
      }
      EntryChange(w, w', fl.loc);
    }
    HandsFewer(w, w');
  }

  // ---------------------------------------------------------------- mapping, releasing, dropping

  lemma MapKeepsInv(w: World, l: Loc, v: Vma)
    requires Inv(w)
    ensures Inv(Next(w, MapPage(l, v)))
  {
    if l.space in w.spaces && l !in w.vmas {
      CoreAround(w, l);
      NoEntryLocal(w, Next(w, MapPage(l, v)), l);
      EntryChange(w, Next(w, MapPage(l, v)), l);
    }
    HandsFewer(w, Next(w, MapPage(l, v)));
  }

  lemma NewSpaceKeepsInv(w: World, s: SpaceId)
    requires Inv(w)
    ensures Inv(Next(w, NewSpace(s)))
  {
    var w' := Next(w, NewSpace(s));
    forall m | m in w'.table ensures KindOk(w', m) {
      assert KindOk(w, m);
    }
    forall fl | fl in w'.flights ensures FlightOk(w', fl) {
      assert FlightOk(w, fl);
    }
    HandsFewer(w, w');
  }

  lemma ReleaseKeepsInv(w: World, s: SpaceId)
    requires Inv(w) && NoEntries(w.table, s) && !Busy(w, s)
    ensures Inv(Next(w, ReleaseSpace(s)))
  {
    var w' := Next(w, ReleaseSpace(s));
    assert w'.table == w.table;
    assert w' == w.(spaces := w'.spaces, vmas := w'.vmas);
    ReleaseRest(w, w', s);
    HandsFewer(w, w');
  }

  lemma ReleaseRest(w: World, w': World, s: SpaceId)
    requires WellFormed(w) && Kinds(w) && Exclusive(w) && FlightsCurrent(w) && NoEntries(w.table, s)
    requires w' == w.(spaces := w.spaces - {s}, vmas := Without(w.vmas, s)) && !Busy(w, s)
    ensures WellFormed(w') && Kinds(w') && Exclusive(w') && FlightsCurrent(w')
  {
    forall m | m in w'.table ensures KindOk(w', m) && m in w'.vmas {
      assert KindOk(w, m);
    }
    forall fl | fl in w'.flights ensures FlightOk(w', fl) {
      assert FlightOk(w, fl);
    }
  }

  lemma DropKeyKeepsInv(w: World, k: Key)
    requires Inv(w)
    ensures Inv(Next(w, DropKey(k)))
  {
    if k in w.objects && !ObjectHeld(w, k.obj) {
      DroppedUnmapped(w, k);
      DropCounted(w, k);
      DropRest(w, Next(w, DropKey(k)), k);
    }
    HandsFewer(w, Next(w, DropKey(k)));
  }

  /** A page of an object that no region holds is mapped nowhere. */
  lemma DroppedUnmapped(w: World, k: Key)
    requires WellFormed(w) && Counted(w) && Kinds(w) && k in w.objects && !ObjectHeld(w, k.obj)
    ensures forall m :: m in w.table ==> !Maps(w.table[m], w.objects[k])
    ensures w.count[w.objects[k]] == 1
  {
    var f := w.objects[k];
    forall m | m in w.table ensures !Maps(w.table[m], f) {
      assert KindOk(w, m) && !HoldsObject(w.vmas[m], k.obj);
    }
    assert PteRefs(w.table, f) == {};
    assert ObjRefs(w.objects, f) == {k};
    assert CountOf(w.count, f) == 1;
  }

  lemma DropCounted(w: World, k: Key)
    requires WellFormed(w) && Counted(w) && k in w.objects && w.count[w.objects[k]] == 1
    ensures Counted(Put(w.(objects := w.objects - {k}), w.objects[k]))
  {
    var w' := Put(w.(objects := w.objects - {k}), w.objects[k]);
    forall g
      ensures CountOf(w'.count, g) == |PteRefs(w'.table, g)| + |ObjRefs(w'.objects, g)|
    {
      ObjRefsUnset(w.objects, k, g);
    }
  }

  lemma DropRest(w: World, w': World, k: Key)
    requires WellFormed(w) && SlotsOwned(w) && Kinds(w) && Exclusive(w) && FlightsCurrent(w)
    requires k in w.objects && !ObjectHeld(w, k.obj) && w.count[w.objects[k]] == 1
    requires forall m :: m in w.table ==> !Maps(w.table[m], w.objects[k])
    requires w' == Put(w.(objects := w.objects - {k}), w.objects[k])
    ensures WellFormed(w') && SlotsOwned(w') && Kinds(w') && Exclusive(w') && FlightsCurrent(w')
  {
    forall m | m in w'.table ensures KindOk(w', m) && Backed(w', w'.table[m]) {
      assert KindOk(w, m) && Backed(w, w.table[m]) && !HoldsObject(w.vmas[m], k.obj);
    }
    forall fl | fl in w'.flights ensures FlightOk(w', fl) {
      assert FlightOk(w, fl);
    }
  }

  lemma NextKeepsInv(w: World, st: Step)
    requires Inv(w) && Scoped(w, st)
    ensures Inv(Next(w, st))
  {
    match st
    case NewSpace(s) => NewSpaceKeepsInv(w, s);
    case MapPage(l, v) => MapKeepsInv(w, l, v);
    case Fault(t, l, write, sup) => FaultKeepsInv(w, t, l, write, sup);
    case Load(t, sup) => LoadKeepsInv(w, t, sup);
    case Settle(t, mapOk) => SettleKeepsInv(w, t, mapOk);
    case Join(t, sup) => JoinKeepsInv(w, t, sup);
    case Store(l, off, b) => StoreKeepsInv(w, l, off, b);
    case KernelCopy(l, off, data) => KernelCopyKeepsInv(w, l, off, data);
    case UnmapPage(l) => UnmapKeepsInv(w, l);
    case ProtectPage(l, prot) => ProtectKeepsInv(w, l, prot);
    case ForkPage(l, child, vma, ok) => ForkKeepsInv(w, l, child, vma, ok);
    case EvictStage(t, l, force) => StageKeepsInv(w, t, l, force);
    case EvictWrite(t, slot, other) => WriteKeepsInv(w, t, slot, other);
    case EvictCommit(fl, charged) => CommitKeepsInv(w, fl, charged);
    case ReleaseSpace(s) => if !Busy(w, s) { ReleaseKeepsInv(w, s); }
    case DropKey(k) => DropKeyKeepsInv(w, k);
  }
}
