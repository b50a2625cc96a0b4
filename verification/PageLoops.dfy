/** The loops over pages of `mm/aspace.rs` as functions: what they come to as runs of
    the steps of `UserMemory`, and what programs see of them. */
module PageLoops {
  import opened UserMemory
  import opened UserMemoryProofs
  import opened UserMemoryRefinement
  import opened UserMemoryExact
  import opened UserMemoryRuns
  import opened UserMemoryFaults

  ghost function UnmapPages(w: World, s: SpaceId, lo: nat, hi: nat): (w': World)
    requires Inv(w)
    ensures Inv(w')
    decreases hi - lo
  {
    if lo >= hi then w
    else (UnmapKeepsInv(w, Loc(s, lo)); UnmapPages(UnmapPageNext(w, Loc(s, lo)), s, lo + 1, hi))
  }

  /** The loop is a run of `UnmapPage` steps, so runs may contain it. */
  function UnmapSteps(s: SpaceId, lo: nat, hi: nat): seq<Step>
    decreases hi - lo
  {
    if lo >= hi then [] else [UnmapPage(Loc(s, lo))] + UnmapSteps(s, lo + 1, hi)
  }

  lemma {:induction false} UnmapIsRun(w: World, s: SpaceId, lo: nat, hi: nat)
    requires Inv(w)
    ensures RunScoped(w, UnmapSteps(s, lo, hi)) && Run(w, UnmapSteps(s, lo, hi)) == UnmapPages(w, s, lo, hi)
    decreases hi - lo
  {
    if lo < hi {
      var st := UnmapPage(Loc(s, lo));
      UnmapKeepsInv(w, Loc(s, lo));
      UnmapIsRun(Next(w, st), s, lo + 1, hi);
      assert ([st] + UnmapSteps(s, lo + 1, hi))[1..] == UnmapSteps(s, lo + 1, hi);
    }
  }

  ghost predicate InRange(l: Loc, s: SpaceId, lo: nat, hi: nat)
  {
    l.space == s && lo <= l.vpn < hi
  }

  /** Unmapping removes exactly the entries and region pages of its range. */
  lemma {:induction false} UnmapPagesExact(w: World, s: SpaceId, lo: nat, hi: nat, l: Loc)
    requires Inv(w)
    ensures var w' := UnmapPages(w, s, lo, hi);
            && (l in w'.vmas <==> l in w.vmas && !InRange(l, s, lo, hi))
            && (l in w'.table <==> l in w.table && !InRange(l, s, lo, hi))
            && w'.flights == w.flights && w'.spaces == w.spaces && w'.pending == w.pending
    decreases hi - lo
  {
    if lo < hi {
      UnmapKeepsInv(w, Loc(s, lo));
      UnmapPageExact(w, UnmapPageNext(w, Loc(s, lo)), Loc(s, lo));
      UnmapPagesExact(UnmapPageNext(w, Loc(s, lo)), s, lo + 1, hi, l);
    }
  }

  function ProtectPages(w: World, s: SpaceId, lo: nat, hi: nat, prot: Prot): World
    decreases hi - lo
  {
    if lo >= hi then w else ProtectPages(ProtectPageNext(w, Loc(s, lo), prot), s, lo + 1, hi, prot)
  }

  function ProtectSteps(s: SpaceId, lo: nat, hi: nat, prot: Prot): seq<Step>
    decreases hi - lo
  {
    if lo >= hi then [] else [ProtectPage(Loc(s, lo), prot)] + ProtectSteps(s, lo + 1, hi, prot)
  }

  /** Page `l` after `protect` of some range, `hit` when it is in it. */
  predicate ProtectedAt(w: World, w': World, prot: Prot, l: Loc, hit: bool)
  {
    && (l in w'.vmas <==> l in w.vmas) && (l in w'.table <==> l in w.table)
    && (l in w.vmas ==> w'.vmas[l] == if hit then w.vmas[l].(prot := prot) else w.vmas[l])
    && (l in w.table ==> w'.table[l] == if hit && l in w.vmas then ProtectedPte(w.table[l], prot) else w.table[l])
  }

  lemma ProtectPageExact(w: World, w': World, m: Loc, prot: Prot, l: Loc)
    requires w' == ProtectPageNext(w, m, prot)
    ensures ProtectedAt(w, w', prot, l, l == m) && w' == w.(vmas := w'.vmas, table := w'.table)
  {
    if m in w.vmas {
      var vmas := w.vmas[m := w.vmas[m].(prot := prot)];
      var table := if m in w.table then w.table[m := ProtectedPte(w.table[m], prot)] else w.table;
      assert w' == w.(vmas := vmas, table := table);
      assert w'.vmas == vmas && w'.table == table;
    }
  }

  lemma ProtectedBoth(w: World, w1: World, w': World, prot: Prot, l: Loc, a: bool, b: bool)
    requires ProtectedAt(w, w1, prot, l, a) && ProtectedAt(w1, w', prot, l, b) && !(a && b)
    ensures ProtectedAt(w, w', prot, l, a || b)
  {
  }

  /** After the loop exactly the pages of the range that a region covers have the new
      protection, a copy-on-write entry staying read-only, and nothing else has changed. */
  lemma {:induction false} ProtectPagesExact(w: World, s: SpaceId, lo: nat, hi: nat, prot: Prot, l: Loc)
    ensures var w' := ProtectPages(w, s, lo, hi, prot);
            ProtectedAt(w, w', prot, l, InRange(l, s, lo, hi)) && w' == w.(vmas := w'.vmas, table := w'.table)
    decreases hi - lo
  {
    if lo < hi {
      var w1 := ProtectPageNext(w, Loc(s, lo), prot);
      ProtectPageExact(w, w1, Loc(s, lo), prot, l);
      ProtectPagesExact(w1, s, lo + 1, hi, prot, l);
      ProtectedBoth(w, w1, ProtectPages(w, s, lo, hi, prot), prot, l, l == Loc(s, lo), InRange(l, s, lo + 1, hi));
    }
  }

  /** Where the loop is in scope: it makes no private page writable whose frame has
      another reference. */
  ghost predicate ProtectSafe(w: World, s: SpaceId, lo: nat, hi: nat, prot: Prot)
    requires WellFormed(w)
  {
    forall va :: lo <= va < hi && Promotes(w, Loc(s, va), prot) ==> w.count[w.table[Loc(s, va)].frame] == 1
  }

  lemma SafeAfter(w: World, w': World, s: SpaceId, lo: nat, hi: nat, prot: Prot)
    requires WellFormed(w) && WellFormed(w') && lo < hi && w' == ProtectPageNext(w, Loc(s, lo), prot)
    ensures ProtectSafe(w, s, lo, hi, prot) <==>
              Scoped(w, ProtectPage(Loc(s, lo), prot)) && ProtectSafe(w', s, lo + 1, hi, prot)
  {
    forall va | lo < va < hi
      ensures Promotes(w', Loc(s, va), prot) == Promotes(w, Loc(s, va), prot)
      ensures Promotes(w, Loc(s, va), prot) ==> w'.table[Loc(s, va)] == w.table[Loc(s, va)] && w'.count == w.count
    {
      ProtectPageExact(w, w', Loc(s, lo), prot, Loc(s, va));
    }
  }

  /** The page loop of `protect` is a run of steps, in scope exactly when it is safe. */
  lemma {:induction false} ProtectIsRun(w: World, s: SpaceId, lo: nat, hi: nat, prot: Prot)
    requires Inv(w)
    ensures RunScoped(w, ProtectSteps(s, lo, hi, prot)) <==> ProtectSafe(w, s, lo, hi, prot)
    ensures ProtectSafe(w, s, lo, hi, prot) ==>
              && Run(w, ProtectSteps(s, lo, hi, prot)) == ProtectPages(w, s, lo, hi, prot)
              && Inv(ProtectPages(w, s, lo, hi, prot))
    decreases hi - lo
  {
    if lo < hi {
      var st, rest := ProtectPage(Loc(s, lo), prot), ProtectSteps(s, lo + 1, hi, prot);
      assert ProtectSteps(s, lo, hi, prot)[0] == st && ProtectSteps(s, lo, hi, prot)[1..] == rest;
      StepExact(w, st);
      if Scoped(w, st) {
        SafeAfter(w, Next(w, st), s, lo, hi, prot);
        ProtectIsRun(Next(w, st), s, lo + 1, hi, prot);
      }
    }
  }

  /** What the devices answer while one page is forked. */
  datatype Answer = Answer(supply: Supply, mapOk: bool)

  /** What keeps the page loop of `fork` going, in scope or not. */
  ghost predicate Formed(w: World, t: Tid)
  {
    WellFormed(w) && SlotsOwned(w) && t !in w.pending.fetches
  }

  /** A fault on a swapped page by a thread that is not kept waiting. */
  function SwappedIn(w: World, t: Tid, l: Loc, sup: Supply): World
    requires WellFormed(w)
  {
    if l in w.table && w.table[l].Swapped? then
      SettleNext(LoadNext(FaultNext(w, t, l, false, sup), t, sup), t, sup.mapOk)
    else w
  }

  lemma SwappedInFormed(w: World, t: Tid, l: Loc, sup: Supply)
    requires Formed(w, t)
    ensures Formed(SwappedIn(w, t, l, sup), t)
  {
    var w' := SwappedIn(w, t, l, sup);
    if l in w.table && w.table[l].Swapped? {
      var w1 := FaultNext(w, t, l, false, sup);
      assert w1 == WithFetch(w, t, Fetch(l, w.vmas[l], Some(w.table[l].slot), None));
      if Available(w1, sup) && sup.readOk {
        ReadInFormed(w, w1, w', t, l, sup);
      } else {
        assert LoadNext(w1, t, sup) == WithoutFetch(w1, t);
        assert w' == w.(pending := w'.pending);
      }
    }
  }

  lemma ReadInFormed(w: World, w1: World, w': World, t: Tid, l: Loc, sup: Supply)
    requires Formed(w, t) && l in w.table && w.table[l].Swapped? && sup.readOk && Available(w1, sup)
    requires w1 == WithFetch(w, t, Fetch(l, w.vmas[l], Some(w.table[l].slot), None))
    requires w' == SettleNext(LoadNext(w1, t, sup), t, sup.mapOk)
    ensures Formed(w', t)
  {
    var slot, f := w.table[l].slot, sup.frame.value;
    ReadInIs(w, w1, w', t, l, slot, f, sup);
    if sup.mapOk {
      FreshFormed(w, w', l, f, slot);
    } else {
      AllocFormed(w, w');
    }
  }

  lemma ReadInIs(w: World, w1: World, w': World, t: Tid, l: Loc, slot: Slot, f: Frame, sup: Supply)
    requires WellFormed(w) && t !in w.pending.fetches && l in w.table && w.table[l] == Swapped(slot)
    requires sup.readOk && Available(w1, sup) && f == sup.frame.value
    requires w1 == WithFetch(w, t, Fetch(l, w.vmas[l], Some(slot), None))
    requires w' == SettleNext(LoadNext(w1, t, sup), t, sup.mapOk)
    ensures f !in w.ram && slot in w.swap && t !in w'.pending.fetches
    ensures w' == (if !sup.mapOk then w
                   else w.(swap := w.swap - {slot}, table := w.table[l := FreshPte(f, w.vmas[l].prot.write)]))
                  .(count := w.count[f := 1], ram := w.ram[f := w.swap[slot]], pending := w'.pending)
  {
    assert Backed(w, w.table[l]) && InTable(w1.table, slot);
    var fetch := Fetch(l, w.vmas[l], Some(slot), Some(Hand(f, w.swap[slot])));
    var w2 := LoadNext(w1, t, sup);
    assert w2.pending.fetches[t] == fetch && w2 == w.(pending := w2.pending);
  }

  lemma AllocFormed(w: World, w': World)
    requires WellFormed(w) && SlotsOwned(w) && w' == w.(ram := w'.ram, count := w'.count, pending := w'.pending)
    requires w'.count.Keys == w'.ram.Keys && w.ram.Keys <= w'.ram.Keys
    ensures WellFormed(w') && SlotsOwned(w')
  {
    forall m | m in w'.table ensures Backed(w', w'.table[m]) {
      assert Backed(w, w.table[m]);
    }
  }

  lemma FreshFormed(w: World, w': World, l: Loc, f: Frame, slot: Slot)
    requires WellFormed(w) && SlotsOwned(w) && l in w.table && w.table[l] == Swapped(slot)
    requires f in w'.ram && l in w'.table && Maps(w'.table[l], f)
    requires w' == w.(count := w.count[f := 1], ram := w.ram[f := w'.ram[f]], swap := w.swap - {slot},
                      table := w.table[l := w'.table[l]], pending := w'.pending)
    ensures WellFormed(w') && SlotsOwned(w')
  {
    assert WellFormed(w') by {
      forall m | m in w'.table ensures Backed(w', w'.table[m]) {
        assert m != l ==> Backed(w, w.table[m]);
      }
    }
    FreshSlots(w, w', l, slot);
  }

  lemma FreshSlots(w: World, w': World, l: Loc, slot: Slot)
    requires SlotsOwned(w) && l in w.table && w.table[l] == Swapped(slot) && l in w'.table && w'.table[l].Present?
    requires w'.table == w.table[l := w'.table[l]] && w'.swap == w.swap - {slot} && w'.flights == w.flights
    ensures SlotsOwned(w')
  {
    forall x | x in w'.swap ensures InTable(w'.table, x) || InFlight(w'.flights, x) {
      if InTable(w.table, x) {
        var m :| m in w.table && w.table[m] == Swapped(x);
        assert m in w'.table && w'.table[m] == Swapped(x);
      }
    }
  }

  lemma SlotsFollow(w: World, w': World)
    requires SlotsOwned(w) && w'.swap == w.swap && w'.flights == w.flights
    requires forall m :: m in w'.table && w'.table[m].Swapped? ==> m in w.table && w.table[m] == w'.table[m]
    requires forall m :: m in w.table && w.table[m].Swapped? ==> m in w'.table && w.table[m] == w'.table[m]
    ensures SlotsOwned(w')
  {
    forall x | x in w'.swap ensures InTable(w'.table, x) || InFlight(w'.flights, x) {
      if InTable(w.table, x) {
        var m :| m in w.table && w.table[m] == Swapped(x);
        assert m in w'.table && w'.table[m] == Swapped(x);
      }
    }
  }

  lemma ForkFormed(w: World, w': World, t: Tid, l: Loc, child: SpaceId, vma: Vma, ok: bool)
    requires Formed(w, t) && w' == ForkPageNext(w, l, child, vma, ok)
    ensures Formed(w', t)
  {
    ForkFields(w, w', l, Loc(child, l.vpn), vma, ok);
    SlotsFollow(w, w');
    ForkWellFormed(w, w', l, child, vma, ok);
  }

  lemma ForkWellFormed(w: World, w': World, l: Loc, child: SpaceId, vma: Vma, ok: bool)
    requires WellFormed(w) && w' == ForkPageNext(w, l, child, vma, ok)
    ensures WellFormed(w')
  {
    ForkFields(w, w', l, Loc(child, l.vpn), vma, ok);
    forall m | m in w'.table ensures Backed(w', w'.table[m]) {
      if m in w.table { assert Backed(w, w.table[m]); }
      if l in w.table { assert Backed(w, w.table[l]); }
    }
  }

  /** The entries after sharing page `l` with page `c`. */
  ghost predicate SharedTable(t: map<Loc, Pte>, t': map<Loc, Pte>, l: Loc, c: Loc)
  {
    && (forall m :: m in t ==> m in t' && if t[m].Present? then Maps(t'[m], t[m].frame) else t'[m] == t[m])
    && (forall m :: m in t' && m !in t ==> m == c && l in t && t[l].Present? && Maps(t'[m], t[l].frame))
  }

  lemma TableShared(t: map<Loc, Pte>, t': map<Loc, Pte>, l: Loc, c: Loc, e: Pte, ok: bool)
    requires l in t && t[l].Present? && Maps(e, t[l].frame) && c !in t
    requires t' == if ok then t[l := e][c := e] else t[l := e]
    ensures SharedTable(t, t', l, c)
  {
  }

  lemma ForkFields(w: World, w': World, l: Loc, c: Loc, vma: Vma, ok: bool)
    requires WellFormed(w) && w' == ForkPageNext(w, l, c.space, vma, ok) && c == Loc(c.space, l.vpn)
    ensures w' == w.(vmas := w'.vmas, table := w'.table, count := w'.count) && w'.count.Keys == w.count.Keys
    ensures (w'.vmas == w.vmas && w'.table == w.table) || (c.space in w.spaces && w'.vmas == w.vmas[c := vma])
    ensures SharedTable(w.table, w'.table, l, c)
  {
    if c.space !in w.spaces || c in w.vmas || c in w.table {
      assert w' == w;
    } else if l in w.table && w.table[l].Present? {
      var e := ForkedPte(w.table[l], vma.kind.Shared?);
      TableShared(w.table, w'.table, l, c, e, ok);
    } else {
      assert w'.table == w.table;
    }
  }

  /** One iteration of `fork`'s page loop. */
  function Forked(w: World, t: Tid, l: Loc, child: SpaceId, a: Answer): World
    requires WellFormed(w) && WellFormed(SwappedIn(w, t, l, a.supply))
  {
    var w1 := SwappedIn(w, t, l, a.supply);
    if l in w1.vmas then ForkPageNext(w1, l, child, w1.vmas[l], a.mapOk) else w1
  }

  lemma ForkedFormed(w: World, t: Tid, l: Loc, child: SpaceId, a: Answer)
    requires Formed(w, t)
    ensures WellFormed(SwappedIn(w, t, l, a.supply)) && Formed(Forked(w, t, l, child, a), t)
  {
    SwappedInFormed(w, t, l, a.supply);
    var w1 := SwappedIn(w, t, l, a.supply);
    if l in w1.vmas {
      ForkFormed(w1, ForkPageNext(w1, l, child, w1.vmas[l], a.mapOk), t, l, child, w1.vmas[l], a.mapOk);
    }
  }

  /** The child's `map_4k` fails for a page that is there. */
  predicate ForkStops(w: World, t: Tid, l: Loc, a: Answer)
    requires WellFormed(w)
  {
    var w1 := SwappedIn(w, t, l, a.supply);
    !a.mapOk && l in w1.table && w1.table[l].Present?
  }

  /** `fork`'s page loop: the world it ends in, and whether it got to the end. */
  ghost function ForkPages(w: World, t: Tid, s: SpaceId, child: SpaceId, va: nat, answers: seq<Answer>): (World, bool)
    requires Formed(w, t)
    decreases |answers|
  {
    if answers == [] then (w, true)
    else
      ForkedFormed(w, t, Loc(s, va), child, answers[0]);
      var w' := Forked(w, t, Loc(s, va), child, answers[0]);
      if ForkStops(w, t, Loc(s, va), answers[0]) then (w', false)
      else ForkPages(w', t, s, child, va + 1, answers[1..])
  }

  lemma ForkPagesNext(w: World, t: Tid, s: SpaceId, child: SpaceId, va: nat, answers: seq<Answer>)
    requires Formed(w, t) && answers != []
    ensures WellFormed(SwappedIn(w, t, Loc(s, va), answers[0].supply))
    ensures Formed(Forked(w, t, Loc(s, va), child, answers[0]), t)
    ensures ForkPages(w, t, s, child, va, answers)
         == if ForkStops(w, t, Loc(s, va), answers[0]) then (Forked(w, t, Loc(s, va), child, answers[0]), false)
            else ForkPages(Forked(w, t, Loc(s, va), child, answers[0]), t, s, child, va + 1, answers[1..])
  {
    ForkedFormed(w, t, Loc(s, va), child, answers[0]);
  }

  /** The steps of one iteration. */
  function PageSteps(w: World, t: Tid, l: Loc, child: SpaceId, a: Answer): seq<Step>
    requires WellFormed(w)
  {
    SwapInSteps(w, t, l, a.supply)
    + (if l in w.vmas then [ForkPage(l, child, w.vmas[l], a.mapOk)] else [])
  }

  /** The whole loop as a run, up to where it stops. */
  ghost function ForkRun(w: World, t: Tid, s: SpaceId, child: SpaceId, va: nat, answers: seq<Answer>): seq<Step>
    requires Formed(w, t)
    decreases |answers|
  {
    if answers == [] then []
    else
      ForkedFormed(w, t, Loc(s, va), child, answers[0]);
      PageSteps(w, t, Loc(s, va), child, answers[0]) +
      if ForkStops(w, t, Loc(s, va), answers[0]) then []
      else ForkRun(Forked(w, t, Loc(s, va), child, answers[0]), t, s, child, va + 1, answers[1..])
  }

  lemma {:induction false} RunConcat(w: World, a: seq<Step>, b: seq<Step>)
    requires Inv(w)
    ensures RunScoped(w, a + b) <==> RunScoped(w, a) && RunScoped(Run(w, a), b)
    ensures RunScoped(w, a + b) ==> Run(w, a + b) == Run(Run(w, a), b)
    decreases |a|
  {
    if a == [] {
      assert a + b == b;
    } else {
      assert (a + b)[0] == a[0] && (a + b)[1..] == a[1..] + b;
      StepExact(w, a[0]);
      if Scoped(w, a[0]) {
        RunConcat(Next(w, a[0]), a[1..], b);
      }
    }
  }

  lemma RunOne(w: World, st: Step)
    requires Inv(w)
    ensures RunScoped(w, [st]) <==> Scoped(w, st)
    ensures RunScoped(w, [st]) ==> Run(w, [st]) == Next(w, st)
  {
    assert [st][1..] == [];
    StepExact(w, st);
    if Scoped(w, st) {
      assert RunScoped(Next(w, st), []);
    }
  }

  lemma RunThree(w: World, a: Step, b: Step, c: Step)
    requires Inv(w) && RunScoped(w, [a, b, c])
    ensures Scoped(w, a) && Inv(Next(w, a)) && Scoped(Next(w, a), b) && Inv(Next(Next(w, a), b))
    ensures Scoped(Next(Next(w, a), b), c)
    ensures Run(w, [a, b, c]) == Next(Next(Next(w, a), b), c)
  {
    assert [a, b, c] == [a] + [b, c] && [b, c] == [b] + [c];
    RunConcat(w, [a], [b, c]);
    RunOne(w, a);
    StepExact(w, a);
    RunConcat(Next(w, a), [b], [c]);
    RunOne(Next(w, a), b);
    StepExact(Next(w, a), b);
    RunOne(Next(Next(w, a), b), c);
  }

  function SwapInSteps(w: World, t: Tid, l: Loc, sup: Supply): seq<Step>
  {
    if l in w.table && w.table[l].Swapped? then [Fault(t, l, false, sup), Load(t, sup), Settle(t, sup.mapOk)] else []
  }

  lemma SwapInIsRun(w: World, t: Tid, l: Loc, sup: Supply)
    requires Inv(w) && RunScoped(w, SwapInSteps(w, t, l, sup))
    ensures Run(w, SwapInSteps(w, t, l, sup)) == SwappedIn(w, t, l, sup)
    ensures Inv(SwappedIn(w, t, l, sup)) && View(SwappedIn(w, t, l, sup)) == View(w)
  {
    if l in w.table && w.table[l].Swapped? {
      var a, b, c := Fault(t, l, false, sup), Load(t, sup), Settle(t, sup.mapOk);
      RunThree(w, a, b, c);
      StepExact(w, a);
      StepExact(Next(w, a), b);
      StepExact(Next(Next(w, a), b), c);
    }
  }

  lemma SettleKeepsRegions(w: World, t: Tid, mapOk: bool)
    ensures SettleNext(w, t, mapOk).vmas == w.vmas && SettleNext(w, t, mapOk).spaces == w.spaces
  {
    var w' := SettleNext(w, t, mapOk);
    assert w' == World(w.spaces, w.vmas, w'.table, w'.ram, w'.count, w.objects, w'.swap, w.flights, w'.pending);
  }

  lemma SameRegions(w: World, t: Tid, l: Loc, sup: Supply)
    requires WellFormed(w)
    ensures SwappedIn(w, t, l, sup).vmas == w.vmas && SwappedIn(w, t, l, sup).spaces == w.spaces
  {
    if l in w.table && w.table[l].Swapped? {
      var w1 := FaultNext(w, t, l, false, sup);
      assert w1 == w.(pending := w1.pending);
      var w2 := LoadNext(w1, t, sup);
      LoadFields(w1, w2, t, sup);
      SettleKeepsRegions(w2, t, sup.mapOk);
    }
  }

  lemma PageRuns(w: World, t: Tid, l: Loc, child: SpaceId, a: Answer)
    requires Inv(w) && RunScoped(w, PageSteps(w, t, l, child, a))
    ensures Inv(SwappedIn(w, t, l, a.supply)) && View(SwappedIn(w, t, l, a.supply)) == View(w)
    ensures var rest := if l in w.vmas then [ForkPage(l, child, w.vmas[l], a.mapOk)] else [];
            && RunScoped(SwappedIn(w, t, l, a.supply), rest)
            && Run(w, PageSteps(w, t, l, child, a)) == Run(SwappedIn(w, t, l, a.supply), rest)
  {
    var steps := SwapInSteps(w, t, l, a.supply);
    var rest := if l in w.vmas then [ForkPage(l, child, w.vmas[l], a.mapOk)] else [];
    assert PageSteps(w, t, l, child, a) == steps + rest;
    RunConcat(w, steps, rest);
    SwapInIsRun(w, t, l, a.supply);
  }

  lemma PageIsRun(w: World, t: Tid, l: Loc, child: SpaceId, a: Answer)
    requires Inv(w) && RunScoped(w, PageSteps(w, t, l, child, a))
    ensures WellFormed(SwappedIn(w, t, l, a.supply)) && Inv(Forked(w, t, l, child, a))
    ensures Run(w, PageSteps(w, t, l, child, a)) == Forked(w, t, l, child, a)
    ensures View(Forked(w, t, l, child, a))
         == if l in w.vmas then SpecNext(View(w), ForkPage(l, child, w.vmas[l], a.mapOk), true) else View(w)
  {
    PageRuns(w, t, l, child, a);
    SameRegions(w, t, l, a.supply);
    ForkStepRun(SwappedIn(w, t, l, a.supply), l, child, a);
  }

  lemma ForkStep(w: World, st: Step)
    requires Inv(w) && Scoped(w, st) && st.ForkPage?
    ensures Inv(Next(w, st)) && View(Next(w, st)) == SpecNext(View(w), st, true)
  {
    StepExact(w, st);
  }

  lemma ForkStepRun(w: World, l: Loc, child: SpaceId, a: Answer)
    requires Inv(w) && RunScoped(w, if l in w.vmas then [ForkPage(l, child, w.vmas[l], a.mapOk)] else [])
    ensures var w' := if l in w.vmas then ForkPageNext(w, l, child, w.vmas[l], a.mapOk) else w;
            && Inv(w') && w' == Run(w, if l in w.vmas then [ForkPage(l, child, w.vmas[l], a.mapOk)] else [])
            && View(w') == if l in w.vmas then SpecNext(View(w), ForkPage(l, child, w.vmas[l], a.mapOk), true)
                           else View(w)
  {
    if l in w.vmas {
      var st := ForkPage(l, child, w.vmas[l], a.mapOk);
      RunOne(w, st);
      ForkStep(w, st);
    }
  }

  lemma UnsharedPage(w: World, l: Loc, child: SpaceId)
    requires WellFormed(w) && child in w.spaces && Loc(child, l.vpn) !in w.vmas && l in w.table && w.table[l].Present?
    ensures l in w.vmas && !Scoped(w, ForkPage(l, child, w.vmas[l], false))
  {
  }

  /** A page at which the loop stops is outside its condition: the parent's page has a
      reference too many. */
  lemma StopUnscoped(w: World, w1: World, t: Tid, l: Loc, child: SpaceId, a: Answer)
    requires Inv(w) && child in w.spaces && Loc(child, l.vpn) !in w.vmas && ForkStops(w, t, l, a)
    requires w1 == SwappedIn(w, t, l, a.supply)
    ensures !RunScoped(w, PageSteps(w, t, l, child, a))
  {
    if RunScoped(w, PageSteps(w, t, l, child, a)) {
      PageRuns(w, t, l, child, a);
      SameRegions(w, t, l, a.supply);
      UnsharedPage(w1, l, child);
      RunOne(w1, ForkPage(l, child, w1.vmas[l], false));
    }
  }

  /** Page `l` of `b` is page `m` of `a`: same region, same private contents. */
  ghost predicate SamePage(a: Abs, m: Loc, b: Abs, l: Loc)
  {
    && (l in b.vmas <==> m in a.vmas) && (l in b.vmas ==> b.vmas[l] == a.vmas[m])
    && (l in b.own <==> m in a.own) && (l in b.own ==> b.own[l] == a.own[m])
  }

  /** Which page `l` takes after, once pages `lo..hi` of `s` are forked into `child`. */
  function ForkedFrom(l: Loc, s: SpaceId, child: SpaceId, lo: nat, hi: nat): Loc
  {
    if l.space == child && lo <= l.vpn < hi then Loc(s, l.vpn) else l
  }

  ghost predicate NoPagesFrom(a: Abs, child: SpaceId, lo: nat)
  {
    && (forall m :: m in a.own ==> m in a.vmas)
    && (forall m :: m in a.vmas && m.space == child ==> m.vpn < lo)
  }

  lemma ForkedPage(a: Abs, b: Abs, s: SpaceId, child: SpaceId, va: nat, vma: Vma, ok: bool, l: Loc)
    requires s != child && child in a.spaces && NoPagesFrom(a, child, va)
    requires b == if Loc(s, va) in a.vmas then SpecNext(a, ForkPage(Loc(s, va), child, vma, ok), true) else a
    ensures b.spaces == a.spaces && b.shared == a.shared && NoPagesFrom(b, child, va + 1)
    ensures SamePage(a, ForkedFrom(l, s, child, va, va + 1), b, l)
  {
  }

  ghost predicate ChildEmptyFrom(w: World, child: SpaceId, lo: nat)
  {
    child in w.spaces && forall m :: m in w.vmas && m.space == child ==> m.vpn < lo
  }

  lemma ViewFrom(w: World, child: SpaceId, lo: nat)
    requires WellFormed(w)
    ensures ChildEmptyFrom(w, child, lo) <==> child in View(w).spaces && NoPagesFrom(View(w), child, lo)
  {
    assert View(w).vmas == w.vmas && View(w).own == OwnPages(w);
  }

  /** One iteration in scope: it does not stop, and copies the page at `va`. */
  lemma PageCopies(w: World, t: Tid, s: SpaceId, child: SpaceId, va: nat, a: Answer, l: Loc)
    requires Inv(w) && Formed(w, t) && s != child && ChildEmptyFrom(w, child, va)
    requires RunScoped(w, PageSteps(w, t, Loc(s, va), child, a))
    ensures WellFormed(SwappedIn(w, t, Loc(s, va), a.supply))
    ensures var w' := Forked(w, t, Loc(s, va), child, a);
            && Inv(w') && ChildEmptyFrom(w', child, va + 1) && View(w').shared == View(w).shared
            && SamePage(View(w), ForkedFrom(l, s, child, va, va + 1), View(w'), l)
            && !ForkStops(w, t, Loc(s, va), a) && w' == Run(w, PageSteps(w, t, Loc(s, va), child, a))
  {
    var p := Loc(s, va);
    PageIsRun(w, t, p, child, a);
    if ForkStops(w, t, p, a) {
      StopUnscoped(w, SwappedIn(w, t, p, a.supply), t, p, child, a);
    }
    ViewFrom(w, child, va);
    ForkedPage(View(w), View(Forked(w, t, p, child, a)), s, child, va,
               if p in w.vmas then w.vmas[p] else Vma(Prot(false, false, false), Anon), a.mapOk, l);
    ViewFrom(Forked(w, t, p, child, a), child, va + 1);
  }

  /** What programs see of a whole `fork` in scope: it gets to the end, each page of the
      child is the parent's page of that moment, and no other page, the parent's
      included, changes. */
  lemma {:induction false} ForkCopies(w: World, t: Tid, s: SpaceId, child: SpaceId, lo: nat, answers: seq<Answer>,
                                      l: Loc)
    requires Inv(w) && Formed(w, t) && s != child && ChildEmptyFrom(w, child, lo)
    requires RunScoped(w, ForkRun(w, t, s, child, lo, answers))
    ensures var (w', ok) := ForkPages(w, t, s, child, lo, answers);
            && ok && Inv(w') && w' == Run(w, ForkRun(w, t, s, child, lo, answers))
            && View(w').shared == View(w).shared
            && SamePage(View(w), ForkedFrom(l, s, child, lo, lo + |answers|), View(w'), l)
    decreases |answers|
  {
    if answers != [] {
      ForkedFormed(w, t, Loc(s, lo), child, answers[0]);
      var w1, m := Forked(w, t, Loc(s, lo), child, answers[0]), ForkedFrom(l, s, child, lo + 1, lo + |answers|);
      FirstCopies(w, w1, t, s, child, lo, answers, m);
      ForkCopies(w1, t, s, child, lo + 1, answers[1..], l);
      var w' := ForkPages(w1, t, s, child, lo + 1, answers[1..]).0;
      CopiedOn(View(w), View(w1), View(w'), s, child, lo, lo + |answers|, l);
    }
  }

  lemma FirstCopies(w: World, w1: World, t: Tid, s: SpaceId, child: SpaceId, lo: nat, answers: seq<Answer>, m: Loc)
    requires Inv(w) && Formed(w, t) && s != child && ChildEmptyFrom(w, child, lo) && answers != []
    requires RunScoped(w, ForkRun(w, t, s, child, lo, answers)) && Formed(w1, t)
    requires WellFormed(SwappedIn(w, t, Loc(s, lo), answers[0].supply))
    requires w1 == Forked(w, t, Loc(s, lo), child, answers[0])
    ensures Inv(w1) && ChildEmptyFrom(w1, child, lo + 1)
    ensures var rest := ForkRun(w1, t, s, child, lo + 1, answers[1..]);
            RunScoped(w1, rest) && Run(w, ForkRun(w, t, s, child, lo, answers)) == Run(w1, rest)
    ensures ForkPages(w, t, s, child, lo, answers) == ForkPages(w1, t, s, child, lo + 1, answers[1..])
    ensures View(w1).shared == View(w).shared && SamePage(View(w), ForkedFrom(m, s, child, lo, lo + 1), View(w1), m)
  {
    ForkPagesNext(w, t, s, child, lo, answers);
    ForkRunNext(w, t, s, child, lo, answers);
    RunConcat(w, PageSteps(w, t, Loc(s, lo), child, answers[0]), RestOfFork(w, w1, t, s, child, lo, answers));
    PageCopies(w, t, s, child, lo, answers[0], m);
  }

  lemma CopiedOn(a: Abs, b: Abs, c: Abs, s: SpaceId, child: SpaceId, lo: nat, hi: nat, l: Loc)
    requires s != child && lo < hi
    requires var m := ForkedFrom(l, s, child, lo + 1, hi); SamePage(a, ForkedFrom(m, s, child, lo, lo + 1), b, m)
    requires SamePage(b, ForkedFrom(l, s, child, lo + 1, hi), c, l)
    ensures SamePage(a, ForkedFrom(l, s, child, lo, hi), c, l)
  {
  }

  ghost function RestOfFork(w: World, w1: World, t: Tid, s: SpaceId, child: SpaceId, va: nat,
                            answers: seq<Answer>): seq<Step>
    requires WellFormed(w) && Formed(w1, t) && answers != []
  {
    if ForkStops(w, t, Loc(s, va), answers[0]) then [] else ForkRun(w1, t, s, child, va + 1, answers[1..])
  }

  lemma ForkRunNext(w: World, t: Tid, s: SpaceId, child: SpaceId, va: nat, answers: seq<Answer>)
    requires Formed(w, t) && answers != []
    ensures WellFormed(SwappedIn(w, t, Loc(s, va), answers[0].supply))
    ensures Formed(Forked(w, t, Loc(s, va), child, answers[0]), t)
    ensures ForkRun(w, t, s, child, va, answers)
         == PageSteps(w, t, Loc(s, va), child, answers[0])
            + RestOfFork(w, Forked(w, t, Loc(s, va), child, answers[0]), t, s, child, va, answers)
  {
    ForkedFormed(w, t, Loc(s, va), child, answers[0]);
  }

  /** Dropping a space frees its pages and nothing else, and leaves no trace of it. */
  lemma DropExact(w: World, s: SpaceId, hi: nat)
    requires Inv(w) && !Busy(w, s)
    requires forall l :: l in w.vmas && l.space == s ==> l.vpn < hi
    ensures var w' := Next(UnmapPages(w, s, 0, hi), ReleaseSpace(s));
            Inv(w') && s !in w'.spaces
            && (forall l :: l in w'.vmas <==> l in w.vmas && l.space != s)
            && (forall l :: l in w'.table <==> l in w.table && l.space != s)
  {
    var w1 := UnmapPages(w, s, 0, hi);
    forall l
      ensures l in w1.vmas <==> l in w.vmas && l.space != s
      ensures l in w1.table <==> l in w.table && l.space != s
    {
      UnmapPagesExact(w, s, 0, hi, l);
      assert l in w.table ==> l in w.vmas;
    }
    UnmapPagesExact(w, s, 0, hi, Loc(s, 0));
    assert !Busy(w1, s);
    ReleaseKeepsInv(w1, s);
  }

  lemma DropIs(w: World, w1: World, s: SpaceId, hi: nat)
    requires Inv(w) && !Busy(w, s) && w1 == UnmapPages(w, s, 0, hi)
    ensures WellFormed(w1)
    ensures Next(w1, ReleaseSpace(s))
         == w1.(spaces := w1.spaces - {s}, vmas := Without(w1.vmas, s), table := Without(w1.table, s))
  {
    UnmapPagesExact(w, s, 0, hi, Loc(s, 0));
    assert !Busy(w1, s);
  }

  // ---------------------------------------------------------------- counts

  /** Giving up a mapping frees the frame exactly when nothing refers to it any more. */
  lemma LastReference(w: World, l: Loc)
    requires Inv(w) && l in w.table && w.table[l].Present?
    ensures var f, w' := w.table[l].frame, UnmapPageNext(w, l);
            f in w'.ram <==> PteRefs(w.table, f) != {l} || ObjRefs(w.objects, f) != {}
    ensures var f, w' := w.table[l].frame, UnmapPageNext(w, l);
            CountOf(w'.count, f) == |PteRefs(w.table, f)| + |ObjRefs(w.objects, f)| - 1
  {
    var f := w.table[l].frame;
    var refs, objs := PteRefs(w.table, f), ObjRefs(w.objects, f);
    assert CountOf(w.count, f) == |refs| + |objs|;
    assert l in refs;
    if w.count[f] == 1 {
      AtMostOneOf(refs, l, objs);
    }
  }

  lemma AtMostOneOf<T, S>(a: set<T>, x: T, b: set<S>)
    requires x in a && |a| + |b| <= 1
    ensures a == {x} && b == {}
  {
    SubsetSize({x}, a);
    assert a == {x} + (a - {x});
  }
}
