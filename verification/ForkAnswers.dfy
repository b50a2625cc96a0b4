/** A whole `fork` from its answers alone: which frames, device reads and page tables
    it has to be given so that the child gets the parent's memory. */
module ForkAnswers {
  import opened UserMemory
  import opened UserMemoryProofs
  import opened UserMemoryRefinement
  import opened UserMemoryExact
  import opened UserMemoryRuns
  import opened UserMemoryFaults
  import opened PageLoops

  // ---------------------------------------------------------------- a swapped page

  /** Once a swap-in has got as far as mapping its frame, the mapping works and arms no
      older eviction of the page. */
  ghost predicate Brings(w: World, l: Loc, slot: Slot, sup: Supply)
  {
    Available(w, sup) && sup.readOk && slot in w.swap ==>
      sup.mapOk && !MeetsStaleFlight(w, l, sup.frame.value, w.swap[slot], false)
  }

  lemma ThreeScoped(w: World, a: Step, b: Step, c: Step)
    requires Inv(w) && Scoped(w, a) && Inv(Next(w, a)) && Scoped(Next(w, a), b) && Inv(Next(Next(w, a), b))
    ensures RunScoped(w, [a, b, c]) <==> Scoped(Next(Next(w, a), b), c)
  {
    assert [a, b, c][1..] == [b, c];
    TwoScoped(Next(w, a), b, c);
  }

  lemma TwoScoped(w: World, b: Step, c: Step)
    requires Inv(w) && Scoped(w, b) && Inv(Next(w, b))
    ensures RunScoped(w, [b, c]) <==> Scoped(Next(w, b), c)
  {
    assert [b, c][1..] == [c];
    RunOne(Next(w, b), c);
  }

  /** The answers for which an undisturbed swap-in is in scope. */
  lemma SwapInExact(w: World, t: Tid, l: Loc, slot: Slot, sup: Supply)
    requires Inv(w) && t !in w.pending.fetches && l in w.table && w.table[l] == Swapped(slot)
    ensures RunScoped(w, SwapInSteps(w, t, l, sup)) <==> Brings(w, l, slot, sup)
  {
    var w1 := FaultNext(w, t, l, false, sup);
    SwapInBegins(w, w1, t, l, slot, sup);
    LoadKeepsInv(w1, t, sup);
    LastScoped(w, w1, LoadNext(w1, t, sup), t, l, sup);
    SettleAnswered(w, w1, LoadNext(w1, t, sup), t, l, slot, sup);
  }

  lemma SwapInBegins(w: World, w1: World, t: Tid, l: Loc, slot: Slot, sup: Supply)
    requires Inv(w) && t !in w.pending.fetches && l in w.table && w.table[l] == Swapped(slot)
    requires w1 == FaultNext(w, t, l, false, sup)
    ensures w1 == WithFetch(w, t, Fetch(l, w.vmas[l], Some(slot), None)) && Inv(w1)
    ensures Scoped(w, Fault(t, l, false, sup))
  {
    StartCurrent(w, t, l, false, sup);
  }

  lemma LastScoped(w: World, w1: World, w2: World, t: Tid, l: Loc, sup: Supply)
    requires Inv(w) && l in w.table && w.table[l].Swapped? && Scoped(w, Fault(t, l, false, sup))
    requires Inv(w1) && w1 == FaultNext(w, t, l, false, sup) && Inv(w2) && w2 == LoadNext(w1, t, sup)
    ensures RunScoped(w, SwapInSteps(w, t, l, sup)) <==> Scoped(w2, Settle(t, sup.mapOk))
  {
    ThreeScoped(w, Fault(t, l, false, sup), Load(t, sup), Settle(t, sup.mapOk));
  }

  lemma SettleAnswered(w: World, w1: World, w2: World, t: Tid, l: Loc, slot: Slot, sup: Supply)
    requires Inv(w) && t !in w.pending.fetches && l in w.table && w.table[l] == Swapped(slot)
    requires w1 == WithFetch(w, t, Fetch(l, w.vmas[l], Some(slot), None)) && WellFormed(w1)
    requires w2 == LoadNext(w1, t, sup) && WellFormed(w2)
    ensures Scoped(w2, Settle(t, sup.mapOk)) <==> Brings(w, l, slot, sup)
  {
    assert Backed(w, w.table[l]) && KindOk(w, l) && InTable(w1.table, slot);
    SameHands(w.pending.fetches, t, Fetch(l, w.vmas[l], Some(slot), None), sup);
    LoadedIs(w1, w2, t, sup);
    assert w2 == w.(pending := w2.pending);
    if Available(w, sup) && sup.readOk {
      SettlesAnswered(w, w2, l, slot, sup.frame.value, sup.mapOk);
    }
  }

  lemma SettlesAnswered(w: World, w2: World, l: Loc, slot: Slot, f: Frame, mapOk: bool)
    requires WellFormed(w) && WellFormed(w2) && w2 == w.(pending := w2.pending) && l in w.table
    requires w.table[l] == Swapped(slot)
    requires l in w.vmas && !w.vmas[l].kind.Shared? && slot in w.swap
    ensures Settles(w2, Fetch(l, w.vmas[l], Some(slot), Some(Hand(f, w.swap[slot]))), mapOk)
       <==> mapOk && !MeetsStaleFlight(w, l, f, w.swap[slot], false)
  {
  }

  /** The read of a fault that has just begun. */
  lemma LoadedIs(w: World, w': World, t: Tid, sup: Supply)
    requires WellFormed(w) && t in w.pending.fetches && w' == LoadNext(w, t, sup)
    requires w.pending.fetches[t].hand.None? && w.pending.fetches[t].origin.Some?
    ensures w' == w.(pending := w'.pending) && w'.pending.preps == w.pending.preps
    ensures var fetch := w.pending.fetches[t]; var c := LoadedPage(w, fetch, sup);
            w'.pending.fetches == if Available(w, sup) && sup.readOk
                                  then w.pending.fetches[t := fetch.(hand := Some(Hand(sup.frame.value, c)))]
                                  else w.pending.fetches - {t}
  {
  }

  /** A fault that has just begun has no frame in hand. */
  lemma SameHands(fetches: map<Tid, Fetch>, t: Tid, fetch: Fetch, sup: Supply)
    requires t !in fetches && fetch.hand.None?
    ensures sup.frame.Some? ==> InHand(fetches[t := fetch], sup.frame.value) == InHand(fetches, sup.frame.value)
  {
    if sup.frame.Some? && InHand(fetches, sup.frame.value) {
      var u :| u in fetches && Holds(fetches, u, sup.frame.value);
      assert Holds(fetches[t := fetch], u, sup.frame.value);
    }
  }

  // ---------------------------------------------------------------- one page

  /** The answers that one page of `fork` needs: none for a page that is not there, a page
      table for one that is, and a frame and a read besides for a swapped one. */
  ghost predicate PageAnswered(w: World, l: Loc, a: Answer)
  {
    l in w.table ==>
      && a.mapOk
      && (w.table[l].Swapped? ==> Available(w, a.supply) && a.supply.readOk && Brings(w, l, w.table[l].slot, a.supply))
  }

  /** What `SwappedIn` is for a page that gets its answers. */
  lemma SwappedInIs(w: World, t: Tid, l: Loc, slot: Slot, a: Answer)
    requires Inv(w) && t !in w.pending.fetches && l in w.table && w.table[l] == Swapped(slot) && PageAnswered(w, l, a)
    ensures var f, w' := a.supply.frame.value, SwappedIn(w, t, l, a.supply);
            && f !in w.ram && slot in w.swap && w'.pending == w.pending
            && w' == w.(swap := w.swap - {slot}, table := w.table[l := FreshPte(f, w.vmas[l].prot.write)],
                        count := w.count[f := 1], ram := w.ram[f := w.swap[slot]])
  {
    assert Backed(w, w.table[l]);
    var fetch := Fetch(l, w.vmas[l], Some(slot), None);
    var w1, w' := WithFetch(w, t, fetch), SwappedIn(w, t, l, a.supply);
    SameHands(w.pending.fetches, t, fetch, a.supply);
    ReadInIs(w, w1, w', t, l, slot, a.supply.frame.value, a.supply);
    SwapInPending(w, w1, w', t, fetch, a.supply);
  }

  lemma SwapInPending(w: World, w1: World, w': World, t: Tid, fetch: Fetch, sup: Supply)
    requires WellFormed(w1) && t !in w.pending.fetches && w1 == WithFetch(w, t, fetch) && fetch.hand.None?
    requires fetch.origin.Some?
    requires w' == SettleNext(LoadNext(w1, t, sup), t, sup.mapOk)
    ensures w'.pending == w.pending
  {
    var w2 := LoadNext(w1, t, sup);
    LoadedIs(w1, w2, t, sup);
    SettledPending(w2, w', t, sup.mapOk);
    assert w2.pending.fetches - {t} == w.pending.fetches;
  }

  lemma SettledPending(w: World, w': World, t: Tid, mapOk: bool)
    requires w' == SettleNext(w, t, mapOk) && (t in w.pending.fetches ==> w.pending.fetches[t].hand.Some?)
    ensures w'.pending == w.pending.(fetches := w.pending.fetches - {t})
  {
  }

  /** With its answers one page of `fork` is in scope. */
  lemma PageScoped(w: World, t: Tid, l: Loc, child: SpaceId, a: Answer)
    requires Inv(w) && t !in w.pending.fetches && l.space != child && PageAnswered(w, l, a)
    requires NoFlights(w.flights, child)
    ensures RunScoped(w, PageSteps(w, t, l, child, a))
  {
    var steps := SwapInSteps(w, t, l, a.supply);
    var rest := if l in w.vmas then [ForkPage(l, child, w.vmas[l], a.mapOk)] else [];
    assert PageSteps(w, t, l, child, a) == steps + rest;
    RunConcat(w, steps, rest);
    if l in w.table && w.table[l].Swapped? {
      SwapInExact(w, t, l, w.table[l].slot, a.supply);
    }
    SwapInIsRun(w, t, l, a.supply);
    var w1 := SwappedIn(w, t, l, a.supply);
    if l in w.vmas {
      ForkAnswered(w, w1, t, l, child, a);
      RunOne(w1, rest[0]);
    }
  }

  predicate NoFlights(flights: set<Flight>, child: SpaceId)
  {
    forall fl :: fl in flights ==> fl.loc.space != child
  }

  lemma ForkAnswered(w: World, w1: World, t: Tid, l: Loc, child: SpaceId, a: Answer)
    requires Inv(w) && t !in w.pending.fetches && l in w.vmas && l.space != child && PageAnswered(w, l, a)
    requires NoFlights(w.flights, child) && w1 == SwappedIn(w, t, l, a.supply) && Inv(w1)
    ensures Scoped(w1, ForkPage(l, child, w.vmas[l], a.mapOk))
  {
    if l in w.table && w.table[l].Swapped? {
      SwappedInIs(w, t, l, w.table[l].slot, a);
    } else {
      assert w1 == w;
    }
    ForkAllowed(w1, l, child, a.mapOk);
  }

  lemma ForkAllowed(w: World, l: Loc, child: SpaceId, mapOk: bool)
    requires WellFormed(w) && l in w.vmas && (l in w.table ==> w.table[l].Present? && mapOk)
    requires NoFlights(w.flights, child)
    ensures ForkScoped(w, l, child, w.vmas[l], mapOk)
  {
  }

  // ---------------------------------------------------------------- the whole loop

  predicate InSwap(w: World, l: Loc)
  {
    l in w.table && w.table[l].Swapped?
  }

  /** The answers of a whole fork: every page gets what it needs, in the world as it is
      when the fork begins, and no two pages get the same frame. */
  ghost predicate Answered(w: World, s: SpaceId, child: SpaceId, lo: nat, answers: seq<Answer>)
  {
    && NoFlights(w.flights, child)
    && (forall i :: 0 <= i < |answers| ==> PageAnswered(w, Loc(s, lo + i), answers[i]))
    && (forall i, j :: 0 <= i < j < |answers| && InSwap(w, Loc(s, lo + i)) && InSwap(w, Loc(s, lo + j)) ==>
          answers[i].supply.frame != answers[j].supply.frame)
  }

  /** What forking page `p` leaves as it was for the other pages. */
  ghost predicate Beside(w: World, w': World, p: Loc, c: Loc, used: set<Frame>)
  {
    && w'.flights == w.flights && w'.pending == w.pending
    && w'.ram.Keys <= w.ram.Keys + used && w'.count.Keys <= w.count.Keys + used
    && (forall l :: l != p && l != c ==>
          (l in w'.table <==> l in w.table) && (l in w.table ==> w'.table[l] == w.table[l]))
    && (forall slot :: slot in w.swap && !(p in w.table && w.table[p] == Swapped(slot)) ==> SlotKept(w, w', slot))
  }

  /** The frames that page `p` of the fork uses up. */
  function Used(w: World, p: Loc, a: Answer): set<Frame>
  {
    if InSwap(w, p) && a.supply.frame.Some? then {a.supply.frame.value} else {}
  }

  lemma SwapInBeside(w: World, w1: World, t: Tid, p: Loc, c: Loc, a: Answer)
    requires Inv(w) && t !in w.pending.fetches && PageAnswered(w, p, a) && w1 == SwappedIn(w, t, p, a.supply)
    ensures Beside(w, w1, p, c, Used(w, p, a))
  {
    if InSwap(w, p) {
      SwappedInIs(w, t, p, w.table[p].slot, a);
      FreshBeside(w, w1, p, c, a.supply.frame.value, w.table[p].slot);
    }
  }

  lemma FreshBeside(w: World, w1: World, p: Loc, c: Loc, f: Frame, slot: Slot)
    requires p in w.table && w.table[p] == Swapped(slot) && p in w1.table
    requires w1 == w.(swap := w.swap - {slot}, table := w.table[p := w1.table[p]],
                      count := w.count[f := 1], ram := w1.ram)
    requires w1.ram.Keys == w.ram.Keys + {f}
    ensures Beside(w, w1, p, c, {f})
  {
  }

  lemma ShareBeside(w: World, w': World, p: Loc, child: SpaceId, vma: Vma, ok: bool)
    requires WellFormed(w) && w' == ForkPageNext(w, p, child, vma, ok)
    ensures Beside(w, w', p, Loc(child, p.vpn), {}) && w'.swap == w.swap
  {
    var c := Loc(child, p.vpn);
    ForkFields(w, w', p, c, vma, ok);
    forall l | l != p && l != c
      ensures (l in w'.table <==> l in w.table) && (l in w.table ==> w'.table[l] == w.table[l])
    {
      OtherEntry(w, w', p, child, vma, ok, l);
    }
  }

  lemma OtherEntry(w: World, w': World, p: Loc, child: SpaceId, vma: Vma, ok: bool, l: Loc)
    requires WellFormed(w) && w' == ForkPageNext(w, p, child, vma, ok) && l != p && l != Loc(child, p.vpn)
    ensures (l in w'.table <==> l in w.table) && (l in w.table ==> w'.table[l] == w.table[l])
  {
  }

  lemma ForkedBeside(w: World, w': World, t: Tid, p: Loc, child: SpaceId, a: Answer)
    requires Inv(w) && t !in w.pending.fetches && PageAnswered(w, p, a) && WellFormed(SwappedIn(w, t, p, a.supply))
    requires w' == Forked(w, t, p, child, a)
    ensures Beside(w, w', p, Loc(child, p.vpn), Used(w, p, a))
  {
    var w1 := SwappedIn(w, t, p, a.supply);
    SwapInBeside(w, w1, t, p, Loc(child, p.vpn), a);
    if p in w1.vmas {
      ShareBeside(w1, w', p, child, w1.vmas[p], a.mapOk);
      BesideBoth(w, w1, w', p, Loc(child, p.vpn), Used(w, p, a));
    }
  }

  lemma BesideBoth(w: World, w1: World, w': World, p: Loc, c: Loc, used: set<Frame>)
    requires Beside(w, w1, p, c, used) && Beside(w1, w', p, c, {}) && w'.swap == w1.swap
    ensures Beside(w, w', p, c, used)
  {
  }

  /** The answers for another page still serve after `p`. */
  lemma StillAnswered(w: World, w': World, p: Loc, c: Loc, used: set<Frame>, l: Loc, a: Answer)
    requires WellFormed(w) && SlotsOwned(w) && Beside(w, w', p, c, used) && l != p && l != c && PageAnswered(w, l, a)
    requires InSwap(w, l) ==> a.supply.frame.Some? && a.supply.frame.value !in used
    ensures PageAnswered(w', l, a)
  {
    if InSwap(w, l) {
      assert Backed(w, w.table[l]) && SlotKept(w, w', w.table[l].slot);
    }
  }

  lemma AnsweredNext(w: World, w': World, t: Tid, s: SpaceId, child: SpaceId, lo: nat, answers: seq<Answer>)
    requires Inv(w) && t !in w.pending.fetches && s != child && answers != [] && Answered(w, s, child, lo, answers)
    requires Beside(w, w', Loc(s, lo), Loc(child, lo), Used(w, Loc(s, lo), answers[0]))
    ensures Answered(w', s, child, lo + 1, answers[1..])
  {
    var used := Used(w, Loc(s, lo), answers[0]);
    forall i | 0 <= i < |answers[1..]|
      ensures PageAnswered(w', Loc(s, lo + 1 + i), answers[1..][i])
      ensures InSwap(w', Loc(s, lo + 1 + i)) == InSwap(w, Loc(s, lo + 1 + i))
    {
      assert answers[1..][i] == answers[i + 1] && lo + 1 + i == lo + (i + 1);
      assert PageAnswered(w, Loc(s, lo + (i + 1)), answers[i + 1]);
      StillAnswered(w, w', Loc(s, lo), Loc(child, lo), used, Loc(s, lo + (i + 1)), answers[i + 1]);
    }
  }

  /** With its answers a whole fork is in scope. */
  lemma {:induction false} ForkInScope(w: World, t: Tid, s: SpaceId, child: SpaceId, lo: nat, answers: seq<Answer>)
    requires Inv(w) && Formed(w, t) && s != child && ChildEmptyFrom(w, child, lo) && Answered(w, s, child, lo, answers)
    ensures RunScoped(w, ForkRun(w, t, s, child, lo, answers))
    decreases |answers|
  {
    if answers != [] {
      var p, a := Loc(s, lo), answers[0];
      assert lo + 0 == lo && PageAnswered(w, Loc(s, lo + 0), answers[0]);
      ForkRunNext(w, t, s, child, lo, answers);
      PageScoped(w, t, p, child, a);
      PageCopies(w, t, s, child, lo, a, p);
      var w' := Forked(w, t, p, child, a);
      ForkedBeside(w, w', t, p, child, a);
      AnsweredNext(w, w', t, s, child, lo, answers);
      ForkInScope(w', t, s, child, lo + 1, answers[1..]);
      RunConcat(w, PageSteps(w, t, p, child, a), RestOfFork(w, w', t, s, child, lo, answers));
    }
  }

  /** A fork that gets its answers copies the parent: it gets to the end, each page of the
      child is the parent's page of that moment, and no other page, the parent's
      included, changes. */
  lemma ForkWhole(w: World, t: Tid, s: SpaceId, child: SpaceId, lo: nat, answers: seq<Answer>, l: Loc)
    requires Inv(w) && Formed(w, t) && s != child && ChildEmptyFrom(w, child, lo) && Answered(w, s, child, lo, answers)
    ensures var (w', ok) := ForkPages(w, t, s, child, lo, answers);
            && ok && Inv(w') && View(w').shared == View(w).shared
            && SamePage(View(w), ForkedFrom(l, s, child, lo, lo + |answers|), View(w'), l)
  {
    ForkInScope(w, t, s, child, lo, answers);
    ForkCopies(w, t, s, child, lo, answers, l);
  }
}
