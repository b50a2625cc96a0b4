/** More runs from boot to a step outside `Scoped`: two evictions of one page, and pages
    whose frame comes back as that of a shared object. */
module UserMemoryReuse {
  import opened UserMemory
  import opened UserMemoryProofs
  import opened UserMemoryRefinement
  import opened UserMemoryExact
  import opened UserMemoryRuns
  import opened UserMemoryRaces

  // ---------------------------------------------------------------- a page staged twice

  /** The staged page has been stored to. */
  function Rewritten(): World
  {
    Page0(READ_WRITE, map[HERE := Present(7, true, false, true, true)], map[7 := OnePage()], map[7 := 1],
          map[3 := ZeroPage()], {Flight(HERE, 7, 3)}, Idle())
  }

  lemma RewriteStep()
    requires WellFormed(Staged())
    ensures Next(Staged(), Store(HERE, 0, 1)) == Rewritten()
  {
    assert Staged().table[HERE := Present(7, true, false, true, true)] == Rewritten().table;
    assert Staged().ram[7 := OnePage()] == Rewritten().ram;
  }

  /** A second eviction of it has cleared DIRTY again. */
  function Restaged(): World
  {
    Rewritten().(table := map[HERE := Present(7, true, false, true, false)],
                 pending := Pending(map[1 := Prep(HERE, 7)], map[]))
  }

  lemma RestageStep()
    requires WellFormed(Rewritten())
    ensures !Scoped(Rewritten(), EvictStage(1, HERE, true)) && EvictStageNext(Rewritten(), 1, HERE, true) == Restaged()
    ensures WellFormed(Restaged())
  {
    OneIsNotZero();
    var w, fl := Rewritten(), Flight(HERE, 7, 3);
    assert Evictable(w, HERE);
    assert fl in w.flights && w.swap[fl.slot] != OnePage();
    assert w.table[HERE := Present(7, true, false, true, false)] == Restaged().table;
  }

  lemma OldCopyCommits(fl: Flight)
    requires WellFormed(Restaged()) && fl == Flight(HERE, 7, 3)
    ensures var w := EvictCommitNext(Restaged(), fl, true);
            HERE in w.table && w.table[HERE] == Swapped(3) && 3 in w.swap && w.swap[3] == ZeroPage()
  {
  }

  lemma RewrittenReachable()
    ensures Reachable(Rewritten()) && WellFormed(Rewritten()) && OwnPage(Rewritten(), HERE) == OnePage()
  {
    StagedReachable();
    RewriteStep();
    Onward(Staged(), Store(HERE, 0, 1), Rewritten());
  }

  /** A page is stored to while it is being staged, and a second eviction of it begins: now
      the first one commits its old copy, and the store is lost. */
  lemma StagedTwiceReachable()
    ensures Reachable(Rewritten()) && WellFormed(Rewritten()) && OwnPage(Rewritten(), HERE) == OnePage()
    ensures !Scoped(Rewritten(), EvictStage(1, HERE, true))
    ensures var w1 := EvictStageNext(Rewritten(), 1, HERE, true);
            WellFormed(w1) &&
            var w2 := EvictCommitNext(w1, Flight(HERE, 7, 3), true);
            HERE in w2.table && w2.table[HERE] == Swapped(3) && 3 in w2.swap && w2.swap[3] == ZeroPage() != OnePage()
  {
    RewrittenReachable();
    RestageStep();
    OldCopyCommits(Flight(HERE, 7, 3));
    OneIsNotZero();
  }

  // ---------------------------------------------------------------- a frame that becomes shared

  const KEY := Key(0, 0)
  const SHARED := Vma(Prot(true, true, false), Shared(KEY))

  /** The page is one of a shared object now, with nothing there yet. */
  function Rekeyed(swap: map<Slot, Page>, flights: set<Flight>, preps: map<Tid, Prep>, fetches: map<Tid, Fetch>): World
  {
    World({0}, map[HERE := SHARED], map[], map[], map[], map[], swap, flights, Pending(preps, fetches))
  }

  /** The object's page has got frame 7. */
  function Joined(swap: map<Slot, Page>, flights: set<Flight>, preps: map<Tid, Prep>): World
  {
    World({0}, map[HERE := SHARED], map[HERE := FreshPte(7, true)], map[7 := ZeroPage()], map[7 := 2], map[KEY := 7],
          swap, flights, Pending(preps, map[]))
  }

  function SharedFetch(): Fetch
  {
    Fetch(HERE, SHARED, None, None)
  }

  lemma AskShared(swap: map<Slot, Page>, flights: set<Flight>, preps: map<Tid, Prep>)
    requires WellFormed(Rekeyed(swap, flights, preps, map[]))
    ensures var w := Rekeyed(swap, flights, preps, map[]);
            && Scoped(w, Fault(0, HERE, false, Answer(7)))
            && Next(w, Fault(0, HERE, false, Answer(7))) == Rekeyed(swap, flights, preps, map[0 := SharedFetch()])
  {
  }

  lemma JoinStep(swap: map<Slot, Page>, flights: set<Flight>, preps: map<Tid, Prep>)
    requires WellFormed(Rekeyed(swap, flights, preps, map[0 := SharedFetch()]))
    ensures var w := Rekeyed(swap, flights, preps, map[0 := SharedFetch()]);
            && Next(w, Join(0, Answer(7))) == Joined(swap, flights, preps)
            && (Scoped(w, Join(0, Answer(7))) <==> forall fl :: fl in flights && fl.loc == HERE ==> fl.frame != 7)
  {
    var fetches := map[0 := SharedFetch()];
    assert !InHand(fetches, 7);
    assert fetches - {0} == map[];
    assert map[7 := 1][7 := 2] == map[7 := 2];
  }

  /** A page that is staged is unmapped, a shared object is mapped in its place, and its
      page gets the same frame. */
  function Rejoining(): World
  {
    Rekeyed(map[3 := ZeroPage()], {Flight(HERE, 7, 3)}, map[], map[0 := SharedFetch()])
  }

  lemma RejoiningReachable()
    ensures Reachable(Rejoining()) && Inv(Rejoining())
  {
    var swap, flights := map[3 := ZeroPage()], {Flight(HERE, 7, 3)};
    StagedReachable();
    UnmapStep();
    Onward(Staged(), UnmapPage(HERE), Bare());
    Onward(Bare(), MapPage(HERE, SHARED), Rekeyed(swap, flights, map[], map[]));
    AskShared(swap, flights, map[]);
    Onward(Rekeyed(swap, flights, map[], map[]), Fault(0, HERE, false, Answer(7)), Rejoining());
  }

  lemma SharedSwappedOut(swap: map<Slot, Page>, fl: Flight)
    requires fl == Flight(HERE, 7, 3) && 3 in swap
    ensures var w := Joined(swap, {fl}, map[]);
            WellFormed(w) &&
            var w' := EvictCommitNext(w, fl, true);
            w'.table == map[HERE := Swapped(3)] && w'.vmas == map[HERE := SHARED]
  {
  }

  /** The old eviction then swaps the page of the shared object out, for this space
      alone. */
  lemma JoinRaceReachable()
    ensures Reachable(Rejoining()) && WellFormed(Rejoining()) && !Scoped(Rejoining(), Join(0, Answer(7)))
    ensures var w1 := JoinNext(Rejoining(), 0, Answer(7));
            WellFormed(w1) &&
            var w2 := EvictCommitNext(w1, Flight(HERE, 7, 3), true);
            w2.table == map[HERE := Swapped(3)] && w2.vmas == map[HERE := SHARED]
  {
    RejoiningReachable();
    RejoinStep(Flight(HERE, 7, 3));
    SharedSwappedOut(map[3 := ZeroPage()], Flight(HERE, 7, 3));
  }

  lemma RejoinStep(fl: Flight)
    requires WellFormed(Rejoining()) && fl == Flight(HERE, 7, 3)
    ensures !Scoped(Rejoining(), Join(0, Answer(7)))
    ensures JoinNext(Rejoining(), 0, Answer(7)) == Joined(map[3 := ZeroPage()], {fl}, map[])
  {
    JoinStep(map[3 := ZeroPage()], {fl}, map[]);
    assert fl in {fl} && fl.loc == HERE && fl.frame == 7;
  }

  // ---------------------------------------------------------------- the same before the copy

  const PREPS: map<Tid, Prep> := map[0 := Prep(HERE, 7)]

  lemma UnmapPrepared()
    requires WellFormed(Prepared())
    ensures Next(Prepared(), UnmapPage(HERE))
         == World({0}, map[], map[], map[], map[], map[], map[], {}, Pending(PREPS, map[]))
  {
    var w := Prepared();
    assert w.vmas - {HERE} == map[] && w.table - {HERE} == map[];
    assert w.ram - {7} == map[] && w.count - {7} == map[];
  }

  lemma PreparedReachable()
    ensures Reachable(Prepared()) && Inv(Prepared())
  {
    TouchedReachable({0}, READ_WRITE);
    PrepareStep();
    Onward(Touched({0}, READ_WRITE), EvictStage(0, HERE, true), Prepared());
  }

  lemma JoinedReachable()
    ensures Reachable(Joined(map[], {}, PREPS)) && Inv(Joined(map[], {}, PREPS))
  {
    PreparedReachable();
    UnmapPrepared();
    var bare := World({0}, map[], map[], map[], map[], map[], map[], {}, Pending(PREPS, map[]));
    Onward(Prepared(), UnmapPage(HERE), bare);
    Onward(bare, MapPage(HERE, SHARED), Rekeyed(map[], {}, PREPS, map[]));
    AskShared(map[], {}, PREPS);
    Onward(Rekeyed(map[], {}, PREPS, map[]), Fault(0, HERE, false, Answer(7)),
           Rekeyed(map[], {}, PREPS, map[0 := SharedFetch()]));
    JoinStep(map[], {}, PREPS);
    Onward(Rekeyed(map[], {}, PREPS, map[0 := SharedFetch()]), Join(0, Answer(7)), Joined(map[], {}, PREPS));
  }

  lemma CopyOutStep()
    requires WellFormed(Joined(map[], {}, PREPS))
    ensures !Scoped(Joined(map[], {}, PREPS), EvictWrite(0, Some(3), ZeroPage()))
    ensures EvictWriteNext(Joined(map[], {}, PREPS), 0, Some(3), ZeroPage())
         == Joined(map[3 := ZeroPage()], {Flight(HERE, 7, 3)}, map[])
  {
    assert PREPS - {0} == map[];
  }

  /** An eviction sleeps before it copies its page. In the meantime the page becomes one
      of a shared object, in the same frame, and is swapped out for this space alone. */
  lemma WriteRaceReachable()
    ensures var w := Joined(map[], {}, PREPS);
            Reachable(w) && WellFormed(w) && !Scoped(w, EvictWrite(0, Some(3), ZeroPage())) &&
            var w1 := EvictWriteNext(w, 0, Some(3), ZeroPage());
            WellFormed(w1) &&
            var w2 := EvictCommitNext(w1, Flight(HERE, 7, 3), true);
            w2.table == map[HERE := Swapped(3)] && w2.vmas == map[HERE := SHARED]
  {
    JoinedReachable();
    CopyOutStep();
    SharedSwappedOut(map[3 := ZeroPage()], Flight(HERE, 7, 3));
  }
}
