/** Runs from boot to states in which one more step is outside `Scoped`, and what
    that step does. */
module UserMemoryRaces {
  import opened UserMemory
  import opened UserMemoryProofs
  import opened UserMemoryRefinement
  import opened UserMemoryExact
  import opened UserMemoryRuns

  const HERE := Loc(0, 3)
  const CHILD := Loc(1, 3)
  const READ_ONLY := Vma(Prot(true, false, false), Anon)
  const READ_WRITE := Vma(Prot(true, true, false), Anon)

  /** The zero page with a one stored at its start. */
  function OnePage(): Page
  {
    Splice(ZeroPage(), 0, [1])
  }

  function Idle(): Pending
  {
    Pending(map[], map[])
  }

  function Answer(f: Frame): Supply
  {
    Supply(Some(f), true, true, ZeroPage())
  }

  lemma OneIsNotZero()
    ensures OnePage()[0] == 1 && ZeroPage()[0] == 0 && OnePage() != ZeroPage()
  {
  }

  /** A reachable world, one step on. */
  lemma Onward(w: World, st: Step, w': World)
    requires Reachable(w) && WellFormed(w) && Scoped(w, st) && Next(w, st) == w'
    ensures Reachable(w') && Inv(w')
  {
    ReachNext(w, st);
    ReachedInv(w');
  }

  // ---------------------------------------------------------------- a page read in

  function Spaces(n: set<SpaceId>): World
  {
    Boot().(spaces := n)
  }

  /** The spaces, with one page of space 0 mapped. */
  function Mapped(n: set<SpaceId>, v: Vma): World
  {
    Boot().(spaces := n, vmas := map[HERE := v])
  }

  lemma SpacesReachable()
    ensures Reachable(Spaces({0})) && Reachable(Spaces({0, 1}))
  {
    var one: set<SpaceId>, two: set<SpaceId> := {0}, {0, 1};
    assert two == one + {1};
    SpaceReachable(one);
    SpaceStep(one, 1, two);
  }

  lemma SpaceReachable(one: set<SpaceId>)
    requires one == {0}
    ensures Reachable(Spaces(one)) && Inv(Spaces(one))
  {
    NoSpaceReachable();
    SpaceStep({}, 0, one);
  }

  lemma NoSpaceReachable()
    ensures Reachable(Spaces({})) && Inv(Spaces({}))
  {
    BootReachable();
    ReachedInv(Boot());
    assert Spaces({}) == Boot();
  }

  lemma SpaceStep(n: set<SpaceId>, s: SpaceId, more: set<SpaceId>)
    requires Reachable(Spaces(n)) && Inv(Spaces(n)) && more == n + {s}
    ensures Reachable(Spaces(more)) && Inv(Spaces(more))
  {
    Onward(Spaces(n), NewSpace(s), Spaces(more));
  }

  lemma MappedReachable(n: set<SpaceId>, v: Vma)
    requires n == {0} || n == {0, 1}
    ensures Reachable(Mapped(n, v)) && Inv(Mapped(n, v))
  {
    SpacesReachable();
    ReachedInv(Spaces(n));
    Onward(Spaces(n), MapPage(HERE, v), Mapped(n, v));
  }

  function Touched(n: set<SpaceId>, v: Vma): World
  {
    Mapped(n, v).(table := map[HERE := FreshPte(7, v.prot.write)], ram := map[7 := InitialPage(v.kind)],
                  count := map[7 := 1])
  }

  function Waiting(w: World, t: Tid, fetch: Fetch): World
  {
    w.(pending := Pending(map[], map[t := fetch]))
  }

  lemma TouchedReachable(n: set<SpaceId>, v: Vma)
    requires (n == {0} || n == {0, 1}) && !v.kind.Shared?
    ensures Reachable(Touched(n, v)) && Inv(Touched(n, v))
  {
    MappedReachable(n, v);
    var w := Mapped(n, v);
    var asked := Fetch(HERE, v, None, None);
    var loaded := asked.(hand := Some(Hand(7, InitialPage(v.kind))));
    AskStep(w, asked);
    Onward(w, Fault(0, HERE, false, Answer(7)), Waiting(w, 0, asked));
    LoadStep(w, asked, loaded);
    Onward(Waiting(w, 0, asked), Load(0, Answer(7)), Waiting(w, 0, loaded));
    SettleStep(w, n, v, loaded);
    Onward(Waiting(w, 0, loaded), Settle(0, true), Touched(n, v));
  }

  lemma LoadStep(w: World, asked: Fetch, loaded: Fetch)
    requires WellFormed(Waiting(w, 0, asked)) && asked.origin.None? && asked.hand.None? && !asked.vma.kind.Shared?
    requires w.pending == Idle()
    requires 7 !in w.ram && 7 !in w.count && loaded == asked.(hand := Some(Hand(7, InitialPage(asked.vma.kind))))
    ensures Next(Waiting(w, 0, asked), Load(0, Answer(7))) == Waiting(w, 0, loaded)
  {
    assert !InHand(map[0 := asked], 7);
    assert map[0 := asked][0 := loaded] == map[0 := loaded];
  }

  lemma SettleStep(w: World, n: set<SpaceId>, v: Vma, loaded: Fetch)
    requires w == Mapped(n, v) && !v.kind.Shared? && loaded == Fetch(HERE, v, None, Some(Hand(7, InitialPage(v.kind))))
    requires WellFormed(Waiting(w, 0, loaded))
    ensures Scoped(Waiting(w, 0, loaded), Settle(0, true))
    ensures Next(Waiting(w, 0, loaded), Settle(0, true)) == Touched(n, v)
  {
    assert map[0 := loaded] - {0} == map[];
  }

  // ---------------------------------------------------------------- a forked page made writable

  function Forked(): World
  {
    World({0, 1}, map[HERE := READ_ONLY, CHILD := READ_ONLY],
          map[HERE := FreshPte(7, false), CHILD := FreshPte(7, false)],
          map[7 := ZeroPage()], map[7 := 2], map[], map[], {}, Idle())
  }

  lemma ForkedReachable()
    ensures Reachable(Forked()) && Inv(Forked())
  {
    TouchedReachable({0, 1}, READ_ONLY);
    var w := Touched({0, 1}, READ_ONLY);
    ForkedStep(w);
    Onward(w, ForkPage(HERE, 1, READ_ONLY, true), Forked());
  }

  lemma ForkedStep(w: World)
    requires w == Touched({0, 1}, READ_ONLY) && WellFormed(w)
    ensures Scoped(w, ForkPage(HERE, 1, READ_ONLY, true)) && Next(w, ForkPage(HERE, 1, READ_ONLY, true)) == Forked()
  {
    assert ForkedPte(w.table[HERE], false) == w.table[HERE];
    assert w.table[HERE := w.table[HERE]] == w.table;
  }

  function Promoted(): World
  {
    Forked().(vmas := map[HERE := READ_WRITE, CHILD := READ_ONLY],
              table := map[HERE := FreshPte(7, true), CHILD := FreshPte(7, false)])
  }

  function Leaked(): World
  {
    Promoted().(table := map[HERE := Present(7, true, false, true, true), CHILD := FreshPte(7, false)],
                ram := map[7 := OnePage()])
  }

  lemma PromoteStep()
    requires WellFormed(Forked())
    ensures !Scoped(Forked(), ProtectPage(HERE, Prot(true, true, false)))
    ensures ProtectPageNext(Forked(), HERE, Prot(true, true, false)) == Promoted()
  {
    assert Promotes(Forked(), HERE, Prot(true, true, false));
    assert Forked().vmas[HERE := READ_WRITE] == Promoted().vmas;
    assert Forked().table[HERE := FreshPte(7, true)] == Promoted().table;
  }

  lemma LeakStep()
    requires WellFormed(Promoted())
    ensures StoreNext(Promoted(), HERE, 0, 1) == Leaked() && WellFormed(Leaked())
    ensures OwnPage(Leaked(), CHILD) == OnePage()
  {
    assert Promoted().table[HERE := Present(7, true, false, true, true)] == Leaked().table;
    assert Promoted().ram[7 := OnePage()] == Leaked().ram;
  }

  /** A read-only page is touched and forked, made writable in the parent and stored
      to: the child sees the store. */
  lemma ProtectLeakReachable()
    ensures Reachable(Forked()) && WellFormed(Forked()) && OwnPage(Forked(), CHILD) == ZeroPage()
    ensures !Scoped(Forked(), ProtectPage(HERE, Prot(true, true, false)))
    ensures var w1 := ProtectPageNext(Forked(), HERE, Prot(true, true, false));
            WellFormed(w1) &&
            var w2 := StoreNext(w1, HERE, 0, 1);
            WellFormed(w2) && CHILD in w2.vmas && OwnPage(w2, CHILD) == OnePage()
  {
    ForkedReachable();
    PromoteStep();
    ProtectStaysFormed(Forked(), HERE, Prot(true, true, false));
    LeakStep();
  }

  // ---------------------------------------------------------------- a page being staged

  /** One page of space 0: its region, entry, frame and slot contents, and what is
      under way. */
  function Page0(v: Vma, table: map<Loc, Pte>, ram: map<Frame, Page>, count: map<Frame, nat>, swap: map<Slot, Page>,
                 flights: set<Flight>, pending: Pending): World
  {
    World({0}, map[HERE := v], table, ram, count, map[], swap, flights, pending)
  }

  /** Frame 7 holds the page, and its copy is in slot 3, not committed. */
  function Staged(): World
  {
    Page0(READ_WRITE, map[HERE := FreshPte(7, true)], map[7 := ZeroPage()], map[7 := 1], map[3 := ZeroPage()],
          {Flight(HERE, 7, 3)}, Idle())
  }

  function Prepared(): World
  {
    Touched({0}, READ_WRITE).(pending := Pending(map[0 := Prep(HERE, 7)], map[]))
  }

  lemma PrepareStep()
    requires WellFormed(Touched({0}, READ_WRITE))
    ensures var w := Touched({0}, READ_WRITE);
            Scoped(w, EvictStage(0, HERE, true)) && Next(w, EvictStage(0, HERE, true)) == Prepared()
  {
    var w := Touched({0}, READ_WRITE);
    assert w.table[HERE := w.table[HERE].(dirty := false)] == w.table;
    assert Evictable(w, HERE);
  }

  lemma WriteStep()
    requires WellFormed(Prepared())
    ensures Scoped(Prepared(), EvictWrite(0, Some(3), ZeroPage()))
    ensures Next(Prepared(), EvictWrite(0, Some(3), ZeroPage())) == Staged()
  {
    assert map[0 := Prep(HERE, 7)] - {0} == map[];
  }

  lemma StagedReachable()
    ensures Reachable(Staged()) && Inv(Staged())
  {
    TouchedReachable({0}, READ_WRITE);
    PrepareStep();
    Onward(Touched({0}, READ_WRITE), EvictStage(0, HERE, true), Prepared());
    WriteStep();
    Onward(Prepared(), EvictWrite(0, Some(3), ZeroPage()), Staged());
  }

  lemma CopyUnscoped(fl: Flight)
    requires WellFormed(Staged()) && fl == Flight(HERE, 7, 3)
    ensures !Scoped(Staged(), KernelCopy(HERE, 0, [1])) && CopyAllowed(Staged(), HERE, 0, [1]) && fl in Staged().flights
  {
    OneIsNotZero();
    assert fl in Staged().flights && Staged().swap[fl.slot] != OnePage();
  }

  /** The kernel copies a byte into the page being staged, the eviction commits, and the
      byte is gone. */
  lemma KernelCopyLostReachable()
    ensures Reachable(Staged()) && WellFormed(Staged()) && !Scoped(Staged(), KernelCopy(HERE, 0, [1]))
    ensures var w1 := KernelCopyNext(Staged(), HERE, 0, [1]);
            WellFormed(w1) && OwnPage(w1, HERE) == OnePage() &&
            var w2 := EvictCommitNext(w1, Flight(HERE, 7, 3), true);
            HERE in w2.table && w2.table[HERE] == Swapped(3) && w2.swap[3] == ZeroPage()
  {
    StagedReachable();
    OneIsNotZero();
    CopyUnscoped(Flight(HERE, 7, 3));
    KernelCopyLost(Staged(), Flight(HERE, 7, 3), 0, [1]);
  }

  // ---------------------------------------------------------------- a frame that comes back

  const FILE := Vma(Prot(true, true, false), File(OnePage()))

  /** The staged page has been unmapped and a file mapped in its place; a fault has read
      the file into frame 7, which the old page gave back. */
  function Returned(): World
  {
    Page0(FILE, map[], map[], map[], map[3 := ZeroPage()], {Flight(HERE, 7, 3)},
          Pending(map[], map[0 := Fetch(HERE, FILE, None, Some(Hand(7, OnePage())))]))
  }

  /** After the unmap. */
  function Bare(): World
  {
    World({0}, map[], map[], map[], map[], map[], map[3 := ZeroPage()], {Flight(HERE, 7, 3)}, Idle())
  }

  function Remapped(): World
  {
    Bare().(vmas := map[HERE := FILE])
  }

  lemma RemappedReachable()
    ensures Reachable(Remapped()) && Inv(Remapped())
  {
    StagedReachable();
    UnmapStep();
    Onward(Staged(), UnmapPage(HERE), Bare());
    Onward(Bare(), MapPage(HERE, FILE), Remapped());
  }

  lemma ReturnedReachable()
    ensures Reachable(Returned()) && Inv(Returned())
  {
    RemappedReachable();
    var w, asked := Remapped(), Fetch(HERE, FILE, None, None);
    AskStep(w, asked);
    Onward(w, Fault(0, HERE, false, Answer(7)), Waiting(w, 0, asked));
    LoadStep(w, asked, asked.(hand := Some(Hand(7, OnePage()))));
    Onward(Waiting(w, 0, asked), Load(0, Answer(7)), Returned());
  }

  lemma AskStep(w: World, asked: Fetch)
    requires WellFormed(w) && HERE in w.vmas && HERE !in w.table && w.pending == Idle()
    requires asked == Fetch(HERE, w.vmas[HERE], None, None)
    ensures Scoped(w, Fault(0, HERE, false, Answer(7)))
    ensures Next(w, Fault(0, HERE, false, Answer(7))) == Waiting(w, 0, asked)
  {
  }

  lemma UnmapStep()
    requires WellFormed(Staged())
    ensures Next(Staged(), UnmapPage(HERE)) == Bare()
  {
    var w := Staged();
    assert w.vmas - {HERE} == map[] && w.table - {HERE} == map[];
    assert w.ram - {7} == map[] && w.count - {7} == map[];
  }

  function Revived(): World
  {
    Page0(FILE, map[HERE := FreshPte(7, true)], map[7 := OnePage()], map[7 := 1], map[3 := ZeroPage()],
          {Flight(HERE, 7, 3)}, Idle())
  }

  lemma ReviveStep()
    requires WellFormed(Returned())
    ensures !Scoped(Returned(), Settle(0, true)) && Next(Returned(), Settle(0, true)) == Revived()
    ensures WellFormed(Revived()) && OwnPage(Revived(), HERE) == OnePage()
  {
    OneIsNotZero();
    var w, fl := Returned(), Flight(HERE, 7, 3);
    assert fl in w.flights && fl.frame == 7 && w.swap[fl.slot] != OnePage();
    assert MeetsStaleFlight(w, HERE, 7, OnePage(), false);
    assert w.pending.fetches - {0} == map[];
  }

  /** Frame 7 comes back to the page while its old eviction is in flight: the commit
      replaces the file's page by the old one. */
  lemma StaleCommitReachable()
    ensures Reachable(Returned()) && WellFormed(Returned()) && !Scoped(Returned(), Settle(0, true))
    ensures var w1 := SettleNext(Returned(), 0, true);
            WellFormed(w1) && HERE in w1.vmas && OwnPage(w1, HERE) == OnePage() &&
            var w2 := EvictCommitNext(w1, Flight(HERE, 7, 3), true);
            HERE in w2.table && w2.table[HERE] == Swapped(3) && w2.swap[3] == ZeroPage()
  {
    ReturnedReachable();
    ReviveStep();
    OneIsNotZero();
    StaleCommitShows(Revived(), Flight(HERE, 7, 3));
  }

  // ---------------------------------------------------------------- two threads, one swapped page

  /** The fault of the slow thread: it has read the page from slot 3 into frame 8. */
  function Slow(): Fetch
  {
    Fetch(HERE, READ_WRITE, Some(3), Some(Hand(8, ZeroPage())))
  }

  function Asked(): Fetch
  {
    Fetch(HERE, READ_WRITE, Some(3), None)
  }

  /** The page while the slow thread sleeps. */
  function Meanwhile(table: map<Loc, Pte>, ram: map<Frame, Page>, count: map<Frame, nat>, swap: map<Slot, Page>,
                     flights: set<Flight>, preps: map<Tid, Prep>): World
  {
    Page0(READ_WRITE, table, ram, count, swap, flights, Pending(preps, map[1 := Slow()]))
  }

  function SwappedOut(pending: Pending): World
  {
    Page0(READ_WRITE, map[HERE := Swapped(3)], map[], map[], map[3 := ZeroPage()], {}, pending)
  }

  lemma CommitStep(w: World, w': World, f: Frame, slot: Slot, c: Page, pending: Pending)
    requires w == Page0(READ_WRITE, map[HERE := FreshPte(f, true)], map[f := c], map[f := 1], map[slot := c],
                        {Flight(HERE, f, slot)}, pending)
    requires WellFormed(w)
    requires w' == Page0(READ_WRITE, map[HERE := Swapped(slot)], map[], map[], map[slot := c], {}, pending)
    ensures Next(w, EvictCommit(Flight(HERE, f, slot), true)) == w'
  {
    assert w.table[HERE := Swapped(slot)] == w'.table;
    assert w.ram - {f} == map[] && w.count - {f} == map[] && w.flights - {Flight(HERE, f, slot)} == {};
  }

  lemma OutReachable()
    ensures Reachable(SwappedOut(Idle())) && Inv(SwappedOut(Idle()))
  {
    StagedReachable();
    CommitStep(Staged(), SwappedOut(Idle()), 7, 3, ZeroPage(), Idle());
    Onward(Staged(), EvictCommit(Flight(HERE, 7, 3), true), SwappedOut(Idle()));
  }

  lemma AskSwapped(fetches: map<Tid, Fetch>, t: Tid)
    requires t !in fetches && WellFormed(SwappedOut(Pending(map[], fetches)))
    ensures var w := SwappedOut(Pending(map[], fetches)); var st := Fault(t, HERE, true, Answer(8));
            Scoped(w, st) && Next(w, st) == SwappedOut(Pending(map[], fetches[t := Asked()]))
  {
  }

  lemma LoadSwapped(fetches: map<Tid, Fetch>, t: Tid, f: Frame)
    requires WellFormed(SwappedOut(Pending(map[], fetches))) && t in fetches && fetches[t] == Asked()
    requires !InHand(fetches, f)
    ensures var w := SwappedOut(Pending(map[], fetches));
            Next(w, Load(t, Answer(f)))
            == SwappedOut(Pending(map[], fetches[t := Asked().(hand := Some(Hand(f, ZeroPage())))]))
  {
    var w := SwappedOut(Pending(map[], fetches));
    assert HERE in w.table && w.table[HERE] == Swapped(3);
    assert InTable(w.table, 3);
  }

  lemma AskReaches(fetches: map<Tid, Fetch>, t: Tid)
    requires t !in fetches && Reachable(SwappedOut(Pending(map[], fetches)))
    ensures Reachable(SwappedOut(Pending(map[], fetches[t := Asked()])))
  {
    ReachedInv(SwappedOut(Pending(map[], fetches)));
    AskSwapped(fetches, t);
    Onward(SwappedOut(Pending(map[], fetches)), Fault(t, HERE, true, Answer(8)),
           SwappedOut(Pending(map[], fetches[t := Asked()])));
  }

  lemma LoadReaches(fetches: map<Tid, Fetch>, t: Tid, f: Frame)
    requires Reachable(SwappedOut(Pending(map[], fetches))) && t in fetches && fetches[t] == Asked()
    requires !InHand(fetches, f)
    ensures Reachable(SwappedOut(Pending(map[], fetches[t := Asked().(hand := Some(Hand(f, ZeroPage())))])))
  {
    ReachedInv(SwappedOut(Pending(map[], fetches)));
    LoadSwapped(fetches, t, f);
    Onward(SwappedOut(Pending(map[], fetches)), Load(t, Answer(f)),
           SwappedOut(Pending(map[], fetches[t := Asked().(hand := Some(Hand(f, ZeroPage())))])));
  }

  lemma StillFree(fetches: map<Tid, Fetch>, t: Tid, f: Frame)
    requires !InHand(fetches, f)
    ensures !InHand(fetches[t := Asked()], f)
  {
    var asked := fetches[t := Asked()];
    forall u | u in asked ensures !Holds(asked, u, f) {
      assert u != t ==> u in fetches && Holds(fetches, u, f) == Holds(asked, u, f);
    }
  }

  lemma UpdateTwice(fetches: map<Tid, Fetch>, t: Tid, a: Fetch, b: Fetch)
    ensures fetches[t := a][t := b] == fetches[t := b]
  {
  }

  /** A thread faults on the swapped page and reads it into frame `f`. */
  lemma FetchReaches(fetches: map<Tid, Fetch>, t: Tid, f: Frame)
    requires Reachable(SwappedOut(Pending(map[], fetches))) && t !in fetches && !InHand(fetches, f)
    ensures Reachable(SwappedOut(Pending(map[], fetches[t := Asked().(hand := Some(Hand(f, ZeroPage())))])))
  {
    AskReaches(fetches, t);
    StillFree(fetches, t, f);
    LoadReaches(fetches[t := Asked()], t, f);
    UpdateTwice(fetches, t, Asked(), Asked().(hand := Some(Hand(f, ZeroPage()))));
  }

  function Quick(): Fetch
  {
    Asked().(hand := Some(Hand(9, ZeroPage())))
  }

  lemma SlowReachable()
    ensures Reachable(SwappedOut(Pending(map[], map[1 := Slow()])))
  {
    OutReachable();
    FetchReaches(map[], 1, 8);
    assert Slow() == Asked().(hand := Some(Hand(8, ZeroPage())));
  }

  lemma BothReachable()
    ensures Reachable(SwappedOut(Pending(map[], map[1 := Slow(), 2 := Quick()])))
  {
    SlowReachable();
    assert !InHand(map[1 := Slow()], 9);
    FetchReaches(map[1 := Slow()], 2, 9);
    assert map[1 := Slow()][2 := Quick()] == map[1 := Slow(), 2 := Quick()];
  }

  /** The quick thread has the page back in frame 9. */
  function Back(): World
  {
    Meanwhile(map[HERE := FreshPte(9, true)], map[9 := ZeroPage()], map[9 := 1], map[], {}, map[])
  }

  lemma BackStep()
    requires WellFormed(SwappedOut(Pending(map[], map[1 := Slow(), 2 := Quick()])))
    ensures var w := SwappedOut(Pending(map[], map[1 := Slow(), 2 := Quick()]));
            Scoped(w, Settle(2, true)) && Next(w, Settle(2, true)) == Back()
  {
    var w := SwappedOut(Pending(map[], map[1 := Slow(), 2 := Quick()]));
    assert w.pending.fetches - {2} == map[1 := Slow()];
    assert w.swap - {3} == map[];
    assert w.table[HERE := FreshPte(9, true)] == map[HERE := FreshPte(9, true)];
  }

  /** It stores a one, and the page is evicted again, to slot 4. */
  function Written(): World
  {
    Back().(table := map[HERE := Present(9, true, false, true, true)], ram := map[9 := OnePage()])
  }

  function Cleared(): World
  {
    Meanwhile(map[HERE := Present(9, true, false, true, false)], map[9 := OnePage()], map[9 := 1], map[], {},
              map[2 := Prep(HERE, 9)])
  }

  function Copied(): World
  {
    Meanwhile(map[HERE := Present(9, true, false, true, false)], map[9 := OnePage()], map[9 := 1], map[4 := OnePage()],
              {Flight(HERE, 9, 4)}, map[])
  }

  function Ahead(): World
  {
    Meanwhile(map[HERE := Swapped(4)], map[], map[], map[4 := OnePage()], {}, map[])
  }

  lemma WrittenStep()
    requires WellFormed(Back())
    ensures Next(Back(), Store(HERE, 0, 1)) == Written()
  {
    assert Back().ram[9 := OnePage()] == Written().ram;
    assert Back().table[HERE := Present(9, true, false, true, true)] == Written().table;
  }

  lemma ClearedStep()
    requires WellFormed(Written())
    ensures Scoped(Written(), EvictStage(2, HERE, true)) && Next(Written(), EvictStage(2, HERE, true)) == Cleared()
  {
    assert Evictable(Written(), HERE);
    assert Written().table[HERE := Present(9, true, false, true, false)] == Cleared().table;
  }

  lemma CopiedStep()
    requires WellFormed(Cleared())
    ensures Scoped(Cleared(), EvictWrite(2, Some(4), ZeroPage()))
    ensures Next(Cleared(), EvictWrite(2, Some(4), ZeroPage())) == Copied()
  {
    assert map[2 := Prep(HERE, 9)] - {2} == map[];
  }

  lemma AheadStep()
    requires WellFormed(Copied())
    ensures Next(Copied(), EvictCommit(Flight(HERE, 9, 4), true)) == Ahead()
  {
    var w := Copied();
    assert w.table[HERE := Swapped(4)] == Ahead().table;
    assert w.ram - {9} == map[] && w.count - {9} == map[] && w.flights - {Flight(HERE, 9, 4)} == {};
  }

  lemma WrittenReachable()
    ensures Reachable(Written()) && Inv(Written())
  {
    BothReachable();
    ReachedInv(SwappedOut(Pending(map[], map[1 := Slow(), 2 := Quick()])));
    BackStep();
    Onward(SwappedOut(Pending(map[], map[1 := Slow(), 2 := Quick()])), Settle(2, true), Back());
    WrittenStep();
    Onward(Back(), Store(HERE, 0, 1), Written());
  }

  lemma AheadReachable()
    ensures Reachable(Ahead()) && Inv(Ahead())
  {
    WrittenReachable();
    ClearedStep();
    Onward(Written(), EvictStage(2, HERE, true), Cleared());
    CopiedStep();
    Onward(Cleared(), EvictWrite(2, Some(4), ZeroPage()), Copied());
    AheadStep();
    Onward(Copied(), EvictCommit(Flight(HERE, 9, 4), true), Ahead());
  }

  function RolledBack(): World
  {
    Page0(READ_WRITE, map[HERE := FreshPte(8, true)], map[8 := ZeroPage()], map[8 := 1], map[4 := OnePage()], {},
          Idle())
  }

  lemma RollBackStep()
    requires WellFormed(Ahead())
    ensures OwnPage(Ahead(), HERE) == OnePage() && !Scoped(Ahead(), Settle(1, true))
    ensures SettleNext(Ahead(), 1, true) == RolledBack()
  {
    assert map[1 := Slow()] - {1} == map[];
    assert Ahead().swap - {3} == Ahead().swap;
    assert Ahead().table[HERE := FreshPte(8, true)] == RolledBack().table;
  }

  lemma RolledBackIs()
    ensures var w := RolledBack();
            && WellFormed(w) && HERE in w.vmas && OwnPage(w, HERE) == ZeroPage()
            && 4 in w.swap && !InTable(w.table, 4) && !InFlight(w.flights, 4)
  {
  }

  /** Two threads fault on one swapped page. The slow one wakes up after the quick one
      has stored to the page and it has been swapped out again, and maps what it read
      before: the store is lost and slot 4 belongs to nobody. */
  lemma SwapInRaceReachable()
    ensures Reachable(Ahead()) && WellFormed(Ahead()) && OwnPage(Ahead(), HERE) == OnePage()
    ensures !Scoped(Ahead(), Settle(1, true))
    ensures var w' := SettleNext(Ahead(), 1, true);
            && WellFormed(w') && HERE in w'.vmas && OwnPage(w', HERE) == ZeroPage() != OnePage()
            && 4 in w'.swap && !InTable(w'.table, 4) && !InFlight(w'.flights, 4)
  {
    AheadReachable();
    RollBackStep();
    RolledBackIs();
    OneIsNotZero();
  }
}
