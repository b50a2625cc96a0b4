/** The machine of `UserMemory` refines a memory of plain pages: every step has
    exactly its abstract effect, and that holds precisely under `Scoped`. */
module UserMemoryRefinement {
  import opened UserMemory
  import opened UserMemoryProofs

  // ---------------------------------------------------------------- comparing views

  /** Frames and slots in use on both sides hold the same bytes. */
  ghost predicate Agree(w: World, w': World)
  {
    && (forall f :: f in w.ram && f in w'.ram ==> w'.ram[f] == w.ram[f])
    && (forall slot :: slot in w.swap && slot in w'.swap ==> w'.swap[slot] == w.swap[slot])
  }

  lemma OwnKept(w: World, w': World, l: Loc, m: Loc)
    requires WellFormed(w) && WellFormed(w') && SameBut(w, w', l) && Agree(w, w')
    requires m != l && m in w.vmas
    ensures m in w'.vmas && w'.vmas[m] == w.vmas[m] && OwnPage(w', m) == OwnPage(w, m)
  {
    SameButAt(w, w', l, m);
    if m in w.table {
      assert Backed(w, w.table[m]) && Backed(w', w'.table[m]);
    }
  }

  lemma SharedKept(w: World, w': World)
    requires WellFormed(w) && WellFormed(w') && w'.objects == w.objects && Agree(w, w')
    ensures SharedPages(w') == SharedPages(w)
  {
  }

  /** Away from `l` the private pages are unchanged. */
  lemma OwnElsewhere(w: World, w': World, l: Loc)
    requires WellFormed(w) && WellFormed(w') && SameBut(w, w', l) && Agree(w, w')
    ensures OwnPages(w') - {l} == OwnPages(w) - {l}
  {
    var a, b := OwnPages(w) - {l}, OwnPages(w') - {l};
    forall m
      ensures m in a <==> m in b
      ensures m in a ==> b[m] == a[m]
    {
      if m != l && m in w.vmas {
        OwnKept(w, w', l, m);
      } else if m != l {
        SameButAt(w, w', l, m);
      }
    }
  }

  lemma MapsSplit<T>(a: map<Loc, T>, b: map<Loc, T>, l: Loc)
    requires a - {l} == b - {l}
    requires l in a <==> l in b
    requires l in a ==> a[l] == b[l]
    ensures a == b
  {
    forall m
      ensures m in a <==> m in b
      ensures m in a ==> a[m] == b[m]
    {
      if m != l {
        assert m in a <==> m in a - {l};
        assert m in b <==> m in b - {l};
        assert m in a ==> (a - {l})[m] == (b - {l})[m];
      }
    }
  }

  /** The private pages are those of `w`, with `l` as `w'` has it. */
  lemma OwnAt(w: World, w': World, l: Loc, own: map<Loc, Page>)
    requires WellFormed(w) && WellFormed(w') && SameBut(w, w', l) && Agree(w, w')
    requires own - {l} == OwnPages(w) - {l}
    requires l in own <==> l in w'.vmas && !w'.vmas[l].kind.Shared?
    requires l in own ==> own[l] == OwnPage(w', l)
    ensures OwnPages(w') == own
  {
    OwnElsewhere(w, w', l);
    MapsSplit(OwnPages(w'), own, l);
  }

  lemma ViewKept(w: World, w': World, l: Loc)
    requires WellFormed(w) && WellFormed(w') && SameBut(w, w', l) && Agree(w, w') && w'.vmas == w.vmas
    requires SharedPages(w') == SharedPages(w)
    requires l in w.vmas && !w.vmas[l].kind.Shared? ==> OwnPage(w', l) == OwnPage(w, l)
    ensures View(w') == View(w)
  {
    OwnAt(w, w', l, OwnPages(w));
  }

  // ---------------------------------------------------------------- silent steps

  lemma FaultSilent(w: World, t: Tid, l: Loc, write: bool, sup: Supply)
    requires Inv(w) && FaultScoped(w, t, l, write, sup)
    ensures WellFormed(FaultNext(w, t, l, write, sup))
    ensures View(FaultNext(w, t, l, write, sup)) == View(w)
  {
    var w' := FaultNext(w, t, l, write, sup);
    FaultKeepsInv(w, t, l, write, sup);
    if t !in w.pending.fetches {
      match FaultPlan(w, l, write, sup)
      case CopyTo(f) => CopyToSilent(w, w', t, l, write, sup, f);
      case TakeOver => EntryFlagsSilent(w, w', l);
      case Start(fetch) => TablesSilent(w, w');
      case _ =>
    }
  }

  /** Where the tables and what they refer to are the same, so is what programs see. */
  ghost predicate SameTablesSeen(w: World, w': World)
  {
    && w'.spaces == w.spaces && w'.vmas == w.vmas && w'.table == w.table && w'.ram == w.ram && w'.objects == w.objects
    && (forall slot :: slot in w.swap ==> slot in w'.swap && w'.swap[slot] == w.swap[slot])
  }

  lemma TablesSilent(w: World, w': World)
    requires WellFormed(w) && WellFormed(w') && SameTablesSeen(w, w')
    ensures View(w') == View(w)
  {
    SharedKept(w, w');
    assert OwnPages(w') == OwnPages(w) by {
      forall m | m in w.vmas ensures OwnPage(w', m) == OwnPage(w, m) {
        if m in w.table { assert Backed(w, w.table[m]); }
      }
    }
  }

  lemma EntryFlagsSilent(w: World, w': World, l: Loc)
    requires WellFormed(w) && WellFormed(w') && l in w.table && w.table[l].Present? && l in w'.table
    requires Maps(w'.table[l], w.table[l].frame) && w' == w.(table := w.table[l := w'.table[l]], pending := w'.pending)
    ensures View(w') == View(w)
  {
    SharedKept(w, w');
    ViewKept(w, w', l);
  }

  lemma CopyToSilent(w: World, w': World, t: Tid, l: Loc, write: bool, sup: Supply, f: Frame)
    requires WellFormed(w) && WellFormed(w') && (forall g :: g in w.count ==> w.count[g] > 0)
    requires t !in w.pending.fetches && FaultPlan(w, l, write, sup) == CopyTo(f) && w' == FaultNext(w, t, l, write, sup)
    ensures View(w') == View(w)
  {
    CopyToPlan(w, w', t, l, write, sup, f, w.table[l].frame);
    SharedKept(w, w');
    ViewKept(w, w', l);
  }

  lemma LoadSilent(w: World, t: Tid, sup: Supply)
    requires Inv(w)
    ensures WellFormed(LoadNext(w, t, sup)) && View(LoadNext(w, t, sup)) == View(w)
  {
    LoadKeepsInv(w, t, sup);
    LoadFields(w, LoadNext(w, t, sup), t, sup);
    TablesSilent(w, LoadNext(w, t, sup));
  }

  /** The frame that a fault maps holds the page it is mapped at. */
  lemma SettleSilent(w: World, t: Tid, mapOk: bool)
    requires Inv(w) && SettleScoped(w, t, mapOk)
    ensures WellFormed(SettleNext(w, t, mapOk)) && View(SettleNext(w, t, mapOk)) == View(w)
  {
    var w' := SettleNext(w, t, mapOk);
    SettleKeepsInv(w, t, mapOk);
    if t in w.pending.fetches && w.pending.fetches[t].hand.Some? {
      var f := w.pending.fetches[t].hand.value.frame;
      assert Holds(w.pending.fetches, t, f);
      SettledView(w, w', w.pending.fetches[t], mapOk);
    }
  }

  lemma SettledView(w: World, w': World, fetch: Fetch, mapOk: bool)
    requires WellFormed(w) && WellFormed(w') && fetch.hand.Some? && Settles(w, fetch, mapOk)
    requires fetch.hand.value.frame !in w.ram
    requires var l, f := fetch.loc, fetch.hand.value.frame;
             w' == w.(table := w.table[l := FreshPte(f, fetch.vma.prot.write)], swap := w.swap - SlotSet(fetch.origin),
                      ram := w.ram[f := fetch.hand.value.contents], count := w.count[f := 1], pending := w'.pending)
    ensures View(w') == View(w)
  {
    SharedKept(w, w');
    ViewKept(w, w', fetch.loc);
  }

  lemma JoinSilent(w: World, t: Tid, sup: Supply)
    requires Inv(w) && JoinScoped(w, t, sup)
    ensures WellFormed(JoinNext(w, t, sup)) && View(JoinNext(w, t, sup)) == View(w)
  {
    var w' := JoinNext(w, t, sup);
    JoinKeepsInv(w, t, sup);
    if Joining(w, t, sup) {
      JoinedView(w, w', t, w.pending.fetches[t], sup);
    } else {
      assert w' == w.(pending := w'.pending);
      TablesSilent(w, w');
    }
  }

  lemma JoinedView(w: World, w': World, t: Tid, fetch: Fetch, sup: Supply)
    requires WellFormed(w) && WellFormed(w') && Joining(w, t, sup) && fetch == w.pending.fetches[t]
    requires Joins(w, fetch, sup)
    requires w' == JoinNext(w, t, sup)
    ensures View(w') == View(w)
  {
    var k := fetch.vma.kind.key;
    if k in w.objects {
      var f := w.objects[k];
      OldJoinIs(w, w', t, sup, fetch, f);
      OldJoinView(w, w', fetch.loc, f, FreshPte(f, fetch.vma.prot.write));
    } else {
      var f := sup.frame.value;
      NewJoinIs(w, w', t, sup, fetch, f);
      NewJoinView(w, w', fetch.loc, k, f, FreshPte(f, fetch.vma.prot.write));
    }
  }

  lemma OldJoinView(w: World, w': World, l: Loc, f: Frame, e: Pte)
    requires WellFormed(w) && WellFormed(w') && l in w.vmas && w.vmas[l].kind.Shared? && f in w.count
    requires w' == w.(table := w.table[l := e], count := w.count[f := w.count[f] + 1], pending := w'.pending)
    ensures View(w') == View(w)
  {
    SharedKept(w, w');
    ViewKept(w, w', l);
  }

  lemma NewJoinView(w: World, w': World, l: Loc, k: Key, f: Frame, e: Pte)
    requires WellFormed(w) && WellFormed(w') && l in w.vmas && w.vmas[l].kind.Shared? && f !in w.ram && k !in w.objects
    requires w' == w.(ram := w.ram[f := ZeroPage()], objects := w.objects[k := f], table := w.table[l := e],
                      count := w.count[f := 1][f := 2], pending := w'.pending)
    ensures View(w') == View(w)
  {
    NewObjectView(w, w', k);
    ViewKept(w, w', l);
  }

  lemma NewObjectView(w: World, w': World, k: Key)
    requires WellFormed(w) && WellFormed(w') && Agree(w, w') && k !in w.objects && k in w'.objects
    requires w'.objects == w.objects[k := w'.objects[k]] && w'.ram[w'.objects[k]] == ZeroPage()
    ensures SharedPages(w') == SharedPages(w)
  {
  }

  lemma StageSilent(w: World, t: Tid, l: Loc, force: bool)
    requires WellFormed(w) && WellFormed(EvictStageNext(w, t, l, force))
    ensures View(EvictStageNext(w, t, l, force)) == View(w)
  {
    if t !in w.pending.preps && Evictable(w, l) {
      EntryFlagsSilent(w, EvictStageNext(w, t, l, force), l);
    }
  }

  lemma WriteSilent(w: World, t: Tid, slot: Option<Slot>, other: Page)
    requires WellFormed(w) && WellFormed(EvictWriteNext(w, t, slot, other))
    ensures View(EvictWriteNext(w, t, slot, other)) == View(w)
  {
    TablesSilent(w, EvictWriteNext(w, t, slot, other));
  }

  lemma CommitSilent(w: World, fl: Flight, charged: bool)
    requires WellFormed(w) && WellFormed(EvictCommitNext(w, fl, charged))
    requires fl in w.flights ==> FlightOk(w, fl)
    ensures View(EvictCommitNext(w, fl, charged)) == View(w)
  {
    var w' := EvictCommitNext(w, fl, charged);
    SharedKept(w, w');
    ViewKept(w, w', fl.loc);
  }

  // ---------------------------------------------------------------- writes

  ghost predicate Overwrites(w: World, w': World, l: Loc, off: nat, data: seq<Byte>)
  {
    && off + |data| <= PAGE_SIZE
    && l in w.table && w.table[l].Present? && w.table[l].frame in w.ram
    && l in w'.table && Maps(w'.table[l], w.table[l].frame)
    && w' == w.(ram := w.ram[w.table[l].frame := Splice(w.ram[w.table[l].frame], off, data)],
                table := w.table[l := w'.table[l]])
  }

  /** A write through an entry lands in one private page or one shared page. */
  lemma WriteView(w: World, w': World, l: Loc, off: nat, data: seq<Byte>)
    requires Inv(w) && WellFormed(w') && Overwrites(w, w', l, off, data) && w.table[l].writable
    ensures View(w') == Write(View(w), l, off, data)
  {
    assert KindOk(w, l);
    if w.vmas[l].kind.Shared? {
      WriteSharedView(w, w', l, off, data);
    } else {
      WriteOwnView(w, w', l, off, data);
    }
  }

  lemma WriteOwnView(w: World, w': World, l: Loc, off: nat, data: seq<Byte>)
    requires WellFormed(w) && WellFormed(w') && Exclusive(w) && Overwrites(w, w', l, off, data)
    requires KindOk(w, l) && OwnsFrame(w, l)
    ensures OwnPages(w') == OwnPages(w)[l := Splice(OwnPages(w)[l], off, data)]
    ensures SharedPages(w') == SharedPages(w)
  {
    var f := w.table[l].frame;
    forall m | m in w.vmas ensures m != l ==> OwnPage(w', m) == OwnPage(w, m) {
      if m != l && m in w.table {
        assert !Maps(w.table[m], f);
        assert Backed(w, w.table[m]);
      }
    }
    forall k ensures SharedPage(w', k) == SharedPage(w, k) {
      assert k in w.objects ==> w.objects[k] != f;
    }
  }

  lemma WriteSharedView(w: World, w': World, l: Loc, off: nat, data: seq<Byte>)
    requires WellFormed(w) && WellFormed(w') && Kinds(w) && Overwrites(w, w', l, off, data)
    requires w.vmas[l].kind.Shared?
    ensures OwnPages(w') == OwnPages(w)
    ensures var k := w.vmas[l].kind.key; SharedPages(w') == SharedPages(w)[k := Splice(SharedPages(w)[k], off, data)]
  {
    assert KindOk(w, l);
    forall m | m in w.vmas && !w.vmas[m].kind.Shared? ensures OwnPage(w', m) == OwnPage(w, m) {
      if m in w.table {
        assert KindOk(w, m) && Backed(w, w.table[m]);
      }
    }
  }

  // ---------------------------------------------------------------- regions

  /** Only the region page and the entry at `l` change. */
  ghost predicate OneRegionPage(w: World, w': World, l: Loc)
  {
    SameBut(w, w', l) && Agree(w, w') && w'.objects == w.objects
  }

  lemma UnmapFields(w: World, l: Loc)
    requires WellFormed(w)
    ensures OneRegionPage(w, UnmapPageNext(w, l), l) && UnmapPageNext(w, l).vmas == w.vmas - {l}
  {
  }

  lemma UnmapView(w: World, w': World, l: Loc)
    requires WellFormed(w) && WellFormed(w') && OneRegionPage(w, w', l) && w'.vmas == w.vmas - {l}
    ensures SharedPages(w') == SharedPages(w) && OwnPages(w') == OwnPages(w) - {l}
  {
    SharedKept(w, w');
    OwnAt(w, w', l, OwnPages(w) - {l});
  }

  lemma ProtectFields(w: World, l: Loc, prot: Prot)
    requires WellFormed(w)
    ensures OneRegionPage(w, ProtectPageNext(w, l, prot), l)
    ensures l in w.vmas ==> ProtectPageNext(w, l, prot).vmas == w.vmas[l := w.vmas[l].(prot := prot)]
  {
  }

  lemma ProtectView(w: World, w': World, l: Loc, prot: Prot)
    requires WellFormed(w) && WellFormed(w') && l in w.vmas && OneRegionPage(w, w', l)
    requires w' == ProtectPageNext(w, l, prot)
    ensures SharedPages(w') == SharedPages(w) && OwnPages(w') == OwnPages(w)
  {
    SharedKept(w, w');
    OwnAt(w, w', l, OwnPages(w));
  }

  lemma MapView(w: World, w': World, l: Loc, v: Vma)
    requires WellFormed(w) && WellFormed(w') && l !in w.vmas && l !in w.table
    requires w' == w.(vmas := w.vmas[l := v])
    ensures SharedPages(w') == SharedPages(w)
    ensures OwnPages(w') == if v.kind.Shared? then OwnPages(w) else OwnPages(w)[l := InitialPage(v.kind)]
  {
    SharedKept(w, w');
    OwnAt(w, w', l, if v.kind.Shared? then OwnPages(w) else OwnPages(w)[l := InitialPage(v.kind)]);
  }

  lemma ReleaseView(w: World, s: SpaceId)
    requires WellFormed(w) && WellFormed(Next(w, ReleaseSpace(s)))
    ensures View(Next(w, ReleaseSpace(s))) == SpecNext(View(w), ReleaseSpace(s), !Busy(w, s))
  {
    var w' := Next(w, ReleaseSpace(s));
    if !Busy(w, s) {
      ReleasedView(w, w', s);
    }
  }

  lemma ReleasedView(w: World, w': World, s: SpaceId)
    requires WellFormed(w) && WellFormed(w')
    requires w' == w.(spaces := w.spaces - {s}, vmas := Without(w.vmas, s), table := Without(w.table, s))
    ensures OwnPages(w') == Without(OwnPages(w), s) && SharedPages(w') == SharedPages(w)
  {
    SharedKept(w, w');
  }

  lemma DropView(w: World, k: Key)
    requires Inv(w) && WellFormed(Next(w, DropKey(k)))
    ensures View(Next(w, DropKey(k))) == SpecNext(View(w), DropKey(k), !ObjectHeld(w, k.obj))
  {
    var w' := Next(w, DropKey(k));
    if !ObjectHeld(w, k.obj) {
      if k in w.objects {
        DroppedUnmapped(w, k);
        forall m | m in w.vmas ensures OwnPage(w', m) == OwnPage(w, m) {
          if m in w.table {
            assert Backed(w, w.table[m]);
          }
        }
        assert OwnPages(w') == OwnPages(w);
      }
      assert SharedPages(w') == SharedPages(w)[k := ZeroPage()];
    }
  }

  // ---------------------------------------------------------------- fork

  /** The child's page shows what the parent's shows. */
  lemma SharePageView(w: World, w': World, l: Loc, c: Loc)
    requires WellFormed(w) && WellFormed(w') && l in w.vmas && c !in w.vmas
    requires SameBut(w, w', c) && Agree(w, w') && w'.objects == w.objects
    requires w'.vmas == w.vmas[c := w.vmas[l]]
    requires OwnPage(w', c) == OwnPage(w, l)
    ensures SharedPages(w') == SharedPages(w)
    ensures OwnPages(w') == if l in OwnPages(w) then OwnPages(w)[c := OwnPages(w)[l]] else OwnPages(w)
  {
    SharedKept(w, w');
    OwnAt(w, w', c, if l in OwnPages(w) then OwnPages(w)[c := OwnPages(w)[l]] else OwnPages(w));
  }

  lemma MarkCowSilent(w: World, w': World, l: Loc)
    requires WellFormed(w) && WellFormed(w') && l in w.table && w.table[l].Present?
    requires w' == w.(table := w.table[l := ForkedPte(w.table[l], w.vmas[l].kind.Shared?)])
    ensures SharedPages(w') == SharedPages(w) && OwnPages(w') == OwnPages(w)
  {
    SharedKept(w, w');
    OwnAt(w, w', l, OwnPages(w));
  }

  ghost predicate ForkEffect(w: World, w': World, l: Loc, c: Loc)
    requires WellFormed(w) && WellFormed(w') && l in w.vmas
  {
    && w'.spaces == w.spaces && w'.vmas == w.vmas[c := w.vmas[l]]
    && SharedPages(w') == SharedPages(w)
    && OwnPages(w') == if l in OwnPages(w) then OwnPages(w)[c := OwnPages(w)[l]] else OwnPages(w)
  }

  lemma ForkPresentView(w: World, w': World, l: Loc, child: SpaceId)
    requires WellFormed(w) && l in w.table && w.table[l].Present? && WellFormed(w')
    requires child in w.spaces && Loc(child, l.vpn) !in w.vmas
    requires w' == ForkPageNext(w, l, child, w.vmas[l], true)
    ensures ForkEffect(w, w', l, Loc(child, l.vpn))
  {
    var c := Loc(child, l.vpn);
    var w1 := w.(table := w.table[l := ForkedPte(w.table[l], w.vmas[l].kind.Shared?)]);
    ForkPresentIs(w, w1, w', l, child);
    MarkCowSilent(w, w1, l);
    SharePageView(w1, w', l, c);
  }

  lemma ForkAbsentView(w: World, w': World, l: Loc, c: Loc)
    requires WellFormed(w) && WellFormed(w') && l in w.vmas && c !in w.vmas
    requires w' == w.(vmas := w.vmas[c := w.vmas[l]])
    requires OwnPage(w, l) == InitialPage(w.vmas[l].kind) || w.vmas[l].kind.Shared?
    ensures ForkEffect(w, w', l, c)
  {
    SharedKept(w, w');
    OwnAt(w, w', c, if l in OwnPages(w) then OwnPages(w)[c := OwnPages(w)[l]] else OwnPages(w));
  }

  lemma ForkEffectView(w: World, w': World, l: Loc, child: SpaceId, vma: Vma, ok: bool)
    requires WellFormed(w) && WellFormed(w') && l in w.vmas && child in w.spaces && Loc(child, l.vpn) !in w.vmas
    requires ForkEffect(w, w', l, Loc(child, l.vpn))
    ensures View(w') == SpecNext(View(w), ForkPage(l, child, vma, ok), true)
  {
  }

  lemma ForkView(w: World, l: Loc, child: SpaceId, vma: Vma, ok: bool)
    requires Inv(w) && ForkScoped(w, l, child, vma, ok)
    ensures WellFormed(ForkPageNext(w, l, child, vma, ok))
    ensures View(ForkPageNext(w, l, child, vma, ok)) == SpecNext(View(w), ForkPage(l, child, vma, ok), true)
  {
    var c, w' := Loc(child, l.vpn), ForkPageNext(w, l, child, vma, ok);
    ForkKeepsInv(w, l, child, vma, ok);
    if child in w.spaces && c !in w.vmas {
      if l in w.table && w.table[l].Present? {
        ForkPresentView(w, w', l, child);
      } else {
        ForkAbsentView(w, w', l, c);
      }
      ForkEffectView(w, w', l, child, vma, ok);
    } else {
      assert w' == w;
    }
  }

  // ---------------------------------------------------------------- the simulation

  lemma WritesRefine(w: World, st: Step)
    requires Inv(w) && Scoped(w, st) && (st.Store? || st.KernelCopy?) && WellFormed(Next(w, st))
    ensures View(Next(w, st)) == SpecNext(View(w), st, Effective(w, st))
  {
    if Effective(w, st) {
      assert KindOk(w, st.loc);
      if st.Store? {
        WriteView(w, Next(w, st), st.loc, st.off, [st.value]);
      } else {
        assert Next(w, st).table == w.table[st.loc := w.table[st.loc]];
        WriteView(w, Next(w, st), st.loc, st.off, st.data);
      }
    }
  }

  lemma NewSpaceView(w: World, w': World, s: SpaceId)
    requires WellFormed(w) && WellFormed(w') && w' == w.(spaces := w.spaces + {s})
    ensures View(w') == View(w).(spaces := w.spaces + {s})
  {
    SharedKept(w, w');
    assert OwnPages(w') == OwnPages(w);
  }

  lemma RegionsRefine(w: World, w': World, st: Step)
    requires WellFormed(w) && WellFormed(w') && w' == Next(w, st)
    requires st.NewSpace? || st.MapPage? || st.UnmapPage? || st.ProtectPage?
    ensures View(w') == SpecNext(View(w), st, Effective(w, st))
  {
    match st
    case NewSpace(s) => NewSpaceView(w, w', s);
    case MapPage(l, v) => if w' != w { MapView(w, w', l, v); }
    case UnmapPage(l) =>
      UnmapFields(w, l);
      UnmapView(w, w', l);
    case ProtectPage(l, prot) =>
      if l in w.vmas {
        ProtectFields(w, l, prot);
        ProtectView(w, w', l, prot);
      }
  }

  lemma NextRefines(w: World, st: Step)
    requires Inv(w) && Scoped(w, st)
    ensures Inv(Next(w, st))
    ensures View(Next(w, st)) == SpecNext(View(w), st, Effective(w, st))
  {
    var w' := Next(w, st);
    NextKeepsInv(w, st);
    if st.NewSpace? || st.MapPage? || st.UnmapPage? || st.ProtectPage? {
      RegionsRefine(w, w', st);
    } else if st.Store? || st.KernelCopy? {
      WritesRefine(w, st);
    } else {
      match st
      case Fault(t, l, write, sup) => FaultSilent(w, t, l, write, sup);
      case Load(t, sup) => LoadSilent(w, t, sup);
      case Settle(t, mapOk) => SettleSilent(w, t, mapOk);
      case Join(t, sup) => JoinSilent(w, t, sup);
      case ForkPage(l, child, vma, ok) => ForkView(w, l, child, vma, ok);
      case EvictStage(t, l, force) => StageSilent(w, t, l, force);
      case EvictWrite(t, slot, other) => WriteSilent(w, t, slot, other);
      case EvictCommit(fl, charged) => CommitSilent(w, fl, charged);
      case ReleaseSpace(s) => ReleaseView(w, s);
      case DropKey(k) => DropView(w, k);
    }
  }
}
