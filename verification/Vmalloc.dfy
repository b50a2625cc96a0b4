/** Address space for virtually contiguous kernel memory (`mm/vmalloc.rs`): first
    fit with coalescing over returned ranges, a high-water mark, and an unmapped
    guard page on each side of every allocation. */
module Vmalloc {

  const PAGE := 4096
  const VMALLOC_START := 0xFFFF_C000_0000_0000
  const VMALLOC_END := 0xFFFF_C080_0000_0000

  datatype Option<+T> = None | Some(value: T)

  // ---------------------------------------------------------------- layout

  /** `free` maps the start of a returned range to its length in pages; `held` does
      the same for the ranges handed out by `reserve` and not yet released. */
  datatype Layout = Layout(next: nat, free: map<nat, nat>, held: map<nat, nat>)

  function Initial(): Layout
  {
    Layout(VMALLOC_START, map[], map[])
  }

  function End(start: nat, pages: nat): nat
  {
    start + pages * PAGE
  }

  predicate Tile(l: Layout, a: nat)
  {
    a in l.free || a in l.held
  }

  function TileEnd(l: Layout, a: nat): nat
    requires Tile(l, a)
  {
    End(a, if a in l.free then l.free[a] else l.held[a])
  }

  /** Where the range at `a` ends another one starts, or the used area does. */
  predicate Meets(l: Layout, a: nat)
  {
    Tile(l, a) ==> TileEnd(l, a) == l.next || Tile(l, TileEnd(l, a))
  }

  /** The free range at `a` is as long as it can be. */
  predicate Maximal(l: Layout, a: nat)
  {
    a in l.free ==> End(a, l.free[a]) != l.next && End(a, l.free[a]) !in l.free
  }

  ghost predicate Shape(l: Layout)
  {
    && VMALLOC_START <= l.next <= VMALLOC_END
    && (forall a :: a in l.free ==> a !in l.held)
    && (forall a :: a in l.free ==> l.free[a] >= 1)
    && (forall a :: a in l.held ==> l.held[a] >= 2)
    && (forall a :: Tile(l, a) ==> VMALLOC_START <= a && TileEnd(l, a) <= l.next)
    && (forall a, b :: Tile(l, a) && Tile(l, b) && a < b ==> TileEnd(l, a) <= b)
  }

  /** The ranges lie end to end from the start of the area to `next`, without
      overlap; no two free ranges touch and none reaches `next`. */
  ghost predicate Inv(l: Layout)
  {
    && Shape(l)
    && (l.next == VMALLOC_START || Tile(l, VMALLOC_START))
    && (forall a {:trigger Meets(l, a)} :: Meets(l, a))
    && (forall a {:trigger Maximal(l, a)} :: Maximal(l, a))
  }

  lemma InitialInv()
    ensures Inv(Initial())
  {
  }

  predicate Within(l: Layout, a: nat, addr: nat)
  {
    Tile(l, a) && a <= addr < TileEnd(l, a)
  }

  lemma {:induction false} WalkTo(l: Layout, from: nat, addr: nat) returns (a: nat)
    requires Inv(l) && Tile(l, from) && from <= addr < l.next
    ensures Within(l, a, addr)
    decreases addr - from
  {
    if addr < TileEnd(l, from) {
      a := from;
    } else {
      assert Meets(l, from);
      a := WalkTo(l, TileEnd(l, from), addr);
    }
  }

  /** Every address below `next` lies in exactly one range, free or held. */
  lemma Partition(l: Layout, addr: nat) returns (a: nat)
    requires Inv(l) && VMALLOC_START <= addr < l.next
    ensures Within(l, a, addr)
    ensures forall b :: Within(l, b, addr) ==> b == a
  {
    a := WalkTo(l, VMALLOC_START, addr);
  }

  // ---------------------------------------------------------------- reserve

  predicate Fits(free: map<nat, nat>, total: nat, a: nat)
  {
    a in free && free[a] >= total
  }

  /** The lowest free range that is long enough. */
  ghost predicate FirstFit(free: map<nat, nat>, total: nat, a: nat)
  {
    Fits(free, total, a) && forall b :: Fits(free, total, b) ==> a <= b
  }

  function Carve(l: Layout, a: nat, total: nat): Layout
    requires Fits(l.free, total, a)
  {
    var rest := l.free - {a};
    Layout(
      l.next,
      if l.free[a] > total then rest[End(a, total) := l.free[a] - total] else rest,
      l.held[a := total])
  }

  function Extend(l: Layout, total: nat): Layout
  {
    Layout(End(l.next, total), l.free, l.held[l.next := total])
  }

  lemma CarveTiles(l: Layout, a: nat, total: nat, b: nat)
    requires Inv(l) && total >= 2 && Fits(l.free, total, a)
    ensures var r := Carve(l, a, total); var cut := End(a, total);
            && (Tile(r, b) <==> Tile(l, b) || b == cut < TileEnd(l, a))
            && (b == a ==> TileEnd(r, b) == cut)
            && (b == cut < TileEnd(l, a) ==> !Tile(l, b) && TileEnd(r, b) == TileEnd(l, a))
            && (Tile(l, b) && b != a ==> b != cut || cut == TileEnd(l, a))
            && (Tile(l, b) && b != a ==> TileEnd(r, b) == TileEnd(l, b))
  {
    assert Tile(l, a) && TileEnd(l, a) == End(a, l.free[a]);
    assert Tile(l, b) && a < b ==> TileEnd(l, a) <= b;
  }

  lemma CarveKeepsInv(l: Layout, a: nat, total: nat)
    requires Inv(l) && total >= 2 && Fits(l.free, total, a)
    ensures Inv(Carve(l, a, total))
  {
    var r := Carve(l, a, total);
    assert Meets(l, a) && Maximal(l, a);
    forall b
      ensures Meets(r, b) && Maximal(r, b)
    {
      CarveTiles(l, a, total, b);
      assert Meets(l, b) && Maximal(l, b);
    }
    assert Shape(r) by {
      CarveTiles(l, a, total, End(a, total));
      forall b | Tile(r, b)
        ensures Tile(l, b) || b == End(a, total) < TileEnd(l, a)
        ensures b == a ==> TileEnd(r, b) == End(a, total)
        ensures b == End(a, total) < TileEnd(l, a) ==> !Tile(l, b) && TileEnd(r, b) == TileEnd(l, a)
        ensures Tile(l, b) && b != a ==> TileEnd(r, b) == TileEnd(l, b)
      {
        CarveTiles(l, a, total, b);
      }
    }
  }

  lemma ExtendKeepsInv(l: Layout, total: nat)
    requires Inv(l) && total >= 2 && End(l.next, total) <= VMALLOC_END
    ensures Inv(Extend(l, total))
  {
    var r := Extend(l, total);
    forall b | Tile(r, b) && b != l.next
      ensures Tile(l, b) && TileEnd(r, b) == TileEnd(l, b)
    {
    }
    assert !Tile(l, l.next);
    forall b
      ensures Meets(r, b) && Maximal(r, b)
    {
      assert Meets(l, b) && Maximal(l, b);
    }
  }

  /** `total` pages from `g` on, inside the area and clear of every held range. */
  ghost predicate Gap(l: Layout, g: nat, total: nat)
  {
    && VMALLOC_START <= g && End(g, total) <= VMALLOC_END
    && forall a :: a in l.held ==> End(g, total) <= a || End(a, l.held[a]) <= g
  }

  ghost predicate HasGap(l: Layout, total: nat)
  {
    exists g :: Gap(l, g, total)
  }

  ghost predicate Reservable(l: Layout, total: nat)
  {
    (exists a :: Fits(l.free, total, a)) || End(l.next, total) <= VMALLOC_END
  }

  lemma GapIsReservable(l: Layout, total: nat, g: nat)
    requires Inv(l) && total >= 2 && Gap(l, g, total)
    ensures Reservable(l, total)
  {
    if g < l.next {
      var a := Partition(l, g);
      var e := TileEnd(l, a);
      assert Meets(l, a) && Maximal(l, a);
      assert e in l.held ==> End(g, total) <= e;
      assert Fits(l.free, total, a);
    }
  }

  /** `reserve` fails only when there is no gap of that size anywhere. */
  lemma ReserveComplete(l: Layout, total: nat)
    requires Inv(l) && total >= 2
    ensures Reservable(l, total) <==> HasGap(l, total)
  {
    if Reservable(l, total) {
      if a :| Fits(l.free, total, a) {
        assert Tile(l, a);
        forall b | b in l.held
          ensures End(a, total) <= b || End(b, l.held[b]) <= a
        {
          assert Tile(l, b);
        }
        assert Gap(l, a, total);
      } else {
        forall b | b in l.held
          ensures End(b, l.held[b]) <= l.next
        {
          assert Tile(l, b);
        }
        assert Gap(l, l.next, total);
      }
    } else {
      forall g
        ensures !Gap(l, g, total)
      {
        if Gap(l, g, total) {
          GapIsReservable(l, total, g);
        }
      }
    }
  }

  // ---------------------------------------------------------------- release

  ghost predicate EndsAt(free: map<nat, nat>, a: nat, start: nat)
  {
    a in free && End(a, free[a]) == start
  }

  /** The released range together with the free range after it, if any. */
  function Forward(l: Layout, start: nat): nat
    requires start in l.held
  {
    var e := End(start, l.held[start]);
    if e in l.free then l.held[start] + l.free[e] else l.held[start]
  }

  function DropNext(l: Layout, start: nat): Layout
    requires start in l.held
  {
    Layout(l.next, l.free - {End(start, l.held[start])}, l.held - {start})
  }

  /** Putting a range back once its neighbours are merged into it. */
  function Settle(l: Layout, start: nat, total: nat): Layout
  {
    if End(start, total) == l.next then l.(next := start) else l.(free := l.free[start := total])
  }

  /** `release` when the free range from `a` ends where the released one starts. */
  function ReleaseMerged(l: Layout, start: nat, a: nat): Layout
    requires start in l.held && a in l.free
  {
    var d := DropNext(l, start);
    Settle(d.(free := d.free - {a}), a, l.free[a] + Forward(l, start))
  }

  /** `release` when no free range ends there. */
  function ReleaseAlone(l: Layout, start: nat): Layout
    requires start in l.held
  {
    Settle(DropNext(l, start), start, Forward(l, start))
  }

  /** Where the range that `release` gives back really ends, and what follows. */
  lemma ForwardEnd(l: Layout, start: nat)
    requires Inv(l) && start in l.held
    ensures var e := End(start, Forward(l, start));
            && End(start, l.held[start]) <= e <= l.next
            && (e == l.next || e in l.held)
            && (forall b: nat :: Tile(l, b) && b > start && b != End(start, l.held[start]) ==> e <= b)
  {
    var e := End(start, l.held[start]);
    assert Tile(l, start) && TileEnd(l, start) == e && Meets(l, start);
    if e in l.free {
      assert Meets(l, e) && Maximal(l, e) && TileEnd(l, e) == End(e, l.free[e]);
    }
  }

  lemma DropNextTiles(l: Layout, start: nat, b: nat)
    requires Inv(l) && start in l.held
    ensures var d := DropNext(l, start); var e := End(start, l.held[start]);
            && (Tile(d, b) <==> Tile(l, b) && b != start && !(b == e && e in l.free))
            && (Tile(d, b) ==> TileEnd(d, b) == TileEnd(l, b))
  {
    assert Tile(l, start);
  }

  lemma ReleaseAloneTiles(l: Layout, start: nat, b: nat)
    requires Inv(l) && start in l.held && forall a :: !EndsAt(l.free, a, start)
    ensures var r := ReleaseAlone(l, start); var e := End(start, Forward(l, start));
            && (Tile(r, start) <==> e != l.next)
            && (Tile(r, start) ==> TileEnd(r, start) == e)
            && (b != start ==> (Tile(r, b) <==> Tile(l, b) && !(start < b < e)))
            && (Tile(r, b) && b != start ==> TileEnd(r, b) == TileEnd(l, b) && (TileEnd(l, b) <= start || e <= b))
  {
    ForwardEnd(l, start);
    DropNextTiles(l, start, b);
    DropNextTiles(l, start, start);
    assert Tile(l, start);
  }

  lemma ReleaseAloneKeepsInv(l: Layout, start: nat)
    requires Inv(l) && start in l.held && forall a :: !EndsAt(l.free, a, start)
    ensures Inv(ReleaseAlone(l, start))
  {
    var r := ReleaseAlone(l, start);
    var e := End(start, Forward(l, start));
    ForwardEnd(l, start);
    assert Tile(l, start);
    forall b: nat
      ensures Meets(r, b) && Maximal(r, b)
    {
      ReleaseAloneTiles(l, start, b);
      assert Meets(l, b) && Maximal(l, b) && !EndsAt(l.free, b, start);
      if Tile(r, b) {
        var f := TileEnd(r, b);
        ReleaseAloneTiles(l, start, f);
      }
    }
    assert Shape(r) by {
      forall b: nat | Tile(r, b)
        ensures b == start || (Tile(l, b) && TileEnd(r, b) == TileEnd(l, b) && (TileEnd(l, b) <= start || e <= b))
        ensures b == start ==> e != l.next && TileEnd(r, b) == e
      {
        ReleaseAloneTiles(l, start, b);
      }
    }
  }

  /** The held range at `start` joined to the free range at `a` before it, as one
      held range. */
  function Joined(l: Layout, start: nat, a: nat): Layout
    requires start in l.held && a in l.free
  {
    Layout(l.next, l.free - {a}, (l.held - {start})[a := l.free[a] + l.held[start]])
  }

  lemma JoinedInv(l: Layout, start: nat, a: nat)
    requires Inv(l) && start in l.held && EndsAt(l.free, a, start)
    ensures Inv(Joined(l, start, a))
    ensures forall b :: !EndsAt(Joined(l, start, a).free, b, a)
    ensures ReleaseMerged(l, start, a) == ReleaseAlone(Joined(l, start, a), a)
  {
    var r := Joined(l, start, a);
    assert Tile(l, a) && Tile(l, start) && TileEnd(l, a) == start && TileEnd(r, a) == TileEnd(l, start);
    assert Meets(l, start);
    forall b | Tile(r, b) && b != a
      ensures Tile(l, b) && b != start && TileEnd(r, b) == TileEnd(l, b)
    {
    }
    forall b
      ensures Meets(r, b) && Maximal(r, b) && !EndsAt(r.free, b, a)
    {
      assert Meets(l, b) && Maximal(l, b);
    }
    assert Forward(r, a) == l.free[a] + Forward(l, start);
    assert DropNext(r, a) == DropNext(l, start).(free := DropNext(l, start).free - {a});
  }

  lemma ReleaseMergedKeepsInv(l: Layout, start: nat, a: nat)
    requires Inv(l) && start in l.held && EndsAt(l.free, a, start)
    ensures Inv(ReleaseMerged(l, start, a))
    ensures ReleaseMerged(l, start, a).held == l.held - {start}
  {
    JoinedInv(l, start, a);
    ReleaseAloneKeepsInv(Joined(l, start, a), a);
    assert (l.held - {start})[a := l.free[a] + l.held[start]] - {a} == l.held - {start} by {
      assert a !in l.held;
    }
  }

  // ---------------------------------------------------------------- canonical form

  /** The range that ends at `next` is held. */
  lemma LastIsHeld(l: Layout) returns (h: nat)
    requires Inv(l) && l.next > VMALLOC_START
    ensures h in l.held && End(h, l.held[h]) == l.next
  {
    h := Partition(l, l.next - 1);
    assert Maximal(l, h);
  }

  lemma NextAtMost(l: Layout, r: Layout)
    requires Inv(l) && Inv(r) && l.held == r.held
    ensures l.next <= r.next
  {
    if l.next > VMALLOC_START {
      var h := LastIsHeld(l);
      assert Tile(r, h);
    }
  }

  /** A free range of one layout lies in a free range of the other. */
  lemma FreeInside(l: Layout, r: Layout, a: nat) returns (b: nat)
    requires Inv(l) && Inv(r) && l.held == r.held && l.next == r.next && a in l.free
    ensures b in r.free && b <= a && End(a, l.free[a]) <= End(b, r.free[b])
  {
    assert Tile(l, a) && TileEnd(l, a) == End(a, l.free[a]);
    b := Partition(r, a);
    assert b in r.held ==> Tile(l, b);
    var e := TileEnd(r, b);
    assert Meets(r, b) && Maximal(r, b);
    assert e in r.held ==> Tile(l, e);
  }

  lemma FreeSame(l: Layout, r: Layout, a: nat)
    requires Inv(l) && Inv(r) && l.held == r.held && l.next == r.next && a in l.free
    ensures a in r.free && r.free[a] == l.free[a]
  {
    var b := FreeInside(l, r, a);
    var c := FreeInside(r, l, b);
    assert Tile(l, a) && Tile(l, c);
    assert c == a;
  }

  /** The layout is a function of what is held: whatever the order in which ranges
      were reserved and released, the free ranges and `next` come out the same. */
  lemma Canonical(l: Layout, r: Layout)
    requires Inv(l) && Inv(r) && l.held == r.held
    ensures l == r
  {
    NextAtMost(l, r);
    NextAtMost(r, l);
    forall a: nat
      ensures a in l.free ==> a in r.free && r.free[a] == l.free[a]
      ensures a in r.free ==> a in l.free
    {
      if a in l.free {
        FreeSame(l, r, a);
      }
      if a in r.free {
        FreeSame(r, l, a);
      }
    }
    assert l.free == r.free;
  }

  /** Giving back what was just reserved restores the layout to the letter. */
  lemma ReleaseUndoesReserve(l: Layout, r: Layout, base: nat, total: nat)
    requires Inv(l) && base !in l.held && Inv(r) && r.held == l.held[base := total] - {base}
    ensures r == l
  {
    assert l.held[base := total] - {base} == l.held;
    Canonical(l, r);
  }

  /** With nothing held the layout is the initial one. */
  lemma Drained(l: Layout)
    requires Inv(l) && l.held == map[]
    ensures l == Initial()
  {
    InitialInv();
    Canonical(l, Initial());
  }

  // ---------------------------------------------------------------- allocations

  datatype Alloc = Alloc(base: nat, total: nat, pages: nat)

  type Frame = nat

  /** What the frame allocator and the page-table code answer for one page. */
  datatype Supply = Good(frame: Frame) | NoFrame | MapFails(frame: Frame)

  predicate IsFirstGuard(x: Alloc, addr: nat)
  {
    x.base <= addr < x.base + PAGE
  }

  predicate IsLastGuard(x: Alloc, addr: nat)
  {
    End(x.base, x.total) - PAGE <= addr < End(x.base, x.total)
  }

  predicate IsGuard(x: Alloc, addr: nat)
  {
    IsFirstGuard(x, addr) || IsLastGuard(x, addr)
  }

  /** `addr` starts a page strictly inside the guards of the range at `b`. */
  predicate InData(held: map<nat, nat>, b: nat, addr: nat)
  {
    b in held && b + PAGE <= addr < End(b, held[b]) - PAGE && (addr - b) % PAGE == 0
  }

  ghost predicate Owned(held: map<nat, nat>, m: nat)
  {
    exists b :: InData(held, b, m)
  }

  ghost predicate Backed(live: map<nat, Alloc>, mapped: map<nat, Frame>, d: nat)
  {
    d in live ==> forall i :: 0 <= i < live[d].pages ==> End(d, i) in mapped
  }

  ghost predicate Recorded(held: map<nat, nat>, live: map<nat, Alloc>, d: nat)
  {
    d in live ==>
      && live[d].base + PAGE == d && live[d].base in held
      && live[d].total == held[live[d].base] == live[d].pages + 2
  }

  /** Live allocations are held ranges whose data pages are all mapped, and nothing
      is mapped outside the data of a held range. */
  ghost predicate LiveOk(held: map<nat, nat>, live: map<nat, Alloc>, mapped: map<nat, Frame>)
  {
    && (forall d {:trigger Recorded(held, live, d)} :: Recorded(held, live, d))
    && (forall d {:trigger Backed(live, mapped, d)} :: Backed(live, mapped, d))
    && (forall m {:trigger Owned(held, m)} :: m in mapped ==> Owned(held, m))
  }

  /** No guard byte of any live allocation is in a mapped page. */
  lemma GuardsUnmapped(l: Layout, live: map<nat, Alloc>, mapped: map<nat, Frame>, d: nat, m: nat)
    requires Inv(l) && LiveOk(l.held, live, mapped) && d in live && m in mapped
    ensures m + PAGE <= live[d].base || End(live[d].base, 1) <= m
    ensures m < End(live[d].base, live[d].total) - PAGE || End(live[d].base, live[d].total) <= m
  {
    assert Owned(l.held, m) && Recorded(l.held, live, d);
    var b :| InData(l.held, b, m);
    assert Tile(l, b) && Tile(l, live[d].base);
  }

  /** The data of two allocations is kept apart by two unmapped pages. */
  lemma Separated(l: Layout, live: map<nat, Alloc>, mapped: map<nat, Frame>, d: nat, e: nat)
    requires Inv(l) && LiveOk(l.held, live, mapped) && d in live && e in live && d < e
    ensures End(d, live[d].pages) + 2 * PAGE <= e
    ensures forall m :: m in mapped ==> m < End(d, live[d].pages) || End(d, live[d].pages) + PAGE <= m
    ensures forall m :: m in mapped ==> m + PAGE <= e - PAGE || e <= m
  {
    assert Recorded(l.held, live, d) && Recorded(l.held, live, e);
    assert Tile(l, live[d].base) && Tile(l, live[e].base);
    forall m | m in mapped
      ensures m < End(d, live[d].pages) || End(d, live[d].pages) + PAGE <= m
      ensures m + PAGE <= e - PAGE || e <= m
    {
      GuardsUnmapped(l, live, mapped, d, m);
      GuardsUnmapped(l, live, mapped, e, m);
    }
  }

  /** A guard address belongs to one allocation only. */
  lemma GuardOwnerUnique(l: Layout, live: map<nat, Alloc>, mapped: map<nat, Frame>, addr: nat, d: nat, e: nat)
    requires Inv(l) && LiveOk(l.held, live, mapped) && d in live && e in live
    requires IsGuard(live[d], addr) && IsGuard(live[e], addr)
    ensures d == e
  {
    assert Recorded(l.held, live, d) && Recorded(l.held, live, e);
    assert Tile(l, live[d].base) && Tile(l, live[e].base);
  }

  /** A new held range holds no mapped page yet. */
  lemma NewRangeClear(l: Layout, r: Layout, live: map<nat, Alloc>, mapped: map<nat, Frame>, base: nat, total: nat)
    requires LiveOk(l.held, live, mapped) && Inv(r) && base !in l.held && r.held == l.held[base := total]
    ensures LiveOk(r.held, live, mapped)
    ensures forall m :: m in mapped ==> m < base || End(base, total) <= m
  {
    forall m | m in mapped
      ensures Owned(r.held, m)
      ensures m < base || End(base, total) <= m
    {
      assert Owned(l.held, m);
      var b :| InData(l.held, b, m);
      assert InData(r.held, b, m);
      assert Tile(r, b) && Tile(r, base) && TileEnd(r, b) == End(b, l.held[b]) && TileEnd(r, base) == End(base, total);
    }
    forall d
      ensures Recorded(r.held, live, d)
    {
      assert Recorded(l.held, live, d);
    }
  }

  lemma CommitOk(held: map<nat, nat>, live: map<nat, Alloc>, was: map<nat, Frame>, mapped: map<nat, Frame>, base: nat,
                 data: nat, pages: nat)
    requires LiveOk(held, live, was) && base in held && held[base] == pages + 2 && data == base + PAGE
    requires forall m :: m in was ==> m in mapped
    requires forall i :: 0 <= i < pages ==> End(data, i) in mapped
    requires forall m :: m in mapped ==> m in was || (data <= m < End(data, pages) && (m - data) % PAGE == 0)
    ensures LiveOk(held, live[data := Alloc(base, pages + 2, pages)], mapped)
  {
    var after := live[data := Alloc(base, pages + 2, pages)];
    forall m | m in mapped
      ensures Owned(held, m)
    {
      if m in was {
        assert Owned(held, m);
      } else {
        assert InData(held, base, m);
      }
    }
    forall d: nat
      ensures Recorded(held, after, d) && Backed(after, mapped, d)
    {
      assert Recorded(held, live, d) && Backed(live, was, d);
    }
  }

  /** Taking an allocation off the list and unmapping its data leaves a state in
      which its range may be released. */
  lemma RetireOk(l: Layout, live: map<nat, Alloc>, was: map<nat, Frame>, mapped: map<nat, Frame>, d: nat)
    requires Inv(l) && LiveOk(l.held, live, was) && d in live
    requires forall m :: m in mapped <==> m in was && !(d <= m < End(d, live[d].pages) && (m - d) % PAGE == 0)
    ensures live[d].base in l.held && l.held[live[d].base] == live[d].total
    ensures LiveOk(l.held - {live[d].base}, live - {d}, mapped)
  {
    var b := live[d].base;
    var held := l.held - {b};
    assert Recorded(l.held, live, d);
    assert Tile(l, b) && TileEnd(l, b) == End(b, l.held[b]);
    forall e: nat
      ensures Recorded(held, live - {d}, e) && Backed(live - {d}, mapped, e)
    {
      assert Recorded(l.held, live, e) && Backed(live, was, e);
      if e in live && e != d {
        assert Tile(l, live[e].base) && TileEnd(l, live[e].base) == End(live[e].base, l.held[live[e].base]);
      }
    }
    forall m | m in mapped
      ensures Owned(held, m)
    {
      assert Owned(l.held, m);
      var c :| InData(l.held, c, m);
      assert c != b;
      assert InData(held, c, m);
    }
  }
}
