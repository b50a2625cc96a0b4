/** The vmalloc area as the code keeps it, with the page tables and the frame
    allocator it draws on. */
module VmallocArea {
  import opened Vmalloc

  method LeastOf(s: set<nat>) returns (a: nat)
    requires s != {}
    ensures a in s && forall b :: b in s ==> a <= b
  {
    a :| a in s;
    var rest := s - {a};
    while rest != {}
      invariant a in s && rest <= s
      invariant forall b :: b in s && b !in rest ==> a <= b
      decreases rest
    {
      var b :| b in rest;
      rest := rest - {b};
      if b < a {
        a := b;
      }
    }
  }

  /** The index of the first page that cannot be provided, `pages` if all can. */
  function FirstBad(supply: seq<Supply>, pages: nat): (n: nat)
    requires pages <= |supply|
    ensures n <= pages && (n < pages ==> !supply[n].Good?) && forall i :: 0 <= i < n ==> supply[i].Good?
    decreases pages
  {
    if pages == 0 then 0
    else
      var n := FirstBad(supply, pages - 1);
      if n < pages - 1 then n else if supply[n].Good? then pages else n
  }

  /** The frames on offer are new and distinct. */
  predicate FreshSupply(supply: seq<Supply>, taken: set<Frame>)
  {
    && (forall i :: 0 <= i < |supply| && !supply[i].NoFrame? ==> supply[i].frame !in taken)
    && (forall i, j :: 0 <= i < j < |supply| && !supply[i].NoFrame? && !supply[j].NoFrame? ==>
          supply[i].frame != supply[j].frame)
  }

  predicate InRange(data: nat, pages: nat, m: nat)
  {
    data <= m < End(data, pages) && (m - data) % PAGE == 0
  }

  predicate Apart(mapped: map<nat, Frame>, m: nat, k: nat)
  {
    m in mapped && k in mapped && m != k ==> mapped[m] != mapped[k]
  }

  /** Every frame taken is mapped at one page, or has been lost. */
  ghost predicate Frames(mapped: map<nat, Frame>, taken: set<Frame>, leaked: set<Frame>)
  {
    && (forall m, k {:trigger Apart(mapped, m, k)} :: Apart(mapped, m, k))
    && taken == mapped.Values + leaked && leaked !! mapped.Values
  }

  lemma FramesDrop(mapped: map<nat, Frame>, taken: set<Frame>, leaked: set<Frame>, m: nat)
    requires Frames(mapped, taken, leaked) && m in mapped
    ensures Frames(mapped - {m}, taken - {mapped[m]}, leaked)
  {
    var r := mapped - {m};
    forall a: nat, b: nat
      ensures Apart(r, a, b)
    {
      assert Apart(mapped, a, b);
    }
    forall v | v in mapped.Values && v != mapped[m]
      ensures v in r.Values
    {
      var a :| a in mapped && mapped[a] == v;
      assert a in r && r[a] == v;
    }
    assert r.Values == mapped.Values - {mapped[m]} by {
      forall a | a in r
        ensures r[a] != mapped[m]
      {
        assert Apart(mapped, a, m);
      }
    }
  }

  lemma FramesAdd(mapped: map<nat, Frame>, taken: set<Frame>, leaked: set<Frame>, m: nat, p: Frame)
    requires Frames(mapped, taken, leaked) && m !in mapped && p !in taken
    ensures Frames(mapped[m := p], taken + {p}, leaked)
    ensures Frames(mapped, taken + {p}, leaked + {p})
  {
    var r := mapped[m := p];
    forall a: nat, b: nat
      ensures Apart(r, a, b)
    {
      assert Apart(mapped, a, b);
      assert a in mapped ==> mapped[a] in mapped.Values;
      assert b in mapped ==> mapped[b] in mapped.Values;
    }
    forall v | v in mapped.Values
      ensures v in r.Values
    {
      var a :| a in mapped && mapped[a] == v;
      assert a in r && r[a] == v;
    }
    assert m in r && r[m] == p;
    assert r.Values == mapped.Values + {p};
  }

  /** Every reservation belongs to an allocation. */
  ghost predicate AllLive(held: map<nat, nat>, live: map<nat, Alloc>)
  {
    forall b :: b in held ==> b + PAGE in live && live[b + PAGE].base == b
  }

  class Area {
    var next: nat
    var free: map<nat, nat>
    var live: map<nat, Alloc>
    var mapped: map<nat, Frame>
    var taken: set<Frame>
    ghost var held: map<nat, nat>
    ghost var leaked: set<Frame>

    ghost function Lay(): Layout
      reads this
    {
      Layout(next, free, held)
    }

    ghost predicate FramesOk()
      reads this
    {
      Frames(mapped, taken, leaked)
    }

    /** Between two calls. */
    ghost predicate Valid()
      reads this
    {
      Inv(Lay()) && LiveOk(held, live, mapped) && AllLive(held, live) && FramesOk()
    }

    constructor ()
      ensures Valid() && Lay() == Initial()
      ensures live == map[] && mapped == map[] && taken == {} && leaked == {}
    {
      next, free, live, mapped, taken := VMALLOC_START, map[], map[], map[], {};
      held, leaked := map[], {};
    }

    /** Walks the free ranges upwards to the first one that is long enough. */
    method FindFit(total: nat) returns (hit: Option<nat>)
      ensures hit.None? ==> forall a :: !Fits(free, total, a)
      ensures hit.Some? ==> FirstFit(free, total, hit.value)
    {
      var rest := free.Keys;
      while rest != {}
        invariant rest <= free.Keys
        invariant forall a :: a in free && a !in rest ==> free[a] < total
        invariant forall a, b :: a in free && a !in rest && b in rest ==> a < b
        decreases rest
      {
        var a := LeastOf(rest);
        if free[a] >= total {
          return Some(a);
        }
        rest := rest - {a};
      }
      hit := None;
    }

    /** First fit, else from the top; fails exactly when there is no gap. */
    method Reserve(total: nat) returns (r: Option<nat>)
      requires Inv(Lay()) && total >= 2
      modifies this`next, this`free, this`held
      ensures Inv(Lay())
      ensures r.None? <==> !HasGap(old(Lay()), total)
      ensures r.None? ==> Lay() == old(Lay())
      ensures r.Some? && Fits(old(free), total, r.value) ==>
                FirstFit(old(free), total, r.value) && Lay() == Carve(old(Lay()), r.value, total)
      ensures r.Some? && !Fits(old(free), total, r.value) ==>
                (forall a :: !Fits(old(free), total, a)) && r.value == old(next) && Lay() == Extend(old(Lay()), total)
    {
      ReserveComplete(Lay(), total);
      var hit := FindFit(total);
      if hit.Some? {
        var start, len := hit.value, free[hit.value];
        CarveKeepsInv(Lay(), start, total);
        free := free - {start};
        if len > total {
          free := free[End(start, total) := len - total];
        }
        held := held[start := total];
        return Some(start);
      }
      var start := next;
      var end := End(start, total);
      if end > VMALLOC_END {
        return None;
      }
      ExtendKeepsInv(Lay(), total);
      next := end;
      held := held[start := total];
      assert start !in free by {
        assert !Tile(old(Lay()), start);
      }
      r := Some(start);
    }

    /** The greatest free range that starts below `start`. */
    method LastBefore(start: nat) returns (prev: Option<nat>)
      ensures prev.None? ==> forall a :: a in free ==> start <= a
      ensures prev.Some? ==> prev.value in free && prev.value < start
      ensures prev.Some? ==> forall a :: a in free && a < start ==> a <= prev.value
    {
      var rest := free.Keys;
      prev := None;
      while rest != {}
        invariant rest <= free.Keys
        invariant prev.None? ==> forall a :: a in free && a !in rest ==> start <= a
        invariant prev.Some? ==> prev.value in free && prev.value < start
        invariant prev.Some? ==> forall a :: a in free && a !in rest && a < start ==> a <= prev.value
        decreases rest
      {
        var a :| a in rest;
        rest := rest - {a};
        if a < start && (prev.None? || prev.value < a) {
          prev := Some(a);
        }
      }
    }

    /** Gives a reservation back, merging it with its free neighbours. */
    method Release(start: nat, total: nat)
      requires Inv(Lay()) && start in held && held[start] == total
      modifies this`next, this`free, this`held
      ensures Inv(Lay()) && held == old(held) - {start}
    {
      ghost var l := Lay();
      assert Tile(l, start);
      var first, len := start, total;
      var e := End(start, total);
      if e in free {
        len := len + free[e];
        free := free - {e};
      }
      held := held - {start};
      assert Lay() == DropNext(l, start) && len == Forward(l, start);
      var prev := LastBefore(first);
      assert prev.Some? && End(prev.value, free[prev.value]) == first ==> EndsAt(l.free, prev.value, start);
      PrevIsNeighbour(l, start, prev);
      if prev.Some? && End(prev.value, free[prev.value]) == first {
        ReleaseMergedKeepsInv(l, start, prev.value);
        first, len := prev.value, len + free[prev.value];
        free := free - {first};
      } else {
        ReleaseAloneKeepsInv(l, start);
      }
      if End(first, len) == next {
        next := first;
      } else {
        free := free[first := len];
      }
    }

    /** Unmaps the pages of a range and gives their frames back. */
    method UnmapRange(data: nat, pages: nat)
      requires FramesOk()
      modifies this`mapped, this`taken
      ensures FramesOk()
      ensures mapped == Unmapped(old(mapped), data, pages)
    {
      assert mapped == Unmapped(mapped, data, 0);
      var i := 0;
      while i < pages
        invariant i <= pages && FramesOk()
        invariant mapped == Unmapped(old(mapped), data, i)
      {
        UnmappedStep(old(mapped), data, i);
        var m := End(data, i);
        if m in mapped {
          var p := mapped[m];
          FramesDrop(mapped, taken, leaked, m);
          mapped := mapped - {m};
          taken := taken - {p};
        }
        i := i + 1;
      }
    }

    /** Maps a fresh frame at each page; when one is missing, or cannot be mapped,
        unmaps the pages mapped so far. */
    method MapPages(data: nat, pages: nat, supply: seq<Supply>) returns (ok: bool)
      requires FramesOk() && pages <= |supply| && FreshSupply(supply, taken)
      requires forall m :: m in mapped ==> m < data || End(data, pages) <= m
      modifies this`mapped, this`taken, this`leaked
      ensures FramesOk()
      ensures ok <==> FirstBad(supply, pages) == pages
      ensures mapped == if ok then Mapped(old(mapped), data, supply, pages) else old(mapped)
      ensures leaked == old(leaked) + Lost(supply, pages)
    {
      var i := 0;
      while i < pages
        invariant i <= pages && FramesOk() && leaked == old(leaked)
        invariant FirstBad(supply, i) == i
        invariant mapped == Mapped(old(mapped), data, supply, i)
        invariant forall j :: i <= j < |supply| && !supply[j].NoFrame? ==> supply[j].frame !in taken
      {
        FirstBadStops(supply, i, pages);
        if supply[i].NoFrame? {
          UnmapMapped(old(mapped), data, supply, i);
          UnmapRange(data, i);
          return false;
        }
        var p := supply[i].frame;
        NextUnmapped(old(mapped), data, supply, i);
        FramesAdd(mapped, taken, leaked, End(data, i), p);
        taken := taken + {p};
        if supply[i].MapFails? {
          leaked := leaked + {p};
          UnmapMapped(old(mapped), data, supply, i);
          UnmapRange(data, i);
          return false;
        }
        mapped := mapped[End(data, i) := p];
        i := i + 1;
      }
      ok := true;
    }

    /** A reservation seen from the allocations: nothing is mapped in it yet. */
    method Claim(total: nat) returns (r: Option<nat>)
      requires Inv(Lay()) && LiveOk(held, live, mapped) && total >= 2
      modifies this`next, this`free, this`held
      ensures Inv(Lay()) && LiveOk(held, live, mapped)
      ensures r.None? <==> !HasGap(old(Lay()), total)
      ensures r.None? ==> Lay() == old(Lay())
      ensures r.Some? ==> r.value !in old(held) && held == old(held)[r.value := total]
      ensures r.Some? ==> forall m :: m in mapped ==> m < r.value || End(r.value, total) <= m
    {
      r := Reserve(total);
      if r.Some? {
        FreshBase(old(Lay()), Lay(), r.value, total);
        NewRangeClear(old(Lay()), Lay(), live, mapped, r.value, total);
      }
    }

    /** Takes a claim back. */
    method Unclaim(ghost was: Layout, base: nat, total: nat)
      requires Inv(was) && Inv(Lay()) && base !in was.held && held == was.held[base := total]
      modifies this`next, this`free, this`held
      ensures Lay() == was
    {
      Release(base, total);
      ReleaseUndoesReserve(was, Lay(), base, total);
    }

    /** Reserves a guarded range and maps its data pages. It fails exactly when no
        gap is large enough or a page cannot be provided, and then the layout, the
        page tables and the allocations are as before; the frame that could not be
        mapped is the only thing lost. */
    method Allocate(pages: nat, supply: seq<Supply>) returns (r: Option<nat>)
      requires Valid() && pages <= |supply| && FreshSupply(supply, taken)
      modifies this
      ensures Valid()
      ensures r.None? <==> FirstBad(supply, pages) < pages || !HasGap(old(Lay()), pages + 2)
      ensures r.None? ==> Lay() == old(Lay()) && live == old(live) && mapped == old(mapped)
      ensures r.Some? ==>
                PAGE <= r.value && r.value - PAGE !in old(held) && held == old(held)[r.value - PAGE := pages + 2]
      ensures r.Some? ==> live == old(live)[r.value := Alloc(r.value - PAGE, pages + 2, pages)]
      ensures r.Some? ==> mapped == Mapped(old(mapped), r.value, supply, pages)
      ensures leaked == old(leaked) + if HasGap(old(Lay()), pages + 2) then Lost(supply, pages) else {}
    {
      var total := pages + 2;
      ghost var before := Lay();
      var at := Claim(total);
      if at.None? {
        return None;
      }
      var base := at.value;
      var data := base + PAGE;
      var ok := MapPages(data, pages, supply);
      if !ok {
        Unclaim(before, base, total);
        return None;
      }
      MappedCommit(held, live, old(mapped), base, data, supply, pages);
      live := live[data := Alloc(base, total, pages)];
      r := Some(data);
    }

    /** Frees an allocation: its data is unmapped, its frames go back, its range is
        released. */
    method Deallocate(data: nat)
      requires Valid() && data in live
      modifies this
      ensures Valid() && leaked == old(leaked)
      ensures live == old(live) - {data}
      ensures mapped == Unmapped(old(mapped), data, old(live)[data].pages)
      ensures held == old(held) - {old(live)[data].base}
    {
      var entry := live[data];
      live := live - {data};
      UnmapRange(data, entry.pages);
      RetireOk(old(Lay()), old(live), old(mapped), mapped, data);
      Release(entry.base, entry.total);
    }

    /** The allocation that has `addr` in one of its two guard pages. */
    method GuardOwner(addr: nat) returns (r: Option<nat>)
      ensures r.Some? ==> r.value in live && IsGuard(live[r.value], addr)
      ensures r.None? ==> forall d :: d in live ==> !IsGuard(live[d], addr)
    {
      var rest := live.Keys;
      while rest != {}
        invariant rest <= live.Keys
        invariant forall d :: d in live && d !in rest ==> !IsGuard(live[d], addr)
        decreases rest
      {
        var d := LeastOf(rest);
        if IsGuard(live[d], addr) {
          return Some(d);
        }
        rest := rest - {d};
      }
      r := None;
    }
  }

  lemma FreshBase(l: Layout, r: Layout, base: nat, total: nat)
    requires Inv(l)
    requires (Fits(l.free, total, base) && r == Carve(l, base, total)) || (base == l.next && r == Extend(l, total))
    ensures base !in l.held && r.held == l.held[base := total]
  {
    assert Tile(l, base) ==> TileEnd(l, base) <= l.next;
  }

  /** With every allocation freed, in whatever order, the area is as it was at boot, and
      only the frames lost by failed mappings are still out. */
  lemma AllFreed(area: Area)
    requires area.Valid() && area.live == map[]
    ensures area.Lay() == Initial() && area.mapped == map[] && area.taken == area.leaked
  {
    assert area.held == map[] by {
      assert forall b :: b !in area.held;
    }
    Drained(area.Lay());
    forall m
      ensures m !in area.mapped
    {
      assert m in area.mapped ==> Owned(area.held, m);
    }
    assert area.mapped == map[];
  }

  /** The frame that a failed mapping drops on the floor. */
  function Lost(supply: seq<Supply>, pages: nat): set<Frame>
    requires pages <= |supply|
  {
    var n := FirstBad(supply, pages);
    if n < pages && supply[n].MapFails? then {supply[n].frame} else {}
  }

  /** One page, a frame in hand, no page table to map it with: the frame is gone. */
  lemma LosesOne(p: Frame)
    ensures FirstBad([MapFails(p)], 1) == 0 && Lost([MapFails(p)], 1) == {p} && Lost([NoFrame], 1) == {}
  {
    assert FirstBad([MapFails(p)], 0) == 0 && FirstBad([NoFrame], 0) == 0;
  }

  lemma {:induction false} FirstBadStops(supply: seq<Supply>, i: nat, pages: nat)
    requires i < pages <= |supply| && FirstBad(supply, i) == i
    ensures !supply[i].Good? ==> FirstBad(supply, pages) == i
    ensures supply[i].Good? ==> FirstBad(supply, i + 1) == i + 1
    decreases pages
  {
    if i + 1 < pages {
      FirstBadStops(supply, i, pages - 1);
    }
  }

  function Mapped(mapped: map<nat, Frame>, data: nat, supply: seq<Supply>, n: nat): map<nat, Frame>
    requires n <= |supply| && FirstBad(supply, n) == n
    decreases n
  {
    if n == 0 then mapped else Mapped(mapped, data, supply, n - 1)[End(data, n - 1) := supply[n - 1].frame]
  }

  lemma {:induction false} MappedKeys(mapped: map<nat, Frame>, data: nat, supply: seq<Supply>, n: nat)
    requires n <= |supply| && FirstBad(supply, n) == n
    requires forall m :: m in mapped ==> m < data || End(data, n) <= m
    ensures var r := Mapped(mapped, data, supply, n);
            && (forall m :: m in r <==> m in mapped || InRange(data, n, m))
            && (forall m :: m in mapped ==> r[m] == mapped[m])
            && (forall i :: 0 <= i < n ==> End(data, i) in r && r[End(data, i)] == supply[i].frame)
    decreases n
  {
    if n > 0 {
      MappedKeys(mapped, data, supply, n - 1);
    }
  }

  lemma NextUnmapped(mapped: map<nat, Frame>, data: nat, supply: seq<Supply>, n: nat)
    requires n <= |supply| && FirstBad(supply, n) == n
    requires forall m :: m in mapped ==> m < data || End(data, n + 1) <= m
    ensures End(data, n) !in Mapped(mapped, data, supply, n)
  {
    MappedKeys(mapped, data, supply, n);
  }

  lemma MappedCommit(held: map<nat, nat>, live: map<nat, Alloc>, was: map<nat, Frame>, base: nat, data: nat,
                     supply: seq<Supply>, n: nat)
    requires n <= |supply| && FirstBad(supply, n) == n
    requires LiveOk(held, live, was) && base in held && held[base] == n + 2 && data == base + PAGE
    requires forall m :: m in was ==> m < data || End(data, n) <= m
    ensures LiveOk(held, live[data := Alloc(base, n + 2, n)], Mapped(was, data, supply, n))
  {
    MappedKeys(was, data, supply, n);
    CommitOk(held, live, was, Mapped(was, data, supply, n), base, data, n);
  }

  /** Unmapping what was mapped restores the page tables. */
  lemma UnmapMapped(mapped: map<nat, Frame>, data: nat, supply: seq<Supply>, n: nat)
    requires n <= |supply| && FirstBad(supply, n) == n
    requires forall m :: m in mapped ==> m < data || End(data, n) <= m
    ensures Unmapped(Mapped(mapped, data, supply, n), data, n) == mapped
  {
    MappedKeys(mapped, data, supply, n);
  }

  function Unmapped(mapped: map<nat, Frame>, data: nat, pages: nat): map<nat, Frame>
  {
    map m | m in mapped && !InRange(data, pages, m) :: mapped[m]
  }

  lemma UnmappedStep(mapped: map<nat, Frame>, data: nat, i: nat)
    ensures Unmapped(mapped, data, i + 1) == Unmapped(mapped, data, i) - {End(data, i)}
  {
  }

  /** The greatest free start below a range is the only one that can end there. */
  lemma PrevIsNeighbour(l: Layout, start: nat, prev: Option<nat>)
    requires Inv(l) && start in l.held
    requires prev.None? ==> forall a :: a in DropNext(l, start).free ==> start <= a
    requires prev.Some? ==> forall a :: a in DropNext(l, start).free && a < start ==> a <= prev.value
    requires prev.Some? ==> prev.value in DropNext(l, start).free && prev.value < start
    ensures forall a: nat :: EndsAt(l.free, a, start) ==> prev == Some(a)
  {
    forall a: nat | EndsAt(l.free, a, start)
      ensures prev == Some(a)
    {
      assert Tile(l, a) && TileEnd(l, a) == start && Tile(l, start);
      assert a in DropNext(l, start).free;
      assert Tile(l, prev.value);
    }
  }
}
