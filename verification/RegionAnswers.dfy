/** When the region operations succeed, said in pages: which of them are mapped is all a
    caller has to know. */
module RegionAnswers {
  import opened Regions

  /** No page of the range is mapped. */
  ghost predicate Free(rs: seq<Region>, lo: int, hi: int)
  {
    forall p :: p % PAGE_SIZE == 0 && lo <= p < hi ==> !Mapped(rs, p)
  }

  lemma FreeExact(rs: seq<Region>, lo: int, hi: int)
    requires AllShaped(rs) && NoEmpty(rs) && lo < hi && lo % PAGE_SIZE == 0
    ensures Free(rs, lo, hi) <==> !Overlaps(rs, lo, hi)
  {
    OverlapExact(rs, lo, hi);
  }

  // ---------------------------------------------------------------- reserving

  /** A range can be had exactly when it is in user space and free; which of the two it is
      not, the error says. */
  lemma ReserveAnswers(rs: seq<Region>, lo: int, hi: int, prot: Prot, growsDown: bool, b: Backing)
    requires AllShaped(rs) && NoEmpty(rs) && lo % PAGE_SIZE == 0
    ensures var r := Reserve(rs, lo, hi, prot, growsDown, b); var inside := 0x1_0000 <= lo < hi <= 0x7FFF_FFFF_F000;
            && (r.Ok? <==> inside && Free(rs, lo, hi))
            && (r == Err(EINVAL) <==> !inside) && (r == Err(EEXIST) <==> inside && !Free(rs, lo, hi))
  {
    if lo < hi {
      FreeExact(rs, lo, hi);
    }
  }

  // ---------------------------------------------------------------- stack growth

  /** The region is a stack that starts at most 64 pages above `page`. */
  predicate Reaches(r: Region, page: int)
  {
    r.growsDown && page < r.start <= page + 0x4_0000
  }

  lemma {:induction false} FirstIs(rs: seq<Region>, page: int, i: nat)
    requires i <= |rs| && (forall j :: 0 <= j < i ==> !Reaches(rs[j], page)) && (i < |rs| ==> Reaches(rs[i], page))
    ensures FirstGrowing(rs, page) == i
  {
  }

  /** The first stack within reach grows down to the page exactly when every page in
      between is free; without one, or with something in between, nothing changes. */
  lemma GrowAnswers(rs: seq<Region>, page: int, i: nat)
    requires AllShaped(rs) && Disjoint(rs) && NoEmpty(rs) && page % PAGE_SIZE == 0
    requires i <= |rs| && (forall j :: 0 <= j < i ==> !Reaches(rs[j], page)) && (i < |rs| ==> Reaches(rs[i], page))
    ensures Grow(rs, page) == if i < |rs| && Free(rs, page, rs[i].start) then Some(rs[i := rs[i].(start := page)])
                              else None
  {
    FirstIs(rs, page, i);
    if i < |rs| {
      WayExact(rs, i, page);
    }
  }

  lemma WayExact(rs: seq<Region>, i: nat, page: int)
    requires AllShaped(rs) && Disjoint(rs) && NoEmpty(rs) && page % PAGE_SIZE == 0
    requires i < |rs| && page < rs[i].start
    ensures InTheWay(rs, i, page) <==> !Free(rs, page, rs[i].start)
  {
    DisjointIndex(rs);
    FreeExact(rs, page, rs[i].start);
    assert rs[i] in rs;
    if InTheWay(rs, i, page) {
      var j :| 0 <= j < |rs| && j != i && page < rs[j].end && rs[j].start < rs[i].end;
      assert rs[j] in rs && Apart(rs[Min(i, j)], rs[Max(i, j)]);
      assert rs[j].start < rs[i].start;
    }
    if Overlaps(rs, page, rs[i].start) {
      var r :| r in rs && page < r.end && r.start < rs[i].start;
      var j :| 0 <= j < |rs| && rs[j] == r;
      assert j != i;
    }
  }

  // ---------------------------------------------------------------- program break

  /** A region that the heap can be extended in place of. */
  predicate IsHeap(r: Region, base: int, cur: int)
  {
    r.end == cur && r.start >= base && !r.growsDown
  }

  /** Where `brk` leaves the break: at the next page boundary, unless that is below the
      heap's base, or above a break that no heap region ends at with a mapped page in
      between. */
  lemma BrkAnswers(rs: seq<Region>, base: int, cur: int, addr: int, goal: int)
    requires AllShaped(rs) && NoEmpty(rs) && base % PAGE_SIZE == 0 && cur % PAGE_SIZE == 0 && base <= cur
    requires goal % PAGE_SIZE == 0 && addr <= goal < addr + PAGE_SIZE
    ensures var (rs', brk) := BrkNext(rs, base, cur, addr); var heap := exists r :: r in rs && IsHeap(r, base, cur);
            && brk == (if addr < base || (goal > cur && !heap && !Free(rs, cur, goal)) then cur else goal)
            && (brk == cur ==> rs' == rs)
  {
    assert AlignUp(addr) == goal;
    var i := FirstHeap(rs, base, cur);
    if i < |rs| {
      assert rs[i] in rs && IsHeap(rs[i], base, cur);
    } else {
      assert forall r :: r in rs ==> !IsHeap(r, base, cur);
    }
    if goal > cur {
      FreeExact(rs, cur, goal);
    }
  }

  // ---------------------------------------------------------------- mmap

  lemma {:induction false} CutClears(rs: seq<Region>, lo: int, hi: int)
    requires lo < hi
    ensures !Overlaps(CutAll(rs, lo, hi, None), lo, hi)
  {
    if rs != [] {
      CutClears(rs[1..], lo, hi);
    }
  }

  /** A fixed mapping takes its place exactly when that is in user space, whatever was
      there; its old pages are gone either way. */
  lemma FixedAnswers(rs: seq<Region>, top: int, hint: int, at: int, below: int, len: int, prot: Prot, b: Backing)
    requires 0 < len
    ensures var m := MmapNext(rs, top, hint, at, below, len, prot, true, b);
            && m.top == top
            && m.result == (if 0x1_0000 <= at && at + len <= 0x7FFF_FFFF_F000 then Ok(at) else Err(EINVAL))
            && (m.result.Err? ==> m.regions == CutAll(rs, at, at + len, None))
  {
    CutClears(rs, at, at + len);
  }

  /** Any other mapping goes to its hint if that is in user space and free. Otherwise it
      goes right below the last one if that is, and the next one below it; and a failure
      changes nothing. */
  lemma FloatingAnswers(rs: seq<Region>, top: int, hint: int, at: int, below: int, len: int, prot: Prot, b: Backing)
    requires AllShaped(rs) && NoEmpty(rs) && 0 < len
    requires at % PAGE_SIZE == 0 && at <= hint < at + PAGE_SIZE && below % PAGE_SIZE == 0
    ensures var m := MmapNext(rs, top, hint, at, below, len, prot, false, b);
            if 0x1_0000 <= hint && at + len <= 0x7FFF_FFFF_F000 && Free(rs, at, at + len)
            then m.result == Ok(at) && m.top == top
            else if top < len then m == Placed(Err(ENOMEM), rs, top)
            else if 0x1_0000 <= below && below + len <= 0x7FFF_FFFF_F000
            then (if Free(rs, below, below + len) then m.result == Ok(below) && m.top == below
                  else m == Placed(Err(EEXIST), rs, top))
            else m == Placed(Err(EINVAL), rs, top)
  {
    FreeExact(rs, at, at + len);
    FreeExact(rs, below, below + len);
    assert hint >= USER_START ==> at >= USER_START;
  }
}
