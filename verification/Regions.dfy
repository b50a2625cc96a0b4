/** The regions (VMAs) of one address space: reserving, splitting, re-protecting
    and growing them, and what they mean for every single page. */
module Regions {

  const PAGE_SIZE: int := 4096
  const USER_START: int := 0x1_0000
  const USER_END: int := 0x7FFF_FFFF_F000
  const MMAP_TOP: int := 0x7F00_0000_0000

  datatype Option<+T> = None | Some(value: T)

  datatype Errno = EINVAL | EEXIST | ENOMEM
  datatype Result<+T> = Ok(value: T) | Err(errno: Errno)

  datatype Prot = Prot(read: bool, write: bool, exec: bool)

  datatype Backing =
    | Anon
    | File(file: nat, offset: int, length: int)
    | Shared(obj: nat, base: int)

  datatype Region = Region(start: int, end: int, prot: Prot, growsDown: bool, backing: Backing)

  function AlignDown(v: int): int
  {
    v - v % PAGE_SIZE
  }

  function AlignUp(v: int): int
  {
    AlignDown(v + PAGE_SIZE - 1)
  }

  function Min(a: int, b: int): int { if a < b then a else b }

  function Max(a: int, b: int): int { if a < b then b else a }

  /** `FileBacking::shifted`; a shared backing is not touched by it. */
  function Shifted(b: Backing, delta: int): Backing
  {
    match b
    case File(f, off, len) => File(f, off + delta, Max(len - delta, 0))
    case _ => b
  }

  // ---------------------------------------------------------------- meaning

  /** What the first touch of a page finds there. */
  datatype Source =
    | Zero
    | FileBytes(file: nat, offset: int, count: int)
    | SharedPage(obj: nat, key: int)

  datatype Meaning = Meaning(prot: Prot, source: Source)

  predicate Contains(r: Region, p: int)
  {
    r.start <= p < r.end
  }

  /** `region_at`. */
  function RegionAt(rs: seq<Region>, p: int): Option<Region>
  {
    if rs == [] then None else if Contains(rs[0], p) then Some(rs[0]) else RegionAt(rs[1..], p)
  }

  function SourceIn(b: Backing, delta: int): Source
  {
    match b
    case Anon => Zero
    case File(f, off, len) => if delta < len then FileBytes(f, off + delta, Min(len - delta, PAGE_SIZE)) else Zero
    case Shared(obj, base) => SharedPage(obj, base + delta)
  }

  function MeaningIn(r: Region, p: int): Meaning
  {
    Meaning(r.prot, SourceIn(r.backing, p - r.start))
  }

  function MeaningAt(rs: seq<Region>, p: int): Option<Meaning>
  {
    match RegionAt(rs, p)
    case None => None
    case Some(r) => Some(MeaningIn(r, p))
  }

  // ---------------------------------------------------------------- shape

  predicate Apart(a: Region, b: Region)
  {
    a.end <= b.start || b.end <= a.start
  }

  predicate ApartFromAll(a: Region, rs: seq<Region>)
  {
    forall r :: r in rs ==> Apart(a, r)
  }

  predicate Disjoint(rs: seq<Region>)
  {
    rs == [] || (ApartFromAll(rs[0], rs[1..]) && Disjoint(rs[1..]))
  }

  predicate Shaped(r: Region)
  {
    && r.start % PAGE_SIZE == 0 && r.end % PAGE_SIZE == 0 && r.start <= r.end
    && (r.growsDown ==> r.backing == Anon)
  }

  predicate AllShaped(rs: seq<Region>)
  {
    forall r :: r in rs ==> Shaped(r)
  }

  predicate NoEmpty(rs: seq<Region>)
  {
    forall r :: r in rs ==> r.start < r.end
  }

  // ---------------------------------------------------------------- splitting

  /** The loop body of `unmap` (no new protection) and of `protect`: what is left
      of `r` when `[start, end)` is removed or re-protected. */
  function Cut(r: Region, start: int, end: int, prot: Option<Prot>): seq<Region>
  {
    if end <= r.start || start >= r.end then [r]
    else
      var mid := Max(start, r.start);
      (if r.start < start then [r.(end := start)] else [])
      + (if prot.Some? then
           [Region(mid, Min(end, r.end), prot.value, r.growsDown, Advanced(r.backing, mid - r.start))]
         else [])
      + (if end < r.end then [r.(start := end, backing := Shifted(r.backing, end - r.start))] else [])
  }

  /** The backing of `protect`'s middle piece, which does move a shared base. */
  function Advanced(b: Backing, delta: int): Backing
  {
    match b
    case Shared(obj, base) => Shared(obj, base + delta)
    case _ => Shifted(b, delta)
  }

  function CutAll(rs: seq<Region>, start: int, end: int, prot: Option<Prot>): seq<Region>
  {
    if rs == [] then [] else Cut(rs[0], start, end, prot) + CutAll(rs[1..], start, end, prot)
  }

  lemma {:induction false} CutAllAppend(a: seq<Region>, b: seq<Region>, start: int, end: int, prot: Option<Prot>)
    ensures CutAll(a + b, start, end, prot) == CutAll(a, start, end, prot) + CutAll(b, start, end, prot)
  {
    if a == [] {
      assert a + b == b;
    } else {
      assert (a + b)[1..] == a[1..] + b;
      CutAllAppend(a[1..], b, start, end, prot);
    }
  }

  lemma {:induction false} RegionAtAppend(a: seq<Region>, b: seq<Region>, p: int)
    ensures RegionAt(a + b, p) == if RegionAt(a, p).Some? then RegionAt(a, p) else RegionAt(b, p)
  {
    if a == [] {
      assert a + b == b;
    } else {
      assert (a + b)[1..] == a[1..] + b;
      RegionAtAppend(a[1..], b, p);
    }
  }

  /** Page `p` lies in the tail that a cut leaves of a shared region: its key is
      computed from the new start with the old base. */
  predicate RekeyedTail(rs: seq<Region>, start: int, end: int, p: int)
  {
    match RegionAt(rs, p)
    case None => false
    case Some(r) => r.backing.Shared? && start < r.end && r.start < end <= p
  }

  /** What the page means after the cut, in terms of what it meant before. */
  function CutMeaning(m: Option<Meaning>, inside: bool, prot: Option<Prot>): Option<Meaning>
  {
    if m.None? || !inside then m
    else if prot.Some? then Some(m.value.(prot := prot.value)) else None
  }

  lemma CutRegionMeaning(r: Region, start: int, end: int, prot: Option<Prot>, p: int)
    requires start <= end && r.start <= r.end
    requires Contains(r, p) && !(r.backing.Shared? && start < r.end && r.start < end <= p)
    ensures MeaningAt(Cut(r, start, end, prot), p)
         == CutMeaning(Some(MeaningIn(r, p)), start <= p < end, prot)
  {
    var pieces := Cut(r, start, end, prot);
    if !(end <= r.start || start >= r.end) {
      var mid := Max(start, r.start);
      var head := if r.start < start then [r.(end := start)] else [];
      var middle := if prot.Some? then
           [Region(mid, Min(end, r.end), prot.value, r.growsDown, Advanced(r.backing, mid - r.start))] else [];
      var tail := if end < r.end then [r.(start := end, backing := Shifted(r.backing, end - r.start))] else [];
      assert pieces == head + middle + tail;
      RegionAtAppend(head + middle, tail, p);
      RegionAtAppend(head, middle, p);
    }
  }

  lemma CutRegionRekeyed(r: Region, start: int, end: int, prot: Option<Prot>, p: int)
    requires start <= end && r.start <= r.end
    requires Contains(r, p) && r.backing.Shared? && start < r.end && r.start < end <= p
    ensures MeaningAt(Cut(r, start, end, prot), p)
         == Some(Meaning(r.prot, SharedPage(r.backing.obj, r.backing.base + (p - r.start) - (end - r.start))))
  {
    var mid := Max(start, r.start);
    var head := if r.start < start then [r.(end := start)] else [];
    var middle := if prot.Some? then
         [Region(mid, Min(end, r.end), prot.value, r.growsDown, Advanced(r.backing, mid - r.start))] else [];
    var tail := [r.(start := end, backing := Shifted(r.backing, end - r.start))];
    assert Cut(r, start, end, prot) == head + middle + tail;
    RegionAtAppend(head + middle, tail, p);
    RegionAtAppend(head, middle, p);
  }

  lemma CutRegionElsewhere(r: Region, start: int, end: int, prot: Option<Prot>, p: int)
    requires start <= end && r.start <= r.end && !Contains(r, p)
    ensures RegionAt(Cut(r, start, end, prot), p).None?
  {
    if !(end <= r.start || start >= r.end) {
      var mid := Max(start, r.start);
      var head := if r.start < start then [r.(end := start)] else [];
      var middle := if prot.Some? then
           [Region(mid, Min(end, r.end), prot.value, r.growsDown, Advanced(r.backing, mid - r.start))] else [];
      var tail := if end < r.end then [r.(start := end, backing := Shifted(r.backing, end - r.start))] else [];
      assert Cut(r, start, end, prot) == head + middle + tail;
      RegionAtAppend(head + middle, tail, p);
      RegionAtAppend(head, middle, p);
    }
  }

  lemma {:induction false} NotInAny(rs: seq<Region>, p: int)
    requires forall r :: r in rs ==> !Contains(r, p)
    ensures RegionAt(rs, p).None?
  {
    if rs != [] {
      NotInAny(rs[1..], p);
    }
  }

  lemma {:induction false} CutAllElsewhere(rs: seq<Region>, start: int, end: int, prot: Option<Prot>, p: int)
    requires start <= end && AllShaped(rs) && RegionAt(rs, p).None?
    ensures RegionAt(CutAll(rs, start, end, prot), p).None?
  {
    if rs != [] {
      assert Shaped(rs[0]);
      CutRegionElsewhere(rs[0], start, end, prot, p);
      CutAllElsewhere(rs[1..], start, end, prot, p);
      RegionAtAppend(Cut(rs[0], start, end, prot), CutAll(rs[1..], start, end, prot), p);
    }
  }

  /** The region that holds `p` decides what a cut leaves there. */
  lemma {:induction false} CutAllAt(rs: seq<Region>, start: int, end: int, prot: Option<Prot>, p: int, r: Region)
    requires start <= end && AllShaped(rs) && Disjoint(rs) && RegionAt(rs, p) == Some(r)
    ensures Shaped(r) && Contains(r, p)
    ensures MeaningAt(CutAll(rs, start, end, prot), p) == MeaningAt(Cut(r, start, end, prot), p)
  {
    var rest := CutAll(rs[1..], start, end, prot);
    RegionAtAppend(Cut(rs[0], start, end, prot), rest, p);
    assert Shaped(rs[0]);
    if Contains(rs[0], p) {
      NotInAny(rs[1..], p);
      CutAllElsewhere(rs[1..], start, end, prot, p);
    } else {
      CutRegionElsewhere(rs[0], start, end, prot, p);
      CutAllAt(rs[1..], start, end, prot, p, r);
    }
  }

  /** Splitting preserves meaning, exactly: after `unmap` or `protect` of
      `[start, end)` a page means what it should (gone, re-protected, or as
      before) if and only if it is not in the tail of a cut shared region. */
  lemma SplitExact(rs: seq<Region>, start: int, end: int, prot: Option<Prot>, p: int)
    requires start <= end && AllShaped(rs) && Disjoint(rs)
    ensures MeaningAt(CutAll(rs, start, end, prot), p) == CutMeaning(MeaningAt(rs, p), start <= p < end, prot)
       <==> !RekeyedTail(rs, start, end, p)
  {
    match RegionAt(rs, p)
    case None => CutAllElsewhere(rs, start, end, prot, p);
    case Some(r) =>
      CutAllAt(rs, start, end, prot, p, r);
      if RekeyedTail(rs, start, end, p) {
        CutRegionRekeyed(r, start, end, prot, p);
      } else {
        CutRegionMeaning(r, start, end, prot, p);
      }
  }

  /** A shared region of three pages with its middle page unmapped: the last page is
      afterwards looked up under the key of the first. */
  lemma SharedTailMoves()
    ensures var rw := Prot(true, true, false);
            var rs := [Region(0x20000, 0x23000, rw, false, Shared(7, 0))];
            && AllShaped(rs) && Disjoint(rs)
            && MeaningAt(rs, 0x22000) == Some(Meaning(rw, SharedPage(7, 0x2000)))
            && MeaningAt(CutAll(rs, 0x21000, 0x22000, None), 0x22000) == Some(Meaning(rw, SharedPage(7, 0)))
  {
    var rw := Prot(true, true, false);
    var rs := [Region(0x20000, 0x23000, rw, false, Shared(7, 0))];
    var a, b := Region(0x20000, 0x21000, rw, false, Shared(7, 0)), Region(0x22000, 0x23000, rw, false, Shared(7, 0));
    assert rs[1..] == [] && CutAll([], 0x21000, 0x22000, None) == [];
    assert Cut(rs[0], 0x21000, 0x22000, None) == [a] + [] + [b];
    var left := CutAll(rs, 0x21000, 0x22000, None);
    assert left == [a, b] && left[1..] == [b];
    assert RegionAt([b], 0x22000) == Some(b);
  }

  // ---------------------------------------------------------------- shape of the pieces

  predicate Within(a: Region, r: Region)
  {
    r.start <= a.start && a.end <= r.end
  }

  lemma CutPieces(r: Region, start: int, end: int, prot: Option<Prot>)
    requires start <= end && Shaped(r) && start % PAGE_SIZE == 0 && end % PAGE_SIZE == 0
    ensures var c := Cut(r, start, end, prot);
            (forall q :: q in c ==> Within(q, r)) && AllShaped(c) && Disjoint(c)
  {
    var c := Cut(r, start, end, prot);
    if |c| == 3 {
      assert c == [c[0]] + ([c[1]] + [c[2]]);
      assert Disjoint([c[0]]) && Disjoint([c[1]]) && Disjoint([c[2]]);
      DisjointAppend([c[1]], [c[2]]);
      DisjointAppend([c[0]], [c[1]] + [c[2]]);
    } else if |c| == 2 {
      assert c == [c[0]] + [c[1]];
      DisjointAppend([c[0]], [c[1]]);
    }
  }

  lemma {:induction false} CutKeepsApart(x: Region, rs: seq<Region>, start: int, end: int, prot: Option<Prot>)
    requires start <= end && start % PAGE_SIZE == 0 && end % PAGE_SIZE == 0 && AllShaped(rs) && ApartFromAll(x, rs)
    ensures ApartFromAll(x, CutAll(rs, start, end, prot))
  {
    if rs != [] {
      assert Shaped(rs[0]) && Apart(x, rs[0]);
      CutPieces(rs[0], start, end, prot);
      CutKeepsApart(x, rs[1..], start, end, prot);
    }
  }

  lemma {:induction false} DisjointAppend(a: seq<Region>, b: seq<Region>)
    requires Disjoint(a) && Disjoint(b) && forall x :: x in a ==> ApartFromAll(x, b)
    ensures Disjoint(a + b)
  {
    if a == [] {
      assert a + b == b;
    } else {
      assert (a + b)[1..] == a[1..] + b;
      DisjointAppend(a[1..], b);
      forall r | r in a[1..] + b ensures Apart(a[0], r) {
        assert r in b ==> ApartFromAll(a[0], b);
      }
    }
  }

  /** `unmap` and `protect` keep the regions aligned and pairwise disjoint. */
  lemma {:induction false} CutKeepsShape(rs: seq<Region>, start: int, end: int, prot: Option<Prot>)
    requires start <= end && start % PAGE_SIZE == 0 && end % PAGE_SIZE == 0 && AllShaped(rs) && Disjoint(rs)
    ensures AllShaped(CutAll(rs, start, end, prot)) && Disjoint(CutAll(rs, start, end, prot))
  {
    if rs != [] {
      assert Shaped(rs[0]);
      CutPieces(rs[0], start, end, prot);
      CutKeepsShape(rs[1..], start, end, prot);
      forall x | x in Cut(rs[0], start, end, prot) ensures ApartFromAll(x, CutAll(rs[1..], start, end, prot)) {
        forall r | r in rs[1..] ensures Apart(x, r) {
          assert Apart(rs[0], r) && Within(x, rs[0]);
        }
        CutKeepsApart(x, rs[1..], start, end, prot);
      }
      DisjointAppend(Cut(rs[0], start, end, prot), CutAll(rs[1..], start, end, prot));
    }
  }

  /** Only `protect` of an empty range strictly inside a region leaves an empty
      region behind. */
  predicate LeavesEmpty(rs: seq<Region>, start: int, end: int, prot: Option<Prot>)
  {
    prot.Some? && start == end && exists r :: r in rs && r.start < start < r.end
  }

  lemma {:induction false} CutEmpty(rs: seq<Region>, start: int, end: int, prot: Option<Prot>)
    requires start <= end && NoEmpty(rs)
    ensures NoEmpty(CutAll(rs, start, end, prot)) <==> !LeavesEmpty(rs, start, end, prot)
  {
    if rs != [] {
      CutEmpty(rs[1..], start, end, prot);
      var c := Cut(rs[0], start, end, prot);
      assert rs[0].start < rs[0].end;
      if prot.Some? && start == end && rs[0].start < start < rs[0].end {
        assert c[1] in CutAll(rs, start, end, prot);
        assert LeavesEmpty(rs, start, end, prot);
      } else {
        assert NoEmpty(c);
        assert LeavesEmpty(rs, start, end, prot) ==> LeavesEmpty(rs[1..], start, end, prot);
      }
    }
  }

  // ---------------------------------------------------------------- reserving

  /** `AddressSpace::overlaps`. */
  predicate Overlaps(rs: seq<Region>, start: int, end: int)
  {
    exists r :: r in rs && start < r.end && r.start < end
  }

  predicate Mapped(rs: seq<Region>, p: int)
  {
    RegionAt(rs, p).Some?
  }

  lemma {:induction false} RegionAtIn(rs: seq<Region>, p: int, r: Region)
    requires r in rs && Contains(r, p)
    ensures Mapped(rs, p)
  {
    if rs != [] && !Contains(rs[0], p) {
      RegionAtIn(rs[1..], p, r);
    }
  }

  lemma {:induction false} MappedWitness(rs: seq<Region>, p: int)
    requires Mapped(rs, p)
    ensures exists r :: r in rs && Contains(r, p)
  {
    if !Contains(rs[0], p) {
      MappedWitness(rs[1..], p);
      var r :| r in rs[1..] && Contains(r, p);
      assert r in rs;
    }
  }

  /** With no empty region around, a range is refused exactly when one of its
      pages is mapped. */
  lemma OverlapExact(rs: seq<Region>, start: int, end: int)
    requires AllShaped(rs) && NoEmpty(rs) && start < end && start % PAGE_SIZE == 0
    ensures Overlaps(rs, start, end) <==> exists p :: p % PAGE_SIZE == 0 && start <= p < end && Mapped(rs, p)
  {
    if Overlaps(rs, start, end) {
      var r :| r in rs && start < r.end && r.start < end;
      var p := Max(start, r.start);
      assert Shaped(r) && r.start < r.end;
      RegionAtIn(rs, p, r);
      assert p % PAGE_SIZE == 0 && start <= p < end && Mapped(rs, p);
    }
    if p :| p % PAGE_SIZE == 0 && start <= p < end && Mapped(rs, p) {
      MappedWitness(rs, p);
    }
  }

  /** The empty region that `protect` leaves can outlive its neighbours: nothing
      is mapped any more, yet a range around it is refused. */
  lemma EmptyRegionBlocks()
    ensures var rw := Prot(true, true, false);
            var whole := [Region(0x20000, 0x40000, rw, false, Anon)];
            var split := CutAll(whole, 0x30000, 0x30000, Some(rw));
            var left := CutAll(CutAll(split, 0x20000, 0x30000, None), 0x30000, 0x40000, None);
            (forall p :: !Mapped(left, p)) && Overlaps(left, 0x20000, 0x40000)
  {
    var rw := Prot(true, true, false);
    var whole := [Region(0x20000, 0x40000, rw, false, Anon)];
    assert whole[1..] == [];
    var a, e, b := Region(0x20000, 0x30000, rw, false, Anon), Region(0x30000, 0x30000, rw, false, Anon),
                   Region(0x30000, 0x40000, rw, false, Anon);
    var split := CutAll(whole, 0x30000, 0x30000, Some(rw));
    assert Cut(whole[0], 0x30000, 0x30000, Some(rw)) == [a] + [e] + [b];
    assert CutAll([], 0x30000, 0x30000, Some(rw)) == [];
    assert split == [a, e, b];
    assert split[1..] == [e, b] && [e, b][1..] == [b] && [b][1..] == [];
    var lower := CutAll(split, 0x20000, 0x30000, None);
    assert CutAll([b], 0x20000, 0x30000, None) == [b];
    assert CutAll([e, b], 0x20000, 0x30000, None) == [e, b];
    assert lower == [e, b];
    assert CutAll([b], 0x30000, 0x40000, None) == [];
    var left := CutAll(lower, 0x30000, 0x40000, None);
    assert left == [e] && left[1..] == [];
    forall p ensures !Mapped(left, p) {
      assert RegionAt([], p).None? && !Contains(e, p);
    }
    assert e in left;
  }

  /** The four `map_*region` functions, once their bounds are aligned: check,
      then append. */
  function Reserve(rs: seq<Region>, lo: int, hi: int, prot: Prot, growsDown: bool, b: Backing): (r: Result<seq<Region>>)
  {
    if lo < USER_START || hi > USER_END || lo >= hi then Err(EINVAL)
    else if Overlaps(rs, lo, hi) then Err(EEXIST)
    else Ok(rs + [Region(lo, hi, prot, growsDown, b)])
  }

  lemma AppendExact(rs: seq<Region>, r: Region, p: int)
    requires AllShaped(rs) && Disjoint(rs) && Shaped(r) && r.start < r.end && !Overlaps(rs, r.start, r.end)
    ensures AllShaped(rs + [r]) && Disjoint(rs + [r]) && (NoEmpty(rs) ==> NoEmpty(rs + [r]))
    ensures MeaningAt(rs + [r], p) == if Contains(r, p) then Some(MeaningIn(r, p)) else MeaningAt(rs, p)
  {
    forall q | q in rs ensures Apart(q, r) {
      assert Shaped(q);
    }
    assert [r][1..] == [] && Disjoint([r]);
    forall x | x in rs ensures ApartFromAll(x, [r]) {
    }
    DisjointAppend(rs, [r]);
    RegionAtAppend(rs, [r], p);
    if Contains(r, p) {
      forall q | q in rs ensures !Contains(q, p) {
        assert Apart(q, r);
      }
      NotInAny(rs, p);
    }
  }

  /** A successful reservation keeps the shape, adds exactly its pages and
      changes no other page. */
  lemma ReserveExact(rs: seq<Region>, lo: int, hi: int, prot: Prot, growsDown: bool, b: Backing, p: int)
    requires AllShaped(rs) && Disjoint(rs) && (growsDown ==> b == Anon)
    requires lo % PAGE_SIZE == 0 && hi % PAGE_SIZE == 0 && Reserve(rs, lo, hi, prot, growsDown, b).Ok?
    ensures var rs' := Reserve(rs, lo, hi, prot, growsDown, b).value;
            && AllShaped(rs') && Disjoint(rs') && (NoEmpty(rs) ==> NoEmpty(rs'))
            && MeaningAt(rs', p) == if lo <= p < hi then Some(Meaning(prot, SourceIn(b, p - lo))) else MeaningAt(rs, p)
  {
    AppendExact(rs, Region(lo, hi, prot, growsDown, b), p);
  }

  // ---------------------------------------------------------------- growing

  ghost predicate DisjointByIndex(rs: seq<Region>)
  {
    forall i, j :: 0 <= i < j < |rs| ==> Apart(rs[i], rs[j])
  }

  lemma {:induction false} DisjointIndex(rs: seq<Region>)
    ensures Disjoint(rs) <==> DisjointByIndex(rs)
  {
    if rs != [] {
      DisjointIndex(rs[1..]);
      if Disjoint(rs) {
        forall i, j | 0 <= i < j < |rs| ensures Apart(rs[i], rs[j]) {
          if i > 0 {
            assert rs[i] == rs[1..][i - 1] && rs[j] == rs[1..][j - 1];
          } else {
            assert rs[j] in rs[1..];
          }
        }
      }
      if DisjointByIndex(rs) {
        assert forall i, j :: 0 <= i < j < |rs[1..]| ==> rs[1..][i] == rs[i + 1] && rs[1..][j] == rs[j + 1];
        forall r | r in rs[1..] ensures Apart(rs[0], r) {
          var j :| 0 <= j < |rs[1..]| && rs[1..][j] == r;
          assert rs[j + 1] == r;
        }
      }
    }
  }

  lemma {:induction false} RegionAtIndex(rs: seq<Region>, i: nat, p: int)
    requires Disjoint(rs) && i < |rs| && Contains(rs[i], p)
    ensures RegionAt(rs, p) == Some(rs[i])
  {
    if i > 0 {
      assert rs[i] in rs[1..];
      assert Apart(rs[0], rs[i]);
      RegionAtIndex(rs[1..], i - 1, p);
    }
  }

  lemma NotInAnyIndex(rs: seq<Region>, p: int)
    requires forall i :: 0 <= i < |rs| ==> !Contains(rs[i], p)
    ensures RegionAt(rs, p).None?
  {
    NotInAny(rs, p);
  }

  lemma RegionAtCases(rs: seq<Region>, p: int) returns (i: nat)
    ensures i <= |rs|
    ensures i < |rs| ==> Contains(rs[i], p)
    ensures i == |rs| ==> RegionAt(rs, p).None?
  {
    i := 0;
    while i < |rs| && !Contains(rs[i], p)
      invariant i <= |rs|
      invariant forall j :: 0 <= j < i ==> !Contains(rs[j], p)
    {
      i := i + 1;
    }
    if i == |rs| {
      NotInAnyIndex(rs, p);
    }
  }

  /** Moving one boundary of an anonymous region over free space gives its pages
      to the region and leaves the others alone. */
  lemma StretchMeaning(rs: seq<Region>, i: nat, r: Region, p: int)
    requires i < |rs| && Disjoint(rs) && Disjoint(rs[i := r])
    requires Within(rs[i], r) && r.prot == rs[i].prot && r.backing == rs[i].backing
    requires r.backing == Anon || r.start == rs[i].start
    ensures MeaningAt(rs[i := r], p) == if Contains(r, p) then Some(MeaningIn(r, p)) else MeaningAt(rs, p)
  {
    var rs' := rs[i := r];
    if Contains(r, p) {
      RegionAtIndex(rs', i, p);
    } else {
      var j := RegionAtCases(rs, p);
      if j < |rs| {
        assert j != i;
        RegionAtIndex(rs, j, p);
        RegionAtIndex(rs', j, p);
      } else {
        forall k | 0 <= k < |rs'| ensures !Contains(rs'[k], p) {
          if k != i && Contains(rs[k], p) {
            RegionAtIndex(rs, k, p);
          }
        }
        NotInAnyIndex(rs', p);
      }
    }
  }

  // ---------------------------------------------------------------- stack growth

  const STACK_REACH: int := 64 * PAGE_SIZE

  predicate CanGrow(r: Region, page: int)
  {
    r.growsDown && page < r.start && r.start - page <= STACK_REACH
  }

  /** Index of the first region that may grow down to `page`, or the length. */
  function FirstGrowing(rs: seq<Region>, page: int): (i: nat)
    ensures i <= |rs|
    ensures i < |rs| ==> CanGrow(rs[i], page)
    ensures forall j :: 0 <= j < i ==> !CanGrow(rs[j], page)
  {
    if rs == [] then 0
    else if CanGrow(rs[0], page) then 0
    else
      var k := FirstGrowing(rs[1..], page);
      assert forall j :: 0 < j < k + 1 ==> rs[j] == rs[1..][j - 1];
      k + 1
  }

  /** Another region lies where region `i` would have to grow. */
  predicate InTheWay(rs: seq<Region>, i: nat, page: int)
    requires i < |rs|
  {
    exists j :: 0 <= j < |rs| && j != i && page < rs[j].end && rs[j].start < rs[i].end
  }

  /** `try_grow_stack`. */
  function Grow(rs: seq<Region>, page: int): Option<seq<Region>>
  {
    var i := FirstGrowing(rs, page);
    if i == |rs| || InTheWay(rs, i, page) then None else Some(rs[i := rs[i].(start := page)])
  }

  /** Growing hands the pages down to `page` to the stack and moves nothing else. */
  lemma GrowExact(rs: seq<Region>, page: int, p: int)
    requires AllShaped(rs) && Disjoint(rs) && page % PAGE_SIZE == 0 && Grow(rs, page).Some?
    ensures var rs', i := Grow(rs, page).value, FirstGrowing(rs, page);
            && AllShaped(rs') && Disjoint(rs') && (NoEmpty(rs) ==> NoEmpty(rs'))
            && i < |rs|
            && MeaningAt(rs', p) == if page <= p < rs[i].end then Some(Meaning(rs[i].prot, Zero)) else MeaningAt(rs, p)
  {
    var i := FirstGrowing(rs, page);
    var r := rs[i].(start := page);
    var rs' := rs[i := r];
    assert rs[i] in rs;
    forall q | q in rs' ensures Shaped(q) {
      assert q in rs || q == r;
    }
    DisjointIndex(rs);
    DisjointIndex(rs');
    forall j, k | 0 <= j < k < |rs'| ensures Apart(rs'[j], rs'[k]) {
      assert rs[j] in rs && rs[k] in rs && Apart(rs[j], rs[k]);
    }
    StretchMeaning(rs, i, r, p);
  }

  // ---------------------------------------------------------------- program break

  /** Index of the first region that ends at the break, or the length. */
  function FirstHeap(rs: seq<Region>, base: int, cur: int): (i: nat)
    ensures i <= |rs|
    ensures i < |rs| ==> rs[i].end == cur && rs[i].start >= base && !rs[i].growsDown
    ensures forall j :: 0 <= j < i ==> !(rs[j].end == cur && rs[j].start >= base && !rs[j].growsDown)
  {
    if rs == [] then 0
    else if rs[0].end == cur && rs[0].start >= base && !rs[0].growsDown then 0
    else
      var k := FirstHeap(rs[1..], base, cur);
      assert forall j :: 0 < j < k + 1 ==> rs[j] == rs[1..][j - 1];
      k + 1
  }

  /** `brk`: the new regions and the new break, which is also the answer. */
  function BrkNext(rs: seq<Region>, base: int, cur: int, addr: int): (seq<Region>, int)
  {
    var goal := AlignUp(addr);
    if addr < base then (rs, cur)
    else if goal > cur then
      var i := FirstHeap(rs, base, cur);
      if i < |rs| then (rs[i := rs[i].(end := goal)], goal)
      else if !Overlaps(rs, cur, goal) then
        (rs + [Region(Max(base, cur), goal, Prot(true, true, false), false, Anon)], goal)
      else (rs, cur)
    else if goal < cur then (CutAll(rs, goal, cur, None), goal)
    else (rs, goal)
  }

  /** The branch that extends the heap region without an overlap check runs into
      another region. */
  predicate BrkCollides(rs: seq<Region>, base: int, cur: int, addr: int)
  {
    var i := FirstHeap(rs, base, cur);
    && addr >= base && AlignUp(addr) > cur && i < |rs|
    && exists j :: 0 <= j < |rs| && j != i && cur < rs[j].end && rs[j].start < AlignUp(addr)
  }

  lemma AlignUpBounds(addr: int, base: int)
    requires base % PAGE_SIZE == 0 && base <= addr
    ensures base <= AlignUp(addr) && addr <= AlignUp(addr) < addr + PAGE_SIZE && AlignUp(addr) % PAGE_SIZE == 0
  {
  }

  /** `brk` keeps the regions disjoint exactly when its extension does not collide. */
  lemma BrkExact(rs: seq<Region>, base: int, cur: int, addr: int)
    requires AllShaped(rs) && Disjoint(rs) && NoEmpty(rs)
    requires base % PAGE_SIZE == 0 && cur % PAGE_SIZE == 0 && base <= cur
    ensures var (rs', brk) := BrkNext(rs, base, cur, addr);
            && AllShaped(rs') && NoEmpty(rs') && base <= brk && brk % PAGE_SIZE == 0
            && (Disjoint(rs') <==> !BrkCollides(rs, base, cur, addr))
  {
    if addr >= base {
      AlignUpBounds(addr, base);
      var goal := AlignUp(addr);
      if goal > cur {
        var i := FirstHeap(rs, base, cur);
        if i < |rs| {
          BrkExtend(rs, i, goal);
        } else if !Overlaps(rs, cur, goal) {
          var r := Region(Max(base, cur), goal, Prot(true, true, false), false, Anon);
          assert [r][1..] == [] && Disjoint([r]);
          DisjointAppend(rs, [r]);
        }
      } else if goal < cur {
        CutKeepsShape(rs, goal, cur, None);
        CutEmpty(rs, goal, cur, None);
      }
    }
  }

  /** A heap of one page with another mapping right above it: asking for one page
      more makes the two overlap. */
  lemma BrkOverlaps()
    ensures var rw := Prot(true, true, false);
            var rs := [Region(0x20000, 0x21000, rw, false, Anon), Region(0x21000, 0x22000, rw, false, Anon)];
            && AllShaped(rs) && Disjoint(rs) && NoEmpty(rs)
            && BrkCollides(rs, 0x20000, 0x21000, 0x22000) && !Disjoint(BrkNext(rs, 0x20000, 0x21000, 0x22000).0)
  {
    var rw := Prot(true, true, false);
    var a, b := Region(0x20000, 0x21000, rw, false, Anon), Region(0x21000, 0x22000, rw, false, Anon);
    var rs := [a, b];
    assert rs[1..] == [b] && [b][1..] == [] && Disjoint([b]);
    assert AllShaped(rs) && Disjoint(rs) && NoEmpty(rs);
    assert FirstHeap(rs, 0x20000, 0x21000) == 0;
    assert BrkCollides(rs, 0x20000, 0x21000, 0x22000) by {
      assert rs[1].end > 0x21000;
    }
    BrkExact(rs, 0x20000, 0x21000, 0x22000);
  }

  lemma BrkExtend(rs: seq<Region>, i: nat, goal: int)
    requires AllShaped(rs) && Disjoint(rs) && NoEmpty(rs) && i < |rs|
    requires goal % PAGE_SIZE == 0 && rs[i].end < goal && !rs[i].growsDown
    ensures var rs' := rs[i := rs[i].(end := goal)];
            && AllShaped(rs') && NoEmpty(rs')
            && (Disjoint(rs') <==>
                !exists j :: 0 <= j < |rs| && j != i && rs[i].end < rs[j].end && rs[j].start < goal)
  {
    var r := rs[i].(end := goal);
    var rs' := rs[i := r];
    assert rs[i] in rs && Shaped(rs[i]);
    forall q | q in rs' ensures Shaped(q) && q.start < q.end {
      assert q in rs || q == r;
    }
    DisjointIndex(rs);
    DisjointIndex(rs');
    if j :| 0 <= j < |rs| && j != i && rs[i].end < rs[j].end && rs[j].start < goal {
      assert rs[j] in rs && Shaped(rs[j]);
      assert Apart(rs[Min(i, j)], rs[Max(i, j)]);
      assert !Apart(rs'[Min(i, j)], rs'[Max(i, j)]);
    } else {
      forall j, k | 0 <= j < k < |rs'| ensures Apart(rs'[j], rs'[k]) {
        assert rs[j] in rs && rs[k] in rs && Apart(rs[j], rs[k]);
      }
    }
  }

  /** The region's file or shared object reaches to `p`, past its end or not. */
  predicate BackingReaches(r: Region, p: int)
  {
    r.backing.Shared? || (r.backing.File? && p - r.start < r.backing.length)
  }

  /** Away from a collision, moving the break down removes its pages and changes no other,
      exactly when it cuts no shared region in two before `p`. Moving it up changes no
      page there is, and adds pages that are zero exactly when the region it extends
      is not one whose file or shared object reaches into them. */
  lemma BrkMeaning(rs: seq<Region>, base: int, cur: int, addr: int, p: int)
    requires AllShaped(rs) && Disjoint(rs) && NoEmpty(rs)
    requires base % PAGE_SIZE == 0 && cur % PAGE_SIZE == 0 && base <= cur
    requires !BrkCollides(rs, base, cur, addr)
    ensures var (rs', brk) := BrkNext(rs, base, cur, addr);
            if brk < cur then
              !RekeyedTail(rs, brk, cur, p) <==> MeaningAt(rs', p) == if brk <= p < cur then None else MeaningAt(rs, p)
            else if cur <= p < brk then
              var i := FirstHeap(rs, base, cur);
              && MeaningAt(rs', p)
                 == Some(if i < |rs| then MeaningIn(rs[i], p) else Meaning(Prot(true, true, false), Zero))
              && (MeaningAt(rs', p).value.source == Zero <==> i == |rs| || !BackingReaches(rs[i], p))
            else MeaningAt(rs', p) == MeaningAt(rs, p)
  {
    BrkExact(rs, base, cur, addr);
    if addr >= base {
      AlignUpBounds(addr, base);
      var goal := AlignUp(addr);
      var i := FirstHeap(rs, base, cur);
      if goal > cur && i < |rs| {
        ExtendMeaning(rs, i, goal, p);
      } else if goal > cur && !Overlaps(rs, cur, goal) {
        AppendExact(rs, Region(Max(base, cur), goal, Prot(true, true, false), false, Anon), p);
      } else if goal < cur {
        SplitExact(rs, goal, cur, None, p);
      }
    }
  }

  lemma ExtendMeaning(rs: seq<Region>, i: nat, goal: int, p: int)
    requires i < |rs| && rs[i].end <= goal && rs[i].start <= rs[i].end
    requires Disjoint(rs) && Disjoint(rs[i := rs[i].(end := goal)])
    ensures var rs' := rs[i := rs[i].(end := goal)];
            MeaningAt(rs', p) == if rs[i].end <= p < goal then Some(MeaningIn(rs[i], p)) else MeaningAt(rs, p)
  {
    StretchMeaning(rs, i, rs[i].(end := goal), p);
    if Contains(rs[i], p) {
      RegionAtIndex(rs, i, p);
    }
  }

  // ---------------------------------------------------------------- mmap

  datatype Placed = Placed(result: Result<int>, regions: seq<Region>, top: int)

  function Place(rs: seq<Region>, top: int, newTop: int, start: int, len: int, prot: Prot, b: Backing): Placed
  {
    match Reserve(rs, start, start + len, prot, false, b)
    case Ok(rs') => Placed(Ok(start), rs', newTop)
    case Err(e) => Placed(Err(e), rs, top)
  }

  /** `mmap` of `len` bytes, a multiple of the page size, where `at` is the hint
      rounded down: a fixed address replaces what is there, a hint is used if it
      is free, and anything else goes to `below`, under the last mapping. */
  function MmapNext(rs: seq<Region>, top: int, hint: int, at: int, below: int, len: int,
                    prot: Prot, fixed: bool, b: Backing): Placed
  {
    if fixed then Place(CutAll(rs, at, at + len, None), top, top, at, len, prot, b)
    else if hint >= USER_START && !Overlaps(rs, at, at + len) && at + len <= USER_END then
      Place(rs, top, top, at, len, prot, b)
    else if top < len then Placed(Err(ENOMEM), rs, top)
    else Place(rs, top, below, below, len, prot, b)
  }

  ghost predicate PlacedAt(rs: seq<Region>, rs': seq<Region>, at: int, len: int, prot: Prot, fixed: bool, b: Backing,
                           p: int)
  {
    && AllShaped(rs') && Disjoint(rs')
    && (at <= p < at + len ==> MeaningAt(rs', p) == Some(Meaning(prot, SourceIn(b, p - at))))
    && (!(at <= p < at + len) ==>
          (MeaningAt(rs', p) == MeaningAt(rs, p) <==> !(fixed && RekeyedTail(rs, at, at + len, p))))
  }

  lemma FixedExact(rs: seq<Region>, r: Region, len: int, p: int)
    requires AllShaped(rs) && Disjoint(rs) && Shaped(r) && !r.growsDown && 0 < len && r.end == r.start + len
    requires !Overlaps(CutAll(rs, r.start, r.end, None), r.start, r.end)
    ensures PlacedAt(rs, CutAll(rs, r.start, r.end, None) + [r], r.start, len, r.prot, true, r.backing, p)
  {
    CutKeepsShape(rs, r.start, r.end, None);
    SplitExact(rs, r.start, r.end, None, p);
    AppendExact(CutAll(rs, r.start, r.end, None), r, p);
  }

  lemma FreeExact(rs: seq<Region>, r: Region, len: int, p: int)
    requires AllShaped(rs) && Disjoint(rs) && Shaped(r) && !r.growsDown && 0 < len && r.end == r.start + len
    requires !Overlaps(rs, r.start, r.end)
    ensures PlacedAt(rs, rs + [r], r.start, len, r.prot, false, r.backing, p)
  {
    AppendExact(rs, r, p);
  }

  /** A successful `mmap` returns the start of a range that now means the new
      mapping; every other page keeps its meaning, unless a fixed mapping cut the
      shared region it lies in. */
  lemma MmapExact(rs: seq<Region>, top: int, hint: int, at: int, below: int, len: int,
                  prot: Prot, fixed: bool, b: Backing, p: int)
    requires AllShaped(rs) && Disjoint(rs) && at % PAGE_SIZE == 0 && below % PAGE_SIZE == 0
    requires len % PAGE_SIZE == 0 && 0 < len
    requires MmapNext(rs, top, hint, at, below, len, prot, fixed, b).result.Ok?
    ensures var m := MmapNext(rs, top, hint, at, below, len, prot, fixed, b);
            && (m.result.value == at || m.result.value == below)
            && PlacedAt(rs, m.regions, m.result.value, len, prot, fixed, b, p)
  {
    if fixed {
      AlignedRange(at, len);
      FixedExact(rs, Region(at, at + len, prot, false, b), len, p);
    } else if hint >= USER_START && !Overlaps(rs, at, at + len) && at + len <= USER_END {
      AlignedRange(at, len);
      FreeExact(rs, Region(at, at + len, prot, false, b), len, p);
    } else {
      AlignedRange(below, len);
      FreeExact(rs, Region(below, below + len, prot, false, b), len, p);
    }
  }

  lemma AlignedRange(at: int, len: int)
    requires at % PAGE_SIZE == 0 && len % PAGE_SIZE == 0
    ensures AlignDown(at) == at && AlignUp(at + len) == at + len && (at + len) % PAGE_SIZE == 0
  {
  }

  lemma AlignDownAligned(v: int)
    ensures AlignDown(v) % PAGE_SIZE == 0 && AlignDown(v) <= v
  {
  }

  // ---------------------------------------------------------------- the object

  class AddressSpace {
    var regions: seq<Region>
    var brk: int
    var brkBase: int
    var mmapTop: int

    ghost predicate Valid()
      reads this
    {
      && AllShaped(regions) && Disjoint(regions)
      && brkBase % PAGE_SIZE == 0 && brk % PAGE_SIZE == 0 && brkBase <= brk
    }

    constructor ()
      ensures Valid() && regions == [] && mmapTop == MMAP_TOP
    {
      regions, brk, brkBase, mmapTop := [], 0, 0, MMAP_TOP;
    }

    method HasOverlap(start: int, end: int) returns (found: bool)
      ensures found == Overlaps(regions, start, end)
    {
      found := false;
      for i := 0 to |regions|
        invariant found == exists j :: 0 <= j < i && start < regions[j].end && regions[j].start < end
      {
        if start < regions[i].end && regions[i].start < end {
          found := true;
        }
      }
    }

    /** `map_region`, `map_file_region`, `map_shared_region`, `map_shared_file_region`. */
    method Map(start: int, end: int, prot: Prot, growsDown: bool, b: Backing) returns (r: Result<()>)
      requires Valid() && (growsDown ==> b == Anon)
      modifies this`regions
      ensures Valid()
      ensures match Reserve(old(regions), AlignDown(start), AlignUp(end), prot, growsDown, b)
              case Ok(rs) => r == Ok(()) && regions == rs
              case Err(e) => r == Err(e) && regions == old(regions)
    {
      var lo, hi := AlignDown(start), AlignUp(end);
      if lo < USER_START || hi > USER_END || lo >= hi {
        return Err(EINVAL);
      }
      var clash := HasOverlap(lo, hi);
      if clash {
        return Err(EEXIST);
      }
      ReserveExact(regions, lo, hi, prot, growsDown, b, lo);
      regions := regions + [Region(lo, hi, prot, growsDown, b)];
      r := Ok(());
    }

    /** `unmap`'s loop over the regions. */
    method Unmap(start: int, len: nat)
      requires Valid()
      modifies this`regions
      ensures Valid()
      ensures regions == CutAll(old(regions), AlignDown(start), AlignUp(start + len), None)
    {
      var lo, hi := AlignDown(start), AlignUp(start + len);
      var out: seq<Region> := [];
      for i := 0 to |regions|
        invariant regions == old(regions)
        invariant out == CutAll(regions[..i], lo, hi, None)
      {
        var r := regions[i];
        assert regions[..i + 1] == regions[..i] + [r] && [r][1..] == [];
        CutAllAppend(regions[..i], [r], lo, hi, None);
        if hi <= r.start || lo >= r.end {
          out := out + [r];
        } else {
          if r.start < lo {
            out := out + [r.(end := lo)];
          }
          if hi < r.end {
            out := out + [r.(start := hi, backing := Shifted(r.backing, hi - r.start))];
          }
        }
      }
      assert regions[..|regions|] == regions;
      CutKeepsShape(regions, lo, hi, None);
      regions := out;
    }

    /** Some region covers the whole range. */
    method IsCovered(lo: int, hi: int) returns (covered: bool)
      ensures covered == exists q :: q in regions && q.start <= lo && hi <= q.end
    {
      covered := false;
      for i := 0 to |regions|
        invariant covered == exists j :: 0 <= j < i && regions[j].start <= lo && hi <= regions[j].end
      {
        if regions[i].start <= lo && hi <= regions[i].end {
          covered := true;
        }
      }
    }

    /** `protect`'s loop over the regions. */
    method Reprotect(lo: int, hi: int, prot: Prot) returns (out: seq<Region>)
      ensures out == CutAll(regions, lo, hi, Some(prot))
    {
      out := [];
      for i := 0 to |regions|
        invariant out == CutAll(regions[..i], lo, hi, Some(prot))
      {
        var pieces := SplitRegion(regions[i], lo, hi, prot);
        assert regions[..i + 1] == regions[..i] + [regions[i]];
        CutAllAppend(regions[..i], [regions[i]], lo, hi, Some(prot));
        out := out + pieces;
      }
      assert regions[..|regions|] == regions;
    }

    /** The loop's body. */
    static method SplitRegion(q: Region, lo: int, hi: int, prot: Prot) returns (out: seq<Region>)
      ensures out == CutAll([q], lo, hi, Some(prot))
    {
      assert [q][1..] == [] && CutAll([], lo, hi, Some(prot)) == [];
      if hi <= q.start || lo >= q.end {
        return [q];
      }
      out := [];
      if q.start < lo {
        out := out + [q.(end := lo)];
      }
      var mid := Max(lo, q.start);
      out := out + [Region(mid, Min(hi, q.end), prot, q.growsDown, Advanced(q.backing, mid - q.start))];
      if hi < q.end {
        out := out + [q.(start := hi, backing := Shifted(q.backing, hi - q.start))];
      }
    }

    /** `protect`. */
    method Protect(start: int, len: nat, prot: Prot) returns (r: Result<()>)
      requires Valid()
      modifies this`regions
      ensures Valid()
      ensures var lo, hi := AlignDown(start), AlignUp(start + len);
              if exists q :: q in old(regions) && q.start <= lo && hi <= q.end
              then r == Ok(()) && regions == CutAll(old(regions), lo, hi, Some(prot))
              else r == Err(ENOMEM) && regions == old(regions)
    {
      var lo, hi := AlignDown(start), AlignUp(start + len);
      var covered := IsCovered(lo, hi);
      if !covered {
        return Err(ENOMEM);
      }
      CutKeepsShape(regions, lo, hi, Some(prot));
      regions := Reprotect(lo, hi, prot);
      r := Ok(());
    }

    /** `mmap`. */
    method Mmap(hint: int, length: nat, prot: Prot, fixed: bool, b: Backing) returns (r: Result<int>)
      requires Valid()
      modifies this`regions, this`mmapTop
      ensures Valid()
      ensures var len := AlignUp(Max(length, 1));
              MmapNext(old(regions), old(mmapTop), hint, AlignDown(hint), AlignDown(old(mmapTop) - len), len, prot,
                       fixed, b)
              == Placed(r, regions, mmapTop)
    {
      var len := AlignUp(Max(length, 1));
      AlignUpBounds(Max(length, 1), 0);
      var at := AlignDown(hint);
      AlignDownAligned(hint);
      if fixed {
        AlignedRange(at, len);
        Unmap(at, len);
        r := PlaceHere(at, len, prot, b);
        return;
      }
      if hint >= USER_START {
        var clash := HasOverlap(at, at + len);
        if !clash && at + len <= USER_END {
          r := PlaceHere(at, len, prot, b);
          return;
        }
      }
      if mmapTop < len {
        return Err(ENOMEM);
      }
      var start := AlignDown(mmapTop - len);
      AlignDownAligned(mmapTop - len);
      r := PlaceHere(start, len, prot, b);
      if r.Ok? {
        mmapTop := start;
      }
    }

    /** The `place` closure of `mmap`. */
    method PlaceHere(at: int, len: int, prot: Prot, b: Backing) returns (r: Result<int>)
      requires Valid() && at % PAGE_SIZE == 0 && len % PAGE_SIZE == 0
      modifies this`regions
      ensures Valid()
      ensures forall top, newTop :: Place(old(regions), top, newTop, at, len, prot, b)
                                 == Placed(r, regions, if r.Ok? then newTop else top)
    {
      AlignedRange(at, len);
      var placed := Map(at, at + len, prot, false, b);
      r := if placed.Ok? then Ok(at) else Err(placed.errno);
    }

    /** `try_grow_stack`. */
    method TryGrowStack(page: int) returns (grown: bool)
      requires Valid() && page % PAGE_SIZE == 0
      modifies this`regions
      ensures Valid()
      ensures match Grow(old(regions), page)
              case Some(rs) => grown && regions == rs
              case None => !grown && regions == old(regions)
    {
      var i := 0;
      while i < |regions| && !CanGrow(regions[i], page)
        invariant i <= |regions|
        invariant forall j :: 0 <= j < i ==> !CanGrow(regions[j], page)
      {
        i := i + 1;
      }
      if i == |regions| {
        return false;
      }
      var blocked := false;
      for k := 0 to |regions|
        invariant blocked == exists j :: 0 <= j < k && j != i
                                         && page < regions[j].end && regions[j].start < regions[i].end
      {
        if k != i && page < regions[k].end && regions[k].start < regions[i].end {
          blocked := true;
        }
      }
      if blocked {
        return false;
      }
      GrowExact(regions, page, page);
      regions := regions[i := regions[i].(start := page)];
      grown := true;
    }

    /** `brk`. */
    method Brk(addr: int) returns (answer: int)
      requires Valid()
      modifies this`regions, this`brk
      ensures (regions, brk) == BrkNext(old(regions), brkBase, old(brk), addr) && answer == brk
    {
      if addr < brkBase {
        return brk;
      }
      var goal := AlignUp(addr);
      AlignUpBounds(addr, brkBase);
      var cur := brk;
      if goal > cur {
        var moved := Extend(cur, goal);
        if !moved {
          return cur;
        }
      } else if goal < cur {
        AlignedRange(goal, cur - goal);
        Unmap(goal, cur - goal);
      }
      brk := goal;
      answer := goal;
    }

    /** The growing half of `brk`: extend the heap region, or create it. */
    method Extend(cur: int, goal: int) returns (moved: bool)
      modifies this`regions
      ensures var i := FirstHeap(old(regions), brkBase, cur);
              if i < |old(regions)| then moved && regions == old(regions)[i := old(regions)[i].(end := goal)]
              else if !Overlaps(old(regions), cur, goal) then
                && moved
                && regions == old(regions) + [Region(Max(brkBase, cur), goal, Prot(true, true, false), false, Anon)]
              else !moved && regions == old(regions)
    {
      var i := 0;
      while i < |regions| && !(regions[i].end == cur && regions[i].start >= brkBase && !regions[i].growsDown)
        invariant i <= |regions|
        invariant forall j :: 0 <= j < i ==>
                    !(regions[j].end == cur && regions[j].start >= brkBase && !regions[j].growsDown)
      {
        i := i + 1;
      }
      if i < |regions| {
        regions := regions[i := regions[i].(end := goal)];
        return true;
      }
      var clash := HasOverlap(cur, goal);
      if !clash {
        regions := regions + [Region(Max(brkBase, cur), goal, Prot(true, true, false), false, Anon)];
      }
      moved := !clash;
    }
  }
}
