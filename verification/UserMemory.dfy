/** User memory: page tables of every address space, reference-counted frames,
    copy-on-write fork, shared objects and eviction to swap.

    The page tables of all spaces are one map from (space, page) to entry, RAM is
    a map from frame to contents, and the swap device a map from slot to
    contents. The kernel is not preempted, so each section between two sleeps is
    one atomic `Step`. A fault that has to wait for a frame, the swap device or a
    file, and an eviction, are several steps, between which other threads of the
    same space run; a system call that loops over pages is a run of steps. */
module UserMemory {

  const PAGE_SIZE: nat := 4096

  type Byte = x: int | 0 <= x < 256
  type Page = p: seq<Byte> | |p| == PAGE_SIZE witness seq(PAGE_SIZE, i => 0)
  type Frame = nat
  type Slot = nat
  type SpaceId = nat
  type Tid = nat

  function ZeroPage(): Page
  {
    seq(PAGE_SIZE, i => 0)
  }

  datatype Option<+T> = None | Some(value: T)

  /** A page of an address space. */
  datatype Loc = Loc(space: SpaceId, vpn: nat)

  /** A page of a shared object, keyed by its offset within the object. */
  datatype Key = Key(obj: nat, off: nat)

  datatype Prot = Prot(read: bool, write: bool, exec: bool)

  /** What backs a page of a region: demand-zero memory, a private copy of file
      contents, or a page of a shared object. */
  datatype Kind = Anon | File(contents: Page) | Shared(key: Key)

  datatype Vma = Vma(prot: Prot, kind: Kind)

  datatype Pte =
    | Present(frame: Frame, writable: bool, cow: bool, accessed: bool, dirty: bool)
    | Swapped(slot: Slot)

  /** An eviction between staging the page to `slot` and committing the entry. */
  datatype Flight = Flight(loc: Loc, frame: Frame, slot: Slot)

  /** An eviction that has cleared DIRTY and not yet copied the page. */
  datatype Prep = Prep(loc: Loc, frame: Frame)

  /** A frame that has been allocated and filled and that no table maps yet. */
  datatype Hand = Hand(frame: Frame, contents: Page)

  /** A fault under way: the region as it was when the fault began, the slot the
      page was in, and the new frame once there is one. */
  datatype Fetch = Fetch(loc: Loc, vma: Vma, origin: Option<Slot>, hand: Option<Hand>)

  /** The evictions and faults that threads have under way. */
  datatype Pending = Pending(preps: map<Tid, Prep>, fetches: map<Tid, Fetch>)

  /** `count` starts with the first mapping: until then the only reference to a new
      frame is the hand of its fault. */
  datatype World = World(
    spaces: set<SpaceId>,
    vmas: map<Loc, Vma>,
    table: map<Loc, Pte>,
    ram: map<Frame, Page>,
    count: map<Frame, nat>,
    objects: map<Key, Frame>,
    swap: map<Slot, Page>,
    flights: set<Flight>,
    pending: Pending)

  function Boot(): World
  {
    World({}, map[], map[], map[], map[], map[], map[], {}, Pending(map[], map[]))
  }

  /** What thread `t` has under way. */
  function WithFetch(w: World, t: Tid, fetch: Fetch): World
  {
    w.(pending := w.pending.(fetches := w.pending.fetches[t := fetch]))
  }

  function WithoutFetch(w: World, t: Tid): World
  {
    w.(pending := w.pending.(fetches := w.pending.fetches - {t}))
  }

  // ---------------------------------------------------------------- frame counts

  /** `page_get`. */
  function Get(w: World, f: Frame): World
    requires f in w.count
  {
    w.(count := w.count[f := w.count[f] + 1])
  }

  /** `page_put`: the frame goes back to the allocator with its last reference. */
  function Put(w: World, f: Frame): World
    requires f in w.count
  {
    if w.count[f] <= 1 then w.(count := w.count - {f}, ram := w.ram - {f})
    else w.(count := w.count[f := w.count[f] - 1])
  }

  /** `alloc_user_page` followed by filling the frame. */
  function Alloc(w: World, f: Frame, c: Page): World
  {
    w.(count := w.count[f := 1], ram := w.ram[f := c])
  }

  // ---------------------------------------------------------------- page faults

  /** What the allocator, the devices and the page-table allocator answer. `other` is
      what the swap device holds in a slot that is not in use. */
  datatype Supply = Supply(frame: Option<Frame>, readOk: bool, mapOk: bool, other: Page)

  predicate Holds(fetches: map<Tid, Fetch>, t: Tid, f: Frame)
  {
    t in fetches && fetches[t].hand.Some? && fetches[t].hand.value.frame == f
  }

  predicate InHand(fetches: map<Tid, Fetch>, f: Frame)
  {
    exists t :: t in fetches && Holds(fetches, t, f)
  }

  predicate Available(w: World, sup: Supply)
  {
    && sup.frame.Some? && sup.frame.value !in w.ram && sup.frame.value !in w.count
    && !InHand(w.pending.fetches, sup.frame.value)
  }

  datatype Errno = EFAULT | ENOMEM

  /** What the first section of a fault does: it is over, or it has to wait. */
  datatype Plan =
    | Fail(errno: Errno)
    | Resident
    | TakeOver
    | CopyTo(frame: Frame)
    | Start(fetch: Fetch)

  function InitialPage(k: Kind): Page
  {
    match k
    case File(c) => c
    case _ => ZeroPage()
  }

  /** `fault_in` / `handle_fault` down to the first point where they may sleep:
      `do_cow` does not, `swap_in` and a new page do. */
  function FaultPlan(w: World, l: Loc, write: bool, sup: Supply): Plan
    requires WellFormed(w)
  {
    if l !in w.vmas || (write && !w.vmas[l].prot.write) then Fail(EFAULT)
    else if l !in w.table then Start(Fetch(l, w.vmas[l], None, None))
    else match w.table[l]
      case Present(f, _, cow, _, _) =>
        if write && cow then
          if w.count[f] == 1 then TakeOver
          else if Available(w, sup) then CopyTo(sup.frame.value)
          else Fail(ENOMEM)
        else Resident
      case Swapped(slot) => Start(Fetch(l, w.vmas[l], Some(slot), None))
  }

  function FreshPte(f: Frame, writable: bool): Pte
  {
    Present(f, writable, false, false, false)
  }

  /** Map a newly allocated frame holding `c`. */
  function Install(w: World, l: Loc, f: Frame, c: Page): World
    requires l in w.vmas
  {
    w.(count := w.count[f := 1], ram := w.ram[f := c], table := w.table[l := FreshPte(f, w.vmas[l].prot.write)])
  }

  function FaultNext(w: World, t: Tid, l: Loc, write: bool, sup: Supply): World
    requires WellFormed(w)
  {
    if t in w.pending.fetches then w else
    match FaultPlan(w, l, write, sup)
    case Fail(_) => w
    case Resident => w
    case TakeOver => w.(table := w.table[l := w.table[l].(cow := false, writable := true)])
    case CopyTo(f) => Put(Install(w, l, f, w.ram[w.table[l].frame]), w.table[l].frame)
    case Start(fetch) => WithFetch(w, t, fetch)
  }

  /** What a fault reads into its new frame. A slot that no entry owns may hold
      anything; a read of a file that fails leaves zeros. */
  function LoadedPage(w: World, fetch: Fetch, sup: Supply): Page
    requires WellFormed(w)
  {
    match fetch.origin
    case Some(slot) => if InTable(w.table, slot) && slot in w.swap then w.swap[slot] else sup.other
    case None => if sup.readOk then InitialPage(fetch.vma.kind) else ZeroPage()
  }

  /** A fault on a page that the region leaves to a shared object. */
  predicate Joint(fetch: Fetch)
  {
    fetch.origin.None? && fetch.vma.kind.Shared?
  }

  /** Any other fault gets its frame, or fails, and reads the page into it. */
  function LoadNext(w: World, t: Tid, sup: Supply): World
    requires WellFormed(w)
  {
    if t !in w.pending.fetches || w.pending.fetches[t].hand.Some? || Joint(w.pending.fetches[t]) then w
    else if !Available(w, sup) || (w.pending.fetches[t].origin.Some? && !sup.readOk) then WithoutFetch(w, t)
    else
      var fetch := w.pending.fetches[t];
      WithFetch(w, t, fetch.(hand := Some(Hand(sup.frame.value, LoadedPage(w, fetch, sup)))))
  }

  /** `map_4k` refuses an entry that is present. */
  predicate MapFails(w: World, l: Loc, mapOk: bool)
  {
    !mapOk || (l in w.table && w.table[l].Present?)
  }

  function SlotSet(origin: Option<Slot>): set<Slot>
  {
    match origin
    case Some(slot) => {slot}
    case None => {}
  }

  /** The end of such a fault: map the frame over whatever is there, then free the
      slot the page was read from. If the mapping fails the frame is not given back. */
  function SettleNext(w: World, t: Tid, mapOk: bool): World
  {
    if t !in w.pending.fetches || w.pending.fetches[t].hand.None? then w
    else
      var fetch, w0 := w.pending.fetches[t], WithoutFetch(w, t);
      var f, c := fetch.hand.value.frame, fetch.hand.value.contents;
      if MapFails(w, fetch.loc, mapOk) then Alloc(w0, f, c)
      else
        w0.(count := w.count[f := 1], ram := w.ram[f := c], swap := w.swap - SlotSet(fetch.origin),
            table := w.table[fetch.loc := FreshPte(f, fetch.vma.prot.write)])
  }

  /** The end of a fault on a shared page, in one section under the object's lock:
      find or make its frame, take a reference, map it. */
  function JoinNext(w: World, t: Tid, sup: Supply): World
    requires WellFormed(w)
  {
    if t !in w.pending.fetches || !Joint(w.pending.fetches[t]) then w
    else
      var fetch, w0 := w.pending.fetches[t], WithoutFetch(w, t);
      var k := fetch.vma.kind.key;
      if k !in w.objects && !Available(w, sup) then w0
      else
        var w1 := if k in w.objects then w0
                  else Alloc(w0, sup.frame.value, ZeroPage()).(objects := w.objects[k := sup.frame.value]);
        var f := w1.objects[k];
        var w2 := Get(w1, f);
        if MapFails(w, fetch.loc, sup.mapOk) then w2
        else w2.(table := w2.table[fetch.loc := FreshPte(f, fetch.vma.prot.write)])
  }

  // ---------------------------------------------------------------- fork, unmap, protect

  /** The entry as `fork` leaves it in both spaces: a private writable page
      becomes read-only and copy-on-write. */
  function ForkedPte(e: Pte, shared: bool): Pte
    requires e.Present?
  {
    if !shared && e.writable then e.(writable := false, cow := true) else e
  }

  /** The sharing half of an iteration of `fork`'s page loop, after a swapped page has
      been brought back by a fault. `vma` is the region as it was when `fork`
      began, `childMapOk` the answer of the child's `map_4k`. */
  function ForkPageNext(w: World, l: Loc, child: SpaceId, vma: Vma, childMapOk: bool): World
    requires WellFormed(w)
  {
    var c := Loc(child, l.vpn);
    if child !in w.spaces || c in w.vmas || c in w.table then w
    else
      var w1 := w.(vmas := w.vmas[c := vma]);
      if l in w.table && w.table[l].Present? then
        var e := ForkedPte(w.table[l], vma.kind.Shared?);
        var w2 := Get(w1.(table := w1.table[l := e]), e.frame);
        if childMapOk then w2.(table := w2.table[c := e]) else w2
      else w1
  }

  function UnmapPageNext(w: World, l: Loc): World
    requires WellFormed(w)
  {
    var w1 := w.(vmas := w.vmas - {l}, table := w.table - {l});
    if l !in w.table then w1
    else match w.table[l]
      case Swapped(slot) => w1.(swap := w1.swap - {slot})
      case Present(f, _, _, _, _) => Put(w1, f)
  }

  /** `protect`'s loop body: an entry that is copy-on-write stays read-only. */
  function ProtectedPte(e: Pte, prot: Prot): Pte
  {
    match e
    case Present(f, _, cow, acc, dirty) => Present(f, prot.write && !cow, cow, acc, dirty)
    case Swapped(_) => e
  }

  function ProtectPageNext(w: World, l: Loc, prot: Prot): World
  {
    if l !in w.vmas then w
    else
      var w1 := w.(vmas := w.vmas[l := w.vmas[l].(prot := prot)]);
      if l in w.table then w1.(table := w1.table[l := ProtectedPte(w.table[l], prot)]) else w1
  }

  // ---------------------------------------------------------------- eviction

  /** Whether `try_evict` goes past its first checks. It looks at the entry only: the
      region it was called for may be gone. */
  predicate Evictable(w: World, l: Loc)
    requires WellFormed(w)
  {
    l in w.table && w.table[l].Present? && !w.table[l].cow && w.count[w.table[l].frame] == 1
  }

  /** The first section of `try_evict`: second chance, or clear DIRTY. */
  function EvictStageNext(w: World, t: Tid, l: Loc, force: bool): World
    requires WellFormed(w)
  {
    if t in w.pending.preps || !Evictable(w, l) then w
    else if !force && w.table[l].accessed then
      w.(table := w.table[l := w.table[l].(accessed := false)])
    else
      w.(table := w.table[l := w.table[l].(dirty := false)],
         pending := w.pending.(preps := w.pending.preps[t := Prep(l, w.table[l].frame)]))
  }

  /** `store_page`: copy what the frame holds by now to a free slot (`None` when the
      device is full or the write failed). A frame that has been given back may
      hold anything. */
  function EvictWriteNext(w: World, t: Tid, slot: Option<Slot>, other: Page): World
  {
    if t !in w.pending.preps then w
    else
      var p, w0 := w.pending.preps[t], w.(pending := w.pending.(preps := w.pending.preps - {t}));
      if slot.Some? && slot.value !in w.swap then
        w0.(swap := w.swap[slot.value := if p.frame in w.ram then w.ram[p.frame] else other],
            flights := w.flights + {Flight(p.loc, p.frame, slot.value)})
      else w0
  }

  /** The last section: replace the entry only if nothing wrote the page. */
  function EvictCommitNext(w: World, fl: Flight, charged: bool): World
    requires WellFormed(w)
  {
    if fl !in w.flights then w
    else
      var w1 := w.(flights := w.flights - {fl});
      if charged && fl.loc in w.table && Unwritten(w.table[fl.loc], fl.frame) then
        Put(w1.(table := w1.table[fl.loc := Swapped(fl.slot)]), fl.frame)
      else w1.(swap := w1.swap - {fl.slot})
  }

  predicate Unwritten(e: Pte, f: Frame)
  {
    e.Present? && e.frame == f && !e.dirty
  }

  // ---------------------------------------------------------------- the machine

  datatype Step =
    | NewSpace(s: SpaceId)
    | MapPage(loc: Loc, vma: Vma)
    | Fault(tid: Tid, loc: Loc, write: bool, supply: Supply)
    | Load(tid: Tid, supply: Supply)
    | Settle(tid: Tid, mapOk: bool)
    | Join(tid: Tid, supply: Supply)
    | Store(loc: Loc, off: nat, value: Byte)
    | KernelCopy(loc: Loc, off: nat, data: seq<Byte>)
    | UnmapPage(loc: Loc)
    | ProtectPage(loc: Loc, prot: Prot)
    | ForkPage(loc: Loc, child: SpaceId, vma: Vma, childMapOk: bool)
    | EvictStage(tid: Tid, loc: Loc, force: bool)
    | EvictWrite(tid: Tid, slot: Option<Slot>, other: Page)
    | EvictCommit(flight: Flight, charged: bool)
    | ReleaseSpace(s: SpaceId)
    | DropKey(key: Key)

  function Splice(p: Page, off: nat, data: seq<Byte>): (r: Page)
    requires off + |data| <= PAGE_SIZE
  {
    p[..off] + data + p[off + |data|..]
  }

  /** A store by the CPU through a writable entry sets ACCESSED and DIRTY; one
      that is not permitted faults and changes nothing. */
  function StoreNext(w: World, l: Loc, off: nat, b: Byte): World
    requires WellFormed(w)
  {
    if off < PAGE_SIZE && l in w.table && w.table[l].Present? && w.table[l].writable then
      var f := w.table[l].frame;
      w.(ram := w.ram[f := Splice(w.ram[f], off, [b])],
         table := w.table[l := w.table[l].(accessed := true, dirty := true)])
    else w
  }

  /** One chunk of `AddressSpace::write`, after its `fault_in(page, true)`: the
      bytes go to the frame through the direct map, so the entry's DIRTY bit is
      left alone. */
  function KernelCopyNext(w: World, l: Loc, off: nat, data: seq<Byte>): World
    requires WellFormed(w)
  {
    if CopyAllowed(w, l, off, data) then
      var f := w.table[l].frame;
      w.(ram := w.ram[f := Splice(w.ram[f], off, data)])
    else w
  }

  predicate CopyAllowed(w: World, l: Loc, off: nat, data: seq<Byte>)
  {
    && off + |data| <= PAGE_SIZE
    && l in w.vmas && w.vmas[l].prot.write
    && l in w.table && w.table[l].Present? && !w.table[l].cow
  }

  function Without<T>(m: map<Loc, T>, s: SpaceId): map<Loc, T>
  {
    map l | l in m && l.space != s :: m[l]
  }

  function Next(w: World, st: Step): World
    requires WellFormed(w)
  {
    match st
    case NewSpace(s) => w.(spaces := w.spaces + {s})
    case MapPage(l, vma) =>
      if l.space in w.spaces && l !in w.vmas && l !in w.table then w.(vmas := w.vmas[l := vma]) else w
    case Fault(t, l, write, sup) => FaultNext(w, t, l, write, sup)
    case Load(t, sup) => LoadNext(w, t, sup)
    case Settle(t, mapOk) => SettleNext(w, t, mapOk)
    case Join(t, sup) => JoinNext(w, t, sup)
    case Store(l, off, b) => StoreNext(w, l, off, b)
    case KernelCopy(l, off, data) => KernelCopyNext(w, l, off, data)
    case UnmapPage(l) => UnmapPageNext(w, l)
    case ProtectPage(l, prot) => ProtectPageNext(w, l, prot)
    case ForkPage(l, child, vma, ok) => ForkPageNext(w, l, child, vma, ok)
    case EvictStage(t, l, force) => EvictStageNext(w, t, l, force)
    case EvictWrite(t, slot, other) => EvictWriteNext(w, t, slot, other)
    case EvictCommit(fl, charged) => EvictCommitNext(w, fl, charged)
    case ReleaseSpace(s) =>
      if Busy(w, s) then w
      else w.(spaces := w.spaces - {s},
              vmas := Without(w.vmas, s),
              table := Without(w.table, s))
    case DropKey(k) =>
      if k !in w.objects || ObjectHeld(w, k.obj) then w
      else Put(w.(objects := w.objects - {k}), w.objects[k])
  }

  predicate HoldsObject(v: Vma, obj: nat)
  {
    v.kind.Shared? && v.kind.key.obj == obj
  }

  /** Some mapping, or a fault under way, still holds a reference to the object. */
  predicate ObjectHeld(w: World, obj: nat)
  {
    || (exists l :: l in w.vmas && HoldsObject(w.vmas[l], obj))
    || (exists t :: t in w.pending.fetches && HoldsObject(w.pending.fetches[t].vma, obj))
  }

  /** A fault or an eviction of a page of `s` is under way, so its space is held. */
  predicate Busy(w: World, s: SpaceId)
  {
    || (exists fl :: fl in w.flights && fl.loc.space == s)
    || (exists t :: t in w.pending.preps && w.pending.preps[t].loc.space == s)
    || (exists t :: t in w.pending.fetches && w.pending.fetches[t].loc.space == s)
  }

  // ---------------------------------------------------------------- invariant

  predicate Backed(w: World, e: Pte)
  {
    match e
    case Present(f, _, _, _, _) => f in w.ram
    case Swapped(slot) => slot in w.swap
  }

  /** Every reference points at something that exists. */
  ghost predicate WellFormed(w: World)
  {
    && w.count.Keys == w.ram.Keys
    && (forall l :: l in w.table ==> Backed(w, w.table[l]))
    && (forall k :: k in w.objects ==> w.objects[k] in w.ram)
    && (forall fl :: fl in w.flights ==> fl.slot in w.swap)
    && (forall l :: l in w.table ==> l in w.vmas)
    && (forall l :: l in w.vmas ==> l.space in w.spaces)
  }

  predicate Maps(e: Pte, f: Frame)
  {
    e.Present? && e.frame == f
  }

  function PteRefs(table: map<Loc, Pte>, f: Frame): set<Loc>
  {
    set l | l in table && Maps(table[l], f)
  }

  function ObjRefs(objects: map<Key, Frame>, f: Frame): set<Key>
  {
    set k | k in objects && objects[k] == f
  }

  function CountOf(count: map<Frame, nat>, f: Frame): nat
  {
    if f in count then count[f] else 0
  }

  /** The count of a frame is the number of entries and shared objects that hold
      it; a frame without references is free. */
  ghost predicate Counted(w: World)
  {
    && (forall f :: CountOf(w.count, f) == |PteRefs(w.table, f)| + |ObjRefs(w.objects, f)|)
    && (forall f :: f in w.count ==> w.count[f] > 0)
  }

  predicate InTable(table: map<Loc, Pte>, slot: Slot)
  {
    exists l :: l in table && table[l] == Swapped(slot)
  }

  predicate InFlight(flights: set<Flight>, slot: Slot)
  {
    exists fl :: fl in flights && fl.slot == slot
  }

  /** Every used slot belongs to one swapped entry or one eviction in flight. */
  ghost predicate SlotsOwned(w: World)
  {
    && (forall l, m | l in w.table && m in w.table && w.table[l].Swapped? && w.table[m] == w.table[l] :: l == m)
    && (forall fl, gl :: fl in w.flights && gl in w.flights && fl.slot == gl.slot ==> fl == gl)
    && (forall l, fl :: l in w.table && fl in w.flights && w.table[l].Swapped? ==> w.table[l].slot != fl.slot)
    && (forall slot :: slot in w.swap ==> InTable(w.table, slot) || InFlight(w.flights, slot))
  }

  /** Entries agree with their regions: shared pages map the object's frame,
      private pages never do, and only private pages are swapped. */
  ghost predicate Kinds(w: World)
  {
    && (forall l :: l in w.table ==> KindOk(w, l))
    && (forall j, k :: j in w.objects && k in w.objects && w.objects[j] == w.objects[k] ==> j == k)
  }

  predicate SharedFrame(objects: map<Key, Frame>, f: Frame)
  {
    exists k :: k in objects && objects[k] == f
  }

  ghost predicate KindOk(w: World, l: Loc)
    requires l in w.table
  {
    && l in w.vmas
    && match w.table[l]
       case Swapped(_) => !w.vmas[l].kind.Shared?
       case Present(f, writable, cow, _, _) =>
         && (writable ==> w.vmas[l].prot.write && !cow)
         && (w.vmas[l].prot.write && !cow ==> writable)
         && (match w.vmas[l].kind
             case Shared(k) => !cow && k in w.objects && w.objects[k] == f
             case _ => !SharedFrame(w.objects, f))
  }

  ghost predicate OwnsFrame(w: World, l: Loc)
    requires l in w.table
  {
    w.table[l].Present? && w.table[l].writable && l in w.vmas && !w.vmas[l].kind.Shared?
  }

  /** A private page that can be written in place is mapped by nobody else. */
  ghost predicate Exclusive(w: World)
  {
    forall l, m | l in w.table && m in w.table && OwnsFrame(w, l) && Maps(w.table[m], w.table[l].frame) :: l == m
  }

  /** A staged copy is current as long as its entry has not been written. */
  ghost predicate FlightsCurrent(w: World)
  {
    forall fl :: fl in w.flights ==> FlightOk(w, fl)
  }

  ghost predicate FlightOk(w: World, fl: Flight)
  {
    fl.loc in w.table && Unwritten(w.table[fl.loc], fl.frame) ==>
      && fl.frame in w.ram && fl.slot in w.swap && w.swap[fl.slot] == w.ram[fl.frame]
      && fl.loc in w.vmas && !w.vmas[fl.loc].kind.Shared?
  }

  /** A new frame is in one hand, and nothing else knows it. */
  ghost predicate HandsApart(fetches: map<Tid, Fetch>, used: set<Frame>)
  {
    && (forall t, f :: Holds(fetches, t, f) ==> f !in used)
    && (forall t, u, f :: Holds(fetches, t, f) && Holds(fetches, u, f) ==> t == u)
  }

  ghost predicate Hands(w: World)
  {
    HandsApart(w.pending.fetches, w.ram.Keys)
  }

  /** Tables, frames, objects and slots fit together. */
  ghost predicate Core(w: World)
  {
    WellFormed(w) && Counted(w) && SlotsOwned(w) && Kinds(w) && Exclusive(w) && FlightsCurrent(w)
  }

  ghost predicate Inv(w: World)
  {
    Core(w) && Hands(w)
  }

  // ---------------------------------------------------------------- what programs see

  /** Memory without frames, counts, entries or swap: every private page has its
      own contents, and a page of a shared object has one contents for all. */
  datatype Abs = Abs(
    spaces: set<SpaceId>,
    vmas: map<Loc, Vma>,
    own: map<Loc, Page>,
    shared: imap<Key, Page>)

  ghost function OwnPage(w: World, l: Loc): Page
    requires WellFormed(w) && l in w.vmas
  {
    if l !in w.table then InitialPage(w.vmas[l].kind)
    else match w.table[l]
      case Present(f, _, _, _, _) => w.ram[f]
      case Swapped(slot) => w.swap[slot]
  }

  ghost function SharedPage(w: World, k: Key): Page
    requires WellFormed(w)
  {
    if k in w.objects then w.ram[w.objects[k]] else ZeroPage()
  }

  ghost function OwnPages(w: World): map<Loc, Page>
    requires WellFormed(w)
  {
    map l | l in w.vmas && !w.vmas[l].kind.Shared? :: OwnPage(w, l)
  }

  ghost function SharedPages(w: World): imap<Key, Page>
    requires WellFormed(w)
  {
    imap k: Key :: SharedPage(w, k)
  }

  ghost function View(w: World): Abs
    requires WellFormed(w)
  {
    Abs(w.spaces, w.vmas, OwnPages(w), SharedPages(w))
  }

  /** Write one page of the abstract memory. */
  ghost function Write(a: Abs, l: Loc, off: nat, data: seq<Byte>): Abs
    requires off + |data| <= PAGE_SIZE
  {
    if l !in a.vmas then a
    else match a.vmas[l].kind
      case Shared(k) => if k in a.shared then a.(shared := a.shared[k := Splice(a.shared[k], off, data)]) else a
      case _ => if l in a.own then a.(own := a.own[l := Splice(a.own[l], off, data)]) else a
  }

  /** Whether a store, copy, release or drop took effect or was turned away. */
  ghost predicate Effective(w: World, st: Step)
  {
    match st
    case Store(l, off, _) => off < PAGE_SIZE && l in w.table && w.table[l].Present? && w.table[l].writable
    case KernelCopy(l, off, data) => CopyAllowed(w, l, off, data)
    case ReleaseSpace(s) => !Busy(w, s)
    case DropKey(k) => !ObjectHeld(w, k.obj)
    case _ => true
  }

  /** The step as programs see it. Faults and evictions do nothing. */
  ghost function SpecNext(a: Abs, st: Step, effective: bool): Abs
  {
    match st
    case NewSpace(s) => a.(spaces := a.spaces + {s})
    case MapPage(l, v) =>
      if l.space !in a.spaces || l in a.vmas then a
      else if v.kind.Shared? then a.(vmas := a.vmas[l := v])
      else a.(vmas := a.vmas[l := v], own := a.own[l := InitialPage(v.kind)])
    case Store(l, off, b) => if effective && off < PAGE_SIZE then Write(a, l, off, [b]) else a
    case KernelCopy(l, off, data) => if effective && off + |data| <= PAGE_SIZE then Write(a, l, off, data) else a
    case UnmapPage(l) => a.(vmas := a.vmas - {l}, own := a.own - {l})
    case ProtectPage(l, prot) => if l in a.vmas then a.(vmas := a.vmas[l := a.vmas[l].(prot := prot)]) else a
    case ForkPage(l, child, _, _) =>
      var c := Loc(child, l.vpn);
      if l !in a.vmas || child !in a.spaces || c in a.vmas then a
      else if l in a.own then a.(vmas := a.vmas[c := a.vmas[l]], own := a.own[c := a.own[l]])
      else a.(vmas := a.vmas[c := a.vmas[l]])
    case ReleaseSpace(s) =>
      if !effective then a
      else Abs(a.spaces - {s}, Without(a.vmas, s), Without(a.own, s), a.shared)
    case DropKey(k) =>
      if !effective then a else a.(shared := a.shared[k := ZeroPage()])
    case _ => a
  }

  // ---------------------------------------------------------------- exact conditions

  /** Mapping frame `f` holding `c` at `l` would let an older eviction of `l`
      commit a copy that is not `c`. */
  ghost predicate MeetsStaleFlight(w: World, l: Loc, f: Frame, c: Page, shared: bool)
  {
    exists fl :: fl in w.flights && fl.loc == l && fl.frame == f
                 && (shared || fl.slot !in w.swap || w.swap[fl.slot] != c)
  }

  ghost predicate FaultScoped(w: World, t: Tid, l: Loc, write: bool, sup: Supply)
    requires WellFormed(w)
  {
    t !in w.pending.fetches && FaultPlan(w, l, write, sup).CopyTo? ==>
      !MeetsStaleFlight(w, l, sup.frame.value, w.ram[w.table[l].frame], false)
  }

  /** When the end of a private fault is right: nobody has mapped the page or changed
      its region in the meantime, the slot is still the page's own, and what was
      read from it is still the page. `UserMemoryFaults` says which steps of other
      tasks leave it so. */
  ghost predicate SettleScoped(w: World, t: Tid, mapOk: bool)
    requires WellFormed(w)
  {
    t in w.pending.fetches && w.pending.fetches[t].hand.Some? ==> Settles(w, w.pending.fetches[t], mapOk)
  }

  ghost predicate Settles(w: World, fetch: Fetch, mapOk: bool)
    requires WellFormed(w) && fetch.hand.Some?
  {
    var l, f, c := fetch.loc, fetch.hand.value.frame, fetch.hand.value.contents;
    && !MapFails(w, l, mapOk)
    && l in w.vmas && !w.vmas[l].kind.Shared? && w.vmas[l].prot.write == fetch.vma.prot.write
    && (l in w.table ==> fetch.origin == Some(w.table[l].slot))
    && (l !in w.table && fetch.origin.Some? ==> fetch.origin.value !in w.swap)
    && c == OwnPage(w, l) && !MeetsStaleFlight(w, l, f, c, false)
  }

  /** Likewise for a shared page. */
  ghost predicate JoinScoped(w: World, t: Tid, sup: Supply)
    requires WellFormed(w)
  {
    Joining(w, t, sup) ==> Joins(w, w.pending.fetches[t], sup)
  }

  /** The object has or gets a frame for the page. */
  predicate Joining(w: World, t: Tid, sup: Supply)
  {
    && t in w.pending.fetches && Joint(w.pending.fetches[t])
    && (w.pending.fetches[t].vma.kind.key in w.objects || Available(w, sup))
  }

  ghost predicate Joins(w: World, fetch: Fetch, sup: Supply)
    requires fetch.vma.kind.Shared? && (fetch.vma.kind.key in w.objects || sup.frame.Some?)
  {
    var l, k := fetch.loc, fetch.vma.kind.key;
    && !MapFails(w, l, sup.mapOk)
    && l in w.vmas && w.vmas[l].kind == fetch.vma.kind && w.vmas[l].prot.write == fetch.vma.prot.write
    && !MeetsStaleFlight(w, l, if k in w.objects then w.objects[k] else sup.frame.value, ZeroPage(), true)
  }

  ghost predicate ForkScoped(w: World, l: Loc, child: SpaceId, vma: Vma, childMapOk: bool)
    requires WellFormed(w)
  {
    var c := Loc(child, l.vpn);
    child in w.spaces && c !in w.vmas ==>
      && l in w.vmas && w.vmas[l] == vma
      && (l in w.table ==>
            match w.table[l]
            case Present(f, _, _, _, dirty) =>
              childMapOk && (dirty || !MeetsStaleFlight(w, c, f, w.ram[f], vma.kind.Shared?))
            case Swapped(slot) => w.swap[slot] == InitialPage(vma.kind))
  }

  /** A page staged by an eviction that still looks unwritten is private. */
  ghost predicate WriteScoped(w: World, t: Tid, slot: Option<Slot>)
    requires WellFormed(w)
  {
    t in w.pending.preps && slot.Some? && slot.value !in w.swap ==>
      var p := w.pending.preps[t];
      p.loc in w.table && Unwritten(w.table[p.loc], p.frame) ==> !w.vmas[p.loc].kind.Shared?
  }

  /** A copy of this page staged earlier is no longer what the page holds. */
  ghost predicate StaleCopy(w: World, l: Loc, c: Page)
    requires WellFormed(w) && l in w.table && w.table[l].Present?
  {
    exists fl :: fl in w.flights && fl.loc == l && fl.frame == w.table[l].frame && w.swap[fl.slot] != c
  }

  /** Exactly when a step does what programs expect of it (see `StepExact`).

      - A fault ends with the page, its region and its slot as they were when it
        began, and no `map_4k` fails while it or a fork holds a new reference.
      - A swapped page that `fork` could not read back still has its initial contents.
      - `protect` makes no page writable that an earlier fork shared read-only.
      - A kernel copy does not change a page whose clean copy is being staged, and
        staging does not clear the DIRTY bit that keeps an older copy from committing.
      - No frame comes back to a page whose eviction with that frame is in flight.
      - A space is released after its entries. */
  ghost predicate Scoped(w: World, st: Step)
    requires WellFormed(w)
  {
    match st
    case Fault(t, l, write, sup) => FaultScoped(w, t, l, write, sup)
    case Settle(t, mapOk) => SettleScoped(w, t, mapOk)
    case Join(t, sup) => JoinScoped(w, t, sup)
    case KernelCopy(l, off, data) =>
      CopyAllowed(w, l, off, data) && !w.table[l].dirty ==>
        !StaleCopy(w, l, Splice(w.ram[w.table[l].frame], off, data))
    case ProtectPage(l, prot) =>
      Promotes(w, l, prot) ==> w.count[w.table[l].frame] == 1
    case ForkPage(l, child, vma, ok) => ForkScoped(w, l, child, vma, ok)
    case EvictStage(t, l, force) =>
      t !in w.pending.preps && Evictable(w, l) && (force || !w.table[l].accessed) ==>
        !StaleCopy(w, l, w.ram[w.table[l].frame])
    case EvictWrite(t, slot, _) => WriteScoped(w, t, slot)
    case ReleaseSpace(s) => Busy(w, s) || NoEntries(w.table, s)
    case _ => true
  }

  /** `protect` leaves this private page writable in place. */
  predicate Promotes(w: World, l: Loc, prot: Prot)
  {
    && l in w.vmas && !w.vmas[l].kind.Shared? && prot.write
    && l in w.table && w.table[l].Present? && !w.table[l].cow
  }

  predicate NoEntries(table: map<Loc, Pte>, s: SpaceId)
  {
    forall l :: l in table ==> l.space != s
  }
}
