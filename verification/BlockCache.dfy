/** The write-back block cache of `fs/bcache.rs` over a device that may fail at
    any command, refining a flat disk. */
module BlockCache {

  const PAGE: nat := 4096
  const READ_AHEAD: nat := 32
  const MAX_RUN: nat := 64
  const AGED: nat := 1_000_000

  type Byte = bv8
  type Page = p: seq<Byte> | |p| == PAGE witness seq(PAGE, i => 0)

  function ZeroPage(): Page
  {
    seq(PAGE, i => 0)
  }

  datatype Cached = Cached(data: Page, dirty: bool, lastUse: nat)

  /** How the device answers one command. A failed write may leave anything in
      the pages it was given. */
  datatype Answer = Done | Failed(left: nat -> Page)

  // ---------------------------------------------------------------- the flat view

  function PageView(pages: map<nat, Cached>, disk: seq<Page>, i: nat): Page
  {
    if i in pages then pages[i].data else if i < |disk| then disk[i] else ZeroPage()
  }

  /** The two states stand for the same flat disk. */
  ghost predicate SameView(p0: map<nat, Cached>, d0: seq<Page>, p1: map<nat, Cached>, d1: seq<Page>)
  {
    forall i: nat :: PageView(p1, d1, i) == PageView(p0, d0, i)
  }

  /** The byte at `pos` of the flat disk that the cache stands for. */
  function ByteView(pages: map<nat, Cached>, disk: seq<Page>, pos: nat): Byte
  {
    PageView(pages, disk, pos / PAGE)[pos % PAGE]
  }

  function DirtyPages(pages: map<nat, Cached>): set<nat>
  {
    set i | i in pages && pages[i].dirty
  }

  function CleanPages(pages: map<nat, Cached>): set<nat>
  {
    set i | i in pages && !pages[i].dirty
  }

  lemma CleanAndDirty(pages: map<nat, Cached>)
    ensures |CleanPages(pages)| + |DirtyPages(pages)| == |pages|
  {
    assert CleanPages(pages) + DirtyPages(pages) == pages.Keys;
  }

  /** A clean page is a copy of the device. */
  predicate CleanIsDisk(pages: map<nat, Cached>, disk: seq<Page>)
  {
    forall i :: i in pages && !pages[i].dirty ==> i < |disk| && disk[i] == pages[i].data
  }

  /** Eviction order: least recently used first, ties by page number. */
  predicate Before(pages: map<nat, Cached>, a: nat, b: nat)
    requires a in pages && b in pages
  {
    pages[a].lastUse < pages[b].lastUse || (pages[a].lastUse == pages[b].lastUse && a <= b)
  }

  /** No page was used after `tick`. */
  predicate Stamped(pages: map<nat, Cached>, tick: nat)
  {
    forall k :: k in pages ==> pages[k].lastUse <= tick
  }

  /** The page used last, and so the last one to be evicted. */
  predicate Youngest(pages: map<nat, Cached>, idx: nat)
  {
    idx in pages && forall k :: k in pages && k != idx ==> pages[k].lastUse < pages[idx].lastUse
  }

  /** The device after the pages from `start` on were given the contents `data`. */
  function Rewritten(disk: seq<Page>, start: nat, data: seq<Page>): (r: seq<Page>)
    ensures |r| == |disk|
    ensures forall i :: 0 <= i < |disk| ==> r[i] == if start <= i < start + |data| then data[i - start] else disk[i]
  {
    seq(|disk|, i requires 0 <= i < |disk| => if start <= i < start + |data| then data[i - start] else disk[i])
  }

  class Cache {
    var disk: seq<Page>
    var pages: map<nat, Cached>
    const capacity: nat
    var tick: nat
    /** The statistics CACHED and DIRTY. */
    var cached: nat
    var dirtied: nat
    /** The answers that the device has still to give; afterwards it succeeds. */
    var answers: seq<Answer>

    ghost predicate Valid()
      reads this
    {
      && capacity >= 64 && |pages| <= capacity
      && CleanIsDisk(pages, disk)
      && Counted() && Stamped(pages, tick)
    }

    /** The device fails no command that stays on it. */
    ghost predicate Healthy()
      reads this`answers
    {
      forall i :: 0 <= i < |answers| ==> answers[i].Done?
    }

    /** Nothing stands in the way of an operation: a healthy device, and no cached page
        past its end. */
    ghost predicate Sound()
      reads this
    {
      Healthy() && forall i :: i in pages ==> i < |disk|
    }

    ghost predicate Counted()
      reads this
    {
      cached == |pages| && dirtied == |DirtyPages(pages)|
    }

    constructor (disk: seq<Page>, capacity: nat, answers: seq<Answer>)
      ensures Valid() && this.disk == disk && this.answers == answers && pages == map[]
      ensures this.capacity == if capacity < 64 then 64 else capacity
    {
      this.disk := disk;
      this.capacity := if capacity < 64 then 64 else capacity;
      pages, tick, cached, dirtied := map[], 0, 0, 0;
      this.answers := answers;
    }

    // -------------------------------------------------------------- the device

    method NextAnswer() returns (a: Answer)
      modifies this`answers
      ensures a == (if old(answers) == [] then Done else old(answers)[0])
      ensures answers == if old(answers) == [] then [] else old(answers)[1..]
    {
      if answers == [] {
        a := Done;
      } else {
        a := answers[0];
        answers := answers[1..];
      }
    }

    /** Read `n` pages; a command past the end of the device fails. */
    method DeviceRead(start: nat, n: nat) returns (ok: bool, data: seq<Page>)
      modifies this`answers
      ensures ok ==> start + n <= |disk| && data == disk[start..start + n]
      ensures old(Healthy()) ==> Healthy() && (ok <==> start + n <= |disk|)
    {
      var a := NextAnswer();
      if a.Done? && start + n <= |disk| {
        return true, disk[start..start + n];
      }
      return false, [];
    }

    /** Write pages; on failure the pages of the range hold anything. */
    method DeviceWrite(start: nat, data: seq<Page>) returns (ok: bool)
      modifies this`answers, this`disk
      ensures |disk| == |old(disk)|
      ensures ok ==> start + |data| <= |disk|
      ensures forall i :: 0 <= i < |disk| && !(start <= i < start + |data|) ==> disk[i] == old(disk)[i]
      ensures ok ==> forall i :: start <= i < start + |data| ==> disk[i] == data[i - start]
      ensures old(Healthy()) ==> Healthy() && (ok <==> start + |data| <= |disk|)
    {
      var a := NextAnswer();
      ok := a.Done? && start + |data| <= |disk|;
      if ok {
        disk := Rewritten(disk, start, data);
      } else if a.Failed? {
        disk := Rewritten(disk, start, seq(|data|, (j: nat) => a.left(j)));
      }
    }

    method Touch() returns (t: nat)
      modifies this`tick
      ensures t == tick && tick == old(tick) + 1
    {
      tick := tick + 1;
      t := tick;
    }

    // -------------------------------------------------------------- writing back

    /** The dirty pages in ascending order. */
    method SortedDirty() returns (ks: seq<nat>)
      ensures forall i, j :: 0 <= i < j < |ks| ==> ks[i] < ks[j]
      ensures forall k :: k in ks <==> k in pages && pages[k].dirty
    {
      var left := DirtyPages(pages);
      ks := [];
      while left != {}
        invariant forall i, j :: 0 <= i < j < |ks| ==> ks[i] < ks[j]
        invariant forall i, k :: 0 <= i < |ks| && k in left ==> ks[i] < k
        invariant forall k :: k in ks || k in left <==> k in DirtyPages(pages)
        decreases |left|
      {
        MinExists(left);
        var k :| k in left && Least(left, k);
        left := left - {k};
        ks := ks + [k];
      }
    }

    /** After a run was written: mark its pages clean. */
    method MarkClean(start: nat, len: nat)
      requires Counted() && forall k :: start <= k < start + len ==> k in DirtyPages(pages)
      modifies this`pages, this`dirtied
      ensures Counted() && pages == Cleaned(old(pages), start, len)
    {
      assert pages == Cleaned(pages, start, 0);
      for j := 0 to len
        invariant Counted() && pages == Cleaned(old(pages), start, j)
      {
        var k := start + j;
        ghost var was := DirtyPages(pages);
        assert k in DirtyPages(old(pages));
        assert k in was;
        pages := pages[k := pages[k].(dirty := false)];
        assert DirtyPages(pages) == was - {k};
        dirtied := dirtied - 1;
      }
    }

    /** `writeback`: coalesced runs of dirty pages in ascending order. Whatever the
        device answers, the view stays; on success every page is clean. */
    method Writeback() returns (ok: bool)
      requires Valid()
      modifies this`disk, this`pages, this`dirtied, this`answers
      ensures Valid() && SameView(old(pages), old(disk), pages, disk) && SamePages(old(pages), pages)
      ensures |disk| == |old(disk)|
      ensures ok ==> DirtyPages(pages) == {}
      ensures old(Sound()) ==> ok && Sound()
    {
      var dirty := SortedDirty();
      var i := 0;
      while i < |dirty|
        invariant 0 <= i <= |dirty|
        invariant Valid() && SameView(old(pages), old(disk), pages, disk) && SamePages(old(pages), pages)
        invariant |disk| == |old(disk)| && (old(Sound()) ==> Sound())
        invariant forall k :: k in DirtyPages(pages) <==> k in dirty[i..]
      {
        var len := RunLength(dirty, i);
        RunIsDirty(dirty, i, dirty[i], len);
        ghost var before, marked := pages, DirtyPages(pages);
        ok := WriteRun(dirty[i], len);
        SamePagesTrans(old(pages), before, pages);
        if !ok {
          return;
        }
        forall k ensures k in DirtyPages(pages) <==> k in dirty[i + len..] {
          assert k in marked <==> k in dirty[i..];
        }
        i := i + len;
      }
      ok := true;
    }

    /** How many consecutive pages one command may take. */
    static method RunLength(dirty: seq<nat>, i: nat) returns (len: nat)
      requires i < |dirty|
      ensures 1 <= len <= MAX_RUN && i + len <= |dirty|
      ensures forall j :: i <= j < i + len ==> dirty[j] == dirty[i] + (j - i)
      ensures len == MAX_RUN || i + len == |dirty| || dirty[i + len] != dirty[i] + len
    {
      len := 1;
      while i + len < |dirty| && dirty[i + len] == dirty[i] + len && len < MAX_RUN
        invariant 1 <= len <= MAX_RUN && i + len <= |dirty|
        invariant forall j :: i <= j < i + len ==> dirty[j] == dirty[i] + (j - i)
      {
        len := len + 1;
      }
    }

    /** One coalesced command of `writeback`. */
    method WriteRun(start: nat, len: nat) returns (ok: bool)
      requires Valid() && forall k :: start <= k < start + len ==> k in DirtyPages(pages)
      modifies this`disk, this`pages, this`dirtied, this`answers
      ensures Valid() && SameView(old(pages), old(disk), pages, disk) && SamePages(old(pages), pages)
      ensures |disk| == |old(disk)|
      ensures forall k :: k in DirtyPages(pages) <==> k in old(DirtyPages(pages)) && !(ok && start <= k < start + len)
      ensures old(Sound()) && len > 0 ==> ok && Sound()
    {
      var buf: seq<Page> := [];
      for j := 0 to len
        invariant |buf| == j
        invariant forall k :: start <= k < start + j ==> k in pages && buf[k - start] == pages[k].data
      {
        assert start + j in DirtyPages(pages);
        buf := buf + [pages[start + j].data];
      }
      assert forall k :: start <= k < start + len ==> k in DirtyPages(pages);
      assert len > 0 ==> start + len - 1 in DirtyPages(pages);
      ok := DeviceWrite(start, buf);
      forall k | k in pages && !pages[k].dirty ensures k < |disk| && disk[k] == pages[k].data {
        assert k !in DirtyPages(pages);
      }
      if ok {
        MarkClean(start, len);
      }
    }

    // -------------------------------------------------------------- making room

    /** `make_room`: evict the `excess` oldest clean pages, writing back first if
        there are too few of them. `mid` is the cache that the choice is made from. */
    method MakeRoom(want: nat) returns (ok: bool, ghost mid: map<nat, Cached>, ghost evicted: set<nat>)
      requires Valid() && want <= capacity
      modifies this`disk, this`pages, this`dirtied, this`answers, this`cached
      ensures Valid() && SameView(old(pages), old(disk), pages, disk) && |disk| == |old(disk)|
      ensures SamePages(old(pages), mid) && Evicted(mid, pages, evicted)
      ensures ok ==> |pages| + want <= capacity
      ensures ok && evicted != {} ==> |pages| + want == capacity
      ensures old(|pages|) + want <= capacity ==> ok && mid == pages == old(pages) && answers == old(answers)
      ensures old(Sound()) ==> ok && Sound()
    {
      ok, mid, evicted := true, pages, {};
      if |pages| + want <= capacity {
        return;
      }
      var excess := |pages| + want - capacity;
      if |CleanPages(pages)| < excess {
        ok := Writeback();
        mid := pages;
        if !ok {
          return;
        }
        assert |pages| == |pages.Keys| == |old(pages).Keys| == |old(pages)|;
      }
      CleanAndDirty(pages);
      evicted := EvictMany(excess);
    }

    /** The eviction loop: sorted by age, the first `excess` clean pages go. */
    method EvictMany(excess: nat) returns (ghost evicted: set<nat>)
      requires Valid() && excess <= |CleanPages(pages)|
      modifies this`pages, this`cached
      ensures Valid() && SameView(old(pages), old(disk), pages, disk)
      ensures Evicted(old(pages), pages, evicted) && |pages| == |old(pages)| - excess
    {
      evicted := {};
      for n := 0 to excess
        invariant Valid() && SameView(old(pages), old(disk), pages, disk) && Evicted(old(pages), pages, evicted)
        invariant |pages| == |old(pages)| - n && |CleanPages(pages)| == |old(CleanPages(pages))| - n
      {
        evicted := EvictOldest(old(pages), evicted);
      }
    }

    method OldestClean() returns (k: nat)
      requires CleanPages(pages) != {}
      ensures k in CleanPages(pages) && Oldest(pages, CleanPages(pages), k)
    {
      OldestExists(pages, CleanPages(pages));
      k :| k in CleanPages(pages) && Oldest(pages, CleanPages(pages), k);
    }

    /** One round of the eviction loop. */
    method EvictOldest(ghost mid: map<nat, Cached>, ghost evicted: set<nat>) returns (ghost more: set<nat>)
      requires Valid() && CleanPages(pages) != {} && Evicted(mid, pages, evicted)
      modifies this`pages, this`cached
      ensures Valid() && SameView(old(pages), old(disk), pages, disk) && Evicted(mid, pages, more)
      ensures |pages| == |old(pages)| - 1 && |CleanPages(pages)| == |old(CleanPages(pages))| - 1
    {
      var k := OldestClean();
      EvictOne(mid, pages, evicted, k);
      EvictSame(pages, disk, tick, k);
      more := evicted + {k};
      pages := pages - {k};
      cached := cached - 1;
    }

    /** `insert` of a page that is not cached. */
    method Insert(i: nat, data: Page, lastUse: nat)
      requires i !in pages && Counted()
      modifies this`pages, this`cached
      ensures Counted() && pages == old(pages)[i := Cached(data, false, lastUse)] && |pages| == |old(pages)| + 1
    {
      ghost var dirty := DirtyPages(pages);
      pages := pages[i := Cached(data, false, lastUse)];
      cached := cached + 1;
      assert DirtyPages(pages) == dirty;
      assert pages.Keys == old(pages).Keys + {i};
    }

    // -------------------------------------------------------------- loading

    /** `load` with `need_data`: afterwards page `idx` is cached, and the view is
        what it was, whether or not the device cooperates. */
    method Load(idx: nat) returns (ok: bool)
      requires Valid()
      modifies this
      ensures Valid() && SameView(old(pages), old(disk), pages, disk) && |disk| == |old(disk)|
      ensures ok ==> idx in pages
      ensures idx in old(pages) ==> ok && pages == old(pages) && answers == old(answers)
      ensures old(Sound()) ==> Sound() && (ok <==> idx < |disk|)
    {
      if idx in pages {
        return true;
      }
      ghost var mid, evicted;
      ok, mid, evicted := MakeRoom(READ_AHEAD);
      if !ok {
        return;
      }
      assert idx !in mid.Keys;
      ok := Fetch(idx);
    }

    /** Read page `idx` and what follows it uncached in one command. */
    method Fetch(idx: nat) returns (ok: bool)
      requires Valid() && idx !in pages && |pages| + READ_AHEAD <= capacity
      modifies this`tick, this`answers, this`pages, this`cached
      ensures Valid() && SameView(old(pages), disk, pages, disk)
      ensures ok ==> idx in pages && Joined(old(pages), pages, idx, tick)
      ensures !ok ==> pages == old(pages)
      ensures old(Sound()) ==> Sound() && (ok <==> idx < |disk|)
    {
      var t := Touch();
      var n := AheadOf(idx);
      var buf;
      ok, buf := DeviceRead(idx, n);
      if ok {
        InsertRun(idx, buf, t);
      }
    }

    /** How many uncached pages from `idx` on one read fetches. */
    method AheadOf(idx: nat) returns (n: nat)
      requires idx !in pages
      ensures 1 <= n <= READ_AHEAD && forall k :: idx <= k < idx + n ==> k !in pages
      ensures idx + n <= |disk| || n == 1
      ensures n == READ_AHEAD || idx + n >= |disk| || idx + n in pages
    {
      n := 1;
      while n < READ_AHEAD && idx + n < |disk| && idx + n !in pages
        invariant 1 <= n <= READ_AHEAD && (idx + n <= |disk| || n == 1)
        invariant forall k :: idx <= k < idx + n ==> k !in pages
      {
        n := n + 1;
      }
    }

    /** Cache the pages just read; those read ahead start out aged. */
    method InsertRun(idx: nat, buf: seq<Page>, t: nat)
      requires Valid() && idx + |buf| <= |disk| && buf == disk[idx..idx + |buf|]
      requires |pages| + |buf| <= capacity && t <= tick
      requires forall k :: idx <= k < idx + |buf| ==> k !in pages
      modifies this`pages, this`cached
      ensures Valid() && SameView(old(pages), old(disk), pages, disk)
      ensures forall k :: k in pages <==> k in old(pages) || idx <= k < idx + |buf|
      ensures Joined(old(pages), pages, idx, t)
    {
      for j := 0 to |buf|
        invariant Valid() && SameView(old(pages), old(disk), pages, disk) && |pages| + (|buf| - j) <= capacity
        invariant forall k :: k in pages <==> k in old(pages) || idx <= k < idx + j
        invariant Joined(old(pages), pages, idx, t)
      {
        assert buf[j] == disk[idx + j];
        Insert(idx + j, buf[j], if j == 0 then t else if t < AGED then 0 else t - AGED);
      }
    }

    /** `load` without `need_data`: an uncached page becomes a blank page, which the
        caller overwrites as a whole before anyone looks. */
    method LoadBlank(idx: nat) returns (ok: bool)
      requires Valid()
      modifies this
      ensures Counted() && Stamped(pages, tick) && |pages| <= capacity && |disk| == |old(disk)|
      ensures ok ==> idx in pages
      ensures !ok ==> Valid() && SameView(old(pages), old(disk), pages, disk)
      ensures idx in old(pages) ==> ok && pages == old(pages) && answers == old(answers)
      ensures old(Sound()) ==> ok && Healthy() && forall i :: i in pages && i != idx ==> i < |disk|
      ensures forall i: nat :: i != idx ==> PageView(pages, disk, i) == old(PageView(pages, disk, i))
      ensures forall i :: i in pages && !pages[i].dirty && i != idx ==> i < |disk| && disk[i] == pages[i].data
    {
      if idx in pages {
        return true;
      }
      ghost var mid, evicted;
      ok, mid, evicted := MakeRoom(READ_AHEAD);
      if !ok {
        return;
      }
      assert idx !in mid.Keys;
      InsertBlank(idx);
    }

    method InsertBlank(idx: nat)
      requires Valid() && idx !in pages && |pages| + READ_AHEAD <= capacity
      modifies this`tick, this`pages, this`cached
      ensures Counted() && Stamped(pages, tick) && |pages| <= capacity
      ensures pages == old(pages)[idx := Cached(ZeroPage(), false, tick)]
    {
      var t := Touch();
      Insert(idx, ZeroPage(), t);
    }

    // -------------------------------------------------------------- reading and writing

    /** The part of a transfer that lies in one page: which page, where in it, how much. */
    static method Piece(pos: nat, left: nat, ghost total: nat) returns (idx: nat, po: nat, n: nat)
      requires 0 < left
      ensures idx == pos / PAGE && po == pos % PAGE
      ensures 0 < n <= left && po + n <= PAGE && (n == left || po + n == PAGE)
      ensures idx < total <==> pos + n <= total * PAGE
    {
      idx, po := pos / PAGE, pos % PAGE;
      n := if PAGE - po < left then PAGE - po else left;
      OnDevice(total, pos, n);
    }

    /** The body of `read`'s loop. */
    method ReadChunk(idx: nat, po: nat, n: nat) returns (ok: bool, bytes: seq<Byte>)
      requires Valid() && po + n <= PAGE
      modifies this
      ensures Valid() && SameView(old(pages), old(disk), pages, disk) && |disk| == |old(disk)|
      ensures ok ==> bytes == PageView(pages, disk, idx)[po..po + n]
      ensures ok ==> Youngest(pages, idx)
      ensures idx in old(pages) ==> ok && answers == old(answers)
      ensures old(Sound()) ==> Sound() && (ok <==> idx < |disk|)
    {
      ok := Load(idx);
      bytes := [];
      if ok {
        var t := Touch();
        Restamp(pages, idx, t);
        pages := pages[idx := pages[idx].(lastUse := t)];
        bytes := pages[idx].data[po..po + n];
      }
    }

    /** `read`: on success the bytes of the flat disk; the flat disk never changes. */
    method Read(offset: nat, len: nat) returns (ok: bool, buf: seq<Byte>)
      requires Valid()
      modifies this
      ensures Valid() && SameView(old(pages), old(disk), pages, disk) && |disk| == |old(disk)|
      ensures ok ==> |buf| == len && BytesAt(pages, disk, offset, buf)
      ensures old(Sound()) ==> Sound() && (ok <==> len == 0 || offset + len <= |disk| * PAGE)
    {
      buf := [];
      while |buf| < len
        invariant |buf| <= len
        invariant Valid() && SameView(old(pages), old(disk), pages, disk) && |disk| == |old(disk)|
        invariant BytesAt(pages, disk, offset, buf)
        invariant old(Sound()) ==> Sound() && (|buf| == 0 || offset + |buf| <= |disk| * PAGE)
      {
        var idx, po, n := Piece(offset + |buf|, len - |buf|, |disk|);
        ghost var p, d := pages, disk;
        var chunk;
        ok, chunk := ReadChunk(idx, po, n);
        if !ok {
          return;
        }
        ReadMore(p, d, pages, disk, offset, buf, idx, po, chunk);
        buf := buf + chunk;
      }
      ok := true;
    }

    /** The body of `write`'s loop; a whole page is not read first. */
    method WriteChunk(idx: nat, po: nat, chunk: seq<Byte>) returns (ok: bool)
      requires Valid() && po + |chunk| <= PAGE
      modifies this
      ensures Valid() && |disk| == |old(disk)|
      ensures !ok ==> SameView(old(pages), old(disk), pages, disk)
      ensures ok ==> PageView(pages, disk, idx) == Splice(old(PageView(pages, disk, idx)), po, chunk)
      ensures ok ==> forall i: nat :: i != idx ==> PageView(pages, disk, i) == old(PageView(pages, disk, i))
      ensures ok ==> Youngest(pages, idx) && pages[idx].dirty
      ensures idx in old(pages) ==> ok && answers == old(answers)
      ensures old(Sound()) && idx < |disk| ==> ok && Sound()
    {
      if |chunk| != PAGE {
        ok := Load(idx);
      } else {
        ok := LoadBlank(idx);
      }
      if !ok {
        return;
      }
      ghost var loaded, d := pages, disk;
      PutBytes(idx, po, chunk);
      if |chunk| == PAGE {
        WholePage(loaded[idx].data, old(PageView(pages, disk, idx)), chunk);
      }
    }

    /** Changes bytes of a cached page and marks it dirty. */
    method PutBytes(idx: nat, po: nat, chunk: seq<Byte>)
      requires Counted() && idx in pages && po + |chunk| <= PAGE
      modifies this`tick, this`pages, this`dirtied
      ensures Counted() && |pages| == |old(pages)| && tick == old(tick) + 1
      ensures pages == old(pages)[idx := Cached(Splice(old(pages)[idx].data, po, chunk), true, tick)]
    {
      var t := Touch();
      var p := pages[idx];
      ghost var dirty := DirtyPages(pages);
      pages := pages[idx := Cached(Splice(p.data, po, chunk), true, t)];
      assert DirtyPages(pages) == dirty + {idx};
      assert pages.Keys == old(pages).Keys;
      assert |pages| == |pages.Keys| && |old(pages)| == |old(pages).Keys|;
      if !p.dirty {
        dirtied := dirtied + 1;
      }
    }

    /** `write`: the flat disk changes in exactly the bytes that were accepted, all
        of them on success, and otherwise those before the failing page. */
    method Write(offset: nat, data: seq<Byte>) returns (ok: bool, ghost done: nat)
      requires Valid()
      modifies this
      ensures Valid() && |disk| == |old(disk)|
      ensures done <= |data| && (ok <==> done == |data|)
      ensures Overwritten(old(pages), old(disk), pages, disk, offset, data[..done])
      ensures old(Sound()) && offset + |data| <= |disk| * PAGE ==> ok && Sound()
    {
      var i := 0;
      done := 0;
      NoneWritten(pages, disk, pages, disk, offset);
      while i < |data|
        invariant done == i <= |data| && Valid() && |disk| == |old(disk)|
        invariant Overwritten(old(pages), old(disk), pages, disk, offset, data[..i])
        invariant old(Sound()) && offset + |data| <= |disk| * PAGE ==> Sound()
      {
        ok, i := WriteNext(offset, data, i, old(pages), old(disk));
        done := i;
        if !ok {
          return;
        }
      }
      ok := true;
    }

    /** One turn of the loop: on to the next page, or nowhere. */
    method WriteNext(offset: nat, data: seq<Byte>, i: nat, ghost was: map<nat, Cached>, ghost before: seq<Page>)
      returns (ok: bool, more: nat)
      requires Valid() && i < |data| && |disk| == |before| && Overwritten(was, before, pages, disk, offset, data[..i])
      modifies this
      ensures if ok then i < more <= |data| else more == i
      ensures Valid() && |disk| == |before| && Overwritten(was, before, pages, disk, offset, data[..more])
      ensures old(Sound()) && offset + |data| <= |disk| * PAGE ==> ok && Sound()
    {
      var idx, po, n := Piece(offset + i, |data| - i, |disk|);
      ghost var p, d := pages, disk;
      ok := WriteChunk(idx, po, data[i..i + n]);
      if ok {
        ChunkAccepted(was, before, p, d, pages, disk, offset, data, i, i + n, idx, po);
        more := i + n;
      } else {
        ChunkRefused(was, before, p, d, pages, disk, offset, data, i);
        more := i;
      }
    }

    /** `flush`: on success the device is the flat disk. */
    method Flush() returns (ok: bool)
      requires Valid()
      modifies this
      ensures Valid() && SameView(old(pages), old(disk), pages, disk) && |disk| == |old(disk)|
      ensures ok ==> forall i :: 0 <= i < |disk| ==> disk[i] == PageView(pages, disk, i)
      ensures ok ==> forall i :: i in pages ==> i < |disk| && !pages[i].dirty
      ensures old(Sound()) ==> ok && Sound()
    {
      ok := Writeback();
      if ok {
        assert forall i :: i in pages ==> i !in DirtyPages(pages);
        var a := NextAnswer();
        ok := a.Done?;
      }
    }

    /** `drop_clean`: forget the clean pages. */
    method DropClean()
      requires Valid()
      modifies this`pages, this`cached
      ensures Valid() && SameView(old(pages), old(disk), pages, disk)
      ensures pages.Keys == old(DirtyPages(pages))
      ensures old(Sound()) ==> Sound()
    {
      var before := |pages|;
      ghost var dirty := DirtyPages(pages);
      CleanAndDirty(pages);
      pages := map i | i in pages && pages[i].dirty :: pages[i];
      assert pages.Keys == dirty && DirtyPages(pages) == dirty;
      assert |pages| == |pages.Keys|;
      cached := cached - (before - |pages|);
    }
  }

  // ---------------------------------------------------------------- bytes of pages

  function Splice(p: Page, po: nat, chunk: seq<Byte>): Page
    requires po + |chunk| <= PAGE
  {
    p[..po] + chunk + p[po + |chunk|..]
  }

  /** A new time stamp changes neither counts nor contents. */
  lemma Restamp(pages: map<nat, Cached>, idx: nat, t: nat)
    requires idx in pages
    ensures var after := pages[idx := pages[idx].(lastUse := t)];
            |after| == |pages| && DirtyPages(after) == DirtyPages(pages)
  {
    var after := pages[idx := pages[idx].(lastUse := t)];
    assert after.Keys == pages.Keys;
  }

  lemma InPage(pos: nat, k: nat)
    requires pos % PAGE + k < PAGE
    ensures (pos + k) / PAGE == pos / PAGE && (pos + k) % PAGE == pos % PAGE + k
  {
  }

  /** A stretch of bytes inside a page is on the device exactly if the page is. */
  lemma OnDevice(n: nat, pos: nat, len: nat)
    requires 0 < len && pos % PAGE + len <= PAGE
    ensures pos / PAGE < n <==> pos + len <= n * PAGE
  {
    var idx := pos / PAGE;
    if idx < n {
      assert (idx + 1) * PAGE <= n * PAGE;
    } else {
      assert n * PAGE <= idx * PAGE;
    }
  }

  /** After a fetch for page `idx` at time `t`: what was cached stays as it was, the page
      itself is clean and new, and what was read ahead of it is clean and aged. */
  predicate Joined(before: map<nat, Cached>, after: map<nat, Cached>, idx: nat, t: nat)
  {
    && (forall k :: k in before ==> k in after && after[k] == before[k])
    && forall k :: k in after && k !in before ==>
                     !after[k].dirty && after[k].lastUse == if k == idx then t else if t < AGED then 0 else t - AGED
  }

  lemma ChunkBytes(pages: map<nat, Cached>, disk: seq<Page>, pos: nat, idx: nat, po: nat, chunk: seq<Byte>)
    requires idx == pos / PAGE && po == pos % PAGE && po + |chunk| <= PAGE
    requires chunk == PageView(pages, disk, idx)[po..po + |chunk|]
    ensures BytesAt(pages, disk, pos, chunk)
  {
    forall k | 0 <= k < |chunk| ensures chunk[k] == ByteView(pages, disk, pos + k) {
      InPage(pos, k);
    }
  }

  /** The flat disk holds `b` at `pos`. */
  predicate BytesAt(pages: map<nat, Cached>, disk: seq<Page>, pos: nat, b: seq<Byte>)
  {
    forall k :: 0 <= k < |b| ==> b[k] == ByteView(pages, disk, pos + k)
  }

  /** A chunk read after `buf`, while the flat disk stays what it was. */
  lemma ReadMore(p0: map<nat, Cached>, d0: seq<Page>, p1: map<nat, Cached>, d1: seq<Page>, offset: nat,
                 buf: seq<Byte>, idx: nat, po: nat, chunk: seq<Byte>)
    requires SameView(p0, d0, p1, d1) && BytesAt(p0, d0, offset, buf)
    requires idx == (offset + |buf|) / PAGE && po == (offset + |buf|) % PAGE && po + |chunk| <= PAGE
    requires chunk == PageView(p1, d1, idx)[po..po + |chunk|]
    ensures BytesAt(p1, d1, offset, buf + chunk)
  {
    BytesStay(p0, d0, p1, d1, offset, buf);
    ChunkBytes(p1, d1, offset + |buf|, idx, po, chunk);
    Extended(p1, d1, offset, buf, chunk);
  }

  lemma BytesStay(p0: map<nat, Cached>, d0: seq<Page>, p1: map<nat, Cached>, d1: seq<Page>, pos: nat, b: seq<Byte>)
    requires SameView(p0, d0, p1, d1) && BytesAt(p0, d0, pos, b)
    ensures BytesAt(p1, d1, pos, b)
  {
    forall k | 0 <= k < |b| ensures b[k] == ByteView(p1, d1, pos + k) {
      assert PageView(p1, d1, (pos + k) / PAGE) == PageView(p0, d0, (pos + k) / PAGE);
    }
  }

  lemma Extended(pages: map<nat, Cached>, disk: seq<Page>, pos: nat, a: seq<Byte>, b: seq<Byte>)
    requires BytesAt(pages, disk, pos, a) && BytesAt(pages, disk, pos + |a|, b)
    ensures BytesAt(pages, disk, pos, a + b)
  {
    forall k | |a| <= k < |a + b| ensures (a + b)[k] == ByteView(pages, disk, pos + k) {
      assert pos + |a| + (k - |a|) == pos + k;
      assert b[k - |a|] == ByteView(pages, disk, pos + |a| + (k - |a|));
    }
  }

  /** A whole-page write does not depend on what was there. */
  lemma WholePage(a: Page, b: Page, chunk: seq<Byte>)
    requires |chunk| == PAGE
    ensures Splice(a, 0, chunk) == Splice(b, 0, chunk)
  {
  }

  /** Byte `q` of the flat disk after `b` was written at `off`. */
  predicate ByteWritten(p0: map<nat, Cached>, d0: seq<Page>, p1: map<nat, Cached>, d1: seq<Page>, off: nat,
                        b: seq<Byte>, q: nat)
  {
    ByteView(p1, d1, q) == if off <= q < off + |b| then b[q - off] else ByteView(p0, d0, q)
  }

  /** The flat disk changed in exactly the bytes of `b` at `off`. */
  ghost predicate Overwritten(p0: map<nat, Cached>, d0: seq<Page>, p1: map<nat, Cached>, d1: seq<Page>, off: nat,
                              b: seq<Byte>)
  {
    forall q: nat {:trigger ByteWritten(p0, d0, p1, d1, off, b, q)} :: ByteWritten(p0, d0, p1, d1, off, b, q)
  }

  /** A further chunk, after which `buf[..j]` is written. */
  lemma WrittenMore(p0: map<nat, Cached>, d0: seq<Page>, p1: map<nat, Cached>, d1: seq<Page>, p2: map<nat, Cached>,
                    d2: seq<Page>, off: nat, buf: seq<Byte>, i: nat, j: nat)
    requires i <= j <= |buf| && Overwritten(p0, d0, p1, d1, off, buf[..i])
    requires Overwritten(p1, d1, p2, d2, off + i, buf[i..j])
    ensures Overwritten(p0, d0, p2, d2, off, buf[..j])
  {
    forall q: nat
      ensures ByteWritten(p0, d0, p2, d2, off, buf[..j], q)
    {
      assert ByteWritten(p0, d0, p1, d1, off, buf[..i], q);
      assert ByteWritten(p1, d1, p2, d2, off + i, buf[i..j], q);
    }
  }

  lemma SplicedBytes(p0: map<nat, Cached>, d0: seq<Page>, p1: map<nat, Cached>, d1: seq<Page>, pos: nat,
                     chunk: seq<Byte>, idx: nat, po: nat)
    requires idx == pos / PAGE && po == pos % PAGE && po + |chunk| <= PAGE
    requires PageView(p1, d1, idx) == Splice(PageView(p0, d0, idx), po, chunk)
    requires forall i: nat :: i != idx ==> PageView(p1, d1, i) == PageView(p0, d0, i)
    ensures Overwritten(p0, d0, p1, d1, pos, chunk)
  {
    forall q: nat ensures ByteWritten(p0, d0, p1, d1, pos, chunk, q) {
      if pos <= q < pos + |chunk| {
        InPage(pos, q - pos);
      } else if q / PAGE == idx {
        assert q == q / PAGE * PAGE + q % PAGE && pos == pos / PAGE * PAGE + pos % PAGE;
      }
    }
  }

  lemma NoneWritten(p0: map<nat, Cached>, d0: seq<Page>, p1: map<nat, Cached>, d1: seq<Page>, pos: nat)
    requires SameView(p0, d0, p1, d1)
    ensures Overwritten(p0, d0, p1, d1, pos, [])
  {
    forall q: nat ensures ByteWritten(p0, d0, p1, d1, pos, [], q) {
      assert PageView(p1, d1, q / PAGE) == PageView(p0, d0, q / PAGE);
    }
  }

  lemma ChunkAccepted(was: map<nat, Cached>, before: seq<Page>, p0: map<nat, Cached>, d0: seq<Page>,
                      p1: map<nat, Cached>, d1: seq<Page>, off: nat, data: seq<Byte>, i: nat, j: nat,
                      idx: nat, po: nat)
    requires i <= j <= |data| && Overwritten(was, before, p0, d0, off, data[..i])
    requires idx == (off + i) / PAGE && po == (off + i) % PAGE && po + (j - i) <= PAGE
    requires PageView(p1, d1, idx) == Splice(PageView(p0, d0, idx), po, data[i..j])
    requires forall q: nat :: q != idx ==> PageView(p1, d1, q) == PageView(p0, d0, q)
    ensures Overwritten(was, before, p1, d1, off, data[..j])
  {
    SplicedBytes(p0, d0, p1, d1, off + i, data[i..j], idx, po);
    WrittenMore(was, before, p0, d0, p1, d1, off, data, i, j);
  }

  lemma ChunkRefused(was: map<nat, Cached>, before: seq<Page>, p0: map<nat, Cached>, d0: seq<Page>,
                     p1: map<nat, Cached>, d1: seq<Page>, off: nat, data: seq<Byte>, i: nat)
    requires i <= |data| && Overwritten(was, before, p0, d0, off, data[..i]) && SameView(p0, d0, p1, d1)
    ensures Overwritten(was, before, p1, d1, off, data[..i])
  {
    NoneWritten(p0, d0, p1, d1, off + i);
    assert data[i..i] == [];
    WrittenMore(was, before, p0, d0, p1, d1, off, data, i, i);
  }

  /** `evicted` are the oldest clean pages of `mid`, and `pages` is the rest. */
  ghost predicate Evicted(mid: map<nat, Cached>, pages: map<nat, Cached>, evicted: set<nat>)
  {
    && evicted <= CleanPages(mid) && pages == mid - evicted
    && forall e, k :: e in evicted && k in CleanPages(pages) ==> Before(mid, e, k)
  }

  lemma EvictOne(mid: map<nat, Cached>, pages: map<nat, Cached>, evicted: set<nat>, k: nat)
    requires Evicted(mid, pages, evicted) && k in CleanPages(pages) && Oldest(pages, CleanPages(pages), k)
    ensures Evicted(mid, pages - {k}, evicted + {k})
    ensures |pages - {k}| == |pages| - 1 && |CleanPages(pages - {k})| == |CleanPages(pages)| - 1
    ensures DirtyPages(pages - {k}) == DirtyPages(pages)
  {
    assert CleanPages(pages - {k}) == CleanPages(pages) - {k};
    assert (pages - {k}).Keys == pages.Keys - {k};
    assert |pages.Keys - {k}| == |pages.Keys| - 1;
    assert pages - {k} == mid - (evicted + {k});
    forall j | j in CleanPages(pages - {k}) ensures Before(mid, k, j) {
      assert Before(pages, k, j);
    }
  }

  /** A clean page can be fetched again. */
  lemma EvictSame(pages: map<nat, Cached>, disk: seq<Page>, tick: nat, k: nat)
    requires CleanIsDisk(pages, disk) && Stamped(pages, tick) && k in CleanPages(pages)
    ensures CleanIsDisk(pages - {k}, disk) && Stamped(pages - {k}, tick) && SameView(pages, disk, pages - {k}, disk)
  {
  }

  predicate Oldest(pages: map<nat, Cached>, s: set<nat>, k: nat)
    requires s <= pages.Keys
  {
    k in s && forall j :: j in s ==> Before(pages, k, j)
  }

  lemma {:induction false} OldestExists(pages: map<nat, Cached>, s: set<nat>)
    requires s != {} && s <= pages.Keys
    ensures exists k :: k in s && Oldest(pages, s, k)
  {
    var k :| k in s;
    var rest := s - {k};
    if rest == {} {
      assert s == {k};
      assert Oldest(pages, s, k);
    } else {
      OldestExists(pages, rest);
      var m :| m in rest && Oldest(pages, rest, m);
      var oldest := if Before(pages, k, m) then k else m;
      forall j | j in s ensures Before(pages, oldest, j) {
        assert j != k ==> j in rest && Before(pages, m, j);
      }
      assert Oldest(pages, s, oldest);
    }
  }

  /** A run of consecutive entries of the ascending list is a run of pages, and
      the rest of the list is what is left of it. */
  lemma RunIsDirty(dirty: seq<nat>, i: nat, start: nat, len: nat)
    requires i + len <= |dirty| && forall j :: i <= j < i + len ==> dirty[j] == start + (j - i)
    requires forall j, k :: 0 <= j < k < |dirty| ==> dirty[j] < dirty[k]
    ensures forall k :: start <= k < start + len ==> k in dirty[i..]
    ensures forall k :: k in dirty[i + len..] <==> k in dirty[i..] && !(start <= k < start + len)
  {
    forall k | start <= k < start + len ensures k in dirty[i..] {
      assert dirty[i + (k - start)] == k;
      assert dirty[i..][k - start] == k;
    }
    forall k ensures k in dirty[i + len..] <==> k in dirty[i..] && !(start <= k < start + len) {
      if k in dirty[i + len..] {
        var j :| 0 <= j < |dirty[i + len..]| && dirty[i + len..][j] == k;
        assert dirty[i + len + j] == k && dirty[i..][len + j] == k;
        assert len > 0 ==> dirty[i + len - 1] < dirty[i + len + j];
      }
      if k in dirty[i..] && !(start <= k < start + len) {
        var j :| 0 <= j < |dirty[i..]| && dirty[i..][j] == k;
        assert dirty[i + j] == k;
        assert j >= len;
        assert dirty[i + len..][j - len] == k;
      }
    }
  }

  /** The same pages with the same bytes and ages; only dirty marks may go. */
  ghost predicate SamePages(a: map<nat, Cached>, b: map<nat, Cached>)
  {
    b.Keys == a.Keys && forall k :: k in a ==> b[k] == a[k] || b[k] == a[k].(dirty := false)
  }

  lemma SamePagesTrans(a: map<nat, Cached>, b: map<nat, Cached>, c: map<nat, Cached>)
    requires SamePages(a, b) && SamePages(b, c)
    ensures SamePages(a, c)
  {
    forall k | k in a ensures c[k] == a[k] || c[k] == a[k].(dirty := false) {
      assert k in b;
    }
  }

  function Cleaned(pages: map<nat, Cached>, start: nat, len: nat): map<nat, Cached>
  {
    map k | k in pages :: if start <= k < start + len then pages[k].(dirty := false) else pages[k]
  }

  predicate Least(s: set<nat>, k: nat)
  {
    k in s && forall j :: j in s ==> k <= j
  }

  lemma {:induction false} MinExists(s: set<nat>)
    requires s != {}
    ensures exists k :: Least(s, k)
  {
    var k :| k in s;
    var rest := s - {k};
    if rest == {} {
      assert s == {k};
      assert Least(s, k);
    } else {
      MinExists(rest);
      var m :| Least(rest, m);
      var least := if k < m then k else m;
      forall j | j in s ensures least <= j {
        assert j != k ==> j in rest;
      }
      assert Least(s, least);
    }
  }
}
