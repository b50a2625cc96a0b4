/** File data in tmpfs (`fs/tmpfs.rs`): sparse pages behind a byte string, charged
    against the limit of the file system. */
module TmpfsFiles {

  const PAGE: nat := 4096
  const MAX_END: nat := 0x100_0000_0000

  type byte = x: int | 0 <= x < 256
  type Page = p: seq<byte> | |p| == PAGE witness seq(PAGE, _ => 0)
  type Id = nat

  datatype Errno = ENOSPC | EFBIG

  datatype Key = Key(file: Id, page: nat)

  function ZeroPage(): Page
  {
    seq(PAGE, _ => 0)
  }

  // ---------------------------------------------------------------- bytes

  /** Byte `k` of a file, absent pages reading as zero. */
  function ByteAt(store: map<Key, Page>, id: Id, k: nat): byte
  {
    if Key(id, k / PAGE) in store then store[Key(id, k / PAGE)][k % PAGE] else 0
  }

  function Contents(store: map<Key, Page>, id: Id, size: nat): (c: seq<byte>)
    ensures |c| == size && forall k :: 0 <= k < size ==> c[k] == ByteAt(store, id, k)
  {
    seq(size, k requires 0 <= k < size => ByteAt(store, id, k))
  }

  /** What is stored past the end of the file is zero. */
  ghost predicate TailClean(store: map<Key, Page>, id: Id, size: nat)
  {
    forall k :: size <= k ==> ByteAt(store, id, k) == 0
  }

  /** Zero-pads up to the write, then overlays it. */
  function Overlaid(c: seq<byte>, off: nat, buf: seq<byte>): (r: seq<byte>)
    ensures |r| == if off + |buf| > |c| then off + |buf| else |c|
    ensures forall k :: 0 <= k < |r| ==>
              r[k] == if off <= k < off + |buf| then buf[k - off] else if k < |c| then c[k] else 0
  {
    var n := if off + |buf| > |c| then off + |buf| else |c|;
    seq(n, k requires 0 <= k < n => if off <= k < off + |buf| then buf[k - off] else if k < |c| then c[k] else 0)
  }

  function Resized(c: seq<byte>, n: nat): (r: seq<byte>)
    ensures |r| == n && forall k :: 0 <= k < n ==> r[k] == if k < |c| then c[k] else 0
  {
    seq(n, k requires 0 <= k < n => if k < |c| then c[k] else 0)
  }

  // ---------------------------------------------------------------- pages of a range

  lemma InPage(pos: nat, k: nat, chunk: nat)
    requires pos % PAGE + chunk <= PAGE && pos <= k < pos + chunk
    ensures k / PAGE == pos / PAGE && k % PAGE == pos % PAGE + (k - pos)
  {
  }

  /** How many pages from `from` up to `to` a file does not have yet. */
  function Missing(store: map<Key, Page>, id: Id, from: nat, to: nat): nat
    decreases to - from
  {
    if from >= to then 0 else (if Key(id, from) in store then 0 else 1) + Missing(store, id, from + 1, to)
  }

  lemma {:induction false} MissingSplit(store: map<Key, Page>, id: Id, from: nat, mid: nat, to: nat)
    requires from <= mid <= to
    ensures Missing(store, id, from, to) == Missing(store, id, from, mid) + Missing(store, id, mid, to)
    decreases mid - from
  {
    if from < mid {
      MissingSplit(store, id, from + 1, mid, to);
    }
  }

  lemma MissingStep(store: map<Key, Page>, id: Id, from: nat, mid: nat, to: nat)
    requires from <= mid < to
    ensures Missing(store, id, from, mid + 1) == Missing(store, id, from, mid) + if Key(id, mid) in store then 0 else 1
    ensures Missing(store, id, from, to) >= Missing(store, id, from, mid + 1)
  {
    MissingSplit(store, id, from, mid, mid + 1);
    MissingSplit(store, id, from, mid + 1, to);
  }

  /** The page after the last one a range of bytes touches. */
  function PageEnd(end: nat): nat
  {
    (end + PAGE - 1) / PAGE
  }

  /** The first page of `lo..hi` that has to be charged and cannot be, `hi` if there is
      none; a limit of 0 is no limit. */
  function StopPage(store: map<Key, Page>, id: Id, lo: nat, hi: nat, used: nat, limit: nat): (p: nat)
    requires lo <= hi
    ensures lo <= p <= hi
    decreases hi - lo
  {
    if lo == hi then hi
    else if Key(id, lo) in store then StopPage(store, id, lo + 1, hi, used, limit)
    else if limit > 0 && used + PAGE > limit then lo
    else StopPage(store, id, lo + 1, hi, used + PAGE, limit)
  }

  /** It is the page whose charge, after those of the missing pages before it, would pass
      the limit; and there is none exactly when there is room for all of them. */
  lemma {:induction false} StopPageIs(store: map<Key, Page>, id: Id, lo: nat, hi: nat, used: nat, limit: nat)
    requires lo <= hi && (limit > 0 ==> used <= limit)
    ensures StopPage(store, id, lo, hi, used, limit) == hi <==>
              limit == 0 || used + PAGE * Missing(store, id, lo, hi) <= limit
    ensures var p := StopPage(store, id, lo, hi, used, limit);
            p < hi ==>
              && Key(id, p) !in store
              && used + PAGE * Missing(store, id, lo, p) <= limit < used + PAGE * Missing(store, id, lo, p + 1)
    decreases hi - lo
  {
    if lo < hi {
      var p := StopPage(store, id, lo, hi, used, limit);
      if Key(id, lo) in store {
        StopPageIs(store, id, lo + 1, hi, used, limit);
      } else if limit == 0 || used + PAGE <= limit {
        StopPageIs(store, id, lo + 1, hi, used + PAGE, limit);
      } else {
        assert Missing(store, id, lo, lo) == 0;
        MissingStep(store, id, lo, lo, hi);
      }
    }
  }

  /** How many of `n` bytes at `off` are written before the limit stops it. */
  function Taken(store: map<Key, Page>, id: Id, off: nat, n: nat, used: nat, limit: nat): (took: nat)
    ensures took <= n
  {
    if n == 0 then 0
    else
      assert off / PAGE <= PageEnd(off + n);
      var stop := StopPage(store, id, off / PAGE, PageEnd(off + n), used, limit);
      if stop == PageEnd(off + n) then n else if stop * PAGE <= off then 0 else stop * PAGE - off
  }

  function Spliced(p: Page, po: nat, b: seq<byte>): Page
    requires po + |b| <= PAGE
  {
    p[..po] + b + p[po + |b|..]
  }

  /** Splicing bytes into one page changes exactly those bytes of the file. */
  lemma SplicedBytes(store: map<Key, Page>, id: Id, pos: nat, b: seq<byte>, x: Id, k: nat)
    requires pos % PAGE + |b| <= PAGE && Key(id, pos / PAGE) in store
    ensures var key := Key(id, pos / PAGE);
            ByteAt(store[key := Spliced(store[key], pos % PAGE, b)], x, k) ==
            if x == id && pos <= k < pos + |b| then b[k - pos] else ByteAt(store, x, k)
  {
    if x == id && k / PAGE == pos / PAGE {
      var p := store[Key(id, pos / PAGE)];
      var q := Spliced(p, pos % PAGE, b);
      var i := k % PAGE;
      assert k == PAGE * (k / PAGE) + i && pos == PAGE * (pos / PAGE) + pos % PAGE;
      assert q[i] == if pos % PAGE <= i < pos % PAGE + |b| then b[i - pos % PAGE] else p[i];
    }
  }

  /** Byte `k` of file `x` after `b` was written at `off` in file `id`. */
  predicate Written(was: map<Key, Page>, now: map<Key, Page>, id: Id, off: nat, b: seq<byte>, x: Id, k: nat)
  {
    ByteAt(now, x, k) == if x == id && off <= k < off + |b| then b[k - off] else ByteAt(was, x, k)
  }

  /** Exactly the bytes of `b` at `off` in the file have been overwritten. */
  ghost predicate Overwritten(was: map<Key, Page>, now: map<Key, Page>, id: Id, off: nat, b: seq<byte>)
  {
    forall x: Id, k: nat {:trigger Written(was, now, id, off, b, x, k)} :: Written(was, now, id, off, b, x, k)
  }

  lemma OverwrittenMore(was: map<Key, Page>, mid: map<Key, Page>, now: map<Key, Page>, id: Id, off: nat, buf: seq<byte>,
                        i: nat, j: nat)
    requires i <= j <= |buf| && Overwritten(was, mid, id, off, buf[..i])
    requires Overwritten(mid, now, id, off + i, buf[i..j])
    ensures Overwritten(was, now, id, off, buf[..j])
  {
    forall x: Id, k: nat
      ensures Written(was, now, id, off, buf[..j], x, k)
    {
      assert Written(was, mid, id, off, buf[..i], x, k) && Written(mid, now, id, off + i, buf[i..j], x, k);
    }
  }

  lemma BlankBytes(store: map<Key, Page>, key: Key, x: Id, k: nat)
    requires key !in store
    ensures ByteAt(store[key := ZeroPage()], x, k) == ByteAt(store, x, k)
  {
  }

  // ---------------------------------------------------------------- the file system

  datatype Result = Ok(n: nat) | Err(error: Errno)

  class TmpFs {
    var store: map<Key, Page>
    var sizes: map<Id, nat>
    var used: nat
    const limit: nat

    /** Accounting: every stored page is charged, within the limit if there is one. */
    ghost predicate Charged()
      reads this
    {
      && used == PAGE * |store| && (limit > 0 ==> used <= limit)
      && forall k :: k in store ==> k.file in sizes
    }

    constructor (limit: nat)
      ensures Charged() && store == map[] && sizes == map[] && this.limit == limit
    {
      store, sizes, used := map[], map[], 0;
      this.limit := limit;
    }

    method Create(id: Id)
      requires Charged() && id !in sizes
      modifies this
      ensures Charged() && store == old(store) && sizes == old(sizes)[id := 0]
      ensures Contents(store, id, 0) == [] && TailClean(store, id, 0)
    {
      sizes := sizes[id := 0];
    }

    method Charge(bytes: nat) returns (ok: bool)
      modifies this`used
      ensures ok <==> limit == 0 || old(used) + bytes <= limit
      ensures used == if ok then old(used) + bytes else old(used)
    {
      used := used + bytes;
      if limit > 0 && used > limit {
        used := used - bytes;
        return false;
      }
      ok := true;
    }

    /** The part of a write that falls into one page. */
    method WriteChunk(id: Id, pos: nat, b: seq<byte>) returns (ok: bool)
      requires Charged() && id in sizes && pos % PAGE + |b| <= PAGE
      modifies this`store, this`used
      ensures Charged()
      ensures ok <==> Key(id, pos / PAGE) in old(store) || limit == 0 || old(used) + PAGE <= limit
      ensures !ok ==> store == old(store)
      ensures used == old(used) + if ok && Key(id, pos / PAGE) !in old(store) then PAGE else 0
      ensures ok ==> forall k :: k in store <==> k in old(store) || k == Key(id, pos / PAGE)
      ensures ok ==> Overwritten(old(store), store, id, pos, b)
    {
      var key := Key(id, pos / PAGE);
      if key !in store {
        ok := Charge(PAGE);
        if !ok {
          return;
        }
        store := store[key := ZeroPage()];
      }
      ok := true;
      ghost var was := store;
      store := store[key := Spliced(store[key], pos % PAGE, b)];
      forall x: Id, k: nat
        ensures Written(old(store), store, id, pos, b, x, k)
      {
        if key !in old(store) {
          BlankBytes(old(store), key, x, k);
        }
        SplicedBytes(was, id, pos, b, x, k);
      }
      assert store.Keys == was.Keys;
      assert |store| == |store.Keys| && |was| == |was.Keys|;
    }

    /** One turn of the loop of `write_at`, at page `next`. */
    method WriteNext(id: Id, off: nat, buf: seq<byte>, done: nat, ghost was: map<Key, Page>, ghost spent: nat,
                     ghost next: nat)
      returns (ok: bool, more: nat)
      requires Charged() && id in sizes && done < |buf| && AtPage(off, done, next) && next < PageEnd(off + |buf|)
      requires Overwritten(was, store, id, off, buf[..done]) && SameFrom(was, store, id, next)
      requires SameStop(was, id, off / PAGE, spent, next, used, PageEnd(off + |buf|), limit)
      modifies this`store, this`used
      ensures Charged()
      ensures !ok ==> store == old(store) && StopPage(was, id, off / PAGE, PageEnd(off + |buf|), spent, limit) == next
      ensures ok ==> done < more <= |buf| && Overwritten(was, store, id, off, buf[..more])
      ensures ok ==> SameFrom(was, store, id, next + 1)
      ensures ok ==> SameStop(was, id, off / PAGE, spent, next + 1, used, PageEnd(off + |buf|), limit)
      ensures ok ==> if more < |buf| then AtPage(off, more, next + 1) && next + 1 < PageEnd(off + |buf|)
                     else next + 1 == PageEnd(off + |buf|)
    {
      var pos := off + done;
      var po := pos % PAGE;
      var chunk := if PAGE - po < |buf| - done then PAGE - po else |buf| - done;
      NextChunk(off, done, next, chunk, |buf|);
      StopStep(was, id, off / PAGE, spent, next, used, PageEnd(off + |buf|), limit);
      more := done + chunk;
      ok := WriteChunk(id, pos, buf[done..more]);
      if ok {
        OverwrittenMore(was, old(store), store, id, off, buf, done, more);
      }
    }

    /** The loop of `write_at`: page by page, up to the first page that cannot be charged. */
    method WritePages(id: Id, off: nat, buf: seq<byte>) returns (ok: bool)
      requires Charged() && id in sizes
      modifies this`store, this`used
      ensures Charged()
      ensures var took := Taken(old(store), id, off, |buf|, old(used), limit);
              (ok <==> took == |buf|) && Overwritten(old(store), store, id, off, buf[..took])
    {
      var done := 0;
      ghost var next: nat, hi: nat := off / PAGE, PageEnd(off + |buf|);
      while done < |buf|
        invariant 0 <= done <= |buf| && Charged()
        invariant Overwritten(old(store), store, id, off, buf[..done])
        invariant done < |buf| ==> AtPage(off, done, next) && next < hi
        invariant done == |buf| && buf != [] ==> next == hi
        invariant SameFrom(old(store), store, id, next)
        invariant buf != [] ==> SameStop(old(store), id, off / PAGE, old(used), next, used, hi, limit)
      {
        var more;
        ok, more := WriteNext(id, off, buf, done, old(store), old(used), next);
        if !ok {
          StoppedAt(old(store), id, off, done, next, |buf|, old(used), limit);
          return;
        }
        done, next := more, next + 1;
      }
      ok := true;
    }

    /** `write_at`: fails before touching anything when the file would end past the
        largest size; otherwise gives up at the first page that cannot be charged,
        leaving the bytes before it written and the size as it was. */
    method WriteAt(id: Id, off: nat, buf: seq<byte>) returns (r: Result)
      requires Charged() && id in sizes
      modifies this
      ensures Charged()
      ensures var took := if off + |buf| > MAX_END then 0 else Taken(old(store), id, off, |buf|, old(used), limit);
              && r == (if off + |buf| > MAX_END then Err(EFBIG) else if took < |buf| then Err(ENOSPC) else Ok(|buf|))
              && Overwritten(old(store), store, id, off, buf[..took])
      ensures sizes == if r.Ok? && off + |buf| > old(sizes)[id] then old(sizes)[id := off + |buf|] else old(sizes)
      ensures r.Ok? ==> Stepped(Snapshot(old(store), old(sizes)[id]), Write(off, buf), Snapshot(store, sizes[id]), id)
    {
      var end := off + |buf|;
      if end > MAX_END {
        return Err(EFBIG);
      }
      var ok := WritePages(id, off, buf);
      if !ok {
        return Err(ENOSPC);
      }
      assert buf[..|buf|] == buf;
      if end > sizes[id] {
        sizes := sizes[id := end];
      }
      r := Ok(|buf|);
    }

    /** `read_at`: copies page by page, zeros where there is no page. */
    method ReadAt(id: Id, off: nat, buf: array<byte>) returns (n: nat)
      requires id in sizes
      modifies buf
      ensures var c := Contents(store, id, sizes[id]);
              && n == (if off >= |c| then 0 else if buf.Length < |c| - off then buf.Length else |c| - off)
              && (n > 0 ==> buf[..n] == c[off..off + n])
      ensures forall i :: n <= i < buf.Length ==> buf[i] == old(buf[i])
    {
      var size := sizes[id];
      if off >= size {
        return 0;
      }
      n := if buf.Length < size - off then buf.Length else size - off;
      var done := 0;
      while done < n
        invariant 0 <= done <= n <= buf.Length
        invariant forall i :: 0 <= i < done ==> buf[i] == ByteAt(store, id, off + i)
        invariant forall i :: done <= i < buf.Length ==> buf[i] == old(buf[i])
      {
        var pos := off + done;
        var pi, po := pos / PAGE, pos % PAGE;
        var chunk := if PAGE - po < n - done then PAGE - po else n - done;
        var src := if Key(id, pi) in store then store[Key(id, pi)] else ZeroPage();
        ghost var before := buf[..];
        Fill(buf, done, src[po..po + chunk]);
        forall i | done <= i < done + chunk
          ensures buf[i] == ByteAt(store, id, off + i)
        {
          InPage(pos, off + i, chunk);
        }
        done := done + chunk;
      }
      assert buf[..n] == Contents(store, id, size)[off..off + n];
    }

    static method Fill(buf: array<byte>, at: nat, b: seq<byte>)
      requires at + |b| <= buf.Length
      modifies buf
      ensures forall i :: 0 <= i < buf.Length ==> buf[i] == if at <= i < at + |b| then b[i - at] else old(buf[i])
    {
      var j := 0;
      while j < |b|
        invariant 0 <= j <= |b|
        invariant forall i :: 0 <= i < buf.Length ==> buf[i] == if at <= i < at + j then b[i - at] else old(buf[i])
      {
        buf[at + j] := b[j];
        j := j + 1;
      }
    }

    /** `truncate`: drops the pages past the new end, zeroes what is left of the last
        one, and gives the quota back. */
    method Truncate(id: Id, size: nat)
      requires Charged() && id in sizes
      modifies this
      ensures Charged() && sizes == old(sizes)[id := size]
      ensures forall x: Id, k: nat :: x != id || k < size || old(sizes)[id] <= size ==>
                ByteAt(store, x, k) == ByteAt(old(store), x, k)
      ensures size < old(sizes)[id] ==> TailClean(store, id, size)
      ensures Stepped(Snapshot(old(store), old(sizes)[id]), SetSize(size), Snapshot(store, size), id)
      ensures forall k :: k in store <==>
                k in old(store) && !(k.file == id && size < old(sizes)[id] && size <= k.page * PAGE)
      ensures used <= old(used)
    {
      if size < sizes[id] {
        var firstDead := PageEnd(size);
        ghost var was := store;
        Discard(id, firstDead);
        ghost var cut := store;
        var off := size % PAGE;
        var key := Key(id, size / PAGE);
        if off != 0 && key in store {
          store := store[key := Spliced(store[key], off, seq(PAGE - off, _ => 0))];
          assert store.Keys == cut.Keys;
          assert |store| == |store.Keys| && |cut| == |cut.Keys|;
          assert size == PAGE * (size / PAGE) + off;
        }
        forall x: Id, k: nat
          ensures x != id || k < size ==> ByteAt(store, x, k) == ByteAt(was, x, k)
          ensures x == id && size <= k ==> ByteAt(store, x, k) == 0
        {
          TruncatedByte(was, cut, store, id, size, x, k);
        }
      }
      sizes := sizes[id := size];
    }

    /** Removes the pages of a file from `from` on. */
    method Discard(id: Id, from: nat)
      requires Charged()
      modifies this`store, this`used
      ensures Charged() && used <= old(used)
      ensures store == map k | k in old(store) && !(k.file == id && k.page >= from) :: old(store)[k]
    {
      var dead := set k | k in store && k.file == id && k.page >= from;
      var kept := map k | k in store && k !in dead :: store[k];
      assert kept.Keys == store.Keys - dead;
      assert dead <= store.Keys && |kept| == |kept.Keys| && |store| == |store.Keys|;
      store := kept;
      used := used - |dead| * PAGE;
    }

    /** The last reference to a file goes away. */
    method DropFile(id: Id)
      requires Charged() && id in sizes
      modifies this
      ensures Charged() && sizes == old(sizes) - {id}
      ensures forall k :: k in store <==> k in old(store) && k.file != id
      ensures forall x: Id, k: nat :: x != id ==> ByteAt(store, x, k) == ByteAt(old(store), x, k)
      ensures old(sizes).Keys == {id} ==> used == 0 && store == map[]
    {
      Discard(id, 0);
      sizes := sizes - {id};
      if old(sizes).Keys == {id} {
        forall k
          ensures k !in store
        {
          assert k in old(store) ==> k.file in old(sizes).Keys;
        }
        assert store.Keys == {};
        assert |store| == |store.Keys|;
      }
    }
  }

  lemma TruncatedByte(was: map<Key, Page>, cut: map<Key, Page>, now: map<Key, Page>, id: Id, size: nat, x: Id, k: nat)
    requires cut == map q | q in was && !(q.file == id && q.page >= PageEnd(size)) :: was[q]
    requires var key := Key(id, size / PAGE); var off := size % PAGE;
             now == if off != 0 && key in cut then cut[key := Spliced(cut[key], off, seq(PAGE - off, _ => 0))] else cut
    ensures ByteAt(now, x, k) == if x == id && size <= k then 0 else ByteAt(was, x, k)
  {
    var off := size % PAGE;
    assert size == PAGE * (size / PAGE) + off && k == PAGE * (k / PAGE) + k % PAGE;
    if x == id && k / PAGE == size / PAGE && off != 0 && Key(id, size / PAGE) in cut {
      var p := Spliced(cut[Key(id, size / PAGE)], off, seq(PAGE - off, _ => 0));
      assert p[k % PAGE] == if off <= k % PAGE then 0 else cut[Key(id, size / PAGE)][k % PAGE];
    }
  }

  /** The write at `off` has got `done` bytes far, to the start of page `next` unless it
      has not begun. */
  predicate AtPage(off: nat, done: nat, next: nat)
  {
    (off + done) / PAGE == next && (done == 0 || off + done == next * PAGE)
  }

  /** A chunk runs to the end of its page or to the end of the write. */
  lemma NextChunk(off: nat, done: nat, next: nat, chunk: nat, n: nat)
    requires done < n && AtPage(off, done, next)
    requires chunk == if PAGE - (off + done) % PAGE < n - done then PAGE - (off + done) % PAGE else n - done
    ensures chunk > 0 && (off + done) % PAGE + chunk <= PAGE && next + 1 <= PageEnd(off + n)
    ensures done + chunk < n ==> AtPage(off, done + chunk, next + 1) && next + 1 < PageEnd(off + n)
    ensures done + chunk == n ==> next + 1 == PageEnd(off + n)
  {
  }

  /** Which pages from `p` on a file has is as before. */
  ghost predicate SameFrom(was: map<Key, Page>, now: map<Key, Page>, id: Id, p: nat)
  {
    forall q :: p <= q ==> (Key(id, q) in now <==> Key(id, q) in was)
  }

  /** Having got to page `next` with `spent` charged leaves the page to stop at where it
      was. */
  predicate SameStop(store: map<Key, Page>, id: Id, lo: nat, used: nat, next: nat, spent: nat, hi: nat, limit: nat)
  {
    lo <= next <= hi && StopPage(store, id, lo, hi, used, limit) == StopPage(store, id, next, hi, spent, limit)
  }

  lemma StopStep(store: map<Key, Page>, id: Id, lo: nat, used: nat, next: nat, spent: nat, hi: nat, limit: nat)
    requires SameStop(store, id, lo, used, next, spent, hi, limit) && next < hi
    ensures if Key(id, next) in store then SameStop(store, id, lo, used, next + 1, spent, hi, limit)
            else if limit > 0 && spent + PAGE > limit then StopPage(store, id, lo, hi, used, limit) == next
            else SameStop(store, id, lo, used, next + 1, spent + PAGE, hi, limit)
  {
  }

  /** A write that is stopped at a page has written up to the start of it. */
  lemma StoppedAt(store: map<Key, Page>, id: Id, off: nat, done: nat, next: nat, n: nat, used: nat, limit: nat)
    requires done < n && AtPage(off, done, next) && next < PageEnd(off + n) && off / PAGE <= PageEnd(off + n)
    requires StopPage(store, id, off / PAGE, PageEnd(off + n), used, limit) == next
    ensures Taken(store, id, off, n, used, limit) == done
  {
  }

  // ---------------------------------------------------------------- the byte string behind

  /** A successful write is zero-padding and overlaying exactly when what was stored
      between the old end and the write was zero, as it is when the tail is clean. */
  lemma WriteRefines(was: map<Key, Page>, now: map<Key, Page>, id: Id, size: nat, off: nat, buf: seq<byte>)
    requires Overwritten(was, now, id, off, buf)
    ensures var end := if off + |buf| > size then off + |buf| else size;
            && (Contents(now, id, end) == Overlaid(Contents(was, id, size), off, buf) <==>
                forall k: nat :: size <= k < off && k < end ==> ByteAt(was, id, k) == 0)
            && (TailClean(was, id, size) ==>
                  TailClean(now, id, end) && Contents(now, id, end) == Overlaid(Contents(was, id, size), off, buf))
  {
    var end := if off + |buf| > size then off + |buf| else size;
    var c, o := Contents(now, id, end), Overlaid(Contents(was, id, size), off, buf);
    forall k: nat | k < end
      ensures c[k] == o[k] <==> !(size <= k < off) || ByteAt(was, id, k) == 0
    {
      assert Written(was, now, id, off, buf, id, k);
    }
    if forall k: nat :: size <= k < off && k < end ==> ByteAt(was, id, k) == 0 {
      assert c == o;
    } else {
      var k: nat :| size <= k < off && k < end && ByteAt(was, id, k) != 0;
      assert c[k] != o[k];
    }
    if TailClean(was, id, size) {
      forall k: nat | end <= k
        ensures ByteAt(now, id, k) == 0
      {
        assert Written(was, now, id, off, buf, id, k);
      }
    }
  }

  /** A write that the limit stops keeps a clean tail clean exactly when the bytes it
      got past the end are zero; which ones those are is known before the call. */
  lemma FailedWriteTail(was: map<Key, Page>, now: map<Key, Page>, id: Id, size: nat, off: nat, buf: seq<byte>,
                        used: nat, limit: nat)
    requires TailClean(was, id, size) && Overwritten(was, now, id, off, buf[..Taken(was, id, off, |buf|, used, limit)])
    ensures TailClean(now, id, size) <==>
            forall j :: 0 <= j < Taken(was, id, off, |buf|, used, limit) && size <= off + j ==> buf[j] == 0
  {
    var b := buf[..Taken(was, id, off, |buf|, used, limit)];
    if TailClean(now, id, size) {
      forall j | 0 <= j < |b| && size <= off + j
        ensures buf[j] == 0
      {
        assert Written(was, now, id, off, b, id, off + j);
      }
    }
    if forall j :: 0 <= j < |b| && size <= off + j ==> buf[j] == 0 {
      forall k: nat | size <= k
        ensures ByteAt(now, id, k) == 0
      {
        assert Written(was, now, id, off, b, id, k);
        assert off <= k < off + |b| ==> buf[k - off] == 0;
      }
    }
  }

  /** Truncation is cutting or zero-extending exactly when what was stored up to the
      new end past the old one was zero. */
  lemma TruncateRefines(was: map<Key, Page>, now: map<Key, Page>, id: Id, size: nat, n: nat)
    requires forall k: nat :: k < n || size <= n ==> ByteAt(now, id, k) == ByteAt(was, id, k)
    ensures Contents(now, id, n) == Resized(Contents(was, id, size), n) <==>
            forall k: nat :: size <= k < n ==> ByteAt(was, id, k) == 0
  {
    var c, o := Contents(now, id, n), Resized(Contents(was, id, size), n);
    forall k: nat | k < n
      ensures c[k] == o[k] <==> k < size || ByteAt(was, id, k) == 0
    {
    }
    if forall k: nat :: size <= k < n ==> ByteAt(was, id, k) == 0 {
      assert c == o;
    } else {
      var k: nat :| size <= k < n && ByteAt(was, id, k) != 0;
      assert c[k] != o[k];
    }
  }

  /** A limit of one page, a write of two: it fails and the file is still empty, yet
      growing it by a byte shows what the failed write left. */
  method FailedWriteShows() returns (r: Result, shown: byte)
    ensures r == Err(ENOSPC) && shown == 7
  {
    var fs := new TmpFs(PAGE);
    fs.Create(1);
    var sevens := Sevens();
    TwoPages();
    r := fs.WriteAt(1, 0, sevens);
    assert Written(map[], fs.store, 1, 0, sevens[..PAGE], 1, 0);
    assert ByteAt(fs.store, 1, 0) == 7;
    fs.Truncate(1, 1);
    var buf := new byte[1];
    var n := fs.ReadAt(1, 0, buf);
    assert buf[..1][0] == Contents(fs.store, 1, 1)[0..1][0];
    shown := buf[0];
  }

  function Sevens(): (b: seq<byte>)
    ensures |b| == 2 * PAGE && b[..PAGE][0] == 7
  {
    seq(2 * PAGE, _ => 7)
  }

  lemma TwoPages()
    ensures Taken(map[], 1, 0, 2 * PAGE, 0, PAGE) == PAGE
  {
    assert StopPage(map[], 1, 1, 2, PAGE, PAGE) == 1;
    assert StopPage(map[], 1, 0, 2, 0, PAGE) == 1;
  }

  // ---------------------------------------------------------------- runs

  datatype Op = Write(off: nat, buf: seq<byte>) | SetSize(n: nat)

  datatype Snapshot = Snapshot(store: map<Key, Page>, size: nat)

  /** What one successful call does to a file. */
  ghost predicate Stepped(a: Snapshot, op: Op, b: Snapshot, id: Id)
  {
    match op
    case Write(off, buf) =>
      && Overwritten(a.store, b.store, id, off, buf)
      && b.size == if off + |buf| > a.size then off + |buf| else a.size
    case SetSize(n) =>
      && b.size == n
      && (forall k: nat :: k < n || a.size <= n ==> ByteAt(b.store, id, k) == ByteAt(a.store, id, k))
      && (n < a.size ==> TailClean(b.store, id, n))
  }

  function Reference(c: seq<byte>, ops: seq<Op>): seq<byte>
    decreases |ops|
  {
    if ops == [] then c
    else Reference(Applied(c, ops[0]), ops[1..])
  }

  function Applied(c: seq<byte>, op: Op): seq<byte>
  {
    if op.Write? then Overlaid(c, op.off, op.buf) else Resized(c, op.n)
  }

  lemma StepRefines(a: Snapshot, op: Op, b: Snapshot, id: Id)
    requires Stepped(a, op, b, id) && TailClean(a.store, id, a.size)
    ensures TailClean(b.store, id, b.size)
    ensures Contents(b.store, id, b.size) == Applied(Contents(a.store, id, a.size), op)
  {
    if op.Write? {
      WriteRefines(a.store, b.store, id, a.size, op.off, op.buf);
    } else {
      TruncateRefines(a.store, b.store, id, a.size, op.n);
    }
  }

  /** A file that a call left alone. */
  ghost predicate Untouched(a: Snapshot, b: Snapshot, id: Id)
  {
    b.size == a.size && forall k: nat :: ByteAt(b.store, id, k) == ByteAt(a.store, id, k)
  }

  datatype Call = Call(id: Id, op: Op)

  datatype Disk = Disk(store: map<Key, Page>, sizes: map<Id, nat>)

  function File(d: Disk, id: Id): Snapshot
    requires id in d.sizes
  {
    Snapshot(d.store, d.sizes[id])
  }

  /** What a call with that result does to each file: a successful one steps its own, and
      no call touches any other. */
  ghost predicate Moved(a: Disk, c: Call, r: Result, b: Disk, id: Id)
  {
    id in a.sizes ==>
      id in b.sizes &&
      if c.id != id then Untouched(File(a, id), File(b, id), id)
      else r.Ok? ==> Stepped(File(a, id), c.op, File(b, id), id)
  }

  ghost predicate AllMoved(a: Disk, c: Call, r: Result, b: Disk)
  {
    forall id :: Moved(a, c, r, b, id)
  }

  ghost predicate Replayed(trace: seq<Disk>, calls: seq<Call>, results: seq<Result>)
  {
    && |trace| == |calls| + 1 && |results| == |calls|
    && forall i :: 0 <= i < |calls| ==> AllMoved(trace[i], calls[i], results[i], trace[i + 1])
  }

  /** One write or truncation. */
  method Perform(fs: TmpFs, c: Call) returns (r: Result)
    requires fs.Charged() && c.id in fs.sizes
    modifies fs
    ensures fs.Charged() && fs.sizes.Keys == old(fs.sizes).Keys
    ensures AllMoved(Disk(old(fs.store), old(fs.sizes)), c, r, Disk(fs.store, fs.sizes))
  {
    ghost var a := Disk(fs.store, fs.sizes);
    if c.op.Write? {
      r := fs.WriteAt(c.id, c.op.off, c.op.buf);
      OthersUntouched(a, Disk(fs.store, fs.sizes), c.id, c.op.off,
                      c.op.buf[..if c.op.off + |c.op.buf| > MAX_END then 0
                                 else Taken(a.store, c.id, c.op.off, |c.op.buf|, old(fs.used), fs.limit)]);
    } else {
      fs.Truncate(c.id, c.op.n);
      r := Ok(c.op.n);
    }
  }

  lemma OthersUntouched(a: Disk, b: Disk, id: Id, off: nat, buf: seq<byte>)
    requires Overwritten(a.store, b.store, id, off, buf)
    ensures forall x: Id, k: nat :: x != id ==> ByteAt(b.store, x, k) == ByteAt(a.store, x, k)
  {
    forall x: Id, k: nat | x != id
      ensures ByteAt(b.store, x, k) == ByteAt(a.store, x, k)
    {
      assert Written(a.store, b.store, id, off, buf, x, k);
    }
  }

  /** Any sequence of writes and truncations of files that exist. */
  method Replay(fs: TmpFs, calls: seq<Call>) returns (results: seq<Result>, ghost trace: seq<Disk>)
    requires fs.Charged() && forall i :: 0 <= i < |calls| ==> calls[i].id in fs.sizes
    modifies fs
    ensures fs.Charged() && Replayed(trace, calls, results)
    ensures trace[0] == Disk(old(fs.store), old(fs.sizes)) && trace[|calls|] == Disk(fs.store, fs.sizes)
  {
    results, trace := [], [Disk(fs.store, fs.sizes)];
    var i := 0;
    while i < |calls|
      invariant 0 <= i <= |calls| && fs.Charged() && fs.sizes.Keys == old(fs.sizes).Keys
      invariant Replayed(trace, calls[..i], results)
      invariant trace[0] == Disk(old(fs.store), old(fs.sizes)) && trace[i] == Disk(fs.store, fs.sizes)
    {
      var r := Perform(fs, calls[i]);
      ReplayedMore(trace, calls[..i], results, Disk(fs.store, fs.sizes), calls[i], r);
      assert calls[..i + 1] == calls[..i] + [calls[i]];
      results, trace := results + [r], trace + [Disk(fs.store, fs.sizes)];
      i := i + 1;
    }
    assert calls[..i] == calls;
  }

  lemma ReplayedMore(trace: seq<Disk>, calls: seq<Call>, results: seq<Result>, now: Disk, c: Call, r: Result)
    requires Replayed(trace, calls, results) && AllMoved(trace[|calls|], c, r, now)
    ensures Replayed(trace + [now], calls + [c], results + [r])
  {
  }

  /** The changes of one file among the first `n` calls. */
  function OpsOn(id: Id, calls: seq<Call>, n: nat): seq<Op>
    requires n <= |calls|
  {
    if n == 0 then []
    else OpsOn(id, calls, n - 1) + if calls[n - 1].id == id then [calls[n - 1].op] else []
  }

  lemma {:induction false} ReferenceMore(c: seq<byte>, ops: seq<Op>, op: Op)
    ensures Reference(c, ops + [op]) == Applied(Reference(c, ops), op)
    decreases |ops|
  {
    if ops == [] {
      assert ops + [op] == [op] && [op][1..] == [];
    } else {
      assert (ops + [op])[1..] == ops[1..] + [op];
      ReferenceMore(Applied(c, ops[0]), ops[1..], op);
    }
  }

  lemma MovedRefines(a: Disk, c: Call, r: Result, b: Disk, id: Id)
    requires Moved(a, c, r, b, id) && id in a.sizes && TailClean(a.store, id, a.sizes[id]) && (c.id == id ==> r.Ok?)
    ensures id in b.sizes && TailClean(b.store, id, b.sizes[id])
    ensures var before := Contents(a.store, id, a.sizes[id]);
            Contents(b.store, id, b.sizes[id]) == if c.id == id then Applied(before, c.op) else before
  {
    if c.id == id {
      StepRefines(File(a, id), c.op, File(b, id), id);
    } else {
      assert Contents(b.store, id, b.sizes[id]) == Contents(a.store, id, a.sizes[id]);
    }
  }

  lemma OpsMore(c: seq<byte>, id: Id, calls: seq<Call>, n: nat)
    requires n < |calls|
    ensures Reference(c, OpsOn(id, calls, n + 1))
         == if calls[n].id == id then Applied(Reference(c, OpsOn(id, calls, n)), calls[n].op)
            else Reference(c, OpsOn(id, calls, n))
  {
    if calls[n].id == id {
      ReferenceMore(c, OpsOn(id, calls, n), calls[n].op);
    } else {
      assert OpsOn(id, calls, n + 1) == OpsOn(id, calls, n);
    }
  }

  /** Over any run of writes and truncations of any files in which no call on file `id`
      failed, its sparse pages stand for the byte string that its own calls make of a
      plain one. */
  lemma {:induction false} RunRefines(trace: seq<Disk>, calls: seq<Call>, results: seq<Result>, id: Id, n: nat)
    requires Replayed(trace, calls, results) && n <= |calls| && id in trace[0].sizes
    requires TailClean(trace[0].store, id, trace[0].sizes[id])
    requires forall i :: 0 <= i < n && calls[i].id == id ==> results[i].Ok?
    ensures id in trace[n].sizes && TailClean(trace[n].store, id, trace[n].sizes[id])
    ensures Contents(trace[n].store, id, trace[n].sizes[id])
         == Reference(Contents(trace[0].store, id, trace[0].sizes[id]), OpsOn(id, calls, n))
    decreases n
  {
    if n > 0 {
      RunRefines(trace, calls, results, id, n - 1);
      assert AllMoved(trace[n - 1], calls[n - 1], results[n - 1], trace[n - 1 + 1]);
      MovedRefines(trace[n - 1], calls[n - 1], results[n - 1], trace[n], id);
      OpsMore(Contents(trace[0].store, id, trace[0].sizes[id]), id, calls, n - 1);
    }
  }
}
