/** Whole runs of calls on an overlay, against private copies of its files. */
module OverlayRuns {
  import TmpfsFiles
  import opened Overlays
  import opened OverlayTree

  /** A call on a handle, that is, a node that a lookup returned or the root. */
  datatype Call =
    | Read(node: NodeId, off: nat, max: nat)
    | Change(node: NodeId, off: nat, buf: seq<TmpfsFiles.byte>, budget: nat, room: nat)
    | Resize(node: NodeId, size: nat, budget: nat, upperOk: bool)
    | Find(node: NodeId, name: string)

  datatype Reply = Bytes(read: Result<seq<TmpfsFiles.byte>>) | Changed(count: Result<nat>) | Found(at: Result<NodeId>)

  /** A private copy of every file that has been looked up so far. */
  ghost function Files(s: State): map<NodeId, Held>
  {
    map n | n in s.nodes && HasActive(s, n) && Active(s, n).FileNode? :: Active(s, n).held
  }

  /** What a call with that reply makes of one private copy. */
  function OnCopy(h: Held, n: NodeId, c: Call, r: Reply): Held
  {
    if c.node != n || !r.Changed? then h
    else match c
      case Change(_, off, buf, _, room) => AfterWrite(h, off, buf, room, r.count)
      case Resize(_, size, _, _) => AfterResize(h, size, r.count)
      case _ => h
  }

  /** A call answered as on private copies: a read gives the copy's bytes, a write and a
      truncation change that copy and no other, and only a lookup brings in another
      file. */
  ghost predicate Answers(was: map<NodeId, Held>, c: Call, r: Reply, now: map<NodeId, Held>)
  {
    && (c.Read? && c.node in was ==> r == Bytes(Good(Slice(Shown(was[c.node]), c.off, c.max))))
    && (c.Change? || c.Resize? ==> r.Changed?)
    && (forall n :: n in was ==> n in now && now[n] == OnCopy(was[n], n, c, r))
    && (forall n :: n in now ==> n in was || (c.Find? && r == Found(Good(n))))
  }

  /** What a lookup brings in is the upper file of the name if there is one, else the
      lower file. */
  ghost predicate BringsIn(s: State, p: NodeId, name: string, t: State, n: NodeId)
  {
    && HasActive(t, n)
    && match UpperChild(s, p, name)
       case Some(u) => u in s.upper && Active(t, n) == s.upper[u]
       case None =>
         var l := LowerChild(s, p, name);
         l.Some? && l.value in s.lower && Active(t, n) == s.lower[l.value]
  }

  /** One call of a run: answered as on private copies, on a lower layer that stays as it
      is, and a file that a lookup brings in is the one of that name. */
  ghost predicate Answered(s: State, c: Call, r: Reply, t: State)
  {
    && Answers(Files(s), c, r, Files(t)) && t.lower == s.lower && LowerOk(s.lower)
    && (c.Find? && r.Found? && r.at.Good? && r.at.value !in s.nodes ==> BringsIn(s, c.node, c.name, t, r.at.value))
  }

  lemma FilesMember(s: State, n: NodeId)
    requires Inv(s)
    ensures n in Files(s) <==> n in s.nodes && s.nodes[n].kind == File
    ensures n in Files(s) ==> HasActive(s, n) && Active(s, n) == FileNode(Files(s)[n])
  {
    assert NodeOk(s, n);
  }

  /** Files that show what they showed have the same private copies. */
  lemma FilesKept(s: State, t: State, n: NodeId)
    requires Inv(s) && Inv(t) && n in Files(s) && FileSame(s, t, n)
    ensures n in Files(t) && Files(t)[n] == Files(s)[n]
  {
    FilesMember(s, n);
    FilesMember(t, n);
  }

  lemma FilesOrigin(s: State, t: State, n: NodeId)
    requires Inv(s) && Inv(t) && n in Files(t) && n in s.nodes
    requires t.nodes[n].kind == s.nodes[n].kind
    ensures n in Files(s)
  {
    FilesMember(s, n);
    FilesMember(t, n);
  }

  /** After a call that changed nothing but file `c.node`. */
  lemma ChangeAnswers(s: State, t: State, c: Call, r: Reply)
    requires Inv(s) && Inv(t) && SameNodes(s.nodes, t.nodes) && (c.Change? || c.Resize?) && r.Changed?
    requires c.node in s.nodes && s.nodes[c.node].kind == File && HasActive(s, c.node) && Active(s, c.node).FileNode?
    requires HasActive(t, c.node) && Active(t, c.node) == FileNode(OnCopy(Active(s, c.node).held, c.node, c, r))
    requires forall m: NodeId :: m != c.node ==> FileSame(s, t, m)
    ensures Answers(Files(s), c, r, Files(t))
  {
    forall n | n in Files(s)
      ensures n in Files(t) && Files(t)[n] == OnCopy(Files(s)[n], n, c, r)
    {
      if n != c.node {
        FilesKept(s, t, n);
      }
    }
    forall n | n in Files(t)
      ensures n in Files(s)
    {
      FilesOrigin(s, t, n);
    }
  }

  /** After a call that changed nothing. */
  lemma QuietAnswers(s: State, t: State, c: Call, r: Reply)
    requires Inv(s) && Inv(t) && ViewSame(s, t) && (c.Read? || c.Find?) && !r.Changed?
    requires c.Read? && c.node in Files(s) ==> r == Bytes(Good(Slice(Shown(Files(s)[c.node]), c.off, c.max)))
    requires forall n :: n in t.nodes ==>
               (n in s.nodes && t.nodes[n].kind == s.nodes[n].kind) || (c.Find? && r == Found(Good(n)))
    ensures Answers(Files(s), c, r, Files(t))
  {
    forall n | n in Files(s)
      ensures n in Files(t) && Files(t)[n] == Files(s)[n]
    {
      assert FileSame(s, t, n);
      FilesKept(s, t, n);
    }
    forall n | n in Files(t)
      ensures n in Files(s) || (c.Find? && r == Found(Good(n)))
    {
      if n in s.nodes && t.nodes[n].kind == s.nodes[n].kind {
        FilesOrigin(s, t, n);
      }
    }
  }

  /** The call is on a node there is, and changes only files. */
  ghost predicate Callable(s: State, c: Call)
  {
    c.node in s.nodes && (c.Change? || c.Resize? ==> s.nodes[c.node].kind == File)
  }

  /** One call on the overlay. */
  method Perform(o: Overlay, c: Call) returns (r: Reply)
    requires o.Valid() && Callable(o.Now(), c)
    modifies o
    ensures o.Valid() && o.lower == old(o.lower)
    ensures old(o.nodes).Keys <= o.nodes.Keys
    ensures forall n :: n in old(o.nodes) ==> o.nodes[n].kind == old(o.nodes)[n].kind
    ensures Answered(old(o.Now()), c, r, o.Now())
  {
    ghost var s := o.Now();
    FilesMember(s, c.node);
    match c
    case Read(n, off, max) =>
      var x := o.ReadAt(n, off, max);
      r := Bytes(x);
      ViewSameRefl(s);
      QuietAnswers(s, o.Now(), c, r);
    case Change(n, off, buf, budget, room) =>
      var x := o.WriteAt(n, off, buf, budget, room);
      r := Changed(x);
      ChangeAnswers(s, o.Now(), c, r);
    case Resize(n, size, budget, upperOk) =>
      var x := o.SetSize(n, size, budget, upperOk);
      r := Changed(x);
      ChangeAnswers(s, o.Now(), c, r);
    case Find(p, name) =>
      r := LookUp(o, p, name);
  }

  method LookUp(o: Overlay, p: NodeId, name: string) returns (r: Reply)
    requires o.Valid() && p in o.nodes
    modifies o
    ensures o.Valid() && o.lower == old(o.lower)
    ensures forall n :: n in old(o.nodes) ==> n in o.nodes && o.nodes[n] == old(o.nodes)[n]
    ensures Answered(old(o.Now()), Find(p, name), r, o.Now())
  {
    ghost var s := o.Now();
    assert CacheOk(s, Child(p, name));
    var x := o.Lookup(p, name);
    r := Found(x);
    if x.Good? && x.value !in s.nodes {
      assert NodeOk(o.Now(), x.value);
      ChildrenExist(s, p, name);
    }
    QuietAnswers(s, o.Now(), Find(p, name), r);
  }

  // ---------------------------------------------------------------- runs

  /** The states after each call, from `trace[0]` on. */
  ghost predicate Replayed(trace: seq<State>, calls: seq<Call>, replies: seq<Reply>)
  {
    && |trace| == |calls| + 1 && |replies| == |calls|
    && forall i :: 0 <= i < |calls| ==> Answered(trace[i], calls[i], replies[i], trace[i + 1])
  }

  /** Any sequence of calls, each on a handle that exists by then (a call on one that does
      not ends the run). */
  method Replay(o: Overlay, calls: seq<Call>) returns (replies: seq<Reply>, ghost trace: seq<State>)
    requires o.Valid()
    modifies o
    ensures o.Valid() && o.lower == old(o.lower) && |replies| <= |calls|
    ensures Replayed(trace, calls[..|replies|], replies) && trace[0] == old(o.Now()) && trace[|replies|] == o.Now()
    ensures |replies| < |calls| ==> !Callable(o.Now(), calls[|replies|])
  {
    replies, trace := [], [o.Now()];
    var i := 0;
    while i < |calls|
      invariant 0 <= i <= |calls| && |replies| == i && o.Valid() && o.lower == old(o.lower)
      invariant Replayed(trace, calls[..i], replies) && trace[0] == old(o.Now()) && trace[i] == o.Now()
    {
      var c := calls[i];
      if c.node !in o.nodes || ((c.Change? || c.Resize?) && o.nodes[c.node].kind != File) {
        return;
      }
      var r := Perform(o, c);
      ReplayedMore(trace, calls[..i], replies, o.Now(), c, r);
      assert calls[..i + 1] == calls[..i] + [c];
      replies, trace := replies + [r], trace + [o.Now()];
      i := i + 1;
    }
  }

  lemma ReplayedMore(trace: seq<State>, calls: seq<Call>, replies: seq<Reply>, now: State, c: Call, r: Reply)
    requires Replayed(trace, calls, replies) && Answered(trace[|calls|], c, r, now)
    ensures Replayed(trace + [now], calls + [c], replies + [r])
  {
  }

  /** Calls `i..j` on one private copy. */
  function Private(h: Held, n: NodeId, calls: seq<Call>, replies: seq<Reply>, i: nat, j: nat): Held
    requires |calls| == |replies| && i <= j <= |calls|
  {
    if i == j then h else OnCopy(Private(h, n, calls, replies, i, j - 1), n, calls[j - 1], replies[j - 1])
  }

  lemma {:induction false} TraceIsPrivate(trace: seq<State>, calls: seq<Call>, replies: seq<Reply>, n: NodeId, i: nat,
                                          j: nat)
    requires Replayed(trace, calls, replies) && i <= j <= |calls| && n in Files(trace[i])
    ensures n in Files(trace[j]) && Files(trace[j])[n] == Private(Files(trace[i])[n], n, calls, replies, i, j)
    decreases j - i
  {
    if i < j {
      TraceIsPrivate(trace, calls, replies, n, i, j - 1);
      assert Answered(trace[j - 1], calls[j - 1], replies[j - 1], trace[j - 1 + 1]);
    }
  }

  /** Over any run of calls on any handles, every read of a file gives the bytes that the
      calls since then make of a private copy of what the file was at any earlier
      time: the first one the run began with, or the one a lookup brought in. */
  lemma SimulatesCopy(trace: seq<State>, calls: seq<Call>, replies: seq<Reply>, n: NodeId, i: nat, j: nat)
    requires Replayed(trace, calls, replies) && i <= j < |calls| && n in Files(trace[i])
    requires calls[j].Read? && calls[j].node == n
    ensures var copy := Private(Files(trace[i])[n], n, calls, replies, i, j);
            replies[j] == Bytes(Good(Slice(Shown(copy), calls[j].off, calls[j].max)))
  {
    TraceIsPrivate(trace, calls, replies, n, i, j);
    assert Answered(trace[j], calls[j], replies[j], trace[j + 1]);
  }

  /** Nothing but zeros is stored past the end. */
  ghost predicate Clean(h: Held)
  {
    forall k :: h.size <= k < |h.stored| ==> h.stored[k] == 0
  }

  /** As long as no write of the file is stopped, the private copy shows a plain byte
      string that writes are laid over and truncations cut or zero-extend. */
  lemma {:induction false} PlainCopy(h: Held, n: NodeId, calls: seq<Call>, replies: seq<Reply>, i: nat, j: nat)
    requires |calls| == |replies| && i <= j <= |calls| && Clean(h)
    requires forall k :: i <= k < j && calls[k].node == n && replies[k].Changed? ==> replies[k].count != Bad(STOPPED)
    ensures Clean(Private(h, n, calls, replies, i, j))
    ensures Shown(Private(h, n, calls, replies, i, j)) == TmpfsFiles.Reference(Shown(h), Ops(n, calls, replies, i, j))
    decreases j - i
  {
    if i < j {
      PlainCopy(h, n, calls, replies, i, j - 1);
      var op := OpOf(n, calls[j - 1], replies[j - 1]);
      ReferenceAppend(Shown(h), Ops(n, calls, replies, i, j - 1), op);
      PlainStep(Private(h, n, calls, replies, i, j - 1), n, calls[j - 1], replies[j - 1]);
    }
  }

  /** What `i` brings in from the lower layer reads, ever after, as what the successful
      calls since then make of the lower file, as long as none of them was stopped. */
  lemma ReadsLower(trace: seq<State>, calls: seq<Call>, replies: seq<Reply>, n: NodeId, l: Low, i: nat, j: nat)
    requires Replayed(trace, calls, replies) && i < j < |calls|
    requires calls[i].Find? && replies[i] == Found(Good(n)) && n !in trace[i].nodes
    requires UpperChild(trace[i], calls[i].node, calls[i].name).None?
    requires LowerChild(trace[i], calls[i].node, calls[i].name) == Some(l) && l in trace[i].lower
    requires trace[i].lower[l].FileNode?
    requires calls[j].Read? && calls[j].node == n
    requires forall k :: i < k < j && calls[k].node == n && replies[k].Changed? ==> replies[k].count != Bad(STOPPED)
    ensures var data := TmpfsFiles.Reference(Shown(trace[i].lower[l].held), Ops(n, calls, replies, i + 1, j));
            replies[j] == Bytes(Good(Slice(data, calls[j].off, calls[j].max)))
  {
    BroughtIn(trace[i], calls[i], replies[i], trace[i + 1], n, l);
    SimulatesCopy(trace, calls, replies, n, i + 1, j);
    PlainCopy(trace[i].lower[l].held, n, calls, replies, i + 1, j);
  }

  lemma BroughtIn(s: State, c: Call, r: Reply, t: State, n: NodeId, l: Low)
    requires Answered(s, c, r, t) && c.Find? && r == Found(Good(n)) && n !in s.nodes
    requires UpperChild(s, c.node, c.name).None?
    requires LowerChild(s, c.node, c.name) == Some(l) && l in s.lower && s.lower[l].FileNode?
    ensures n in Files(t) && Files(t)[n] == s.lower[l].held && Clean(s.lower[l].held)
  {
  }

  /** The changes of file `n` that succeeded. */
  function Ops(n: NodeId, calls: seq<Call>, replies: seq<Reply>, i: nat, j: nat): seq<TmpfsFiles.Op>
    requires |calls| == |replies| && i <= j <= |calls|
  {
    if i == j then [] else Ops(n, calls, replies, i, j - 1) + OpOf(n, calls[j - 1], replies[j - 1])
  }

  function OpOf(n: NodeId, c: Call, r: Reply): seq<TmpfsFiles.Op>
  {
    if c.node != n || !r.Changed? || r.count.Bad? then []
    else match c
      case Change(_, off, buf, _, _) => [TmpfsFiles.Write(off, buf)]
      case Resize(_, size, _, _) => [TmpfsFiles.SetSize(size)]
      case _ => []
  }

  lemma PlainStep(h: Held, n: NodeId, c: Call, r: Reply)
    requires Clean(h) && (c.node == n && r.Changed? ==> r.count != Bad(STOPPED))
    ensures Clean(OnCopy(h, n, c, r))
    ensures var op := OpOf(n, c, r);
            Shown(OnCopy(h, n, c, r)) == if op == [] then Shown(h) else TmpfsFiles.Applied(Shown(h), op[0])
  {
    if OpOf(n, c, r) != [] {
      if c.Change? {
        PlainWrite(h, c.off, c.buf);
      } else {
        PlainResize(h, c.size);
      }
    }
  }

  lemma PlainWrite(h: Held, off: nat, buf: seq<TmpfsFiles.byte>)
    requires Clean(h)
    ensures Clean(Filled(h, off, buf)) && Shown(Filled(h, off, buf)) == TmpfsFiles.Overlaid(Shown(h), off, buf)
  {
    var a, b := Shown(Filled(h, off, buf)), TmpfsFiles.Overlaid(Shown(h), off, buf);
    assert |a| == |b|;
    assert forall k :: 0 <= k < |a| ==> a[k] == b[k];
  }

  lemma PlainResize(h: Held, size: nat)
    requires Clean(h)
    ensures Clean(Truncated(h, size)) && Shown(Truncated(h, size)) == TmpfsFiles.Resized(Shown(h), size)
  {
    var a, b := Shown(Truncated(h, size)), TmpfsFiles.Resized(Shown(h), size);
    assert |a| == |b|;
    assert forall k :: 0 <= k < |a| ==> a[k] == b[k];
  }

  lemma {:induction false} ReferenceAppend(data: seq<TmpfsFiles.byte>, ops: seq<TmpfsFiles.Op>,
                                           more: seq<TmpfsFiles.Op>)
    requires |more| <= 1
    ensures TmpfsFiles.Reference(data, ops + more)
         == if more == [] then TmpfsFiles.Reference(data, ops)
            else TmpfsFiles.Applied(TmpfsFiles.Reference(data, ops), more[0])
    decreases |ops|
  {
    if ops == [] {
      assert ops + more == more;
    } else {
      assert (ops + more)[1..] == ops[1..] + more;
      ReferenceAppend(TmpfsFiles.Applied(data, ops[0]), ops[1..], more);
    }
  }

  // ---------------------------------------------------------------- what a copy shows

  /** A write that the upper layer stops leaves the size, and of the bytes it got to those
      inside the file show. */
  lemma StoppedShows(h: Held, off: nat, buf: seq<TmpfsFiles.byte>, room: nat, k: nat)
    requires room < |buf| && k < h.size
    ensures var was, now := Shown(h), Shown(AfterWrite(h, off, buf, room, Bad(STOPPED)));
            |now| == |was| == h.size && now[k] == if off <= k < off + room then buf[k - off] else was[k]
  {
  }

  /** A call that fails for any other reason leaves the copy as it was. */
  lemma FailedLeaves(h: Held, n: NodeId, c: Call, e: Error)
    requires e != STOPPED
    ensures OnCopy(h, n, c, Changed(Bad(e))) == h
  {
  }

  /** Which child a merged directory has: the upper one if there is one, none if the upper
      directory hides the name, and otherwise the lower one. */
  lemma MergedChild(s: State, p: NodeId, name: string)
    requires Inv(s) && LowerOk(s.lower) && p in s.nodes && s.nodes[p].upper.Some? && s.nodes[p].lower.Some?
    requires s.nodes[p].upper.value in s.upper && s.upper[s.nodes[p].upper.value].DirNode?
    requires s.nodes[p].lower.value in s.lower && s.lower[s.nodes[p].lower.value].DirNode?
    ensures var up, low := s.upper[s.nodes[p].upper.value], s.lower[s.nodes[p].lower.value];
            && (UpperChild(s, p, name).Some? <==> name in up.entries)
            && (name in up.entries ==> UpperChild(s, p, name).value == up.entries[name])
            && (LowerChild(s, p, name).Some? <==> name in low.entries && name !in up.whiteouts)
            && (LowerChild(s, p, name).Some? ==> LowerChild(s, p, name).value == low.entries[name])
  {
    assert NodeOk(s, p);
  }
}
