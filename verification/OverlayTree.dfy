/** The overlay's operations on a mounted pair of layers. */
module OverlayTree {
  import opened TmpfsFiles
  import opened Overlays

  /** `STOPPED` is the upper layer's refusal of the change itself, after the copy-up. */
  datatype Error = ENOENT | EEXIST | NOSPACE | NOTFILE | STOPPED

  datatype Result<+T> = Good(value: T) | Bad(error: Error)

  /** The lower layer is closed, and its files hold what they show. */
  ghost predicate LowerOk(lower: map<Low, Inode>)
  {
    && (forall l, a :: l in lower && lower[l].DirNode? && a in lower[l].entries ==> lower[l].entries[a] in lower)
    && (forall l :: l in lower && lower[l].FileNode? ==> lower[l].held == Plain(Shown(lower[l].held)))
  }

  function ChunkCount(n: nat): nat
  {
    (n + CHUNK - 1) / CHUNK
  }

  /** The name a node would be copied up to is taken. */
  ghost predicate Blocked(s: State, n: NodeId)
  {
    n in s.nodes && s.nodes[n].parent.Some? && exists u :: UpperEntry(s, s.nodes[n].parent.value, s.nodes[n].name, u)
  }

  lemma BlockedStays(s: State, t: State, n: NodeId)
    requires Blocked(s, n) && ViewSame(s, t) && n in t.nodes && t.nodes[n].parent == s.nodes[n].parent
    requires t.nodes[n].name == s.nodes[n].name
    ensures Blocked(t, n)
  {
    var u :| UpperEntry(s, s.nodes[n].parent.value, s.nodes[n].name, u);
    assert EntryKept(s, t, s.nodes[n].parent.value, s.nodes[n].name, u);
  }

  lemma AllBlockedStay(s: State, t: State, stuck: set<NodeId>)
    requires ViewSame(s, t) && forall n :: n in stuck ==> Blocked(s, n)
    requires forall n :: n in stuck ==>
               && n in s.nodes && n in t.nodes
               && t.nodes[n].parent == s.nodes[n].parent && t.nodes[n].name == s.nodes[n].name
    ensures forall n :: n in stuck ==> Blocked(t, n)
  {
    forall n | n in stuck
      ensures Blocked(t, n)
    {
      BlockedStays(s, t, n);
    }
  }

  /** The same nodes, of the same kinds. */
  ghost predicate SameNodes(was: map<NodeId, ONode>, now: map<NodeId, ONode>)
  {
    now.Keys == was.Keys && forall n :: n in was ==> now[n].kind == was[n].kind
  }

  class Overlay {
    var lower: map<Low, Inode>
    var upper: map<Up, Inode>
    var nodes: map<NodeId, ONode>
    var children: map<Child, NodeId>
    var nextUp: nat
    var nextNode: nat
    ghost var stuck: set<NodeId>

    ghost function Now(): State
      reads this
    {
      State(lower, upper, nodes, children)
    }

    ghost predicate Valid()
      reads this
    {
      && Inv(Now()) && NamesFree(Now(), stuck) && LowerOk(lower)
      && (forall u :: u in upper ==> u < nextUp) && (forall n :: n in nodes ==> n < nextNode)
      && (forall n :: n in stuck ==> n in nodes && nodes[n].kind == File && nodes[n].upper.None?)
      && (forall n :: n in stuck ==> Blocked(Now(), n))
    }

    /** A mount: the merged root over two layers, the upper one a tree. */
    constructor (lower: map<Low, Inode>, lowerRoot: Low, upper: map<Up, Inode>, upperRoot: Up, nextUp: nat)
      requires lowerRoot in lower && lower[lowerRoot].DirNode? && upperRoot in upper && upper[upperRoot].DirNode?
      requires LowerOk(lower)
      requires UpperTree(State(lower, upper, map[TOP := ONode(Some(lowerRoot), Some(upperRoot), None, "", Dir)], map[]))
      requires forall u :: u in upper ==> u < nextUp
      ensures Valid() && this.lower == lower && this.upper == upper && children == map[]
      ensures nodes == map[TOP := ONode(Some(lowerRoot), Some(upperRoot), None, "", Dir)]
    {
      this.lower, this.upper, this.nextUp := lower, upper, nextUp;
      nodes := map[TOP := ONode(Some(lowerRoot), Some(upperRoot), None, "", Dir)];
      children, nextNode, stuck := map[], 1, {};
      new;
      forall n: NodeId
        ensures NodeOk(Now(), n) && NameFree(Now(), stuck, n)
      {
      }
    }

    /** Creates an upper inode for a node and lets the node use it. */
    method NewUpper(n: NodeId, i: Inode) returns (u: Up)
      requires Valid() && NodeOk(Now(), n) && n in nodes && n != TOP && nodes[n].upper.None? && n !in stuck
      requires nodes[nodes[n].parent.value].upper.Some?
      requires KindOf(i) == nodes[n].kind && (i.DirNode? ==> i.entries == map[])
      requires nodes[n].kind != Dir ==> i == lower[nodes[n].lower.value]
      modifies this`upper, this`nodes, this`nextUp
      ensures Valid() && ViewSame(old(Now()), Now())
      ensures nodes == old(nodes)[n := old(nodes)[n].(upper := Some(u))] && u in upper && upper[u] == i
    {
      ghost var s := Now();
      var p, name := nodes[n].parent.value, nodes[n].name;
      assert NodeOk(s, p) && NameFree(s, stuck, n);
      var pu := nodes[p].upper.value;
      assert name !in upper[pu].entries by {
        assert name in upper[pu].entries ==> UpperEntry(s, p, name, upper[pu].entries[name]);
      }
      u := nextUp;
      CopiedUp(s, stuck, n, u, i);
      nextUp := nextUp + 1;
      upper := upper[u := i];
      upper := upper[pu := DirNode(upper[pu].entries[name := u], upper[pu].whiteouts - {name})];
      nodes := nodes[n := nodes[n].(upper := Some(u))];
      assert Now() == Adopt(Put(s, pu, name, u, i), n, u);
      AllBlockedStay(s, Now(), stuck);
    }

    /** `ensure_upper_dir`: creates the missing upper directories from the top down;
        none of them is there already under its name. */
    method EnsureUpperDir(n: NodeId) returns (u: Up)
      requires Valid() && n in nodes && nodes[n].kind == Dir
      modifies this`upper, this`nodes, this`nextUp
      ensures Valid() && ViewSame(old(Now()), Now())
      ensures SameNodes(old(nodes), nodes) && nodes[n].upper == Some(u)
      ensures forall m :: m in nodes ==> nodes[m] == old(nodes)[m].(upper := nodes[m].upper)
      ensures forall m :: m in nodes && (m > n || old(nodes)[m].upper.Some?) ==> nodes[m] == old(nodes)[m]
      decreases n
    {
      assert NodeOk(Now(), n);
      if nodes[n].upper.Some? {
        ViewSameRefl(Now());
        return nodes[n].upper.value;
      }
      var p := nodes[n].parent.value;
      var pu := EnsureUpperDir(p);
      ghost var mid := Now();
      assert NodeOk(mid, n);
      u := NewUpper(n, DirNode(map[], {}));
      ViewSameTrans(old(Now()), mid, Now());
    }

    /** Links an empty upper file for a node, without the node using it yet. */
    method StartCopy(n: NodeId) returns (u: Up)
      requires Valid() && NodeOk(Now(), n) && n in nodes && n != TOP && nodes[n].upper.None? && n !in stuck
      requires nodes[n].kind == File
      requires nodes[nodes[n].parent.value].upper.Some?
      modifies this`upper, this`nextUp, this`stuck
      ensures Valid() && ViewSame(old(Now()), Now()) && stuck == old(stuck) + {n}
      ensures u in upper && upper[u] == FileNode(Plain([]))
      ensures UpperEntry(Now(), nodes[n].parent.value, nodes[n].name, u)
      ensures forall m :: m in nodes ==> nodes[m].upper != Some(u)
    {
      ghost var s := Now();
      var p, name := nodes[n].parent.value, nodes[n].name;
      assert NodeOk(s, p) && NameFree(s, stuck, n);
      var pu := nodes[p].upper.value;
      assert name !in upper[pu].entries by {
        assert name in upper[pu].entries ==> UpperEntry(s, p, name, upper[pu].entries[name]);
      }
      u := nextUp;
      Started(s, stuck, n, u, FileNode(Plain([])));
      nextUp := nextUp + 1;
      upper := upper[u := FileNode(Plain([]))];
      upper := upper[pu := DirNode(upper[pu].entries[name := u], upper[pu].whiteouts - {name})];
      assert Now() == Put(s, pu, name, u, FileNode(Plain([])));
      AllBlockedStay(s, Now(), stuck);
      stuck := stuck + {n};
    }

    /** One chunk of the copy. */
    method FillChunk(u: Up, data: seq<byte>, off: nat, n: nat)
      requires Valid() && u in upper && forall m :: m in nodes ==> nodes[m].upper != Some(u)
      requires off + n <= |data| && upper[u] == FileNode(Plain(data[..off]))
      modifies this`upper
      ensures Valid() && ViewSame(old(Now()), Now())
      ensures upper == old(upper)[u := FileNode(Plain(data[..off + n]))]
    {
      ghost var s := Now();
      assert Overlaid(data[..off], off, data[off..off + n]) == data[..off + n];
      OrphanPoke(s, stuck, u, Plain(data[..off + n]));
      upper := upper[u := FileNode(Filled(upper[u].held, off, data[off..off + n]))];
      assert Now() == Poke(s, u, Plain(data[..off + n]));
      AllBlockedStay(s, Now(), stuck);
    }

    /** Copies the lower data over, a chunk at a time, as long as the upper layer takes
        them. */
    method Fill(u: Up, data: seq<byte>, budget: nat) returns (whole: bool)
      requires Valid() && u in upper && upper[u] == FileNode(Plain([]))
      requires forall m :: m in nodes ==> nodes[m].upper != Some(u)
      modifies this`upper
      ensures Valid() && ViewSame(old(Now()), Now())
      ensures whole <==> ChunkCount(|data|) <= budget
      ensures upper.Keys == old(upper).Keys && forall d :: d in upper && d != u ==> upper[d] == old(upper)[d]
      ensures upper[u].FileNode? && (whole ==> upper[u].held == Plain(data))
    {
      ViewSameRefl(Now());
      var off := 0;
      var written := 0;
      while off < |data|
        invariant 0 <= off <= |data| && Valid() && ViewSame(old(Now()), Now())
        invariant upper.Keys == old(upper).Keys && forall d :: d in upper && d != u ==> upper[d] == old(upper)[d]
        invariant u in upper && upper[u] == FileNode(Plain(data[..off]))
        invariant written <= budget && (off < |data| ==> off == written * CHUNK)
        invariant off == |data| ==> written == ChunkCount(|data|)
      {
        var n := if |data| - off < CHUNK then |data| - off else CHUNK;
        ChunkStep(|data|, off, written, n);
        if written == budget {
          return false;
        }
        ghost var s := Now();
        FillChunk(u, data, off, n);
        ViewSameTrans(old(Now()), s, Now());
        off := off + n;
        written := written + 1;
      }
      assert data[..off] == data;
      whole := true;
    }

    /** Creates and fills the upper file of a node, then lets the node use it. */
    method CopyFile(n: NodeId, data: seq<byte>, budget: nat) returns (r: Result<Up>)
      requires Valid() && NodeOk(Now(), n) && n in nodes && n != TOP && nodes[n].upper.None? && n !in stuck
      requires nodes[n].kind == File
      requires nodes[nodes[n].parent.value].upper.Some? && lower[nodes[n].lower.value] == FileNode(Plain(data))
      modifies this`upper, this`nodes, this`nextUp, this`stuck
      ensures Valid() && ViewSame(old(Now()), Now()) && SameNodes(old(nodes), nodes)
      ensures r.Good? <==> ChunkCount(|data|) <= budget
      ensures r.Good? ==> nodes[n].upper == Some(r.value) && stuck == old(stuck)
      ensures r.Bad? ==> r.error == NOSPACE && nodes == old(nodes) && stuck == old(stuck) + {n}
    {
      ghost var s := Now();
      var u := StartCopy(n);
      ghost var linked := Now();
      var p := nodes[n].parent.value;
      var whole := Fill(u, data, budget);
      ghost var filled := Now();
      ViewSameTrans(s, linked, filled);
      if !whole {
        return Bad(NOSPACE);
      }
      assert NodeOk(filled, n) && EntryKept(linked, filled, p, nodes[n].name, u);
      UseCopy(n, u);
      ViewSameTrans(s, filled, Now());
      assert stuck == old(stuck);
      r := Good(u);
    }

    /** The node of a finished copy switches to it. */
    method UseCopy(n: NodeId, u: Up)
      requires Valid() && NodeOk(Now(), n) && n in stuck && n != TOP && u in upper
      requires UpperEntry(Now(), nodes[n].parent.value, nodes[n].name, u) && upper[u] == lower[nodes[n].lower.value]
      modifies this`nodes, this`stuck
      ensures Valid() && ViewSame(old(Now()), Now())
      ensures nodes == old(nodes)[n := old(nodes)[n].(upper := Some(u))] && stuck == old(stuck) - {n}
    {
      ghost var s := Now();
      Finished(s, stuck, n, u);
      nodes := nodes[n := nodes[n].(upper := Some(u))];
      assert Now() == Adopt(s, n, u);
      AllBlockedStay(s, Now(), stuck - {n});
      stuck := stuck - {n};
    }

    /** `copy_up`: an upper copy of a node that has none. It fails when the upper layer
        is full, and from then on for good: the half-written file keeps the name. A
        failure changes nothing that any node shows. */
    method CopyUp(n: NodeId, budget: nat) returns (r: Result<Up>)
      requires Valid() && n in nodes && nodes[n].kind != Dir
      modifies this`upper, this`nodes, this`nextUp, this`stuck
      ensures Valid() && ViewSame(old(Now()), Now()) && SameNodes(old(nodes), nodes)
      ensures r.Good? <==> Copies(old(Now()), old(stuck), n, budget)
      ensures r.Good? ==> nodes[n].upper == Some(r.value) && stuck == old(stuck)
      ensures r.Bad? ==> nodes[n] == old(nodes)[n] && stuck == old(stuck) + {n}
      ensures r.Bad? ==> r.error == if n in old(stuck) then EEXIST else NOSPACE
    {
      assert NodeOk(Now(), n);
      if nodes[n].upper.Some? {
        ViewSameRefl(Now());
        return Good(nodes[n].upper.value);
      }
      ghost var s := Now();
      var src := lower[nodes[n].lower.value];
      var p := nodes[n].parent.value;
      var pu := EnsureUpperDir(p);
      ghost var mid := Now();
      assert NodeOk(mid, n) && NodeOk(mid, p);
      assert HasActive(s, n) && Active(s, n) == src && nodes[n] == s.nodes[n];
      r := CopyInto(n, p, pu, src, budget);
      ViewSameTrans(s, mid, Now());
    }

    /** The rest of `copy_up`, once the parent has an upper directory. */
    method CopyInto(n: NodeId, p: NodeId, pu: Up, src: Inode, budget: nat) returns (r: Result<Up>)
      requires Valid() && n in nodes && n != TOP && nodes[n].kind != Dir && nodes[n].upper.None? && NodeOk(Now(), n)
      requires nodes[n].parent == Some(p) && p in nodes && nodes[p].upper == Some(pu) && NodeOk(Now(), p)
      requires src == lower[nodes[n].lower.value]
      modifies this`upper, this`nodes, this`nextUp, this`stuck
      ensures Valid() && ViewSame(old(Now()), Now()) && SameNodes(old(nodes), nodes)
      ensures r.Good? <==> n !in old(stuck) && (src.FileNode? ==> ChunkCount(|Shown(src.held)|) <= budget)
      ensures r.Good? ==> nodes[n].upper == Some(r.value) && stuck == old(stuck)
      ensures r.Bad? ==> nodes[n] == old(nodes)[n] && stuck == old(stuck) + {n}
      ensures r.Bad? ==> r.error == if n in old(stuck) then EEXIST else NOSPACE
    {
      assert NameFree(Now(), stuck, n);
      assert n in stuck ==> Blocked(Now(), n);
      if nodes[n].name in upper[pu].entries {
        assert UpperEntry(Now(), p, nodes[n].name, upper[pu].entries[nodes[n].name]);
        assert stuck + {n} == stuck;
        ViewSameRefl(Now());
        return Bad(EEXIST);
      }
      if src.LinkNode? {
        var u := NewUpper(n, src);
        return Good(u);
      }
      r := CopyFile(n, Shown(src.held), budget);
    }

    /** `read_at`: the bytes of whichever layer is active. */
    method ReadAt(n: NodeId, off: nat, max: nat) returns (r: Result<seq<byte>>)
      requires Valid() && n in nodes
      ensures HasActive(Now(), n)
      ensures r == if Active(Now(), n).FileNode? then Good(Slice(Shown(Active(Now(), n).held), off, max))
                   else Bad(NOTFILE)
    {
      assert NodeOk(Now(), n);
      var i := if nodes[n].upper.Some? then upper[nodes[n].upper.value] else lower[nodes[n].lower.value];
      if !i.FileNode? {
        return Bad(NOTFILE);
      }
      r := Good(Slice(Shown(i.held), off, max));
    }

    /** Changes a node's upper file. */
    method Store(n: NodeId, h: Held)
      requires Valid() && n in nodes && nodes[n].kind == File && nodes[n].upper.Some?
      modifies this`upper
      ensures Valid() && HasActive(Now(), n) && Active(Now(), n) == FileNode(h)
      ensures forall m: NodeId :: m != n ==> FileSame(old(Now()), Now(), m)
    {
      ghost var s := Now();
      var u := nodes[n].upper.value;
      PokeInv(s, n, h);
      PokeFree(s, stuck, n, h);
      upper := upper[u := FileNode(h)];
      assert Now() == Poke(s, u, h);
      assert NodeOk(s, n);
      forall m | m in stuck
        ensures Blocked(Now(), m)
      {
        assert Blocked(s, m);
        var v :| UpperEntry(s, s.nodes[m].parent.value, s.nodes[m].name, v);
        assert UpperEntry(Now(), s.nodes[m].parent.value, s.nodes[m].name, v);
      }
    }

    /** `write_at` through the overlay, where the upper layer takes `budget` chunks of a
        copy and `room` bytes of the write: what the node shows changes as a private
        copy of the file would, no other file changes and neither does the lower
        layer; an error of the copy-up changes nothing. */
    method WriteAt(n: NodeId, off: nat, buf: seq<byte>, budget: nat, room: nat) returns (r: Result<nat>)
      requires Valid() && n in nodes && nodes[n].kind == File
      modifies this
      ensures Valid() && lower == old(lower) && SameNodes(old(nodes), nodes) && children == old(children)
      ensures HasActive(old(Now()), n) && HasActive(Now(), n) && Active(old(Now()), n).FileNode?
      ensures Active(Now(), n) == FileNode(AfterWrite(Active(old(Now()), n).held, off, buf, room, r))
      ensures r == if !Copies(old(Now()), old(stuck), n, budget) then Bad(if n in old(stuck) then EEXIST else NOSPACE)
                   else if |buf| <= room then Good(|buf|) else Bad(STOPPED)
      ensures forall m: NodeId :: m != n ==> FileSame(old(Now()), Now(), m)
    {
      ghost var s := Now();
      var c := CopyUp(n, budget);
      ghost var t := Now();
      StillShown(s, t, n);
      if c.Bad? {
        return Bad(c.error);
      }
      assert NodeOk(t, n);
      r := if |buf| <= room then Good(|buf|) else Bad(STOPPED);
      Store(n, AfterWrite(upper[c.value].held, off, buf, room, r));
      OthersSame(s, t, Now(), n);
    }

    /** Truncation by `set_attr`, likewise. */
    method SetSize(n: NodeId, size: nat, budget: nat, upperOk: bool) returns (r: Result<nat>)
      requires Valid() && n in nodes && nodes[n].kind == File
      modifies this
      ensures Valid() && lower == old(lower) && SameNodes(old(nodes), nodes) && children == old(children)
      ensures HasActive(old(Now()), n) && HasActive(Now(), n) && Active(old(Now()), n).FileNode?
      ensures Active(Now(), n) == FileNode(AfterResize(Active(old(Now()), n).held, size, r))
      ensures r == if !Copies(old(Now()), old(stuck), n, budget) then Bad(if n in old(stuck) then EEXIST else NOSPACE)
                   else if upperOk then Good(size) else Bad(STOPPED)
      ensures forall m: NodeId :: m != n ==> FileSame(old(Now()), Now(), m)
    {
      ghost var s := Now();
      var c := CopyUp(n, budget);
      ghost var t := Now();
      StillShown(s, t, n);
      if c.Bad? {
        return Bad(c.error);
      }
      if !upperOk {
        return Bad(STOPPED);
      }
      assert NodeOk(t, n);
      r := Good(size);
      Store(n, AfterResize(upper[c.value].held, size, r));
      OthersSame(s, t, Now(), n);
    }

    /** `lookup`: the node of a name, made on the first lookup and the same one ever
        after. */
    method Lookup(p: NodeId, name: string) returns (r: Result<NodeId>)
      requires Valid() && p in nodes
      modifies this`nodes, this`children, this`nextNode
      ensures Valid() && ViewSame(old(Now()), Now())
      ensures forall n :: n in old(nodes) ==> n in nodes && nodes[n] == old(nodes)[n]
      ensures name == "." ==> r == Good(p) && Now() == old(Now())
      ensures r.Good? && name != "." ==> Child(p, name) in children && children[Child(p, name)] == r.value
      ensures name != "." && Child(p, name) in old(children) ==>
                r == Good(old(children)[Child(p, name)]) && Now() == old(Now())
      ensures name != "." && Child(p, name) !in old(children) ==>
                var u := UpperChild(old(Now()), p, name); var l := LowerChild(old(Now()), p, name);
                && (r.Bad? <==> u.None? && l.None?)
                && (r.Bad? ==> Now() == old(Now()))
                && (r.Good? ==> r.value !in old(nodes) && nodes.Keys == old(nodes).Keys + {r.value})
                && (r.Good? ==> nodes[r.value].upper == u && (u.None? ==> nodes[r.value].lower == l))
    {
      ghost var s := Now();
      ViewSameRefl(s);
      if name == "." {
        return Good(p);
      }
      var c := Child(p, name);
      if c in children {
        return Good(children[c]);
      }
      assert NodeOk(s, p) && NodeOk(s, TOP);
      var st := State(lower, upper, nodes, children);
      var u, l := UpperChild(st, p, name), LowerChild(st, p, name);
      if u.None? && l.None? {
        return Bad(ENOENT);
      }
      ChildrenExist(s, p, name);
      var n := AddNode(p, name, u, l);
      r := Good(n);
    }

    /** The node of a name that has not been looked up before. */
    method AddNode(p: NodeId, name: string, u: Option<Up>, l: Option<Low>) returns (n: NodeId)
      requires Valid() && p in nodes && nodes[p].kind == Dir && Child(p, name) !in children && (u.Some? || l.Some?)
      requires if u.Some? then u.value in upper && UpperEntry(Now(), p, name, u.value)
               else forall v :: !UpperEntry(Now(), p, name, v)
      requires l.Some? ==> l.value in lower
      modifies this`nodes, this`children, this`nextNode
      ensures Valid() && ViewSame(old(Now()), Now()) && n !in old(nodes) && n in nodes
      ensures nodes == old(nodes)[n := nodes[n]] && children == old(children)[Child(p, name) := n]
      ensures nodes[n].upper == u && (u.None? ==> nodes[n].lower == l)
    {
      ghost var s := Now();
      var kind := if u.Some? then KindOf(upper[u.value]) else KindOf(lower[l.value]);
      var below := if u.Some? && l.Some? && !(kind == Dir && lower[l.value].DirNode?) then None else l;
      var k := ONode(below, u, Some(p), name, kind);
      n := nextNode;
      CachedInv(s, stuck, n, k);
      nextNode := nextNode + 1;
      nodes := nodes[n := k];
      children := children[Child(p, name) := n];
      assert Now() == Cached(s, n, k);
      AllBlockedStay(s, Now(), stuck);
    }
  }

  function Slice(c: seq<byte>, off: nat, max: nat): (r: seq<byte>)
    ensures |r| == if off >= |c| then 0 else if max < |c| - off then max else |c| - off
    ensures forall i :: 0 <= i < |r| ==> r[i] == c[off + i]
  {
    if off >= |c| then [] else if max < |c| - off then c[off..off + max] else c[off..]
  }

  /** The entry of a name in the upper directory of a node. */
  function UpperChild(s: State, p: NodeId, name: string): Option<Up>
  {
    if !HasActive(s, p) || s.nodes[p].upper.None? then None
    else
      var d := s.upper[s.nodes[p].upper.value];
      if d.DirNode? && name in d.entries then Some(d.entries[name]) else None
  }

  /** The entry of a name in its lower directory, unless the upper one hides it. */
  function LowerChild(s: State, p: NodeId, name: string): Option<Low>
  {
    if !HasActive(s, p) || s.nodes[p].lower.None? || s.nodes[p].lower.value !in s.lower then None
    else
      var d := s.lower[s.nodes[p].lower.value];
      var hidden := s.nodes[p].upper.Some? && s.upper[s.nodes[p].upper.value].DirNode?
                    && name in s.upper[s.nodes[p].upper.value].whiteouts;
      if !hidden && d.DirNode? && name in d.entries then Some(d.entries[name]) else None
  }

  lemma ChildrenExist(s: State, p: NodeId, name: string)
    requires Inv(s) && LowerOk(s.lower) && p in s.nodes && NodeOk(s, p)
    ensures var u := UpperChild(s, p, name);
            u.Some? ==> u.value in s.upper && UpperEntry(s, p, name, u.value) && s.nodes[p].kind == Dir
    ensures var l := LowerChild(s, p, name); l.Some? ==> l.value in s.lower && s.nodes[p].kind == Dir
    ensures UpperChild(s, p, name).None? ==> forall u :: !UpperEntry(s, p, name, u)
  {
    var u := UpperChild(s, p, name);
    if u.Some? {
      assert Names(s, s.nodes[p].upper.value, name, u.value);
    }
  }

  lemma StillShown(s: State, t: State, n: NodeId)
    requires Inv(s) && Inv(t) && ViewSame(s, t) && n in s.nodes && s.nodes[n].kind == File
    ensures HasActive(s, n) && HasActive(t, n) && Active(t, n) == Active(s, n) && Active(s, n).FileNode?
    ensures forall m: NodeId :: m != n ==> FileSame(s, t, m)
  {
    assert NodeOk(s, n) && FileSame(s, t, n);
    forall m: NodeId | m != n
      ensures FileSame(s, t, m)
    {
    }
  }

  lemma OthersSame(s: State, t: State, v: State, n: NodeId)
    requires forall m: NodeId :: m != n ==> FileSame(s, t, m)
    requires forall m: NodeId :: m != n ==> FileSame(t, v, m)
    ensures forall m: NodeId :: m != n ==> FileSame(s, v, m)
  {
    forall m: NodeId | m != n
      ensures FileSame(s, v, m)
    {
      assert FileSame(s, t, m) && FileSame(t, v, m);
    }
  }

  /** Whether the upper layer takes a copy of the node's data. */
  ghost predicate Takes(s: State, n: NodeId, budget: nat)
  {
    HasActive(s, n) && (Active(s, n).FileNode? ==> ChunkCount(|Shown(Active(s, n).held)|) <= budget)
  }

  /** Whether there is an upper copy of the node or there can be one. */
  ghost predicate Copies(s: State, stuck: set<NodeId>, n: NodeId, budget: nat)
    requires n in s.nodes
  {
    s.nodes[n].upper.Some? || (n !in stuck && Takes(s, n, budget))
  }

  /** What a write answered with `r` leaves of the file. */
  function AfterWrite(h: Held, off: nat, buf: seq<byte>, room: nat, r: Result<nat>): Held
  {
    if r.Good? then Filled(h, off, buf)
    else if r.error == STOPPED && room < |buf| then Stopped(h, off, buf[..room])
    else h
  }

  function AfterResize(h: Held, n: nat, r: Result<nat>): Held
  {
    if r.Good? then Truncated(h, n) else h
  }

  lemma ChunkStep(total: nat, off: nat, written: nat, n: nat)
    requires off < total && off == written * CHUNK && n == if total - off < CHUNK then total - off else CHUNK
    ensures n > 0 && written < ChunkCount(total)
    ensures off + n < total ==> off + n == (written + 1) * CHUNK
    ensures off + n == total ==> written + 1 == ChunkCount(total)
  {
  }
}
