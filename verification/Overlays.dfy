/** The overlay file system's copy-up (`fs/overlayfs.rs`): a frozen lower layer seen
    through nodes that acquire a private upper copy on the first change. */
module Overlays {
  import opened TmpfsFiles

  type Low = nat
  type Up = nat
  type NodeId = nat

  const TOP: NodeId := 0
  const CHUNK: nat := 0x4_0000

  datatype Option<+T> = None | Some(value: T)

  datatype Kind = Dir | File | Link

  /** A file as its layer holds it: what is stored, and how much of it counts. A write
      that was stopped half way can leave bytes stored past the end. */
  datatype Held = Held(stored: seq<byte>, size: nat)

  function Plain(data: seq<byte>): Held
  {
    Held(data, |data|)
  }

  /** What a read of the whole file gives. */
  function Shown(h: Held): seq<byte>
  {
    Resized(h.stored, h.size)
  }

  function Filled(h: Held, off: nat, buf: seq<byte>): Held
  {
    Held(Overlaid(h.stored, off, buf), if off + |buf| > h.size then off + |buf| else h.size)
  }

  /** A write that stopped after `part`: the size stays. */
  function Stopped(h: Held, off: nat, part: seq<byte>): Held
  {
    Held(Overlaid(h.stored, off, part), h.size)
  }

  function Truncated(h: Held, n: nat): Held
  {
    Held(if n < h.size then Resized(h.stored, n) else h.stored, n)
  }

  /** An inode of either layer. Upper directories also hold whiteouts, the names
      whose lower entry they hide. */
  datatype Inode =
    | DirNode(entries: map<string, nat>, whiteouts: set<string>)
    | FileNode(held: Held)
    | LinkNode(target: string)

  function KindOf(i: Inode): Kind
  {
    match i
    case DirNode(_, _) => Dir
    case FileNode(_) => File
    case LinkNode(_) => Link
  }

  datatype ONode = ONode(lower: Option<Low>, upper: Option<Up>, parent: Option<NodeId>, name: string, kind: Kind)

  datatype Child = Child(parent: NodeId, name: string)

  datatype State = State(
    lower: map<Low, Inode>,
    upper: map<Up, Inode>,
    nodes: map<NodeId, ONode>,
    children: map<Child, NodeId>)

  // ---------------------------------------------------------------- what a node shows

  predicate HasActive(s: State, n: NodeId)
  {
    && n in s.nodes
    && (s.nodes[n].upper.Some? ==> s.nodes[n].upper.value in s.upper)
    && (s.nodes[n].upper.None? ==> s.nodes[n].lower.Some? && s.nodes[n].lower.value in s.lower)
  }

  /** `active`: the upper inode if there is one, else the lower. */
  function Active(s: State, n: NodeId): Inode
    requires HasActive(s, n)
  {
    if s.nodes[n].upper.Some? then s.upper[s.nodes[n].upper.value] else s.lower[s.nodes[n].lower.value]
  }

  // ---------------------------------------------------------------- invariant

  /** The upper directory entry `name` of node `p`, if `p` has an upper directory. */
  predicate UpperEntry(s: State, p: NodeId, name: string, u: Up)
  {
    && p in s.nodes && s.nodes[p].upper.Some? && s.nodes[p].upper.value in s.upper
    && var d := s.upper[s.nodes[p].upper.value];
    d.DirNode? && name in d.entries && d.entries[name] == u
  }

  ghost predicate NodeOk(s: State, n: NodeId)
  {
    n in s.nodes ==>
      var k := s.nodes[n];
      && HasActive(s, n)
      && (k.upper.Some? ==> KindOf(s.upper[k.upper.value]) == k.kind)
      && (k.lower.Some? ==> k.lower.value in s.lower && KindOf(s.lower[k.lower.value]) == k.kind)
      && (n == TOP ==> k.parent.None? && k.upper.Some? && k.kind == Dir)
      && (n != TOP ==>
            && k.parent.Some? && k.parent.value < n && k.parent.value in s.nodes && s.nodes[k.parent.value].kind == Dir
            && Child(k.parent.value, k.name) in s.children && s.children[Child(k.parent.value, k.name)] == n
            && (k.upper.Some? ==> UpperEntry(s, k.parent.value, k.name, k.upper.value)))
  }

  ghost predicate CacheOk(s: State, c: Child)
  {
    c in s.children ==>
      s.children[c] in s.nodes && s.children[c] != TOP &&
      s.nodes[s.children[c]].parent == Some(c.parent) && s.nodes[s.children[c]].name == c.name
  }

  predicate Names(s: State, d: Up, name: string, u: Up)
  {
    d in s.upper && s.upper[d].DirNode? && name in s.upper[d].entries && s.upper[d].entries[name] == u
  }

  /** The upper layer is a tree: nothing has two names, the top none. */
  ghost predicate UpperTree(s: State)
  {
    && (forall d, a, u :: Names(s, d, a, u) ==> u in s.upper)
    && (forall d, a, e, b, u :: Names(s, d, a, u) && Names(s, e, b, u) ==> d == e && a == b)
    && (TOP in s.nodes && s.nodes[TOP].upper.Some? ==> forall d, a :: !Names(s, d, a, s.nodes[TOP].upper.value))
  }

  ghost predicate Inv(s: State)
  {
    && TOP in s.nodes
    && (forall n {:trigger NodeOk(s, n)} :: NodeOk(s, n))
    && (forall c {:trigger CacheOk(s, c)} :: CacheOk(s, c))
    && UpperTree(s)
  }

  /** An upper inode belongs to one node. */
  lemma {:induction false} UpperUnique(s: State, a: NodeId, b: NodeId)
    requires Inv(s) && a in s.nodes && b in s.nodes && s.nodes[a].upper.Some? && s.nodes[a].upper == s.nodes[b].upper
    ensures a == b
    decreases a + b
  {
    assert NodeOk(s, a) && NodeOk(s, b);
    var u := s.nodes[a].upper.value;
    if a == TOP || b == TOP {
      var c := if a == TOP then b else a;
      if c != TOP {
        var p := s.nodes[c].parent.value;
        assert Names(s, s.nodes[p].upper.value, s.nodes[c].name, u);
      }
    } else {
      var p, q := s.nodes[a].parent.value, s.nodes[b].parent.value;
      assert Names(s, s.nodes[p].upper.value, s.nodes[a].name, u);
      assert Names(s, s.nodes[q].upper.value, s.nodes[b].name, u);
      UpperUnique(s, p, q);
    }
  }

  // ---------------------------------------------------------------- small changes

  /** A new upper inode under a name; a whiteout of that name goes away. */
  function Put(s: State, d: Up, name: string, u: Up, i: Inode): State
    requires d in s.upper && s.upper[d].DirNode?
  {
    var dir := s.upper[d];
    s.(upper := s.upper[u := i][d := DirNode(dir.entries[name := u], dir.whiteouts - {name})])
  }

  /** A node starts to use an upper inode. */
  function Adopt(s: State, n: NodeId, u: Up): State
    requires n in s.nodes
  {
    s.(nodes := s.nodes[n := s.nodes[n].(upper := Some(u))])
  }

  /** The contents of an upper file change. */
  function Poke(s: State, u: Up, h: Held): State
  {
    s.(upper := s.upper[u := FileNode(h)])
  }

  /** Upper directory entries do not go away. */
  predicate EntryKept(s: State, t: State, p: NodeId, name: string, u: Up)
  {
    UpperEntry(s, p, name, u) ==> UpperEntry(t, p, name, u)
  }

  /** Every file shows what it showed, at the same nodes. */
  ghost predicate FileSame(s: State, t: State, n: NodeId)
  {
    n in s.nodes && s.nodes[n].kind != Dir ==>
      HasActive(s, n) && HasActive(t, n) && t.nodes[n].kind == s.nodes[n].kind && Active(t, n) == Active(s, n)
  }

  ghost predicate ViewSame(s: State, t: State)
  {
    && t.lower == s.lower
    && (forall c :: c in s.children ==> c in t.children && t.children[c] == s.children[c])
    && (forall n {:trigger FileSame(s, t, n)} :: FileSame(s, t, n))
    && (forall p, a, u {:trigger EntryKept(s, t, p, a, u)} :: EntryKept(s, t, p, a, u))
  }

  lemma ViewSameTrans(s: State, t: State, v: State)
    requires ViewSame(s, t) && ViewSame(t, v)
    ensures ViewSame(s, v)
  {
    forall n: NodeId
      ensures FileSame(s, v, n)
    {
      assert FileSame(s, t, n) && FileSame(t, v, n);
    }
    forall p: NodeId, a, u: Up
      ensures EntryKept(s, v, p, a, u)
    {
      assert EntryKept(s, t, p, a, u) && EntryKept(t, v, p, a, u);
    }
  }

  lemma ViewSameRefl(s: State)
    requires Inv(s)
    ensures ViewSame(s, s)
  {
    forall n: NodeId
      ensures FileSame(s, s, n)
    {
      assert NodeOk(s, n);
    }
  }

  lemma PutNames(s: State, d: Up, name: string, u: Up, i: Inode, e: Up, a: string, v: Up)
    requires d in s.upper && s.upper[d].DirNode? && u !in s.upper && name !in s.upper[d].entries
    requires i.DirNode? ==> i.entries == map[]
    ensures Names(Put(s, d, name, u, i), e, a, v) <==> Names(s, e, a, v) || (e == d && a == name && v == u)
  {
  }

  lemma PutTree(s: State, d: Up, name: string, u: Up, i: Inode)
    requires UpperTree(s) && d in s.upper && s.upper[d].DirNode? && u !in s.upper && name !in s.upper[d].entries
    requires i.DirNode? ==> i.entries == map[]
    requires TOP in s.nodes && s.nodes[TOP].upper.Some? && s.nodes[TOP].upper.value in s.upper
    ensures UpperTree(Put(s, d, name, u, i))
  {
    var t := Put(s, d, name, u, i);
    forall e: Up, a, v: Up
      ensures Names(t, e, a, v) <==> Names(s, e, a, v) || (e == d && a == name && v == u)
    {
      PutNames(s, d, name, u, i, e, a, v);
    }
  }

  lemma PutNode(s: State, d: Up, name: string, u: Up, i: Inode, n: NodeId)
    requires d in s.upper && s.upper[d].DirNode? && u !in s.upper && name !in s.upper[d].entries
    requires NodeOk(s, n)
    ensures NodeOk(Put(s, d, name, u, i), n) && FileSame(s, Put(s, d, name, u, i), n)
  {
  }

  lemma PutInv(s: State, d: Up, name: string, u: Up, i: Inode)
    requires Inv(s) && d in s.upper && s.upper[d].DirNode? && u !in s.upper && name !in s.upper[d].entries
    requires i.DirNode? ==> i.entries == map[]
    ensures Inv(Put(s, d, name, u, i)) && ViewSame(s, Put(s, d, name, u, i))
  {
    var t := Put(s, d, name, u, i);
    assert NodeOk(s, TOP);
    PutTree(s, d, name, u, i);
    forall n: NodeId
      ensures NodeOk(t, n) && FileSame(s, t, n)
    {
      assert NodeOk(s, n);
      PutNode(s, d, name, u, i, n);
    }
    forall c
      ensures CacheOk(t, c)
    {
      assert CacheOk(s, c);
    }
  }

  /** A node that showed its lower inode starts to show an equal upper one (for a
      directory, any upper directory). */
  lemma AdoptInv(s: State, n: NodeId, u: Up)
    requires Inv(s) && NodeOk(s, n) && n in s.nodes && n != TOP && s.nodes[n].upper.None? && u in s.upper
    requires UpperEntry(s, s.nodes[n].parent.value, s.nodes[n].name, u) && KindOf(s.upper[u]) == s.nodes[n].kind
    requires s.nodes[n].kind != Dir ==> s.upper[u] == s.lower[s.nodes[n].lower.value]
    ensures Inv(Adopt(s, n, u)) && ViewSame(s, Adopt(s, n, u))
  {
    var t := Adopt(s, n, u);
    forall m: NodeId
      ensures NodeOk(t, m) && FileSame(s, t, m)
    {
      assert NodeOk(s, m) && NodeOk(s, n);
    }
    forall c
      ensures CacheOk(t, c)
    {
      assert CacheOk(s, c);
    }
    forall d: Up, a, v: Up
      ensures Names(t, d, a, v) <==> Names(s, d, a, v)
    {
    }
  }

  /** Changing the contents of one node's upper file changes what that node shows
      and nothing else. */
  lemma PokeInv(s: State, n: NodeId, h: Held)
    requires Inv(s) && n in s.nodes && s.nodes[n].kind == File && s.nodes[n].upper.Some?
    ensures var t := Poke(s, s.nodes[n].upper.value, h);
            && Inv(t) && t.lower == s.lower && HasActive(t, n) && Active(t, n) == FileNode(h)
            && (forall m: NodeId :: m != n ==> FileSame(s, t, m))
  {
    var u := s.nodes[n].upper.value;
    var t := Poke(s, u, h);
    assert NodeOk(s, n);
    forall m: NodeId
      ensures NodeOk(t, m) && (m != n ==> FileSame(s, t, m))
    {
      assert NodeOk(s, m);
      if m in s.nodes && s.nodes[m].upper == Some(u) {
        UpperUnique(s, n, m);
      }
    }
    forall c
      ensures CacheOk(t, c)
    {
      assert CacheOk(s, c);
    }
    forall d: Up, a, v: Up
      ensures Names(t, d, a, v) <==> Names(s, d, a, v)
    {
    }
  }

  // ---------------------------------------------------------------- names still to be copied up

  /** A node without an upper inode has no entry in its parent's upper directory,
      unless a copy-up of it failed half way. */
  ghost predicate NameFree(s: State, stuck: set<NodeId>, n: NodeId)
  {
    n in s.nodes && s.nodes[n].upper.None? && n !in stuck && s.nodes[n].parent.Some? ==>
      forall u :: !UpperEntry(s, s.nodes[n].parent.value, s.nodes[n].name, u)
  }

  ghost predicate NamesFree(s: State, stuck: set<NodeId>)
  {
    forall n {:trigger NameFree(s, stuck, n)} :: NameFree(s, stuck, n)
  }

  lemma PutEntry(s: State, p: NodeId, name: string, u: Up, i: Inode, q: NodeId, a: string, v: Up)
    requires Inv(s) && p in s.nodes && s.nodes[p].upper.Some? && s.nodes[p].upper.value in s.upper
    requires s.upper[s.nodes[p].upper.value].DirNode? && u !in s.upper
    requires name !in s.upper[s.nodes[p].upper.value].entries
    ensures UpperEntry(Put(s, s.nodes[p].upper.value, name, u, i), q, a, v) ==>
              UpperEntry(s, q, a, v) || (q == p && a == name && v == u)
  {
    if q in s.nodes && s.nodes[q].upper == s.nodes[p].upper {
      UpperUnique(s, p, q);
    }
    assert NodeOk(s, q);
  }

  /** Copying a node up, in one go: the new inode, its name, and the node's switch to
      it. */
  lemma CopiedUp(s: State, stuck: set<NodeId>, n: NodeId, u: Up, i: Inode)
    requires Inv(s) && NamesFree(s, stuck) && n in s.nodes && n != TOP && s.nodes[n].upper.None? && NodeOk(s, n)
    requires var p := s.nodes[n].parent.value; s.nodes[p].upper.Some? && NodeOk(s, p)
    requires u !in s.upper && KindOf(i) == s.nodes[n].kind && (i.DirNode? ==> i.entries == map[])
    requires s.nodes[n].name !in s.upper[s.nodes[s.nodes[n].parent.value].upper.value].entries
    requires s.nodes[n].kind != Dir ==> i == s.lower[s.nodes[n].lower.value]
    ensures var t := Adopt(Put(s, s.nodes[s.nodes[n].parent.value].upper.value, s.nodes[n].name, u, i), n, u);
            Inv(t) && NamesFree(t, stuck) && ViewSame(s, t)
  {
    var p := s.nodes[n].parent.value;
    var name := s.nodes[n].name;
    var m := Put(s, s.nodes[p].upper.value, name, u, i);
    PutInv(s, s.nodes[p].upper.value, name, u, i);
    assert NodeOk(m, n);
    AdoptInv(m, n, u);
    var t := Adopt(m, n, u);
    ViewSameTrans(s, m, t);
    forall x: NodeId
      ensures NameFree(t, stuck, x)
    {
      FreeAfterPut(s, stuck, n, u, i, x);
    }
  }

  lemma FreeAfterPut(s: State, stuck: set<NodeId>, n: NodeId, u: Up, i: Inode, x: NodeId)
    requires Inv(s) && NamesFree(s, stuck) && n in s.nodes && n != TOP && NodeOk(s, n)
    requires var p := s.nodes[n].parent.value; s.nodes[p].upper.Some? && NodeOk(s, p)
    requires u !in s.upper && KindOf(i) == s.nodes[n].kind && (i.DirNode? ==> i.entries == map[])
    requires s.nodes[n].name !in s.upper[s.nodes[s.nodes[n].parent.value].upper.value].entries
    ensures var m := Put(s, s.nodes[s.nodes[n].parent.value].upper.value, s.nodes[n].name, u, i);
            NameFree(Adopt(m, n, u), stuck, x) && NameFree(m, stuck + {n}, x)
  {
    var p := s.nodes[n].parent.value;
    var name := s.nodes[n].name;
    var m := Put(s, s.nodes[p].upper.value, name, u, i);
    var t := Adopt(m, n, u);
    assert NameFree(s, stuck, x) && NodeOk(s, x);
    if x in s.nodes && x != n && s.nodes[x].parent.Some? && s.nodes[x].upper.None? {
      var q := s.nodes[x].parent.value;
      forall v: Up
        ensures UpperEntry(m, q, s.nodes[x].name, v) ==> UpperEntry(s, q, s.nodes[x].name, v)
        ensures UpperEntry(t, q, s.nodes[x].name, v) ==> UpperEntry(s, q, s.nodes[x].name, v)
      {
        PutEntry(s, p, name, u, i, q, s.nodes[x].name, v);
      }
    }
  }

  /** Filling an upper file that no node uses yet. */
  lemma OrphanPoke(s: State, stuck: set<NodeId>, u: Up, h: Held)
    requires Inv(s) && NamesFree(s, stuck) && u in s.upper && s.upper[u].FileNode?
    requires forall n :: n in s.nodes ==> s.nodes[n].upper != Some(u)
    ensures var t := Poke(s, u, h); Inv(t) && NamesFree(t, stuck) && ViewSame(s, t)
  {
    var t := Poke(s, u, h);
    forall m: NodeId
      ensures NodeOk(t, m) && FileSame(s, t, m) && NameFree(t, stuck, m)
    {
      assert NodeOk(s, m) && NameFree(s, stuck, m);
      if m in s.nodes && s.nodes[m].parent.Some? {
        forall v: Up
          ensures UpperEntry(t, s.nodes[m].parent.value, s.nodes[m].name, v) ==>
                    UpperEntry(s, s.nodes[m].parent.value, s.nodes[m].name, v)
        {
        }
      }
    }
    forall c
      ensures CacheOk(t, c)
    {
      assert CacheOk(s, c);
    }
    forall d: Up, a, v: Up
      ensures Names(t, d, a, v) <==> Names(s, d, a, v)
    {
    }
  }

  /** A copy-up that has linked its upper file and not finished. */
  lemma Started(s: State, stuck: set<NodeId>, n: NodeId, u: Up, i: Inode)
    requires Inv(s) && NamesFree(s, stuck) && n in s.nodes && n != TOP && s.nodes[n].upper.None? && NodeOk(s, n)
    requires var p := s.nodes[n].parent.value; s.nodes[p].upper.Some? && NodeOk(s, p)
    requires u !in s.upper && KindOf(i) == s.nodes[n].kind && i.FileNode?
    requires s.nodes[n].name !in s.upper[s.nodes[s.nodes[n].parent.value].upper.value].entries
    ensures var t := Put(s, s.nodes[s.nodes[n].parent.value].upper.value, s.nodes[n].name, u, i);
            && Inv(t) && NamesFree(t, stuck + {n}) && ViewSame(s, t)
            && UpperEntry(t, s.nodes[n].parent.value, s.nodes[n].name, u)
            && forall m :: m in t.nodes ==> t.nodes[m].upper != Some(u)
  {
    var p := s.nodes[n].parent.value;
    PutInv(s, s.nodes[p].upper.value, s.nodes[n].name, u, i);
    var t := Put(s, s.nodes[p].upper.value, s.nodes[n].name, u, i);
    forall x: NodeId
      ensures NameFree(t, stuck + {n}, x)
      ensures x in t.nodes ==> t.nodes[x].upper != Some(u)
    {
      assert NodeOk(s, x);
      FreeAfterPut(s, stuck, n, u, i, x);
    }
  }

  /** The node of a finished copy-up switches to it. */
  lemma Finished(s: State, stuck: set<NodeId>, n: NodeId, u: Up)
    requires Inv(s) && NamesFree(s, stuck) && NodeOk(s, n) && n in s.nodes && n != TOP && s.nodes[n].upper.None?
    requires s.nodes[n].kind == File && u in s.upper && UpperEntry(s, s.nodes[n].parent.value, s.nodes[n].name, u)
    requires s.upper[u] == s.lower[s.nodes[n].lower.value]
    ensures var t := Adopt(s, n, u); Inv(t) && NamesFree(t, stuck - {n}) && ViewSame(s, t)
  {
    AdoptInv(s, n, u);
    var t := Adopt(s, n, u);
    forall x: NodeId
      ensures NameFree(t, stuck - {n}, x)
    {
      assert NameFree(s, stuck, x) && NodeOk(s, x);
      if x in s.nodes && s.nodes[x].parent.Some? {
        forall v: Up
          ensures UpperEntry(t, s.nodes[x].parent.value, s.nodes[x].name, v) ==>
                    UpperEntry(s, s.nodes[x].parent.value, s.nodes[x].name, v)
        {
        }
      }
    }
  }

  /** Contents of one node's upper file, and the names still free. */
  lemma PokeFree(s: State, stuck: set<NodeId>, n: NodeId, h: Held)
    requires Inv(s) && NamesFree(s, stuck) && n in s.nodes && s.nodes[n].kind == File && s.nodes[n].upper.Some?
    ensures NamesFree(Poke(s, s.nodes[n].upper.value, h), stuck)
  {
    var t := Poke(s, s.nodes[n].upper.value, h);
    assert NodeOk(s, n);
    forall m: NodeId
      ensures NameFree(t, stuck, m)
    {
      assert NodeOk(s, m) && NameFree(s, stuck, m);
      if m in s.nodes && s.nodes[m].parent.Some? {
        forall v: Up
          ensures UpperEntry(t, s.nodes[m].parent.value, s.nodes[m].name, v) ==>
                    UpperEntry(s, s.nodes[m].parent.value, s.nodes[m].name, v)
        {
        }
      }
    }
  }

  /** A node for a name looked up the first time. */
  function Cached(s: State, n: NodeId, k: ONode): State
    requires k.parent.Some?
  {
    s.(nodes := s.nodes[n := k], children := s.children[Child(k.parent.value, k.name) := n])
  }

  lemma CachedInv(s: State, stuck: set<NodeId>, n: NodeId, k: ONode)
    requires Inv(s) && NamesFree(s, stuck) && n !in s.nodes && n != TOP && n !in stuck
    requires k.parent.Some? && k.parent.value < n && k.parent.value in s.nodes && s.nodes[k.parent.value].kind == Dir
    requires Child(k.parent.value, k.name) !in s.children
    requires k.upper.Some? ==>
               && k.upper.value in s.upper && KindOf(s.upper[k.upper.value]) == k.kind
               && UpperEntry(s, k.parent.value, k.name, k.upper.value)
    requires k.lower.Some? ==> k.lower.value in s.lower && KindOf(s.lower[k.lower.value]) == k.kind
    requires k.upper.None? ==> k.lower.Some? && forall u :: !UpperEntry(s, k.parent.value, k.name, u)
    ensures var t := Cached(s, n, k); Inv(t) && NamesFree(t, stuck) && ViewSame(s, t)
  {
    var t := Cached(s, n, k);
    forall m: NodeId
      ensures NodeOk(t, m) && FileSame(s, t, m) && NameFree(t, stuck, m)
    {
      assert NodeOk(s, m) && NameFree(s, stuck, m);
      if m in t.nodes && t.nodes[m].parent.Some? {
        forall v: Up
          ensures UpperEntry(t, t.nodes[m].parent.value, t.nodes[m].name, v) ==>
                    UpperEntry(s, t.nodes[m].parent.value, t.nodes[m].name, v)
        {
        }
      }
    }
    forall c
      ensures CacheOk(t, c)
    {
      assert CacheOk(s, c);
    }
    forall d: Up, a, v: Up
      ensures Names(t, d, a, v) <==> Names(s, d, a, v)
    {
    }
  }
}
