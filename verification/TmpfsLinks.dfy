/** Names and link counts in tmpfs (`fs/tmpfs.rs`): every directory operation keeps
    each node's link count equal to what the entries say it should be. */
module TmpfsLinks {

  type Ino = nat

  const ROOT: Ino := 1

  datatype Errno = ENOTDIR | EEXIST | ENOENT | EPERM | EISDIR | ENOTEMPTY

  datatype Outcome = Done | Failed(error: Errno)

  datatype Node = Node(isDir: bool, nlink: int)

  /** A name in a directory. */
  datatype Entry = Entry(dir: Ino, name: string)

  // ---------------------------------------------------------------- what entries say

  function NamedBy(entries: map<Entry, Ino>, t: Ino): set<Entry>
  {
    set e | e in entries && entries[e] == t
  }

  predicate IsDir(nodes: map<Ino, Node>, t: Ino)
  {
    t in nodes && nodes[t].isDir
  }

  function Subdirs(nodes: map<Ino, Node>, entries: map<Entry, Ino>, d: Ino): set<Entry>
  {
    set e | e in entries && e.dir == d && IsDir(nodes, entries[e])
  }

  predicate Empty(entries: map<Entry, Ino>, d: Ino)
  {
    forall e :: e in entries ==> e.dir != d
  }

  predicate Linked(entries: map<Entry, Ino>, d: Ino)
  {
    d == ROOT || NamedBy(entries, d) != {}
  }

  /** The right link count: for a directory two and its subdirectories while it has
      a name, for anything else the entries that name it. */
  function Links(nodes: map<Ino, Node>, entries: map<Entry, Ino>, t: Ino): int
    requires t in nodes
  {
    if nodes[t].isDir then (if Linked(entries, t) then 2 else 0) + |Subdirs(nodes, entries, t)|
    else |NamedBy(entries, t)|
  }

  ghost predicate NodeOk(nodes: map<Ino, Node>, entries: map<Entry, Ino>, t: Ino)
  {
    t in nodes ==>
      && nodes[t].nlink == Links(nodes, entries, t)
      && (nodes[t].isDir ==> |NamedBy(entries, t)| <= 1)
  }

  ghost predicate Inv(nodes: map<Ino, Node>, entries: map<Entry, Ino>)
  {
    && IsDir(nodes, ROOT) && NamedBy(entries, ROOT) == {}
    && (forall e :: e in entries ==> IsDir(nodes, e.dir) && entries[e] in nodes)
    && (forall t {:trigger NodeOk(nodes, entries, t)} :: NodeOk(nodes, entries, t))
  }

  // ---------------------------------------------------------------- one entry more or less

  lemma AddedNames(entries: map<Entry, Ino>, e: Entry, t: Ino, x: Ino)
    requires e !in entries
    ensures NamedBy(entries[e := t], x) == NamedBy(entries, x) + if x == t then {e} else {}
    ensures e !in NamedBy(entries, x)
  {
  }

  lemma AddedSubdirs(nodes: map<Ino, Node>, entries: map<Entry, Ino>, e: Entry, t: Ino, x: Ino)
    requires e !in entries
    ensures Subdirs(nodes, entries[e := t], x)
         == Subdirs(nodes, entries, x) + if x == e.dir && IsDir(nodes, t) then {e} else {}
    ensures e !in Subdirs(nodes, entries, x)
  {
  }

  /** How an added entry moves every link count. */
  lemma AddedLinks(nodes: map<Ino, Node>, entries: map<Entry, Ino>, e: Entry, t: Ino, x: Ino)
    requires e !in entries && x in nodes
    ensures Links(nodes, entries[e := t], x) == Links(nodes, entries, x) +
            (if nodes[x].isDir then
               (if x == e.dir && IsDir(nodes, t) then 1 else 0) + (if x == t && !Linked(entries, x) then 2 else 0)
             else if x == t then 1 else 0)
  {
    AddedNames(entries, e, t, x);
    AddedSubdirs(nodes, entries, e, t, x);
    assert x == t ==> e in NamedBy(entries[e := t], x);
  }

  lemma RemovedIs(entries: map<Entry, Ino>, e: Entry)
    requires e in entries
    ensures e !in entries - {e} && (entries - {e})[e := entries[e]] == entries
  {
  }

  /** The same read backwards. */
  lemma RemovedLinks(nodes: map<Ino, Node>, entries: map<Entry, Ino>, e: Entry, x: Ino)
    requires e in entries && x in nodes
    ensures var t := entries[e]; var less := entries - {e};
            Links(nodes, less, x) == Links(nodes, entries, x) -
            (if nodes[x].isDir then
               (if x == e.dir && IsDir(nodes, t) then 1 else 0) + (if x == t && !Linked(less, x) then 2 else 0)
             else if x == t then 1 else 0)
  {
    RemovedIs(entries, e);
    AddedLinks(nodes, entries - {e}, e, entries[e], x);
  }

  lemma RemovedNames(entries: map<Entry, Ino>, e: Entry, x: Ino)
    requires e in entries
    ensures NamedBy(entries - {e}, x) == NamedBy(entries, x) - {e}
  {
  }

  /** Link counts depend on what nodes are, not on the counts stored in them. */
  lemma LinksIgnoreCounts(a: map<Ino, Node>, b: map<Ino, Node>, entries: map<Entry, Ino>, x: Ino)
    requires a.Keys == b.Keys && x in a && forall t :: t in a ==> a[t].isDir == b[t].isDir
    ensures Links(a, entries, x) == Links(b, entries, x)
  {
    assert Subdirs(a, entries, x) == Subdirs(b, entries, x);
  }

  /** The one name of a directory. */
  lemma OnlyName(entries: map<Entry, Ino>, e: Entry, d: Ino)
    requires e in entries && entries[e] == d && |NamedBy(entries, d)| <= 1
    ensures NamedBy(entries, d) == {e} && NamedBy(entries - {e}, d) == {}
  {
    var s := NamedBy(entries, d);
    assert e in s;
    assert |s - {e}| == |s| - 1 == 0;
    assert s == {e};
    RemovedNames(entries, e, d);
  }

  lemma EmptyHasNoSubdirs(nodes: map<Ino, Node>, entries: map<Entry, Ino>, d: Ino)
    requires Empty(entries, d)
    ensures Subdirs(nodes, entries, d) == {}
  {
  }

  /** No node of `was` has changed its kind or gone. */
  predicate SameKinds(was: map<Ino, Node>, now: map<Ino, Node>)
  {
    forall x :: x in was ==> x in now && now[x].isDir == was[x].isDir
  }

  function Bumped(nodes: map<Ino, Node>, t: Ino, k: int): map<Ino, Node>
    requires t in nodes
  {
    nodes[t := nodes[t].(nlink := nodes[t].nlink + k)]
  }

  // ---------------------------------------------------------------- the tree

  class Tree {
    var nodes: map<Ino, Node>
    var entries: map<Entry, Ino>

    ghost predicate Valid()
      reads this
    {
      Inv(nodes, entries)
    }

    constructor ()
      ensures Valid() && entries == map[] && nodes == map[ROOT := Node(true, 2)]
    {
      nodes, entries := map[ROOT := Node(true, 2)], map[];
      new;
      assert Subdirs(nodes, entries, ROOT) == {} && NamedBy(entries, ROOT) == {};
    }

    /** `create` and `symlink`. */
    method Create(dir: Ino, name: string, isDir: bool, ino: Ino) returns (r: Outcome)
      requires Valid() && dir in nodes && ino !in nodes
      modifies this
      ensures Valid()
      ensures r == if !old(nodes)[dir].isDir then Failed(ENOTDIR)
                   else if Entry(dir, name) in old(entries) then Failed(EEXIST) else Done
      ensures entries == if r.Done? then old(entries)[Entry(dir, name) := ino] else old(entries)
      ensures r.Failed? ==> nodes == old(nodes)
      ensures r.Done? ==> nodes.Keys == old(nodes).Keys + {ino} && nodes[ino].isDir == isDir
      ensures SameKinds(old(nodes), nodes)
    {
      if !nodes[dir].isDir {
        return Failed(ENOTDIR);
      }
      var e := Entry(dir, name);
      if e in entries {
        return Failed(EEXIST);
      }
      CreateOk(nodes, entries, e, isDir, ino);
      nodes := nodes[ino := Node(isDir, if isDir then 2 else 1)];
      entries := entries[e := ino];
      if isDir {
        nodes := Bumped(nodes, dir, 1);
      }
      r := Done;
    }

    /** `link`. */
    method Link(dir: Ino, name: string, target: Ino) returns (r: Outcome)
      requires Valid() && dir in nodes && target in nodes
      modifies this
      ensures Valid()
      ensures r == if old(nodes)[target].isDir then Failed(EPERM)
                   else if !old(nodes)[dir].isDir then Failed(ENOTDIR)
                   else if Entry(dir, name) in old(entries) then Failed(EEXIST) else Done
      ensures entries == if r.Done? then old(entries)[Entry(dir, name) := target] else old(entries)
      ensures nodes.Keys == old(nodes).Keys && SameKinds(old(nodes), nodes)
    {
      if nodes[target].isDir {
        return Failed(EPERM);
      }
      if !nodes[dir].isDir {
        return Failed(ENOTDIR);
      }
      var e := Entry(dir, name);
      if e in entries {
        return Failed(EEXIST);
      }
      LinkOk(nodes, entries, e, target);
      entries := entries[e := target];
      nodes := Bumped(nodes, target, 1);
      r := Done;
    }

    /** `unlink`: not for directories. */
    method Unlink(dir: Ino, name: string) returns (r: Outcome)
      requires Valid() && dir in nodes
      modifies this
      ensures Valid()
      ensures var e := Entry(dir, name);
              r == if !old(nodes)[dir].isDir then Failed(ENOTDIR)
                   else if e !in old(entries) then Failed(ENOENT)
                   else if IsDir(old(nodes), old(entries)[e]) then Failed(EISDIR) else Done
      ensures entries == if r.Done? then old(entries) - {Entry(dir, name)} else old(entries)
      ensures nodes.Keys == old(nodes).Keys && SameKinds(old(nodes), nodes)
    {
      if !nodes[dir].isDir {
        return Failed(ENOTDIR);
      }
      var e := Entry(dir, name);
      if e !in entries {
        return Failed(ENOENT);
      }
      var t := entries[e];
      if nodes[t].isDir {
        return Failed(EISDIR);
      }
      UnlinkOk(nodes, entries, e);
      entries := entries - {e};
      nodes := nodes[t := nodes[t].(nlink := if nodes[t].nlink > 0 then nodes[t].nlink - 1 else 0)];
      r := Done;
    }

    /** `rmdir`: only an empty directory. */
    method Rmdir(dir: Ino, name: string) returns (r: Outcome)
      requires Valid() && dir in nodes
      modifies this
      ensures Valid()
      ensures var e := Entry(dir, name);
              r == if !old(nodes)[dir].isDir then Failed(ENOTDIR)
                   else if e !in old(entries) then Failed(ENOENT)
                   else if !IsDir(old(nodes), old(entries)[e]) then Failed(ENOTDIR)
                   else if !Empty(old(entries), old(entries)[e]) then Failed(ENOTEMPTY) else Done
      ensures entries == if r.Done? then old(entries) - {Entry(dir, name)} else old(entries)
      ensures nodes.Keys == old(nodes).Keys && SameKinds(old(nodes), nodes)
    {
      if !nodes[dir].isDir {
        return Failed(ENOTDIR);
      }
      var e := Entry(dir, name);
      if e !in entries {
        return Failed(ENOENT);
      }
      var t := entries[e];
      if !nodes[t].isDir {
        return Failed(ENOTDIR);
      }
      if !Empty(entries, t) {
        return Failed(ENOTEMPTY);
      }
      RmdirOk(nodes, entries, e);
      entries := entries - {e};
      nodes := nodes[t := nodes[t].(nlink := 0)];
      nodes := Bumped(nodes, dir, -1);
      r := Done;
    }

    /** Drops what is at `e`, before something else takes its name. */
    method Displace(e: Entry)
      requires Valid() && e in entries && (IsDir(nodes, entries[e]) ==> Empty(entries, entries[e]))
      modifies this
      ensures Valid() && entries == old(entries) - {e}
      ensures nodes.Keys == old(nodes).Keys && SameKinds(old(nodes), nodes)
    {
      var t := entries[e];
      if nodes[t].isDir {
        RmdirOk(nodes, entries, e);
        nodes := nodes[t := nodes[t].(nlink := 0)];
        nodes := Bumped(nodes, e.dir, -1);
      } else {
        UnlinkOk(nodes, entries, e);
        nodes := nodes[t := nodes[t].(nlink := if nodes[t].nlink > 0 then nodes[t].nlink - 1 else 0)];
      }
      entries := entries - {e};
    }

    /** Gives the node at `e` the name `f`, whatever had it before. */
    method Move(e: Entry, f: Entry)
      requires Valid() && e in entries && IsDir(nodes, f.dir)
      requires f in entries ==> entries[f] != entries[e] && (IsDir(nodes, entries[f]) ==> Empty(entries, entries[f]))
      modifies this
      ensures Valid() && nodes.Keys == old(nodes).Keys && entries == Renamed(old(entries), e, f)
      ensures SameKinds(old(nodes), nodes)
    {
      var t := entries[e];
      if f in entries {
        Displace(f);
      }
      MoveOk(nodes, entries, e, f);
      nodes := Moved(nodes, t, e.dir, f.dir);
      entries := (entries - {e})[f := t];
    }

    /** `rename`: between two names of one node it does nothing; otherwise the target,
        if any, is displaced and the node changes its name. */
    method Rename(dir: Ino, name: string, newDir: Ino, newName: string) returns (r: Outcome)
      requires Valid() && dir in nodes && newDir in nodes
      modifies this
      ensures Valid() && nodes.Keys == old(nodes).Keys && SameKinds(old(nodes), nodes)
      ensures r == RenameVerdict(old(nodes), old(entries), Entry(dir, name), Entry(newDir, newName))
      ensures entries == if r.Done? then Renamed(old(entries), Entry(dir, name), Entry(newDir, newName))
                         else old(entries)
    {
      var e, f := Entry(dir, name), Entry(newDir, newName);
      if !nodes[dir].isDir {
        return Failed(ENOTDIR);
      }
      if e !in entries {
        return Failed(ENOENT);
      }
      var t := entries[e];
      if !nodes[newDir].isDir {
        return Failed(ENOTDIR);
      }
      if f in entries {
        var ex := entries[f];
        if ex == t {
          return Done;
        }
        if nodes[t].isDir && !nodes[ex].isDir {
          return Failed(ENOTDIR);
        }
        if !nodes[t].isDir && nodes[ex].isDir {
          return Failed(EISDIR);
        }
        if nodes[ex].isDir && !Empty(entries, ex) {
          return Failed(ENOTEMPTY);
        }
      }
      Move(e, f);
      r := Done;
    }
  }

  function RenameVerdict(nodes: map<Ino, Node>, entries: map<Entry, Ino>, e: Entry, f: Entry): Outcome
    requires e.dir in nodes && f.dir in nodes
  {
    if !nodes[e.dir].isDir then Failed(ENOTDIR)
    else if e !in entries then Failed(ENOENT)
    else if !nodes[f.dir].isDir then Failed(ENOTDIR)
    else if f in entries && entries[f] != entries[e] then
      if IsDir(nodes, entries[e]) && !IsDir(nodes, entries[f]) then Failed(ENOTDIR)
      else if !IsDir(nodes, entries[e]) && IsDir(nodes, entries[f]) then Failed(EISDIR)
      else if IsDir(nodes, entries[f]) && !Empty(entries, entries[f]) then Failed(ENOTEMPTY)
      else Done
    else Done
  }

  /** The entries after a rename that succeeds. */
  function Renamed(entries: map<Entry, Ino>, e: Entry, f: Entry): map<Entry, Ino>
    requires e in entries
  {
    if f in entries && entries[f] == entries[e] then entries else (entries - {e})[f := entries[e]]
  }

  /** A rename goes through exactly when there is something to rename, between directories,
      and what is in its way, if anything, is the same node or one of the same kind that
      has nothing in it. The name then stands for the node, as no other name does that
      did not before. */
  lemma RenameAnswers(nodes: map<Ino, Node>, entries: map<Entry, Ino>, e: Entry, f: Entry)
    requires Inv(nodes, entries) && e.dir in nodes && f.dir in nodes
    ensures RenameVerdict(nodes, entries, e, f) == Done <==>
              && nodes[e.dir].isDir && nodes[f.dir].isDir && e in entries
              && (f in entries ==>
                    || entries[f] == entries[e]
                    || (&& nodes[entries[f]].isDir == nodes[entries[e]].isDir
                        && forall x :: x in entries ==> x.dir != entries[f]))
    ensures RenameVerdict(nodes, entries, e, f) == Failed(ENOENT) <==> nodes[e.dir].isDir && e !in entries
    ensures RenameVerdict(nodes, entries, e, f) == Failed(ENOTEMPTY) ==>
              f in entries && exists x :: x in entries && x.dir == entries[f]
    ensures e in entries ==>
              var after := Renamed(entries, e, f);
              && f in after && after[f] == entries[e]
              && (forall x :: x in after && x != f ==> x in entries && after[x] == entries[x])
              && (forall x :: x in entries && x != f && x != e ==> x in after)
              && (e in after <==> e == f || (f in entries && entries[f] == entries[e]))
  {
  }

  /** What it does to names: the node keeps as many names as it had, the displaced
      one loses exactly one, and no other node's names change. */
  lemma RenamedNames(entries: map<Entry, Ino>, e: Entry, f: Entry, x: Ino)
    requires e in entries
    ensures |NamedBy(Renamed(entries, e, f), x)|
         == |NamedBy(entries, x)| - if f in entries && entries[f] == x != entries[e] then 1 else 0
  {
    if !(f in entries && entries[f] == entries[e]) {
      RemovedNames(entries, e, x);
      var mid := entries - {e};
      var less := mid - {f};
      assert mid[f := entries[e]] == less[f := entries[e]];
      AddedNames(less, f, entries[e], x);
      assert NamedBy(less, x) == NamedBy(mid, x) - {f};
      assert e in NamedBy(entries, x) <==> x == entries[e];
      assert f in NamedBy(mid, x) <==> f in mid && mid[f] == x;
    }
  }

  function Created(nodes: map<Ino, Node>, dir: Ino, isDir: bool, ino: Ino): map<Ino, Node>
    requires dir in nodes && ino !in nodes
  {
    var n1 := nodes[ino := Node(isDir, if isDir then 2 else 1)];
    if isDir then Bumped(n1, dir, 1) else n1
  }

  lemma CreateNode(nodes: map<Ino, Node>, entries: map<Entry, Ino>, e: Entry, isDir: bool, ino: Ino, x: Ino)
    requires e !in entries && ino !in nodes && IsDir(nodes, e.dir) && ino != ROOT
    requires forall f :: f in entries ==> IsDir(nodes, f.dir) && entries[f] in nodes
    requires NodeOk(nodes, entries, x)
    ensures NodeOk(Created(nodes, e.dir, isDir, ino), entries[e := ino], x)
  {
    var n1 := nodes[ino := Node(isDir, if isDir then 2 else 1)];
    var n2, after := Created(nodes, e.dir, isDir, ino), entries[e := ino];
    if x in n1 {
      AddedNames(entries, e, ino, x);
      AddedLinks(n1, entries, e, ino, x);
      LinksIgnoreCounts(n1, n2, after, x);
      assert Subdirs(n1, entries, x) == Subdirs(nodes, entries, x);
      if x == ino {
        assert NamedBy(entries, ino) == {};
        assert Subdirs(nodes, entries, ino) == {};
      }
    }
  }

  lemma CreateOk(nodes: map<Ino, Node>, entries: map<Entry, Ino>, e: Entry, isDir: bool, ino: Ino)
    requires Inv(nodes, entries) && e !in entries && ino !in nodes && IsDir(nodes, e.dir)
    ensures Inv(Created(nodes, e.dir, isDir, ino), entries[e := ino])
  {
    var n2, after := Created(nodes, e.dir, isDir, ino), entries[e := ino];
    forall x: nat
      ensures NodeOk(n2, after, x)
    {
      assert NodeOk(nodes, entries, x);
      CreateNode(nodes, entries, e, isDir, ino, x);
    }
    AddedNames(entries, e, ino, ROOT);
  }

  lemma LinkOk(nodes: map<Ino, Node>, entries: map<Entry, Ino>, e: Entry, t: Ino)
    requires Inv(nodes, entries) && e !in entries && IsDir(nodes, e.dir) && t in nodes && !nodes[t].isDir
    ensures Inv(Bumped(nodes, t, 1), entries[e := t])
  {
    var n2, after := Bumped(nodes, t, 1), entries[e := t];
    forall x: nat
      ensures NodeOk(n2, after, x)
    {
      assert NodeOk(nodes, entries, x);
      if x in nodes {
        AddedNames(entries, e, t, x);
        AddedLinks(nodes, entries, e, t, x);
        LinksIgnoreCounts(nodes, n2, after, x);
      }
    }
    AddedNames(entries, e, t, ROOT);
  }

  lemma RemovedOthers(entries: map<Entry, Ino>, e: Entry, x: Ino)
    requires e in entries && entries[e] != x
    ensures NamedBy(entries - {e}, x) == NamedBy(entries, x)
  {
    RemovedNames(entries, e, x);
    assert e !in NamedBy(entries, x);
  }

  lemma UnlinkNode(nodes: map<Ino, Node>, entries: map<Entry, Ino>, e: Entry, x: Ino)
    requires e in entries && entries[e] in nodes && !nodes[entries[e]].isDir && NodeOk(nodes, entries, x)
    ensures NodeOk(Bumped(nodes, entries[e], -1), entries - {e}, x)
  {
    if x in nodes {
      RemovedLinks(nodes, entries, e, x);
      LinksIgnoreCounts(nodes, Bumped(nodes, entries[e], -1), entries - {e}, x);
      if x != entries[e] {
        RemovedOthers(entries, e, x);
      }
    }
  }

  /** Taking away a name of something that is not a directory. */
  lemma UnlinkOk(nodes: map<Ino, Node>, entries: map<Entry, Ino>, e: Entry)
    requires Inv(nodes, entries) && e in entries && !nodes[entries[e]].isDir
    ensures Inv(Bumped(nodes, entries[e], -1), entries - {e})
    ensures nodes[entries[e]].nlink >= 1
  {
    assert NodeOk(nodes, entries, entries[e]);
    assert e in NamedBy(entries, entries[e]);
    var n2, after := Bumped(nodes, entries[e], -1), entries - {e};
    forall x: nat
      ensures NodeOk(n2, after, x)
    {
      assert NodeOk(nodes, entries, x);
      UnlinkNode(nodes, entries, e, x);
    }
    RemovedNames(entries, e, ROOT);
  }

  function Emptied(nodes: map<Ino, Node>, t: Ino, dir: Ino): map<Ino, Node>
    requires t in nodes && dir in nodes
  {
    Bumped(nodes[t := Node(true, 0)], dir, -1)
  }

  lemma RmdirNode(nodes: map<Ino, Node>, entries: map<Entry, Ino>, e: Entry, x: Ino)
    requires e in entries && entries[e] in nodes && nodes[entries[e]].isDir && IsDir(nodes, e.dir)
    requires Empty(entries, entries[e]) && NamedBy(entries, entries[e]) == {e} && entries[e] != ROOT
    requires NodeOk(nodes, entries, x)
    ensures NodeOk(Emptied(nodes, entries[e], e.dir), entries - {e}, x)
  {
    var t := entries[e];
    if x in nodes {
      RemovedNames(entries, e, t);
      RemovedLinks(nodes, entries, e, x);
      LinksIgnoreCounts(nodes, Emptied(nodes, t, e.dir), entries - {e}, x);
      EmptyHasNoSubdirs(nodes, entries - {e}, t);
      if x != t {
        RemovedOthers(entries, e, x);
      }
    }
  }

  /** Taking away the name of an empty directory. */
  lemma RmdirOk(nodes: map<Ino, Node>, entries: map<Entry, Ino>, e: Entry)
    requires Inv(nodes, entries) && e in entries && nodes[entries[e]].isDir && Empty(entries, entries[e])
    ensures Inv(Emptied(nodes, entries[e], e.dir), entries - {e})
  {
    assert NodeOk(nodes, entries, entries[e]);
    OnlyName(entries, e, entries[e]);
    var n2, after := Emptied(nodes, entries[e], e.dir), entries - {e};
    forall x: nat
      ensures NodeOk(n2, after, x)
    {
      assert NodeOk(nodes, entries, x);
      RmdirNode(nodes, entries, e, x);
    }
    RemovedNames(entries, e, ROOT);
  }

  function Moved(nodes: map<Ino, Node>, t: Ino, from: Ino, to: Ino): map<Ino, Node>
    requires t in nodes && from in nodes && to in nodes
  {
    if nodes[t].isDir && from != to then Bumped(Bumped(nodes, from, -1), to, 1) else nodes
  }

  /** Giving a node another name in place of the one it had. */
  lemma MoveOk(nodes: map<Ino, Node>, entries: map<Entry, Ino>, e: Entry, f: Entry)
    requires Inv(nodes, entries) && e in entries && f !in entries && IsDir(nodes, f.dir)
    ensures Inv(Moved(nodes, entries[e], e.dir, f.dir), (entries - {e})[f := entries[e]])
  {
    var t := entries[e];
    var mid := entries - {e};
    var after := mid[f := t];
    var n2 := Moved(nodes, t, e.dir, f.dir);
    forall x: nat
      ensures NodeOk(n2, after, x)
    {
      assert NodeOk(nodes, entries, x);
      if x in nodes {
        MovedLinks(nodes, entries, e, f, x);
        LinksIgnoreCounts(nodes, n2, after, x);
      }
    }
    RemovedNames(entries, e, ROOT);
    AddedNames(mid, f, t, ROOT);
  }

  lemma MovedLinks(nodes: map<Ino, Node>, entries: map<Entry, Ino>, e: Entry, f: Entry, x: Ino)
    requires e in entries && f !in entries && x in nodes
    requires nodes[x].isDir ==> |NamedBy(entries, x)| <= 1
    ensures var t := entries[e]; var after := (entries - {e})[f := t];
            && (nodes[x].isDir ==> |NamedBy(after, x)| <= 1)
            && Links(nodes, after, x) == Links(nodes, entries, x) +
               if nodes[x].isDir && IsDir(nodes, t) then (if x == f.dir then 1 else 0) - (if x == e.dir then 1 else 0)
               else 0
  {
    var t := entries[e];
    var mid := entries - {e};
    RemovedNames(entries, e, x);
    RemovedLinks(nodes, entries, e, x);
    AddedNames(mid, f, t, x);
    AddedLinks(nodes, mid, f, t, x);
    if x == t {
      assert e in NamedBy(entries, x);
      assert |NamedBy(mid, x)| == |NamedBy(entries, x)| - 1;
    } else {
      assert e !in NamedBy(entries, x);
    }
  }
}
