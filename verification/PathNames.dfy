/** Names of nodes: the absolute path of a node leads back to it, and splitting off
    the last component agrees with walking it. */
module PathNames {
  import opened Mounts
  import opened Paths

  // ---------------------------------------------------------------- absolute paths

  function Names(n: Node): seq<string>
    decreases n
  {
    if n.parent.None? then [] else Names(n.parent.value) + [n.name]
  }

  function Join(names: seq<string>): string
  {
    if names == [] then "" else "/" + names[0] + Join(names[1..])
  }

  function PathOf(n: Node): string
  {
    if n.parent.None? then "/" else Join(Names(n))
  }

  lemma {:induction false} JoinAppend(a: seq<string>, b: seq<string>)
    ensures Join(a + b) == Join(a) + Join(b)
  {
    if a == [] {
      assert a + b == b;
    } else {
      assert (a + b)[1..] == a[1..] + b;
      JoinAppend(a[1..], b);
    }
  }

  /** `path`: collects the names going up, then writes them going down. */
  method AbsolutePath(n: Node) returns (s: string)
    ensures s == PathOf(n)
  {
    var parts: seq<string> := [];
    var cur := n;
    while cur.parent.Some?
      invariant Names(n) == Names(cur) + Reversed(parts)
      decreases cur
    {
      parts := parts + [cur.name];
      ReversedAppend(parts[..|parts| - 1], cur.name);
      assert parts[..|parts| - 1] + [cur.name] == parts;
      cur := cur.parent.value;
    }
    assert Names(n) == Reversed(parts);
    if parts == [] {
      assert n.parent.None?;
      return "/";
    }
    assert n.parent.Some?;
    s := "";
    var i := |parts|;
    assert parts[..i] == parts;
    while i > 0
      invariant 0 <= i <= |parts|
      invariant s + Join(Reversed(parts[..i])) == Join(Names(n))
    {
      i := i - 1;
      assert parts[..i + 1] == parts[..i] + [parts[i]];
      ReversedAppend(parts[..i], parts[i]);
      assert ([parts[i]] + Reversed(parts[..i]))[1..] == Reversed(parts[..i]);
      s := s + "/" + parts[i];
    }
    assert Reversed(parts[..0]) == [] && s + "" == s;
  }

  function Reversed(s: seq<string>): seq<string>
  {
    if s == [] then [] else Reversed(s[1..]) + [s[0]]
  }

  lemma {:induction false} ReversedAppend(s: seq<string>, x: string)
    ensures Reversed(s + [x]) == [x] + Reversed(s)
  {
    if s == [] {
      assert s + [x] == [x] && [x][1..] == [];
    } else {
      assert (s + [x])[1..] == s[1..] + [x];
      ReversedAppend(s[1..], x);
    }
  }

  // ---------------------------------------------------------------- components of a path

  predicate Plain(name: string)
  {
    name != "" && forall i :: 0 <= i < |name| ==> name[i] != '/'
  }

  predicate Ordinary(name: string)
  {
    Plain(name) && name != "." && name != ".."
  }

  lemma FirstSlashIs(s: string, n: nat)
    requires n <= |s| && (n < |s| ==> s[n] == '/') && forall i :: 0 <= i < n ==> s[i] != '/'
    ensures FirstSlash(s) == n
  {
  }

  lemma CompsName(name: string, rest: string)
    requires Plain(name) && (rest == "" || rest[0] == '/')
    ensures Comps(name + rest) == [name] + Comps(rest)
  {
    var s := name + rest;
    FirstSlashIs(s, |name|);
    assert s[..|name|] == name && s[|name|..] == rest;
  }

  lemma CompsSlashName(name: string, rest: string)
    requires Plain(name) && (rest == "" || rest[0] == '/')
    ensures Comps("/" + name + rest) == [name] + Comps(rest)
  {
    assert ("/" + name + rest)[1..] == name + rest;
    CompsName(name, rest);
  }

  lemma {:induction false} CompsJoin(names: seq<string>)
    requires forall i :: 0 <= i < |names| ==> Plain(names[i])
    ensures Comps(Join(names)) == names
  {
    if names != [] {
      CompsJoin(names[1..]);
      CompsSlashName(names[0], Join(names[1..]));
      assert names == [names[0]] + names[1..];
    }
  }

  lemma {:induction false} CompsPlain(s: string)
    ensures forall i :: 0 <= i < |Comps(s)| ==> Plain(Comps(s)[i])
    decreases |s|
  {
    if s != "" {
      if s[0] == '/' {
        CompsPlain(s[1..]);
      } else {
        CompsPlain(s[FirstSlash(s)..]);
      }
    }
  }

  /** Only slashes separate: a slash between two strings splits their components. */
  lemma {:induction false} CompsSlash(a: string, b: string)
    ensures Comps(a + "/" + b) == Comps(a) + Comps(b)
    decreases |a|
  {
    var s := a + "/" + b;
    if a == "" {
      assert s[1..] == b;
    } else if a[0] == '/' {
      assert s[1..] == a[1..] + "/" + b;
      CompsSlash(a[1..], b);
    } else {
      var n := FirstSlash(a);
      var name, rest := a[..n], a[n..];
      assert a == name + rest && s == name + (rest + "/" + b);
      CompsName(name, rest);
      CompsName(name, rest + "/" + b);
      CompsSlash(rest, b);
    }
  }

  // ---------------------------------------------------------------- walking in two parts

  function Then(w: World, root: Node, r: Walked, comps: seq<string>, follow: bool): Walked
    requires Wf(w.mounts) && (r.result.Ok? ==> r.links <= MAX_SYMLINKS)
  {
    if r.result.Err? then r else Walk(w, root, r.result.value, comps, follow, r.links)
  }

  /** Walking a path is walking its first components, following every link, and then
      the rest. */
  lemma {:induction false} WalkAppend(w: World, root: Node, cur: Node, a: seq<string>, b: seq<string>, follow: bool,
                                      links: nat)
    requires Wf(w.mounts) && links <= MAX_SYMLINKS && b != []
    ensures Walk(w, root, cur, a + b, follow, links) == Then(w, root, Walk(w, root, cur, a, true, links), b, follow)
    decreases MAX_SYMLINKS - links, |a|
  {
    if a == [] {
      assert a + b == b;
    } else {
      assert (a + b)[1..] == a[1..] + b && (a + b)[0] == a[0];
      if DirError(w, cur).None? {
        if a[0] == "." {
          WalkAppend(w, root, cur, a[1..], b, follow, links);
        } else if a[0] == ".." {
          WalkAppend(w, root, Up(root, cur), a[1..], b, follow, links);
        } else {
          var e := Enter(w, cur, a[0]);
          if e.Ok? {
            var node := e.value;
            if !InodeAt(w, node).Link? && !InodeAt(w, node).Broken? {
              WalkAppend(w, root, node, a[1..], b, follow, links);
            } else if InodeAt(w, node).Link? && links + 1 <= MAX_SYMLINKS {
              var target := InodeAt(w, node).target;
              var sub := Walk(w, root, Start(root, cur, target), Comps(target), true, links + 1);
              if sub.result.Ok? {
                WalkAppend(w, root, sub.result.value, a[1..], b, follow, sub.links);
              }
            }
          }
        }
      }
    }
  }

  // ---------------------------------------------------------------- round trip

  /** A node a walk from the top of the tree would build in this world. */
  predicate Canonical(w: World, root: Node, n: Node)
    requires Wf(w.mounts)
    decreases n
  {
    n == root ||
    (&& n.parent.Some? && Canonical(w, root, n.parent.value)
     && DirError(w, n.parent.value).None? && Ordinary(n.name)
     && Enter(w, n.parent.value, n.name) == Ok(n))
  }

  /** The names above a process root, walked from that root, lead back to it. There are
      none above the top of the tree; after a `chroot` it takes a link. */
  ghost predicate LeadsHome(w: World, root: Node)
    requires Wf(w.mounts)
  {
    && (forall i :: 0 <= i < |Names(root)| ==> Plain(Names(root)[i]))
    && Walk(w, root, root, Names(root), true, 0).result == Ok(root)
  }

  lemma TopLeadsHome(w: World, root: Node)
    requires Wf(w.mounts) && root.parent.None?
    ensures LeadsHome(w, root)
  {
  }

  lemma {:induction false} CanonicalNames(w: World, root: Node, n: Node)
    requires Wf(w.mounts) && LeadsHome(w, root) && Canonical(w, root, n)
    ensures forall i :: 0 <= i < |Names(n)| ==> Plain(Names(n)[i])
    decreases n
  {
    if n != root {
      CanonicalNames(w, root, n.parent.value);
    }
  }

  lemma WalkOne(w: World, root: Node, n: Node, follow: bool, links: nat)
    requires Wf(w.mounts) && n.parent.Some? && DirError(w, n.parent.value).None? && Ordinary(n.name)
    requires links <= MAX_SYMLINKS
    requires Enter(w, n.parent.value, n.name) == Ok(n)
    requires follow ==> !InodeAt(w, n).Link? && !InodeAt(w, n).Broken?
    ensures Walk(w, root, n.parent.value, [n.name], follow, links) == Walked(Ok(n), links)
  {
    assert [n.name][1..] == [];
    assert Walk(w, root, n, [], follow, links) == Walked(Ok(n), links);
  }

  lemma {:induction false} WalkNames(w: World, root: Node, n: Node, follow: bool)
    requires Wf(w.mounts) && LeadsHome(w, root) && Canonical(w, root, n)
    requires n == root ==> follow
    requires n != root && follow ==> !InodeAt(w, n).Link? && !InodeAt(w, n).Broken?
    ensures Walk(w, root, root, Names(n), follow, 0) == Walked(Ok(n), Walk(w, root, root, Names(root), true, 0).links)
    decreases n
  {
    if n != root {
      var p := n.parent.value;
      WalkNames(w, root, p, true);
      WalkAppend(w, root, root, Names(p), [n.name], follow, 0);
      WalkOne(w, root, n, follow, Walk(w, root, root, Names(root), true, 0).links);
    }
  }

  lemma {:induction false} JoinNoSlashAtEnd(names: seq<string>)
    requires names != [] && forall i :: 0 <= i < |names| ==> Plain(names[i])
    ensures Absolute(Join(names)) && !EndsInSlash(Join(names))
  {
    var rest := Join(names[1..]);
    if |names| > 1 {
      JoinNoSlashAtEnd(names[1..]);
      assert rest != "";
      assert Join(names)[|Join(names)| - 1] == rest[|rest| - 1];
    } else {
      assert rest == "";
      assert Join(names) == "/" + names[0];
    }
  }

  /** Resolving the absolute path of a node finds that node again, from any working
      directory, unless the path is too long to be resolved at all, for a root whose
      own names lead home. */
  lemma PathRoundTrip(w: World, root: Node, cwd: Node, n: Node, follow: bool)
    requires Wf(w.mounts) && InodeAt(w, root).Dir? && Canonical(w, root, n) && LeadsHome(w, root)
    requires if n == root then root.parent.None? || follow
             else follow ==> !InodeAt(w, n).Link? && !InodeAt(w, n).Broken?
    ensures Resolve(w, root, cwd, PathOf(n), follow) == if |PathOf(n)| <= PATH_MAX then Ok(n) else Err(ENAMETOOLONG)
  {
    RootComps();
    if n.parent.Some? {
      CanonicalNames(w, root, n);
      CompsJoin(Names(n));
      JoinNoSlashAtEnd(Names(n));
      WalkNames(w, root, n, follow);
    }
  }

  /** Without links a walk by ordinary names goes down one node for each. */
  lemma {:induction false} WalkDescends(w: World, root: Node, cur: Node, comps: seq<string>, follow: bool, links: nat)
    requires Wf(w.mounts) && links <= MAX_SYMLINKS && forall i :: 0 <= i < |comps| ==> Ordinary(comps[i])
    ensures var r := Walk(w, root, cur, comps, follow, links);
            r.result.Ok? && r.links == links ==> |Names(r.result.value)| == |Names(cur)| + |comps|
    decreases |comps|
  {
    if comps != [] && DirError(w, cur).None? {
      var e := Enter(w, cur, comps[0]);
      if e.Ok? && !(|comps| == 1 && !follow) && !InodeAt(w, e.value).Broken? && !InodeAt(w, e.value).Link? {
        WalkDescends(w, root, e.value, comps[1..], follow, links);
      }
    }
  }

  /** The names of what is below a root are its own and those below. */
  lemma {:induction false} OrdinaryNames(w: World, root: Node, n: Node)
    requires Wf(w.mounts) && Canonical(w, root, n) && forall i :: 0 <= i < |Names(root)| ==> Ordinary(Names(root)[i])
    ensures forall i :: 0 <= i < |Names(n)| ==> Ordinary(Names(n)[i])
    decreases n
  {
    if n != root {
      OrdinaryNames(w, root, n.parent.value);
    }
  }

  /** Where the names of a node meet no link, its absolute path leads back to it exactly
      when the root of the process is the top of the tree: from any other root the
      names above that root are walked once more. */
  lemma RoundTripExact(w: World, root: Node, cwd: Node, n: Node, follow: bool)
    requires Wf(w.mounts) && InodeAt(w, root).Dir? && Canonical(w, root, n) && |PathOf(n)| <= PATH_MAX
    requires forall i :: 0 <= i < |Names(root)| ==> Ordinary(Names(root)[i])
    requires follow ==> !InodeAt(w, n).Link? && !InodeAt(w, n).Broken?
    requires Walk(w, root, root, Names(n), follow, 0).links == 0
    ensures Resolve(w, root, cwd, PathOf(n), follow) == Ok(n) <==> root.parent.None?
  {
    if root.parent.None? {
      TopLeadsHome(w, root);
      PathRoundTrip(w, root, cwd, n, follow);
    } else {
      OrdinaryNames(w, root, n);
      CompsJoin(Names(n));
      JoinNoSlashAtEnd(Names(n));
      WalkDescends(w, root, root, Names(n), follow, 0);
    }
  }

  /** With a link there can be a way home: in a `chroot` to `/a`, one called `a` that
      points to `/`. */
  lemma LinkLeadsHome() returns (w: World, root: Node)
    ensures Wf(w.mounts) && InodeAt(w, root).Dir? && root.parent.Some? && PathOf(root) == "/a" && LeadsHome(w, root)
    ensures forall cwd :: Resolve(w, root, cwd, PathOf(root), true) == Ok(root)
  {
    w := World(map[1 := Dir(map["a" := 2], true), 2 := Dir(map["a" := 3], true), 3 := Link("/")], [Mount(1, 1, None)]);
    root := Node(Spot(1, 2), "a", Some(Node(Spot(1, 1), "", None)));
    assert Names(root) == ["a"] && ["a"][1..] == [];
    assert Join(["a"]) == "/a";
    RootComps();
    var at := Node(Spot(1, 3), "a", Some(root));
    assert Enter(w, root, "a") == Ok(at);
    assert Walk(w, root, root, Comps("/"), true, 1) == Walked(Ok(root), 1);
    assert Walk(w, root, root, ["a"], true, 0) == Walked(Ok(root), 1);
    forall cwd
      ensures Resolve(w, root, cwd, PathOf(root), true) == Ok(root)
    {
      PathRoundTrip(w, root, cwd, root, true);
    }
  }

  /** In a `chroot` to `/a` without an `a` of its own, the path of the root leads nowhere. */
  lemma ChrootPathLost() returns (w: World, root: Node)
    ensures Wf(w.mounts) && InodeAt(w, root).Dir? && PathOf(root) == "/a"
    ensures forall cwd :: Resolve(w, root, cwd, PathOf(root), true) == Err(ENOENT)
  {
    w := World(map[1 := Dir(map["a" := 2], true), 2 := Dir(map[], true)], [Mount(1, 1, None)]);
    root := Node(Spot(1, 2), "a", Some(Node(Spot(1, 1), "", None)));
    assert Names(root) == ["a"] && ["a"][1..] == [];
    assert Join(["a"]) == "/a";
    CompsSlashName("a", "");
    assert "/" + "a" + "" == "/a";
  }

  /** Every node a walk reaches is one a walk by its own path would build. */
  lemma {:induction false} WalkCanonical(w: World, root: Node, cur: Node, comps: seq<string>, follow: bool, links: nat)
    requires Wf(w.mounts) && links <= MAX_SYMLINKS && Canonical(w, root, cur)
    requires forall i :: 0 <= i < |comps| ==> Plain(comps[i])
    ensures var r := Walk(w, root, cur, comps, follow, links); r.result.Ok? ==> Canonical(w, root, r.result.value)
    decreases MAX_SYMLINKS - links, |comps|
  {
    if comps != [] && DirError(w, cur).None? {
      if comps[0] == "." {
        WalkCanonical(w, root, cur, comps[1..], follow, links);
      } else if comps[0] == ".." {
        WalkCanonical(w, root, Up(root, cur), comps[1..], follow, links);
      } else {
        var e := Enter(w, cur, comps[0]);
        if e.Ok? && !(|comps| == 1 && !follow) {
          var node := e.value;
          if !InodeAt(w, node).Link? && !InodeAt(w, node).Broken? {
            WalkCanonical(w, root, node, comps[1..], follow, links);
          } else if InodeAt(w, node).Link? && links + 1 <= MAX_SYMLINKS {
            var target := InodeAt(w, node).target;
            CompsPlain(target);
            WalkCanonical(w, root, Start(root, cur, target), Comps(target), true, links + 1);
            var sub := Walk(w, root, Start(root, cur, target), Comps(target), true, links + 1);
            if sub.result.Ok? {
              WalkCanonical(w, root, sub.result.value, comps[1..], follow, sub.links);
            }
          }
        }
      }
    }
  }

  /** Whatever a process reaches by any path, links and mounts included, it reaches
      again by the absolute path of what it found. */
  lemma ResolveThenPath(w: World, root: Node, cwd: Node, path: string, follow: bool, elsewhere: Node)
    requires Wf(w.mounts) && LeadsHome(w, root) && InodeAt(w, root).Dir? && Canonical(w, root, cwd)
    ensures var r := Resolve(w, root, cwd, path, follow);
            r.Ok? && |PathOf(r.value)| <= PATH_MAX ==>
              Resolve(w, root, elsewhere, PathOf(r.value), r.value == root) == r
  {
    var r := Resolve(w, root, cwd, path, follow);
    if r.Ok? {
      CompsPlain(path);
      WalkCanonical(w, root, Start(root, cwd, path), Comps(path), follow || EndsInSlash(path), 0);
      PathRoundTrip(w, root, elsewhere, r.value, r.value == root);
    }
  }

  // ---------------------------------------------------------------- the parent directory

  /** The path without the slashes it ends in. */
  function Trimmed(path: string): (r: string)
    ensures |r| <= |path| && r == path[..|r|]
    ensures r != "" ==> r[|r| - 1] != '/'
    ensures forall i :: |r| <= i < |path| ==> path[i] == '/'
  {
    if EndsInSlash(path) then Trimmed(path[..|path| - 1]) else path
  }

  /** The index after the last slash, 0 if there is none. */
  function AfterSlash(s: string): (n: nat)
    ensures n <= |s| && (n > 0 ==> s[n - 1] == '/')
    ensures forall i :: n <= i < |s| ==> s[i] != '/'
  {
    if s == "" then 0
    else if s[|s| - 1] == '/' then |s|
    else
      var n := AfterSlash(s[..|s| - 1]);
      assert forall i :: n <= i < |s| - 1 ==> s[i] == s[..|s| - 1][i];
      n
  }

  function DirPart(s: string): string
  {
    var n := AfterSlash(s);
    if n == 0 then "." else if n == 1 then "/" else s[..n - 1]
  }

  function ResolveParent(w: World, root: Node, cwd: Node, path: string): Result<(Node, string)>
    requires Wf(w.mounts)
  {
    var t := Trimmed(path);
    var name := t[AfterSlash(t)..];
    if path == "" then Err(ENOENT)
    else if t == "" then Err(EBUSY)
    else if |name| > NAME_MAX then Err(ENAMETOOLONG)
    else
      var d := Resolve(w, root, cwd, DirPart(t), true);
      if d.Err? then Err(d.error)
      else if !InodeAt(w, d.value).Dir? then Err(ENOTDIR)
      else Ok((d.value, name))
  }

  lemma {:induction false} TrimmedComps(path: string)
    ensures Comps(Trimmed(path)) == Comps(path)
  {
    if EndsInSlash(path) {
      var less := path[..|path| - 1];
      TrimmedComps(less);
      assert path == less + "/" + "";
      CompsSlash(less, "");
    }
  }

  lemma CompsOne(name: string)
    requires Plain(name)
    ensures Comps(name) == [name]
  {
    CompsName(name, "");
    assert name + "" == name;
  }

  lemma SplitAt(dir: string, name: string)
    requires Plain(name)
    ensures Comps(dir + "/" + name) == Comps(dir) + [name]
  {
    CompsSlash(dir, name);
    CompsOne(name);
  }

  lemma RootComps()
    ensures Comps("/") == [] && Comps("") == []
  {
    assert "/"[1..] == "";
  }

  lemma NamePart(t: string)
    requires t != "" && t[|t| - 1] != '/'
    ensures Plain(t[AfterSlash(t)..])
    ensures AfterSlash(t) == 0 ==> t[AfterSlash(t)..] == t
    ensures AfterSlash(t) > 0 ==> t == t[..AfterSlash(t) - 1] + "/" + t[AfterSlash(t)..]
  {
    NamePartAt(t, AfterSlash(t));
  }

  lemma NamePartAt(t: string, n: nat)
    requires n <= |t| && t != "" && t[|t| - 1] != '/'
    requires n > 0 ==> t[n - 1] == '/'
    requires forall i :: n <= i < |t| ==> t[i] != '/'
    ensures Plain(t[n..])
    ensures n == 0 ==> t[n..] == t
    ensures n > 0 ==> t == t[..n - 1] + "/" + t[n..]
  {
  }

  lemma DirPartComps(t: string)
    requires t != "" && t[|t| - 1] != '/' && AfterSlash(t) > 0
    ensures Comps(t) == Comps(DirPart(t)) + [t[AfterSlash(t)..]]
    ensures Absolute(DirPart(t)) <==> Absolute(t)
  {
    NamePart(t);
    SplitAt(t[..AfterSlash(t) - 1], t[AfterSlash(t)..]);
    RootComps();
  }

  /** What is left to do after the directory part: the last name, followed and checked to
      be a directory if the path ends in a slash. */
  function LastStep(w: World, root: Node, dir: Node, name: string, slash: bool, links: nat): Result<Node>
    requires Wf(w.mounts) && links <= MAX_SYMLINKS
  {
    var r := Walk(w, root, dir, [name], slash, links).result;
    if r.Ok? && slash && !InodeAt(w, r.value).Dir? then Err(ENOTDIR) else r
  }

  /** The links met on the way to the directory part. */
  function LinksTo(w: World, root: Node, cwd: Node, dir: string): nat
    requires Wf(w.mounts)
  {
    Walk(w, root, Start(root, cwd, dir), Comps(dir), true, 0).links
  }

  lemma FinishWalk(w: World, root: Node, cwd: Node, path: string, dir: Node, name: string, links: nat)
    requires Wf(w.mounts) && path != "" && |path| <= PATH_MAX && links <= MAX_SYMLINKS
    requires Walk(w, root, Start(root, cwd, path), Comps(path), EndsInSlash(path), 0)
         == Walk(w, root, dir, [name], EndsInSlash(path), links)
    ensures Resolve(w, root, cwd, path, false) == LastStep(w, root, dir, name, EndsInSlash(path), links)
  {
  }

  /** The walk of a path with a directory part goes by way of that directory. */
  lemma WalkByParent(w: World, root: Node, cwd: Node, path: string, t: string, dir: Node, name: string, slash: bool)
    requires Wf(w.mounts) && t != "" && t[|t| - 1] != '/' && AfterSlash(t) > 0 && name == t[AfterSlash(t)..]
    requires Comps(path) == Comps(t) && (Absolute(path) <==> Absolute(t))
    requires Resolve(w, root, cwd, DirPart(t), true) == Ok(dir)
    ensures var links := LinksTo(w, root, cwd, DirPart(t));
            && links <= MAX_SYMLINKS
            && Walk(w, root, Start(root, cwd, path), Comps(path), slash, 0) == Walk(w, root, dir, [name], slash, links)
  {
    DirPartComps(t);
    assert Start(root, cwd, path) == Start(root, cwd, DirPart(t));
    WalkAppend(w, root, Start(root, cwd, path), Comps(DirPart(t)), [name], slash, 0);
  }

  lemma WalkOfName(w: World, root: Node, cwd: Node, path: string, t: string, dir: Node, slash: bool)
    requires Wf(w.mounts) && Plain(t) && Comps(path) == Comps(t) && !Absolute(path)
    requires Resolve(w, root, cwd, ".", true) == Ok(dir)
    ensures LinksTo(w, root, cwd, ".") == 0
    ensures Walk(w, root, Start(root, cwd, path), Comps(path), slash, 0) == Walk(w, root, dir, [t], slash, 0)
  {
    CompsOne(t);
    assert FirstSlash(".") == 1 && "."[..1] == "." && "."[1..] == "";
    assert Comps(".") == ["."] && ["."][1..] == [];
  }

  lemma StepFromParent(w: World, root: Node, cwd: Node, path: string, t: string, dir: Node, name: string)
    requires Wf(w.mounts) && path != "" && t == Trimmed(path) && t != "" && name == t[AfterSlash(t)..]
    requires Resolve(w, root, cwd, DirPart(t), true) == Ok(dir)
    ensures Plain(name) && LinksTo(w, root, cwd, DirPart(t)) <= MAX_SYMLINKS
    ensures |path| <= PATH_MAX ==>
              Resolve(w, root, cwd, path, false)
              == LastStep(w, root, dir, name, EndsInSlash(path), LinksTo(w, root, cwd, DirPart(t)))
  {
    TrimmedComps(path);
    NamePart(t);
    assert Absolute(t) <==> Absolute(path);
    if AfterSlash(t) == 0 {
      WalkOfName(w, root, cwd, path, t, dir, EndsInSlash(path));
    } else {
      WalkByParent(w, root, cwd, path, t, dir, name, EndsInSlash(path));
    }
    if |path| <= PATH_MAX {
      FinishWalk(w, root, cwd, path, dir, name, LinksTo(w, root, cwd, DirPart(t)));
    }
  }

  lemma ParentIs(w: World, root: Node, cwd: Node, path: string, dir: Node, name: string)
    requires Wf(w.mounts) && ResolveParent(w, root, cwd, path) == Ok((dir, name))
    ensures path != "" && Trimmed(path) != "" && name == Trimmed(path)[AfterSlash(Trimmed(path))..]
    ensures Resolve(w, root, cwd, DirPart(Trimmed(path)), true) == Ok(dir)
  {
  }

  /** The directory and name that `resolve_parent` gives lead, by one more step, to what
      resolving the whole path without following its last link gives. */
  lemma ParentAgrees(w: World, root: Node, cwd: Node, path: string)
    requires Wf(w.mounts)
    ensures var r := ResolveParent(w, root, cwd, path); var links := LinksTo(w, root, cwd, DirPart(Trimmed(path)));
            r.Ok? ==>
              && Plain(r.value.1) && links <= MAX_SYMLINKS
              && Resolve(w, root, cwd, path, false) ==
                   if |path| > PATH_MAX then Err(ENAMETOOLONG)
                   else LastStep(w, root, r.value.0, r.value.1, EndsInSlash(path), links)
  {
    var r := ResolveParent(w, root, cwd, path);
    if r.Ok? {
      ParentIs(w, root, cwd, path, r.value.0, r.value.1);
      StepFromParent(w, root, cwd, path, Trimmed(path), r.value.0, r.value.1);
    }
  }

  /** Without a slash at the end and with an ordinary name, that step is one lookup. */
  lemma LastIsLookup(w: World, root: Node, dir: Node, name: string, links: nat)
    requires Wf(w.mounts) && links <= MAX_SYMLINKS && Ordinary(name)
    ensures LastStep(w, root, dir, name, false, links)
         == if DirError(w, dir).Some? then Err(DirError(w, dir).value) else Enter(w, dir, name)
  {
  }

  /** The last name can be `..`: nothing in `resolve_parent` rules it out. */
  lemma ParentOfDots(w: World, root: Node, cwd: Node)
    requires Wf(w.mounts) && DirError(w, cwd).None?
    ensures ResolveParent(w, root, cwd, "..") == Ok((cwd, ".."))
  {
    assert Trimmed("..") == "..";
    assert AfterSlash(".."[..1]) == 0 by {
      assert ".."[..1][..0] == "";
      assert ".."[..1] == ".";
    }
    assert ".."[0..] == "..";
    DotIsCwd(w, root, cwd);
  }
}
