/** Path resolution (`fs/path.rs`): walking a chain of nodes component by component,
    following symbolic links under one shared budget and crossing mounts. A string
    stands for the bytes of a path, one character per byte. */
module Paths {
  import opened Mounts

  const MAX_SYMLINKS: nat := 40
  const NAME_MAX: nat := 255
  const PATH_MAX: nat := 4096

  datatype Inode = Dir(entries: map<string, Ino>, search: bool) | Link(target: string) | Other | Broken

  /** The file systems and the mount table as one walk sees them. `search` says
      whether the caller may search a directory; `Broken` inodes answer with an
      I/O error. */
  datatype World = World(inodes: map<Ino, Inode>, mounts: seq<Mount>)

  /** One resolved component: where it is, its name, and the node it was reached
      from. */
  datatype Node = Node(spot: Spot, name: string, parent: Option<Node>)

  function InodeAt(w: World, n: Node): Inode
  {
    if n.spot.ino in w.inodes then w.inodes[n.spot.ino] else Broken
  }

  // ---------------------------------------------------------------- components

  function FirstSlash(s: string): (n: nat)
    ensures n <= |s| && (n < |s| ==> s[n] == '/')
    ensures forall i :: 0 <= i < n ==> s[i] != '/'
  {
    if s == "" || s[0] == '/' then 0
    else
      var n := FirstSlash(s[1..]);
      assert forall i :: 0 < i < n + 1 ==> s[i] == s[1..][i - 1];
      n + 1
  }

  /** The non-empty pieces between slashes. */
  function Comps(s: string): seq<string>
    decreases |s|
  {
    if s == "" then []
    else if s[0] == '/' then Comps(s[1..])
    else [s[..FirstSlash(s)]] + Comps(s[FirstSlash(s)..])
  }

  predicate Absolute(s: string)
  {
    s != "" && s[0] == '/'
  }

  // ---------------------------------------------------------------- one component

  /** `is_root_node`: the top of a chain, or the resolver's root seen by any chain. */
  predicate IsRootNode(root: Node, n: Node)
  {
    n.parent.None? || n.spot == root.spot
  }

  function Up(root: Node, n: Node): Node
  {
    if IsRootNode(root, n) then n else n.parent.value
  }

  /** What is checked of the node a component is looked up in. */
  function DirError(w: World, n: Node): Option<Errno>
  {
    var i := InodeAt(w, n);
    if i.Broken? then Some(EIO)
    else if !i.Dir? then Some(ENOTDIR)
    else if !i.search then Some(EACCES)
    else None
  }

  /** Looking a name up in a directory and crossing the mounts found there. */
  function Enter(w: World, n: Node, name: string): Result<Node>
    requires Wf(w.mounts) && InodeAt(w, n).Dir?
  {
    if |name| > NAME_MAX then Err(ENAMETOOLONG)
    else if name !in InodeAt(w, n).entries then Err(ENOENT)
    else Ok(Node(Cross(w.mounts, Spot(n.spot.mount, InodeAt(w, n).entries[name])), name, Some(n)))
  }

  // ---------------------------------------------------------------- the walk

  /** A result and the number of links met so far, the one over budget included. */
  datatype Walked = Walked(result: Result<Node>, links: nat)

  function Walk(w: World, root: Node, cur: Node, comps: seq<string>, follow: bool, links: nat): (r: Walked)
    requires Wf(w.mounts) && links <= MAX_SYMLINKS
    ensures links <= r.links <= MAX_SYMLINKS + 1
    ensures r.result.Ok? ==> r.links <= MAX_SYMLINKS
    decreases MAX_SYMLINKS - links, |comps|
  {
    if comps == [] then Walked(Ok(cur), links)
    else if DirError(w, cur).Some? then Walked(Err(DirError(w, cur).value), links)
    else if comps[0] == "." then Walk(w, root, cur, comps[1..], follow, links)
    else if comps[0] == ".." then Walk(w, root, Up(root, cur), comps[1..], follow, links)
    else
      var e := Enter(w, cur, comps[0]);
      if e.Err? then Walked(e, links)
      else
        var node := e.value;
        if |comps| == 1 && !follow then Walked(Ok(node), links)
        else if InodeAt(w, node).Broken? then Walked(Err(EIO), links)
        else if !InodeAt(w, node).Link? then Walk(w, root, node, comps[1..], follow, links)
        else if links + 1 > MAX_SYMLINKS then Walked(Err(ELOOP), links + 1)
        else
          var target := InodeAt(w, node).target;
          var sub := Walk(w, root, Start(root, cur, target), Comps(target), true, links + 1);
          if sub.result.Err? then sub
          else Walk(w, root, sub.result.value, comps[1..], follow, sub.links)
  }

  function Start(root: Node, cur: Node, path: string): Node
  {
    if Absolute(path) then root else cur
  }

  predicate EndsInSlash(path: string)
  {
    path != "" && path[|path| - 1] == '/'
  }

  function Resolve(w: World, root: Node, cwd: Node, path: string, follow: bool): (r: Result<Node>)
    requires Wf(w.mounts)
  {
    if path == "" then Err(ENOENT)
    else if |path| > PATH_MAX then Err(ENAMETOOLONG)
    else
      var r := Walk(w, root, Start(root, cwd, path), Comps(path), follow || EndsInSlash(path), 0).result;
      if r.Ok? && EndsInSlash(path) && !InodeAt(w, r.value).Dir? then Err(ENOTDIR) else r
  }

  // ---------------------------------------------------------------- confinement

  /** `root` is `n` or one of the nodes above it. */
  predicate OnChain(root: Node, n: Node)
    decreases n
  {
    n == root || (n.parent.Some? && OnChain(root, n.parent.value))
  }

  /** No walk leaves the tree under the root it was given, whatever `..`, links and
      mounts it meets; and it meets at most one link over the budget, which ends
      it. */
  lemma {:induction false} WalkConfined(w: World, root: Node, cur: Node, comps: seq<string>, follow: bool, links: nat)
    requires Wf(w.mounts) && links <= MAX_SYMLINKS && OnChain(root, cur)
    ensures var r := Walk(w, root, cur, comps, follow, links);
            && (r.result.Ok? ==> OnChain(root, r.result.value))
            && (r.links > MAX_SYMLINKS <==> r.result == Err(ELOOP))
    decreases MAX_SYMLINKS - links, |comps|
  {
    if comps != [] && DirError(w, cur).None? {
      if comps[0] == "." {
        WalkConfined(w, root, cur, comps[1..], follow, links);
      } else if comps[0] == ".." {
        WalkConfined(w, root, Up(root, cur), comps[1..], follow, links);
      } else {
        var e := Enter(w, cur, comps[0]);
        if e.Ok? && !(|comps| == 1 && !follow) {
          var node := e.value;
          if !InodeAt(w, node).Link? && !InodeAt(w, node).Broken? {
            WalkConfined(w, root, node, comps[1..], follow, links);
          } else if InodeAt(w, node).Link? && links + 1 <= MAX_SYMLINKS {
            var target := InodeAt(w, node).target;
            var sub := Walk(w, root, Start(root, cur, target), Comps(target), true, links + 1);
            WalkConfined(w, root, Start(root, cur, target), Comps(target), true, links + 1);
            if sub.result.Ok? {
              WalkConfined(w, root, sub.result.value, comps[1..], follow, sub.links);
            }
          }
        }
      }
    }
  }

  lemma ResolveConfined(w: World, root: Node, cwd: Node, path: string, follow: bool)
    requires Wf(w.mounts) && OnChain(root, cwd)
    ensures var r := Resolve(w, root, cwd, path, follow); r.Ok? ==> OnChain(root, r.value)
  {
    if path != "" && |path| <= PATH_MAX {
      WalkConfined(w, root, Start(root, cwd, path), Comps(path), follow || EndsInSlash(path), 0);
    }
  }

  // ---------------------------------------------------------------- runs of one process

  datatype Proc = Proc(root: Node, cwd: Node)

  /** Between two steps the file systems and mounts may change in any way, so each
      step carries the world it runs in. */
  datatype Step = Look(w: World, path: string, follow: bool) | Chdir(w: World, path: string)

  predicate StepWf(st: Step)
  {
    Wf(st.w.mounts)
  }

  /** `chdir`: only to a directory that may be searched. */
  function ChdirNext(w: World, p: Proc, path: string): Proc
    requires Wf(w.mounts)
  {
    var r := Resolve(w, p.root, p.cwd, path, true);
    if r.Ok? && DirError(w, r.value).None? then p.(cwd := r.value) else p
  }

  /** `chroot`: the working directory is left alone. */
  function ChrootNext(w: World, p: Proc, path: string): Proc
    requires Wf(w.mounts)
  {
    var r := Resolve(w, p.root, p.cwd, path, true);
    if r.Ok? && InodeAt(w, r.value).Dir? then p.(root := r.value) else p
  }

  predicate Confined(p: Proc)
  {
    OnChain(p.root, p.cwd)
  }

  function Seen(p: Proc, st: Step): Result<Node>
    requires StepWf(st)
  {
    Resolve(st.w, p.root, p.cwd, st.path, st.Chdir? || st.follow)
  }

  function After(p: Proc, st: Step): Proc
    requires StepWf(st)
  {
    if st.Chdir? then ChdirNext(st.w, p, st.path) else p
  }

  function AfterAll(p: Proc, steps: seq<Step>): Proc
    requires forall i :: 0 <= i < |steps| ==> StepWf(steps[i])
    decreases |steps|
  {
    if steps == [] then p else AfterAll(After(p, steps[0]), steps[1..])
  }

  /** Over every run of lookups and directory changes a confined process sees only
      nodes under its root, and stays confined. */
  lemma {:induction false} RunConfined(p: Proc, steps: seq<Step>, i: nat)
    requires Confined(p) && i < |steps| && forall j :: 0 <= j < |steps| ==> StepWf(steps[j])
    ensures var q := AfterAll(p, steps[..i]);
            && q.root == p.root && Confined(q)
            && (Seen(q, steps[i]).Ok? ==> OnChain(p.root, Seen(q, steps[i]).value))
    decreases i
  {
    if i == 0 {
      ResolveConfined(steps[0].w, p.root, p.cwd, steps[0].path, steps[0].Chdir? || steps[0].follow);
    } else {
      if steps[0].Chdir? {
        ResolveConfined(steps[0].w, p.root, p.cwd, steps[0].path, true);
      }
      RunConfined(After(p, steps[0]), steps[1..], i - 1);
      assert steps[..i][1..] == steps[1..][..i - 1];
    }
  }

  /** Whatever path a process gives, it gets nodes under its root only. */
  ghost predicate SeesOnlyUnder(w: World, p: Proc)
    requires Wf(w.mounts)
  {
    forall path, follow :: Resolve(w, p.root, p.cwd, path, follow).Ok? ==>
                             OnChain(p.root, Resolve(w, p.root, p.cwd, path, follow).value)
  }

  /** A working directory outside the root defeats confinement: the process can see
      outside exactly then, since `.` still names it, unless it may not even search
      that directory. */
  lemma ConfinedExact(w: World, p: Proc)
    requires Wf(w.mounts)
    ensures SeesOnlyUnder(w, p) <==> Confined(p) || DirError(w, p.cwd).Some?
  {
    if Confined(p) || DirError(w, p.cwd).Some? {
      forall path, follow
        ensures Resolve(w, p.root, p.cwd, path, follow).Ok? ==>
                  OnChain(p.root, Resolve(w, p.root, p.cwd, path, follow).value)
      {
        if Confined(p) {
          ResolveConfined(w, p.root, p.cwd, path, follow);
        } else if Absolute(path) {
          ResolveConfined(w, p.root, p.root, path, follow);
          assert Start(p.root, p.cwd, path) == Start(p.root, p.root, path);
        } else {
          NoRelative(w, p.root, p.cwd, path, follow);
        }
      }
    } else {
      DotIsCwd(w, p.root, p.cwd);
    }
  }

  /** Nothing relative resolves from a directory that may not be searched. */
  lemma NoRelative(w: World, root: Node, cwd: Node, path: string, follow: bool)
    requires Wf(w.mounts) && DirError(w, cwd).Some? && !Absolute(path)
    ensures Resolve(w, root, cwd, path, follow).Err?
  {
    assert path != "" ==> Comps(path) != [];
  }

  lemma DotIsCwd(w: World, root: Node, cwd: Node)
    requires Wf(w.mounts) && DirError(w, cwd).None?
    ensures Resolve(w, root, cwd, ".", true) == Ok(cwd)
  {
    assert FirstSlash(".") == 1 && "."[..1] == "." && "."[1..] == "";
    assert Comps(".") == ["."];
    assert ["."][1..] == [];
  }

  /** After a successful `chroot` to a directory, in whatever the file systems have become
      by then (`later`), the process sees only nodes under the new root if and only if
      that directory is on the chain of the working directory it kept, or it can no
      longer search that one. And a confined process only gets roots under its old
      one. */
  lemma ChrootExact(w: World, later: World, p: Proc, path: string)
    requires Wf(w.mounts) && Wf(later.mounts)
    requires Resolve(w, p.root, p.cwd, path, true).Ok? && InodeAt(w, Resolve(w, p.root, p.cwd, path, true).value).Dir?
    ensures var root := Resolve(w, p.root, p.cwd, path, true).value;
            && (SeesOnlyUnder(later, ChrootNext(w, p, path)) <==> OnChain(root, p.cwd) || DirError(later, p.cwd).Some?)
            && (Confined(p) ==> OnChain(p.root, root))
  {
    ConfinedExact(later, ChrootNext(w, p, path));
    if Confined(p) {
      ResolveConfined(w, p.root, p.cwd, path, true);
    }
  }

  /** A `chroot` into a subdirectory of the working directory is one that does not:
      afterwards `.` is above the root. */
  lemma ChrootEscapes() returns (w: World, p: Proc, q: Proc)
    ensures Wf(w.mounts) && Confined(p) && q == ChrootNext(w, p, "a") && q.root != p.root
    ensures !SeesOnlyUnder(w, q) && Resolve(w, q.root, q.cwd, ".", true) == Ok(p.cwd)
  {
    var top := Node(Spot(1, 1), "", None);
    w := World(map[1 := Dir(map["a" := 2], true), 2 := Dir(map[], true)], [Mount(1, 1, None)]);
    p := Proc(top, top);
    assert FirstSlash("a") == 1 && "a"[..1] == "a" && "a"[1..] == "";
    assert Comps("a") == ["a"];
    var sub := Node(Spot(1, 2), "a", Some(top));
    assert MountedOn([Mount(1, 1, None)], Spot(1, 2)) == None;
    assert Enter(w, top, "a") == Ok(sub);
    assert ["a"][1..] == [];
    assert Walk(w, top, top, ["a"], true, 0) == Walked(Ok(sub), 0);
    q := ChrootNext(w, p, "a");
    DotIsCwd(w, q.root, q.cwd);
  }
}
