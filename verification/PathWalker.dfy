/** The resolver's loops, as the code runs them, against the walk of `Paths`. */
module PathWalker {
  import opened Mounts
  import opened Paths

  /** `split('/')` with the empty pieces dropped. */
  method Split(path: string) returns (comps: seq<string>)
    ensures comps == Comps(path)
  {
    comps := [];
    var rest := path;
    while rest != ""
      invariant comps + Comps(rest) == Comps(path)
      decreases |rest|
    {
      if rest[0] == '/' {
        rest := rest[1..];
      } else {
        var n := PieceLength(rest);
        comps := comps + [rest[..n]];
        rest := rest[n..];
      }
    }
  }

  method PieceLength(s: string) returns (n: nat)
    ensures n == FirstSlash(s)
  {
    n := 0;
    while n < |s| && s[n] != '/'
      invariant n <= |s| && forall k :: 0 <= k < n ==> s[k] != '/'
    {
      n := n + 1;
    }
    assert n <= FirstSlash(s);
  }

  /** Crosses the mounts stacked on a node, one after the other; ids only grow. */
  method CrossAll(mounts: seq<Mount>, at: Spot) returns (r: Spot)
    requires Wf(mounts)
    ensures r == Cross(mounts, at)
  {
    r := at;
    var m := MountedOn(mounts, r);
    while m.Some?
      invariant m == MountedOn(mounts, r) && Cross(mounts, r) == Cross(mounts, at)
      decreases if r.mount <= Newest(mounts) then Newest(mounts) - r.mount else 0, if m.Some? then 1 else 0
    {
      MountedOnWf(mounts, r);
      r := Spot(m.value.id, m.value.root);
      m := MountedOn(mounts, r);
    }
  }

  /** `walk`: `depth` counts the links of the whole resolution, nested walks too. */
  method WalkPath(w: World, root: Node, start: Node, path: string, follow: bool, links: nat)
    returns (r: Result<Node>, depth: nat)
    requires Wf(w.mounts) && links <= MAX_SYMLINKS
    ensures Walked(r, depth) == Walk(w, root, Start(root, start, path), Comps(path), follow, links)
    decreases MAX_SYMLINKS - links
  {
    depth := links;
    var cur := if Absolute(path) then root else start;
    var comps := Split(path);
    ghost var whole := Walk(w, root, cur, comps, follow, links);
    var i := 0;
    assert comps[0..] == comps;
    while i < |comps|
      invariant i <= |comps| && links <= depth <= MAX_SYMLINKS
      invariant Walk(w, root, cur, comps[i..], follow, depth) == whole
    {
      var last := i + 1 == |comps|;
      ghost var rest := comps[i..];
      assert rest[0] == comps[i] && rest[1..] == comps[i + 1..] && (|rest| == 1 <==> last);
      var bad := DirError(w, cur);
      if bad.Some? {
        return Err(bad.value), depth;
      }
      var c := comps[i];
      if c == "." {
      } else if c == ".." {
        if !IsRootNode(root, cur) {
          cur := cur.parent.value;
        }
      } else {
        if |c| > NAME_MAX {
          return Err(ENAMETOOLONG), depth;
        }
        var entries := InodeAt(w, cur).entries;
        if c !in entries {
          return Err(ENOENT), depth;
        }
        var spot := CrossAll(w.mounts, Spot(cur.spot.mount, entries[c]));
        var node := Node(spot, c, Some(cur));
        if !last || follow {
          if InodeAt(w, node).Broken? {
            return Err(EIO), depth;
          }
          if InodeAt(w, node).Link? {
            depth := depth + 1;
            if depth > MAX_SYMLINKS {
              return Err(ELOOP), depth;
            }
            var sub;
            sub, depth := WalkPath(w, root, cur, InodeAt(w, node).target, true, depth);
            if sub.Err? {
              return sub, depth;
            }
            node := sub.value;
          }
        }
        cur := node;
      }
      i := i + 1;
    }
    r := Ok(cur);
  }

  method ResolvePath(w: World, root: Node, cwd: Node, path: string, follow: bool) returns (r: Result<Node>)
    requires Wf(w.mounts)
    ensures r == Resolve(w, root, cwd, path, follow)
    ensures r.Ok? && OnChain(root, cwd) ==> OnChain(root, r.value)
  {
    if OnChain(root, cwd) {
      ResolveConfined(w, root, cwd, path, follow);
    }
    if path == "" {
      return Err(ENOENT);
    }
    if |path| > PATH_MAX {
      return Err(ENAMETOOLONG);
    }
    var mustBeDir := path[|path| - 1] == '/';
    var depth;
    r, depth := WalkPath(w, root, cwd, path, follow || mustBeDir, 0);
    if r.Ok? && mustBeDir && !InodeAt(w, r.value).Dir? {
      r := Err(ENOTDIR);
    }
  }
}
