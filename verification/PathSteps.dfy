/** Where each kind of component leads, in terms of directories, names and links
    alone. */
module PathSteps {
  import opened Mounts
  import opened Paths
  import opened PathNames

  // ---------------------------------------------------------------- dots

  lemma DotDotComps()
    ensures Comps("..") == [".."]
  {
    assert FirstSlash("..") == 2 && ".."[..2] == ".." && ".."[2..] == "";
  }

  /** `..` leads to the parent, except at the top of a chain and at the root of the
      process, where it stays. */
  lemma DotDotIs(w: World, root: Node, cwd: Node, follow: bool)
    requires Wf(w.mounts)
    ensures Resolve(w, root, cwd, "..", follow)
         == if DirError(w, cwd).Some? then Err(DirError(w, cwd).value)
            else if cwd.parent.Some? && cwd.spot != root.spot then Ok(cwd.parent.value)
            else Ok(cwd)
  {
    DotDotComps();
    assert [".."][1..] == [];
  }

  /** `.` leads nowhere. */
  lemma DotIs(w: World, root: Node, cwd: Node, follow: bool)
    requires Wf(w.mounts)
    ensures Resolve(w, root, cwd, ".", follow)
         == if DirError(w, cwd).Some? then Err(DirError(w, cwd).value) else Ok(cwd)
  {
    assert FirstSlash(".") == 1 && "."[..1] == "." && "."[1..] == "";
    assert Comps(".") == ["."];
    assert ["."][1..] == [];
  }

  // ---------------------------------------------------------------- names

  /** An ordinary name leads to the entry of that name, and on to whatever is mounted
      there; each error has its own cause. */
  lemma NameIs(w: World, root: Node, cur: Node, name: string, links: nat)
    requires Wf(w.mounts) && links <= MAX_SYMLINKS && Ordinary(name)
    ensures var here := InodeAt(w, cur); var r := Walk(w, root, cur, [name], false, links);
            && r.links == links
            && (here.Broken? ==> r.result == Err(EIO))
            && (here.Link? || here.Other? ==> r.result == Err(ENOTDIR))
            && (here.Dir? && !here.search ==> r.result == Err(EACCES))
            && (here.Dir? && here.search && |name| > 255 ==> r.result == Err(ENAMETOOLONG))
            && (here.Dir? && here.search && |name| <= 255 ==>
                  if name !in here.entries then r.result == Err(ENOENT)
                  else && r.result.Ok? && r.result.value.name == name && r.result.value.parent == Some(cur)
                       && r.result.value.spot == Cross(w.mounts, Spot(cur.spot.mount, here.entries[name])))
  {
  }

  /** A directory, entered by name, and then `..` is where it started, unless the directory
      is the root. */
  lemma DownAndUp(w: World, root: Node, cur: Node, name: string, follow: bool, links: nat)
    requires Wf(w.mounts) && links <= MAX_SYMLINKS && Ordinary(name)
    requires Walk(w, root, cur, [name], false, links).result.Ok?
    requires var node := Walk(w, root, cur, [name], false, links).result.value;
             DirError(w, node).None? && node.spot != root.spot
    ensures Walk(w, root, cur, [name, ".."], follow, links) == Walked(Ok(cur), links)
  {
    assert [name, ".."][1..] == [".."] && [".."][1..] == [];
    var node := Walk(w, root, cur, [name], false, links).result.value;
    assert node.parent == Some(cur);
    assert Walk(w, root, node, [".."], follow, links) == Walked(Ok(cur), links);
  }

  // ---------------------------------------------------------------- links

  /** Walking the name of a link is walking its target, from the root if that is absolute
      and else from the directory that holds the link, with one link more met; the
      forty-first ends the walk. */
  lemma LinkIs(w: World, root: Node, cur: Node, name: string, links: nat, target: string)
    requires Wf(w.mounts) && links <= MAX_SYMLINKS && Ordinary(name)
    requires var r := Walk(w, root, cur, [name], false, links).result; r.Ok? && InodeAt(w, r.value) == Link(target)
    ensures links < 40 ==>
              var from := if target != "" && target[0] == '/' then root else cur;
              Walk(w, root, cur, [name], true, links) == Walk(w, root, from, Comps(target), true, links + 1)
    ensures links == 40 ==> Walk(w, root, cur, [name], true, links) == Walked(Err(ELOOP), 41)
  {
    assert [name][1..] == [];
  }

  // ---------------------------------------------------------------- slashes

  /** A slash at the end asks for a directory and follows a last link. */
  lemma TrailingSlash(w: World, root: Node, cwd: Node, path: string, follow: bool)
    requires Wf(w.mounts) && path != "" && !EndsInSlash(path) && |path| < PATH_MAX
    ensures var r := Resolve(w, root, cwd, path, true);
            Resolve(w, root, cwd, path + "/", follow)
            == if r.Ok? && !InodeAt(w, r.value).Dir? then Err(ENOTDIR) else r
  {
    CompsSlash(path, "");
    assert path + "/" + "" == path + "/";
    assert Comps("") == [] && Comps(path) + [] == Comps(path);
  }

  /** A path with a slash first starts at the root, any other at the working directory;
      an empty one and one of more than 4096 bytes lead nowhere. */
  lemma PathStart(w: World, root: Node, cwd: Node, elsewhere: Node, path: string, follow: bool)
    requires Wf(w.mounts)
    ensures path == "" ==> Resolve(w, root, cwd, path, follow) == Err(ENOENT)
    ensures |path| > 4096 ==> Resolve(w, root, cwd, path, follow) == Err(ENAMETOOLONG)
    ensures path != "" && path[0] == '/' ==>
              Resolve(w, root, cwd, path, follow) == Resolve(w, root, elsewhere, path, follow)
    ensures path != "" && path[0] == '/' && |path| <= 4096 ==>
              Resolve(w, root, cwd, path, follow)
              == if path == "/" then (if InodeAt(w, root).Dir? then Ok(root) else Err(ENOTDIR))
                 else Resolve(w, root, root, path[1..], follow)
  {
    if path != "" && path[0] == '/' {
      assert Comps(path) == Comps(path[1..]);
      if path != "/" {
        assert path[1..][|path[1..]| - 1] == path[|path| - 1];
      }
    }
  }
}
