/** Mount namespaces (`fs/mount.rs`): a vector of mounts, each stacked on a spot of
    an older mount, searched from the newest. */
module Mounts {

  datatype Option<+T> = None | Some(value: T)
  datatype Result<+T> = Ok(value: T) | Err(error: Errno)
  datatype Errno = ENOENT | ENOTDIR | EACCES | ENAMETOOLONG | ELOOP | EIO | EBUSY | EINVAL

  type Ino = nat

  /** An inode as seen through a mount. */
  datatype Spot = Spot(mount: nat, ino: Ino)

  datatype Mount = Mount(id: nat, root: Ino, parent: Option<Spot>)

  /** Ids grow along the vector and every mount is younger than the one it is
      stacked on. */
  predicate Wf(mounts: seq<Mount>)
  {
    && (forall i :: 0 <= i < |mounts| && mounts[i].parent.Some? ==> mounts[i].parent.value.mount < mounts[i].id)
    && (forall i, j :: 0 <= i < j < |mounts| ==> mounts[i].id < mounts[j].id)
  }

  /** The newest mount stacked on `s`. */
  function MountedOn(mounts: seq<Mount>, s: Spot): Option<Mount>
  {
    if mounts == [] then None
    else if mounts[|mounts| - 1].parent == Some(s) then Some(mounts[|mounts| - 1])
    else MountedOn(mounts[..|mounts| - 1], s)
  }

  /** What the search finds: the last entry stacked there, if there is one. */
  lemma {:induction false} MountedOnIs(mounts: seq<Mount>, s: Spot)
    ensures MountedOn(mounts, s).None? ==> forall i :: 0 <= i < |mounts| ==> mounts[i].parent != Some(s)
    ensures MountedOn(mounts, s).Some? ==>
              exists i :: 0 <= i < |mounts| && mounts[i] == MountedOn(mounts, s).value && mounts[i].parent == Some(s) &&
                          forall j :: i < j < |mounts| ==> mounts[j].parent != Some(s)
  {
    var n := |mounts|;
    if n > 0 && mounts[n - 1].parent != Some(s) {
      var less := mounts[..n - 1];
      MountedOnIs(less, s);
      if MountedOn(less, s).Some? {
        var i :| 0 <= i < |less| && less[i] == MountedOn(less, s).value && less[i].parent == Some(s) &&
                 forall j :: i < j < |less| ==> less[j].parent != Some(s);
        assert mounts[i] == less[i];
        assert forall j :: i < j < n - 1 ==> mounts[j] == less[j];
      } else {
        assert forall i :: 0 <= i < n - 1 ==> mounts[i] == less[i];
      }
    }
  }

  lemma MountedOnWf(mounts: seq<Mount>, s: Spot)
    requires Wf(mounts)
    ensures MountedOn(mounts, s).Some? ==> s.mount < MountedOn(mounts, s).value.id <= Newest(mounts)
  {
    MountedOnIs(mounts, s);
    if mounts != [] && MountedOn(mounts, s).Some? {
      var i :| 0 <= i < |mounts| && mounts[i] == MountedOn(mounts, s).value && mounts[i].parent == Some(s);
    }
  }

  function Newest(mounts: seq<Mount>): nat
  {
    if mounts == [] then 0 else mounts[|mounts| - 1].id
  }

  /** Where a walk that arrives at `s` ends up after crossing the mounts stacked
      there, one on another. */
  function Cross(mounts: seq<Mount>, s: Spot): (r: Spot)
    requires Wf(mounts)
    ensures MountedOn(mounts, r).None?
    decreases if s.mount <= Newest(mounts) then Newest(mounts) - s.mount else 0
  {
    MountedOnWf(mounts, s);
    var m := MountedOn(mounts, s);
    if m.None? then s else Cross(mounts, Spot(m.value.id, m.value.root))
  }

  // ---------------------------------------------------------------- mount and umount

  predicate Fresh(mounts: seq<Mount>, m: Mount)
  {
    && (forall i :: 0 <= i < |mounts| ==> mounts[i].id < m.id)
    && (forall i :: 0 <= i < |mounts| && mounts[i].parent.Some? ==> mounts[i].parent.value.mount < m.id)
    && m.parent.Some? && m.parent.value.mount < m.id
  }

  lemma PushWf(mounts: seq<Mount>, m: Mount)
    requires Wf(mounts) && Fresh(mounts, m)
    ensures Wf(mounts + [m])
    ensures forall s :: MountedOn(mounts + [m], s) == if m.parent == Some(s) then Some(m) else MountedOn(mounts, s)
  {
    assert (mounts + [m])[..|mounts|] == mounts;
  }

  lemma NothingOnNew(mounts: seq<Mount>, m: Mount)
    requires Wf(mounts) && Fresh(mounts, m)
    ensures MountedOn(mounts + [m], Spot(m.id, m.root)) == None
  {
    PushWf(mounts, m);
    MountedOnIs(mounts, Spot(m.id, m.root));
  }

  /** Mounting on the spot where walks end up redirects exactly the walks that end
      there, to the root of the new mount, and no other. */
  lemma {:induction false} MountRedirects(mounts: seq<Mount>, m: Mount, s: Spot)
    requires Wf(mounts) && Fresh(mounts, m) && MountedOn(mounts, m.parent.value) == None
    ensures Wf(mounts + [m])
    ensures Cross(mounts + [m], s) == if Cross(mounts, s) == m.parent.value then Spot(m.id, m.root)
                                      else Cross(mounts, s)
    decreases if s.mount <= Newest(mounts) then Newest(mounts) - s.mount else 0
  {
    PushWf(mounts, m);
    NothingOnNew(mounts, m);
    MountedOnWf(mounts, s);
    var on := MountedOn(mounts, s);
    if on.Some? {
      MountRedirects(mounts, m, Spot(on.value.id, on.value.root));
    }
  }

  predicate HasId(mounts: seq<Mount>, id: nat)
  {
    exists i :: 0 <= i < |mounts| && mounts[i].id == id
  }

  predicate StackedOn(mounts: seq<Mount>, id: nat)
  {
    exists i :: 0 <= i < |mounts| && mounts[i].parent.Some? && mounts[i].parent.value.mount == id
  }

  /** The index of the mount with this id, `|mounts|` if there is none. */
  function IndexOf(mounts: seq<Mount>, id: nat): (i: nat)
    ensures i <= |mounts| && (i < |mounts| ==> mounts[i].id == id)
    ensures forall j :: 0 <= j < i ==> mounts[j].id != id
  {
    if mounts == [] || mounts[0].id == id then 0
    else
      var i := IndexOf(mounts[1..], id);
      assert forall j :: 0 < j < i + 1 ==> mounts[j] == mounts[1..][j - 1];
      i + 1
  }

  function Without(mounts: seq<Mount>, i: nat): seq<Mount>
    requires i < |mounts|
  {
    mounts[..i] + mounts[i + 1..]
  }

  /** `umount` of what is mounted at `at`. */
  function Umounted(mounts: seq<Mount>, at: Spot): Result<seq<Mount>>
  {
    var i := IndexOf(mounts, at.mount);
    if i == |mounts| || mounts[i].root != at.ino then Err(EINVAL)
    else if mounts[i].parent.None? || StackedOn(mounts, mounts[i].id) then Err(EBUSY)
    else Ok(Without(mounts, i))
  }

  /** A mount can be unmounted exactly by its own root, if it is not the root of the
      namespace and nothing is stacked on it; the others then stay, in their order. */
  lemma UmountAnswers(mounts: seq<Mount>, at: Spot, i: nat)
    requires Wf(mounts) && i < |mounts| && mounts[i].id == at.mount
    ensures Umounted(mounts, at)
         == if mounts[i].root != at.ino then Err(EINVAL)
            else if mounts[i].parent.None?
                    || (exists j :: 0 <= j < |mounts| && mounts[j].parent.Some?
                                    && mounts[j].parent.value.mount == at.mount) then Err(EBUSY)
            else Ok(mounts[..i] + mounts[i + 1..])
  {
    assert IndexOf(mounts, at.mount) == i;
  }

  /** What is not mounted here cannot be unmounted. */
  lemma UmountUnknown(mounts: seq<Mount>, at: Spot)
    requires forall i :: 0 <= i < |mounts| ==> mounts[i].id != at.mount
    ensures Umounted(mounts, at) == Err(EINVAL)
  {
  }

  lemma WithoutWf(mounts: seq<Mount>, i: nat)
    requires Wf(mounts) && i < |mounts|
    ensures Wf(Without(mounts, i))
  {
    var r := Without(mounts, i);
    assert forall k :: 0 <= k < |r| ==> r[k] == mounts[if k < i then k else k + 1];
  }

  lemma {:induction false} WithoutMountedOn(mounts: seq<Mount>, i: nat, s: Spot)
    requires i < |mounts|
    ensures MountedOn(mounts, s) != Some(mounts[i]) ==> MountedOn(Without(mounts, i), s) == MountedOn(mounts, s)
  {
    var n := |mounts|;
    var r := Without(mounts, i);
    if i == n - 1 {
      assert r == mounts[..n - 1];
    } else {
      assert r[|r| - 1] == mounts[n - 1];
      WithoutMountedOn(mounts[..n - 1], i, s);
      assert Without(mounts[..n - 1], i) == r[..|r| - 1];
    }
  }

  /** Unmounting changes no walk that did not end inside what was unmounted. */
  lemma {:induction false} UmountKeepsOthers(mounts: seq<Mount>, at: Spot, s: Spot)
    requires Wf(mounts) && Umounted(mounts, at).Ok? && Cross(mounts, s).mount != at.mount
    ensures Wf(Umounted(mounts, at).value)
    ensures Cross(Umounted(mounts, at).value, s) == Cross(mounts, s)
    decreases if s.mount <= Newest(mounts) then Newest(mounts) - s.mount else 0
  {
    var i := IndexOf(mounts, at.mount);
    WithoutWf(mounts, i);
    WithoutMountedOn(mounts, i, s);
    MountedOnWf(mounts, s);
    MountedOnIs(mounts, Spot(mounts[i].id, mounts[i].root));
    var on := MountedOn(mounts, s);
    if on.Some? {
      assert on.value != mounts[i];
      UmountKeepsOthers(mounts, at, Spot(on.value.id, on.value.root));
    }
  }

  /** Unmounting the newest mount undoes mounting it. */
  lemma UmountUndoesMount(mounts: seq<Mount>, m: Mount)
    requires Wf(mounts) && Fresh(mounts, m)
    ensures Umounted(mounts + [m], Spot(m.id, m.root)) == Ok(mounts)
  {
    var after := mounts + [m];
    var i := IndexOf(after, m.id);
    assert i == |mounts| by {
      assert after[|mounts|].id == m.id;
      assert forall j :: 0 <= j < |mounts| ==> after[j].id < m.id;
    }
    assert !StackedOn(after, m.id);
    assert Without(after, i) == mounts;
  }

  /** No mount is left stacked on one that is gone. */
  predicate ParentPresent(mounts: seq<Mount>, i: int)
  {
    0 <= i < |mounts| && mounts[i].parent.Some? ==> HasId(mounts, mounts[i].parent.value.mount)
  }

  ghost predicate Rooted(mounts: seq<Mount>)
  {
    forall i {:trigger ParentPresent(mounts, i)} :: ParentPresent(mounts, i)
  }

  lemma UmountKeepsRooted(mounts: seq<Mount>, at: Spot)
    requires Wf(mounts) && Rooted(mounts) && Umounted(mounts, at).Ok?
    ensures Wf(Umounted(mounts, at).value) && Rooted(Umounted(mounts, at).value)
  {
    var i := IndexOf(mounts, at.mount);
    WithoutWf(mounts, i);
    var r := Without(mounts, i);
    forall k
      ensures ParentPresent(r, k)
    {
      if 0 <= k < |r| && r[k].parent.Some? {
        var k' := if k < i then k else k + 1;
        assert r[k] == mounts[k'] && ParentPresent(mounts, k');
        var j :| 0 <= j < |mounts| && mounts[j].id == r[k].parent.value.mount;
        assert j != i;
        assert r[if j < i then j else j - 1] == mounts[j];
      }
    }
  }

  lemma PushRooted(mounts: seq<Mount>, m: Mount)
    requires m.parent.Some? && m.parent.value.mount < m.id
    ensures Rooted(mounts) ==> (Rooted(mounts + [m]) <==> HasId(mounts, m.parent.value.mount))
  {
    var r := mounts + [m];
    if Rooted(mounts) && HasId(mounts, m.parent.value.mount) {
      forall i
        ensures ParentPresent(r, i)
      {
        assert ParentPresent(mounts, i);
        if 0 <= i < |r| && r[i].parent.Some? {
          var j :| 0 <= j < |mounts| && mounts[j].id == r[i].parent.value.mount;
          assert r[j].id == r[i].parent.value.mount;
        }
      }
    } else if Rooted(mounts) {
      assert r[|mounts|] == m && !ParentPresent(r, |mounts|);
    }
  }

  // ---------------------------------------------------------------- the table

  class MountTable {
    var mounts: seq<Mount>
    var nextId: nat

    ghost predicate Valid()
      reads this
    {
      && Wf(mounts)
      && forall i :: 0 <= i < |mounts| ==> mounts[i].id < nextId
    }

    constructor (id: nat, root: Ino)
      ensures Valid() && Rooted(mounts) && mounts == [Mount(id, root, None)] && nextId == id + 1
    {
      mounts, nextId := [Mount(id, root, None)], id + 1;
    }

    method Lookup(s: Spot) returns (m: Option<Mount>)
      ensures m == MountedOn(mounts, s)
    {
      var i := |mounts|;
      assert mounts[..i] == mounts;
      while i > 0
        invariant 0 <= i <= |mounts|
        invariant MountedOn(mounts[..i], s) == MountedOn(mounts, s)
      {
        i := i - 1;
        assert mounts[..i + 1][..i] == mounts[..i];
        if mounts[i].parent == Some(s) {
          return Some(mounts[i]);
        }
      }
      m := None;
    }

    /** `mount`, and `bind` with the root of the bound subtree: stacks a new mount on
        `at`, whose mount has got its id earlier. Nothing checks that it is still in
        the table: the new mount hangs off one that is exactly if it is. */
    method Attach(at: Spot, atIsDir: bool, root: Ino, rootIsDir: bool) returns (r: Result<Mount>)
      requires Valid() && at.mount < nextId
      modifies this
      ensures Valid()
      ensures Rooted(old(mounts)) ==> (Rooted(mounts) <==> r.Err? || HasId(old(mounts), at.mount))
      ensures !atIsDir || !rootIsDir ==> r == Err(ENOTDIR) && mounts == old(mounts) && nextId == old(nextId)
      ensures atIsDir && rootIsDir ==>
                && r == Ok(Mount(old(nextId), root, Some(at))) && Fresh(old(mounts), r.value)
                && mounts == old(mounts) + [r.value] && nextId == old(nextId) + 1
    {
      if !atIsDir || !rootIsDir {
        return Err(ENOTDIR);
      }
      var m := Mount(nextId, root, Some(at));
      assert Fresh(mounts, m);
      PushWf(mounts, m);
      nextId := nextId + 1;
      mounts := mounts + [m];
      PushRooted(old(mounts), m);
      r := Ok(m);
    }

    method Position(id: nat) returns (i: nat)
      ensures i == IndexOf(mounts, id)
    {
      i := 0;
      assert mounts[0..] == mounts;
      while i < |mounts| && mounts[i].id != id
        invariant i <= |mounts| && IndexOf(mounts, id) == i + IndexOf(mounts[i..], id)
      {
        assert mounts[i..][1..] == mounts[i + 1..];
        i := i + 1;
      }
    }

    method Busy(id: nat) returns (yes: bool)
      ensures yes == StackedOn(mounts, id)
    {
      var k := 0;
      while k < |mounts|
        invariant k <= |mounts|
        invariant forall j :: 0 <= j < k ==> mounts[j].parent.None? || mounts[j].parent.value.mount != id
      {
        if mounts[k].parent.Some? && mounts[k].parent.value.mount == id {
          return true;
        }
        k := k + 1;
      }
      yes := false;
    }

    /** `umount`: refused for a spot that is no mount root, for the namespace root
        and for a mount that others are stacked on. */
    method Detach(at: Spot) returns (r: Result<Mount>)
      requires Valid()
      modifies this`mounts
      ensures Valid() && (Rooted(old(mounts)) ==> Rooted(mounts))
      ensures var u := Umounted(old(mounts), at);
              && (r.Ok? <==> u.Ok?)
              && (r.Ok? ==>
                    mounts == u.value && r.value in old(mounts) && r.value.id == at.mount && r.value.root == at.ino)
              && (r.Err? ==> mounts == old(mounts) && r.error == u.error)
    {
      var i := Position(at.mount);
      if i == |mounts| || mounts[i].root != at.ino {
        return Err(EINVAL);
      }
      if mounts[i].parent.None? {
        return Err(EBUSY);
      }
      var busy := Busy(mounts[i].id);
      if busy {
        return Err(EBUSY);
      }
      WithoutWf(mounts, i);
      if Rooted(mounts) {
        UmountKeepsRooted(mounts, at);
      }
      r := Ok(mounts[i]);
      mounts := Without(mounts, i);
      assert forall j :: 0 <= j < |mounts| ==> mounts[j] == old(mounts)[if j < i then j else j + 1];
    }
  }
}
