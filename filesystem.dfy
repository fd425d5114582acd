/**
 * An abstract POSIX-like filesystem: the operating-system side of the
 * `file_dir` module. A filesystem is a map from paths to the kind of entry
 * stored there; the calls the module makes (`Path.mkdir`, `Path.touch`,
 * `Path.unlink`, `shutil.rmtree`) are functions on that map which either
 * succeed or fail, and the class `Disk` holds the one mutable filesystem the
 * handlers act on.
 */
module FileSystem {

  /** A path as the sequence of its segments below the root; the root is []. */
  type Path = seq<string>

  /** The model only tells directories apart from every other kind of entry. */
  datatype Kind = Regular | Dir

  type Tree = map<Path, Kind>

  function Parent(p: Path): (q: Path)
    requires p != []
    ensures q < p && |q| == |p| - 1
  {
    p[..|p| - 1]
  }

  /** The root is a directory and every other entry sits in a directory that exists. */
  predicate WellFormed(t: Tree)
  {
    && [] in t && t[[]] == Dir
    && forall p :: p in t && p != [] ==> Parent(p) in t && t[Parent(p)] == Dir
  }

  /** Every proper prefix of an existing entry is an existing directory. */
  lemma {:induction false} AncestorIsDir(t: Tree, p: Path, k: nat)
    requires WellFormed(t) && p in t && k < |p|
    ensures p[..k] in t && t[p[..k]] == Dir
    decreases |p|
  {
    var q := Parent(p);
    if k < |q| {
      AncestorIsDir(t, q, k);
      assert q[..k] == p[..k];
    }
  }

  /** Nothing exists below a path that does not exist. */
  lemma NothingBelowMissing(t: Tree, p: Path, q: Path)
    requires WellFormed(t) && p !in t && p <= q
    ensures q !in t
  {
    if q in t {
      assert p != q && q[..|p|] == p;
      AncestorIsDir(t, q, |p|);
    }
  }

  /**
   * `t'` keeps every entry of `t` unchanged and adds entries only along `p`:
   * directories at the proper prefixes of `p` and, possibly, `p` itself.
   */
  predicate GrowsAlong(t: Tree, t': Tree, p: Path)
  {
    && (forall q :: q in t ==> q in t' && t'[q] == t[q])
    && (forall q :: q in t' && q !in t ==> q <= p && (q != p ==> t'[q] == Dir))
  }

  /** `t` with the entry at `p` and everything below it taken away. */
  function Pruned(t: Tree, p: Path): (r: Tree)
    ensures forall q :: q in r <==> q in t && !(p <= q)
    ensures forall q :: q in r ==> r[q] == t[q]
  {
    map q | q in t && !(p <= q) :: t[q]
  }

  /** The tree after one filesystem call, and whether the call raised. */
  datatype Mutation = Mutation(tree: Tree, ok: bool)

  /**
   * `Path(p).mkdir(parents=parents, exist_ok=True)`. An existing directory is
   * accepted and an existing non-directory raises; a missing parent raises
   * unless `parents`, in which case the parent chain is created first (each
   * level with `exist_ok=True`) and `p` after it. `refused` holds the paths
   * at which the operating system refuses to create an entry.
   */
  function MakeDir(t: Tree, refused: set<Path>, p: Path, parents: bool): (r: Mutation)
    requires WellFormed(t)
    ensures WellFormed(r.tree)
    ensures GrowsAlong(t, r.tree, p)
    ensures forall q :: q in r.tree && q !in t ==> r.tree[q] == Dir
    ensures r.ok <==> p in r.tree && r.tree[p] == Dir
    ensures !parents ==> r.tree == t || (p !in t && r.tree == t[p := Dir])
    decreases |p|, if parents then 1 else 0
  {
    if p in t then
      Mutation(t, t[p] == Dir)
    else if Parent(p) in t then
      if t[Parent(p)] == Dir && p !in refused then Mutation(t[p := Dir], true)
      else Mutation(t, false)
    else if !parents then
      Mutation(t, false)
    else
      var up := MakeDir(t, refused, Parent(p), true);
      if up.ok then MakeDir(up.tree, refused, p, false) else up
  }

  /**
   * `Path(p).touch()` (with `exist_ok=True`): an existing entry is left as it
   * is; otherwise a regular file is created, which fails when the parent is
   * not an existing directory or the operating system refuses.
   */
  function TouchFile(t: Tree, refused: set<Path>, p: Path): (r: Mutation)
    requires WellFormed(t)
    ensures WellFormed(r.tree)
    ensures r.ok <==> p in r.tree
    ensures r.tree == t || (p !in t && r.tree == t[p := Regular])
    ensures r.ok && p !in t ==> r.tree[p] == Regular
  {
    if p in t then Mutation(t, true)
    else if Parent(p) in t && t[Parent(p)] == Dir && p !in refused then Mutation(t[p := Regular], true)
    else Mutation(t, false)
  }

  /**
   * `Path(p).unlink(missing_ok=True)`: a missing entry is accepted; a
   * directory cannot be unlinked; otherwise the entry is removed unless the
   * operating system refuses.
   */
  function UnlinkFile(t: Tree, refused: set<Path>, p: Path): (r: Mutation)
    requires WellFormed(t)
    ensures WellFormed(r.tree)
    ensures r.ok <==> p !in r.tree
    ensures r.ok ==> r.tree == t - {p}
    ensures !r.ok ==> r.tree == t
  {
    if p !in t then Mutation(t, true)
    else if t[p] == Dir || p in refused then Mutation(t, false)
    else Mutation(t - {p}, true)
  }

  /** Removing a missing path or a non-directory removes nothing below it. */
  lemma PrunedLeaf(t: Tree, p: Path)
    requires WellFormed(t) && (p !in t || t[p] == Regular)
    ensures Pruned(t, p) == t - {p}
  {
    forall q | q in t && p <= q && q != p ensures false {
      assert |p| < |q| && q[..|p|] == p;
      AncestorIsDir(t, q, |p|);
    }
    assert Pruned(t, p).Keys == (t - {p}).Keys;
  }

  /** True when the operating system refuses to remove some entry at or below `p`. */
  predicate RefusedBelow(t: Tree, refused: set<Path>, p: Path)
  {
    exists q :: q in t && p <= q && q in refused
  }

  /**
   * `shutil.rmtree(p, ignore_errors=False)`: removes the directory `p` with
   * everything below it. It fails on a missing path, on a non-directory, on
   * the root, and when any entry of the tree cannot be removed; a failing
   * call is taken to remove nothing.
   */
  function RemoveDirTree(t: Tree, refused: set<Path>, p: Path): (r: Mutation)
    requires WellFormed(t)
    ensures WellFormed(r.tree)
    ensures r.ok <==> p in t && t[p] == Dir && p != [] && !RefusedBelow(t, refused, p)
    ensures r.ok ==> r.tree == Pruned(t, p) && p !in r.tree
    ensures !r.ok ==> r.tree == t
  {
    if p in t && t[p] == Dir && p != [] && !RefusedBelow(t, refused, p) then
      Mutation(Pruned(t, p), true)
    else
      Mutation(t, false)
  }

  /**
   * The filesystem the module acts on. `refused` stands for the permission
   * and I/O errors of the operating system: the paths at which it refuses to
   * create or remove an entry.
   */
  class Disk {
    var entries: Tree
    const refused: set<Path>

    ghost predicate Valid()
      reads this
    {
      WellFormed(entries)
    }

    constructor (entries: Tree, refused: set<Path>)
      requires WellFormed(entries)
      ensures Valid()
      ensures this.entries == entries && this.refused == refused
    {
      this.entries := entries;
      this.refused := refused;
    }

    method Mkdir(p: Path, parents: bool) returns (ok: bool)
      requires Valid()
      modifies this
      ensures Valid()
      ensures Mutation(entries, ok) == MakeDir(old(entries), refused, p, parents)
    {
      var m := MakeDir(entries, refused, p, parents);
      entries, ok := m.tree, m.ok;
    }

    method Touch(p: Path) returns (ok: bool)
      requires Valid()
      modifies this
      ensures Valid()
      ensures Mutation(entries, ok) == TouchFile(old(entries), refused, p)
    {
      var m := TouchFile(entries, refused, p);
      entries, ok := m.tree, m.ok;
    }

    method Unlink(p: Path) returns (ok: bool)
      requires Valid()
      modifies this
      ensures Valid()
      ensures Mutation(entries, ok) == UnlinkFile(old(entries), refused, p)
    {
      var m := UnlinkFile(entries, refused, p);
      entries, ok := m.tree, m.ok;
    }

    method Rmtree(p: Path) returns (ok: bool)
      requires Valid()
      modifies this
      ensures Valid()
      ensures Mutation(entries, ok) == RemoveDirTree(old(entries), refused, p)
    {
      var m := RemoveDirTree(entries, refused, p);
      entries, ok := m.tree, m.ok;
    }
  }

  /**
   * A mkdir that raised has not created `p`: whatever it created lies on the
   * proper prefixes of `p`.
   */
  lemma MakeDirFailureStopsShort(t: Tree, refused: set<Path>, p: Path, parents: bool)
    requires WellFormed(t)
    ensures var r := MakeDir(t, refused, p, parents);
      !r.ok ==> forall q :: q in r.tree && q !in t ==> q < p
  {
  }

  /**
   * When the operating system refuses nothing along `p`, a mkdir that raises
   * has created nothing at all.
   */
  lemma {:induction false} MakeDirFailsCleanly(t: Tree, refused: set<Path>, p: Path, parents: bool)
    requires WellFormed(t)
    requires forall k :: 0 <= k <= |p| ==> p[..k] !in refused
    ensures var r := MakeDir(t, refused, p, parents);
      !r.ok ==> r.tree == t
    decreases |p|
  {
    if p !in t && Parent(p) !in t && parents {
      var q := Parent(p);
      forall k | 0 <= k <= |q| ensures q[..k] !in refused {
        assert q[..k] == p[..k];
      }
      MakeDirFailsCleanly(t, refused, q, true);
      var up := MakeDir(t, refused, q, true);
      if up.ok {
        assert p !in up.tree;
        assert p[..|p|] == p;
      }
    }
  }

  /**
   * With `parents`, mkdir succeeds whenever no existing prefix of `p` is a
   * non-directory and the operating system refuses none of the missing ones;
   * it then leaves every prefix of `p` an existing directory.
   */
  lemma {:induction false} MakeDirCreatesChain(t: Tree, refused: set<Path>, p: Path)
    requires WellFormed(t)
    requires forall k :: 0 <= k <= |p| && p[..k] in t ==> t[p[..k]] == Dir
    requires forall k :: 0 <= k <= |p| && p[..k] !in t ==> p[..k] !in refused
    ensures var r := MakeDir(t, refused, p, true);
      r.ok && forall k :: 0 <= k <= |p| ==> p[..k] in r.tree && r.tree[p[..k]] == Dir
    decreases |p|
  {
    assert p[..|p|] == p;
    var r := MakeDir(t, refused, p, true);
    if p in t {
      assert r == Mutation(t, true);
    } else {
      var q := Parent(p);
      assert p[..|q|] == q;
      if q in t {
        assert t[q] == Dir && p !in refused;
        assert r == Mutation(t[p := Dir], true);
      } else {
        forall k | 0 <= k <= |q| ensures q[..k] == p[..k] { }
        MakeDirCreatesChain(t, refused, q);
        var up := MakeDir(t, refused, q, true);
        assert up.ok && q in up.tree && up.tree[q] == Dir;
        assert p !in up.tree;
        assert r == MakeDir(up.tree, refused, p, false);
        assert r == Mutation(up.tree[p := Dir], true);
      }
    }
    assert r.ok && p in r.tree && r.tree[p] == Dir;
    forall k | 0 <= k <= |p| ensures p[..k] in r.tree && r.tree[p[..k]] == Dir {
      if k < |p| { AncestorIsDir(r.tree, p, k); }
    }
  }
}
