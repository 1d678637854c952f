/**
 * A directory tree and `os.walk` over it: the top-down walk that yields
 * every directory (with the names of its subdirectories) before descending
 * into those subdirectories in listing order.
 */
module DirTree {
  import opened Common

  /** A directory: its files and its subdirectories, each in listing order. */
  datatype Dir = Dir(files: seq<string>, subdirs: seq<Child>)

  datatype Child = Child(name: string, dir: Dir)

  /** One step of the walk: a directory and the path it was reached by. */
  datatype Visit = Visit(path: Path, dir: Dir)

  /** The `dirs` list the walk yields for a directory. */
  function SubdirNames(d: Dir): (names: seq<string>)
    ensures |names| == |d.subdirs|
    ensures forall i | 0 <= i < |names| :: names[i] == d.subdirs[i].name
  {
    seq(|d.subdirs|, i requires 0 <= i < |d.subdirs| => d.subdirs[i].name)
  }

  /** `name in dirs`. */
  predicate HasSubdir(d: Dir, name: string) {
    name in SubdirNames(d)
  }

  /** `os.walk(path)` on the tree `d` rooted there, in the order the walk yields. */
  function Walk(path: Path, d: Dir): (visits: seq<Visit>)
    ensures visits != [] && visits[0] == Visit(path, d)
    decreases d, 1, 0
  {
    [Visit(path, d)] + WalkFrom(path, d, 0)
  }

  /** The walks of the subdirectories of `d` from the `i`-th on, one after the other. */
  function WalkFrom(path: Path, d: Dir, i: nat): seq<Visit>
    decreases d, 0, |d.subdirs| - i
  {
    if i >= |d.subdirs| then []
    else Walk(path + [d.subdirs[i].name], d.subdirs[i].dir) + WalkFrom(path, d, i + 1)
  }

  /** Every path the walk yields lies at or below the starting path. */
  lemma {:induction false} WalkStaysBelow(path: Path, d: Dir)
    ensures forall v | v in Walk(path, d) :: |path| <= |v.path| && v.path[..|path|] == path
    decreases d, 1, 0
  {
    WalkFromStaysBelow(path, d, 0);
  }

  lemma {:induction false} WalkFromStaysBelow(path: Path, d: Dir, i: nat)
    ensures forall v | v in WalkFrom(path, d, i) :: |path| <= |v.path| && v.path[..|path|] == path
    decreases d, 0, |d.subdirs| - i
  {
    if i < |d.subdirs| {
      var child := path + [d.subdirs[i].name];
      WalkStaysBelow(child, d.subdirs[i].dir);
      WalkFromStaysBelow(path, d, i + 1);
      forall v | v in Walk(child, d.subdirs[i].dir)
        ensures |path| <= |v.path| && v.path[..|path|] == path
      {
        assert v.path[..|child|][..|path|] == v.path[..|path|];
      }
    }
  }

  lemma {:induction false} WalkFromIncludes(path: Path, d: Dir, i: nat, k: nat)
    requires i <= k < |d.subdirs|
    ensures forall v | v in Walk(path + [d.subdirs[k].name], d.subdirs[k].dir) :: v in WalkFrom(path, d, i)
    decreases |d.subdirs| - i
  {
    if i < k {
      WalkFromIncludes(path, d, i + 1, k);
    }
  }

  lemma {:induction false} WalkFromMember(path: Path, d: Dir, i: nat, v: Visit)
    requires v in WalkFrom(path, d, i)
    ensures exists k :: i <= k < |d.subdirs| && v in Walk(path + [d.subdirs[k].name], d.subdirs[k].dir)
    decreases |d.subdirs| - i
  {
    if v !in Walk(path + [d.subdirs[i].name], d.subdirs[i].dir) {
      WalkFromMember(path, d, i + 1, v);
    }
  }

  /** The walk is complete: every subdirectory of a walked directory is walked too. */
  lemma {:induction false} WalkReachesSubdirs(path: Path, d: Dir, v: Visit, k: nat)
    requires v in Walk(path, d)
    requires k < |v.dir.subdirs|
    ensures Visit(v.path + [v.dir.subdirs[k].name], v.dir.subdirs[k].dir) in Walk(path, d)
    decreases d
  {
    if v == Visit(path, d) {
      WalkFromIncludes(path, d, 0, k);
    } else {
      assert v in WalkFrom(path, d, 0);
      WalkFromMember(path, d, 0, v);
      var j :| 0 <= j < |d.subdirs| && v in Walk(path + [d.subdirs[j].name], d.subdirs[j].dir);
      WalkReachesSubdirs(path + [d.subdirs[j].name], d.subdirs[j].dir, v, k);
      WalkFromIncludes(path, d, 0, j);
    }
  }
}
