/**
 * The filesystem the scripts write into: a set of directories and a map
 * from file paths to their contents and executable flag, as a value (`Disk`)
 * and as the mutable object the generator works on (`FileSystem`). Paths are
 * absolute, as sequences of components; `[]` is the root.
 */
module FileSys {
  import opened Common

  /** A regular file: its text and whether its mode carries the executable bits. */
  datatype FileEntry = FileEntry(content: string, executable: bool)

  datatype Disk = Disk(dirs: set<Path>, files: map<Path, FileEntry>)

  /** The root exists, every directory's parent is a directory, every file sits in a directory and is not one. */
  predicate WellFormed(d: Disk) {
    && [] in d.dirs
    && (forall p | p in d.dirs :: Parent(p) in d.dirs)
    && (forall p | p in d.files :: Parent(p) in d.dirs && p !in d.dirs)
  }

  /** `Path.exists()`. */
  predicate Exists(d: Disk, p: Path) {
    p in d.dirs || p in d.files
  }

  /** `open(p, 'w')` succeeds: the parent is a directory and `p` itself is not one. */
  predicate CanWrite(d: Disk, p: Path) {
    Parent(p) in d.dirs && p !in d.dirs
  }

  /**
   * The disk after a successful `open(p, 'w').write(content)`: truncating an
   * existing file keeps its mode, a new file is not executable.
   */
  function Written(d: Disk, p: Path, content: string): (r: Disk)
    ensures r.dirs == d.dirs
    ensures p in r.files && r.files[p].content == content
    ensures r.files[p].executable <==> p in d.files && d.files[p].executable
  {
    Disk(d.dirs, d.files[p := FileEntry(content, p in d.files && d.files[p].executable)])
  }

  /** `chmod(0o755)` on an existing path: a file becomes executable, a directory keeps its (unmodelled) mode. */
  function MadeExecutable(d: Disk, p: Path): (r: Disk)
    requires Exists(d, p)
    ensures r.dirs == d.dirs && r.files.Keys == d.files.Keys
    ensures p in d.files ==> r.files[p] == d.files[p].(executable := true)
  {
    if p in d.files then Disk(d.dirs, d.files[p := d.files[p].(executable := true)]) else d
  }

  /** The path and every ancestor of it, the root included. */
  function Prefixes(p: Path): (r: set<Path>)
    ensures p in r && [] in r
    ensures forall q | q in r :: |q| <= |p| && q == p[..|q|]
  {
    assert p[..|p|] == p && p[..0] == [];
    set k | 0 <= k <= |p| :: p[..k]
  }

  /** `mkdir(parents=True, exist_ok=True)` succeeds: no ancestor of `p`, nor `p`, is a file. */
  predicate CanMakeDirs(d: Disk, p: Path) {
    forall q | q in Prefixes(p) :: q !in d.files
  }

  function WithDirs(d: Disk, p: Path): (r: Disk)
    ensures r.files == d.files
    ensures r.dirs == d.dirs + Prefixes(p)
  {
    Disk(d.dirs + Prefixes(p), d.files)
  }

  lemma WrittenWellFormed(d: Disk, p: Path, content: string)
    requires WellFormed(d) && CanWrite(d, p)
    ensures WellFormed(Written(d, p, content))
  {
  }

  lemma MadeExecutableWellFormed(d: Disk, p: Path)
    requires WellFormed(d) && Exists(d, p)
    ensures WellFormed(MadeExecutable(d, p))
  {
  }

  /** Creating a directory with its parents keeps the disk well formed and makes `p` a directory. */
  lemma {:induction false} WithDirsWellFormed(d: Disk, p: Path)
    requires WellFormed(d) && CanMakeDirs(d, p)
    ensures WellFormed(WithDirs(d, p))
    ensures p in WithDirs(d, p).dirs
  {
    var r := WithDirs(d, p);
    forall q | q in r.dirs
      ensures Parent(q) in r.dirs
    {
      if q in Prefixes(p) && q != [] {
        assert Parent(q) == p[..|q| - 1];
      }
    }
  }

  /** The filesystem the generator writes into. */
  class FileSystem {
    var dirs: set<Path>
    var files: map<Path, FileEntry>

    function State(): Disk
      reads this
    {
      Disk(dirs, files)
    }

    predicate Valid()
      reads this
    {
      WellFormed(State())
    }

    /** A filesystem holding the given (well-formed) disk. */
    constructor (init: Disk)
      requires WellFormed(init)
      ensures State() == init && Valid()
    {
      dirs, files := init.dirs, init.files;
    }

    /** `open(p, 'w').write(content)`: `ok` is false where Python raises, and then nothing changes. */
    method WriteText(p: Path, content: string) returns (ok: bool)
      requires Valid()
      modifies this
      ensures Valid()
      ensures ok <==> CanWrite(old(State()), p)
      ensures State() == if ok then Written(old(State()), p, content) else old(State())
    {
      ok := Parent(p) in dirs && p !in dirs;
      if ok {
        var wasExecutable := p in files && files[p].executable;
        files := files[p := FileEntry(content, wasExecutable)];
        WrittenWellFormed(old(State()), p, content);
      }
    }

    /** `chmod(0o755)`: `ok` is false where Python raises (the path does not exist). */
    method MakeExecutable(p: Path) returns (ok: bool)
      requires Valid()
      modifies this
      ensures Valid()
      ensures ok <==> Exists(old(State()), p)
      ensures State() == if ok then MadeExecutable(old(State()), p) else old(State())
    {
      ok := p in dirs || p in files;
      if p in files {
        files := files[p := files[p].(executable := true)];
      }
      if ok {
        MadeExecutableWellFormed(old(State()), p);
      }
    }

    /** `mkdir(parents=True, exist_ok=True)`: `ok` is false where Python raises (an ancestor is a file). */
    method MakeDirs(p: Path) returns (ok: bool)
      requires Valid()
      modifies this
      ensures Valid()
      ensures ok <==> CanMakeDirs(old(State()), p)
      ensures ok ==> p in dirs
      ensures State() == if ok then WithDirs(old(State()), p) else old(State())
    {
      ok := forall q | q in Prefixes(p) :: q !in files;
      if ok {
        dirs := dirs + Prefixes(p);
        WithDirsWellFormed(old(State()), p);
      }
    }
  }
}
