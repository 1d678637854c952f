/**
 * `create_gbsa_directory`, `generate_files` and `main` of the GBSA input
 * generator: for every `analysis` directory found by the walk, make its
 * `gbsa` subdirectory if nothing of that name exists and write the six
 * templates into it, marking the shell script executable. A write, `chmod`
 * or `mkdir` that Python would fail with an exception stops the run; the
 * model reports it as `Raised`, with the filesystem as far as it got.
 */
module GbsaFiles {
  import opened Common
  import opened Text
  import opened DirTree
  import opened FileSys
  import opened GbsaTemplates
  import opened AnalysisScan

  /** Where template `k` of `ts` goes in the directory `g`. */
  function TemplatePath(g: Path, ts: seq<Template>, k: nat): Path
    requires k < |ts|
  {
    g + [ts[k].name]
  }

  /** `filename.endswith('.sh')`: the templates made executable after writing. */
  predicate IsScript(t: Template) {
    EndsWith(t.name, ".sh")
  }

  /** No two templates share a name, as in a dictionary keyed by name. */
  predicate NamesDistinct(ts: seq<Template>) {
    forall i, j | 0 <= i < j < |ts| :: ts[i].name != ts[j].name
  }

  // ---------------------------------------------------------------------
  // create_gbsa_directory

  /**
   * The disk after `create_gbsa_directory(a)`, or `None` where `mkdir` raises:
   * nothing is done when `a/gbsa` exists (as a directory or as a file),
   * otherwise it is made together with any missing parents.
   */
  function Created(d: Disk, a: Path): Option<Disk> {
    var g := a + ["gbsa"];
    if Exists(d, g) then Some(d)
    else if CanMakeDirs(d, g) then Some(WithDirs(d, g))
    else None
  }

  method CreateGbsaDirectory(fs: FileSystem, analysis: Path) returns (gbsa: Path, ok: bool)
    requires fs.Valid()
    modifies fs
    ensures fs.Valid()
    ensures gbsa == analysis + ["gbsa"]
    ensures ok <==> Created(old(fs.State()), analysis).Some?
    ensures fs.State() == if ok then Created(old(fs.State()), analysis).value else old(fs.State())
  {
    gbsa := analysis + ["gbsa"];
    if gbsa in fs.dirs || gbsa in fs.files {
      ok := true;
    } else {
      ok := fs.MakeDirs(gbsa);
    }
  }

  /**
   * `create_gbsa_directory` leaves `a/gbsa` existing, touches no file, only
   * adds directories, changes nothing when `a/gbsa` already existed, and
   * doing it again changes nothing.
   */
  lemma CreatedMeaning(d: Disk, a: Path)
    requires Created(d, a).Some?
    ensures Exists(Created(d, a).value, a + ["gbsa"])
    ensures Created(d, a).value.files == d.files
    ensures d.dirs <= Created(d, a).value.dirs
    ensures Exists(d, a + ["gbsa"]) ==> Created(d, a).value == d
    ensures Created(Created(d, a).value, a) == Created(d, a)
  {
  }

  /** `mkdir` fails only where some ancestor of `a/gbsa` is a file. */
  lemma CreatedFails(d: Disk, a: Path)
    ensures Created(d, a).None? <==>
      !Exists(d, a + ["gbsa"]) && exists q :: q in Prefixes(a + ["gbsa"]) && q in d.files
  {
  }

  // ---------------------------------------------------------------------
  // generate_files, stated for any dictionary of templates

  /** The disk after template `t` is written into `g` and, when it is a shell script, made executable. */
  function WrittenTemplate(d: Disk, g: Path, t: Template): (r: Disk)
    ensures r.dirs == d.dirs
  {
    var w := Written(d, g + [t.name], t.content);
    if IsScript(t) then MadeExecutable(w, g + [t.name]) else w
  }

  /**
   * What writing one template does at path `p`: its own path holds its text,
   * executable exactly when it is a script or the file it overwrote was
   * executable; any other path is unchanged.
   */
  lemma WrittenTemplateAt(d: Disk, g: Path, t: Template, p: Path)
    ensures var r := WrittenTemplate(d, g, t);
      if p == g + [t.name] then
        && p in r.files && r.files[p].content == t.content
        && (r.files[p].executable <==> IsScript(t) || (p in d.files && d.files[p].executable))
      else
        && (p in r.files <==> p in d.files)
        && (p in d.files ==> r.files[p] == d.files[p])
  {
  }

  /** The disk after the first `i` templates of `ts` are written into `g`. */
  function Generated(d: Disk, g: Path, ts: seq<Template>, i: nat): (r: Disk)
    requires i <= |ts|
    ensures r.dirs == d.dirs
  {
    if i == 0 then d else WrittenTemplate(Generated(d, g, ts, i - 1), g, ts[i - 1])
  }

  /** The number of templates written before the first write that fails, from template `k` on. */
  function ReachFrom(d: Disk, g: Path, ts: seq<Template>, k: nat): (n: nat)
    requires k <= |ts|
    ensures k <= n <= |ts|
    decreases |ts| - k
  {
    if k == |ts| then k
    else if CanWrite(d, TemplatePath(g, ts, k)) then ReachFrom(d, g, ts, k + 1)
    else k
  }

  function Reach(d: Disk, g: Path, ts: seq<Template>): nat
  {
    ReachFrom(d, g, ts, 0)
  }

  /** The writes from template `k` on go through up to the reach, and the one at the reach (if any) fails. */
  lemma {:induction false} ReachFromMeaning(d: Disk, g: Path, ts: seq<Template>, k: nat)
    requires k <= |ts|
    ensures forall j | k <= j < ReachFrom(d, g, ts, k) :: CanWrite(d, TemplatePath(g, ts, j))
    ensures ReachFrom(d, g, ts, k) < |ts| ==> !CanWrite(d, TemplatePath(g, ts, ReachFrom(d, g, ts, k)))
    decreases |ts| - k
  {
    if k < |ts| && CanWrite(d, TemplatePath(g, ts, k)) {
      ReachFromMeaning(d, g, ts, k + 1);
    }
  }

  /**
   * `generate_files(gbsa)`: the loop over the templates (the module's
   * `FILE_TEMPLATES`, passed in by `main`), writing each and making each
   * shell script executable; it stops at the first write that raises.
   */
  method GenerateFiles(fs: FileSystem, gbsa: Path, templates: seq<Template>) returns (ok: bool)
    requires fs.Valid()
    modifies fs
    ensures fs.Valid()
    ensures ok <==> Reach(old(fs.State()), gbsa, templates) == |templates|
    ensures fs.State() == Generated(old(fs.State()), gbsa, templates, Reach(old(fs.State()), gbsa, templates))
  {
    ghost var start := fs.State();
    var i := 0;
    while i < |templates|
      invariant 0 <= i <= |templates|
      invariant fs.Valid()
      invariant fs.State() == Generated(start, gbsa, templates, i)
      invariant ReachFrom(start, gbsa, templates, i) == Reach(start, gbsa, templates)
    {
      var written := WriteTemplate(fs, gbsa, templates[i]);
      if !written {
        return false;
      }
      i := i + 1;
    }
    return true;
  }

  /** One pass of the loop: write the template's text, then `chmod(0o755)` when its name ends with `.sh`. */
  method WriteTemplate(fs: FileSystem, gbsa: Path, t: Template) returns (ok: bool)
    requires fs.Valid()
    modifies fs
    ensures fs.Valid()
    ensures ok <==> CanWrite(old(fs.State()), gbsa + [t.name])
    ensures fs.State() == if ok then WrittenTemplate(old(fs.State()), gbsa, t) else old(fs.State())
  {
    var path := gbsa + [t.name];
    ok := fs.WriteText(path, t.content);
    if ok && EndsWith(t.name, ".sh") {
      var made := fs.MakeExecutable(path);
    }
  }

  /** The paths of the first `i` templates in `g`. */
  function TemplatePaths(g: Path, ts: seq<Template>, i: nat): set<Path>
    requires i <= |ts|
  {
    set k | 0 <= k < i :: TemplatePath(g, ts, k)
  }

  /** Two template paths coincide only for the same directory and the same template. */
  lemma TemplatePathsDistinct(g: Path, g': Path, ts: seq<Template>, j: nat, k: nat)
    requires NamesDistinct(ts)
    requires j < |ts| && k < |ts|
    requires TemplatePath(g, ts, j) == TemplatePath(g', ts, k)
    ensures g == g' && j == k
  {
    var p := TemplatePath(g, ts, j);
    assert p[..|g|] == g && p[..|g'|] == g';
    assert p[|g|] == ts[j].name && p[|g'|] == ts[k].name;
  }

  /**
   * Writing the first `i` templates into `g` leaves each of them holding its
   * template text, executable exactly when its name ends with `.sh` or the
   * file it overwrote was executable, and changes no other path.
   */
  lemma GeneratedEffect(d: Disk, g: Path, ts: seq<Template>, i: nat)
    requires NamesDistinct(ts)
    requires i <= |ts|
    ensures forall k | 0 <= k < i ::
      && TemplatePath(g, ts, k) in Generated(d, g, ts, i).files
      && Generated(d, g, ts, i).files[TemplatePath(g, ts, k)].content == ts[k].content
      && (Generated(d, g, ts, i).files[TemplatePath(g, ts, k)].executable <==>
            EndsWith(ts[k].name, ".sh")
            || (TemplatePath(g, ts, k) in d.files && d.files[TemplatePath(g, ts, k)].executable))
    ensures forall p | p !in TemplatePaths(g, ts, i) ::
      && (p in Generated(d, g, ts, i).files <==> p in d.files)
      && (p in d.files ==> Generated(d, g, ts, i).files[p] == d.files[p])
  {
    forall k | 0 <= k < i
      ensures && TemplatePath(g, ts, k) in Generated(d, g, ts, i).files
              && Generated(d, g, ts, i).files[TemplatePath(g, ts, k)].content == ts[k].content
              && (Generated(d, g, ts, i).files[TemplatePath(g, ts, k)].executable <==>
                    IsScript(ts[k])
                    || (TemplatePath(g, ts, k) in d.files && d.files[TemplatePath(g, ts, k)].executable))
    {
      GeneratedAt(d, g, ts, i, k);
    }
    forall p | p !in TemplatePaths(g, ts, i)
      ensures && (p in Generated(d, g, ts, i).files <==> p in d.files)
              && (p in d.files ==> Generated(d, g, ts, i).files[p] == d.files[p])
    {
      forall j | 0 <= j < i
        ensures TemplatePath(g, ts, j) != p
      {
        assert TemplatePath(g, ts, j) in TemplatePaths(g, ts, i);
      }
      GeneratedOutside(d, g, ts, i, p);
    }
  }

  /** Template `k`, once written, holds its text whatever the later writes do. */
  lemma {:induction false} GeneratedAt(d: Disk, g: Path, ts: seq<Template>, i: nat, k: nat)
    requires NamesDistinct(ts)
    requires k < i <= |ts|
    ensures var r := Generated(d, g, ts, i);
      var p := TemplatePath(g, ts, k);
      && p in r.files && r.files[p].content == ts[k].content
      && (r.files[p].executable <==> IsScript(ts[k]) || (p in d.files && d.files[p].executable))
  {
    var prev := Generated(d, g, ts, i - 1);
    var p := TemplatePath(g, ts, k);
    WrittenTemplateAt(prev, g, ts[i - 1], p);
    if k == i - 1 {
      forall j | 0 <= j < i - 1
        ensures TemplatePath(g, ts, j) != p
      {
        assert TemplatePath(g, ts, j)[|g|] != p[|g|];
      }
      GeneratedOutside(d, g, ts, i - 1, p);
    } else {
      assert p[|g|] != TemplatePath(g, ts, i - 1)[|g|];
      GeneratedAt(d, g, ts, i - 1, k);
    }
  }

  /** A path none of the first `i` templates is written to keeps what it held. */
  lemma {:induction false} GeneratedOutside(d: Disk, g: Path, ts: seq<Template>, i: nat, p: Path)
    requires i <= |ts|
    requires forall j | 0 <= j < i :: TemplatePath(g, ts, j) != p
    ensures && (p in Generated(d, g, ts, i).files <==> p in d.files)
            && (p in d.files ==> Generated(d, g, ts, i).files[p] == d.files[p])
  {
    if i > 0 {
      assert TemplatePath(g, ts, i - 1) != p;
      WrittenTemplateAt(Generated(d, g, ts, i - 1), g, ts[i - 1], p);
      GeneratedOutside(d, g, ts, i - 1, p);
    }
  }

  /** `generate_files` run twice leaves the same disk as run once. */
  lemma GeneratedIdempotent(d: Disk, g: Path, ts: seq<Template>)
    requires NamesDistinct(ts)
    ensures Generated(Generated(d, g, ts, |ts|), g, ts, |ts|) == Generated(d, g, ts, |ts|)
  {
    var n := |ts|;
    var once := Generated(d, g, ts, n);
    var twice := Generated(once, g, ts, n);
    GeneratedEffect(d, g, ts, n);
    GeneratedEffect(once, g, ts, n);
    forall p | p in once.files
      ensures p in twice.files && twice.files[p] == once.files[p]
    {
      if p in TemplatePaths(g, ts, n) {
        var k :| 0 <= k < n && p == TemplatePath(g, ts, k);
      }
    }
    assert twice.files == once.files;
  }

  /** Every `gbsa` directory receives the same texts: none depends on the directory or on what was there. */
  lemma GeneratedIndependent(d: Disk, g: Path, d': Disk, g': Path, ts: seq<Template>, k: nat)
    requires NamesDistinct(ts)
    requires k < |ts|
    ensures TemplatePath(g, ts, k) in Generated(d, g, ts, |ts|).files
    ensures TemplatePath(g', ts, k) in Generated(d', g', ts, |ts|).files
    ensures Generated(d, g, ts, |ts|).files[TemplatePath(g, ts, k)].content
         == Generated(d', g', ts, |ts|).files[TemplatePath(g', ts, k)].content
  {
    GeneratedEffect(d, g, ts, |ts|);
    GeneratedEffect(d', g', ts, |ts|);
  }

  /** All writes succeed exactly when `g` is a directory and none of the template names in it is one. */
  lemma ReachAll(d: Disk, g: Path, ts: seq<Template>)
    requires ts != []
    ensures Reach(d, g, ts) == |ts| <==>
      g in d.dirs && forall k | 0 <= k < |ts| :: TemplatePath(g, ts, k) !in d.dirs
  {
    ReachFromMeaning(d, g, ts, 0);
    forall k | 0 <= k < |ts|
      ensures Parent(TemplatePath(g, ts, k)) == g
    {
      assert TemplatePath(g, ts, k)[..|g|] == g;
    }
  }

  // ---------------------------------------------------------------------
  // main

  /** How a run ends and the disk it leaves. */
  datatype Outcome = Outcome(exit: Exit, disk: Disk)

  /** What one step does to the disk, and whether it went through. */
  datatype StepResult = StepResult(ok: bool, disk: Disk)

  /** One `analysis` directory: create `gbsa`, then generate the files; not `ok` where Python raises. */
  function Step(d: Disk, a: Path, ts: seq<Template>): StepResult {
    var created := Created(d, a);
    if created.None? then StepResult(false, d)
    else
      var g := a + ["gbsa"];
      var n := Reach(created.value, g, ts);
      StepResult(n == |ts|, Generated(created.value, g, ts, n))
  }

  /** The `main` loop over the `analysis` directories, stopping at the first exception. */
  function Run(d: Disk, analysisDirs: seq<Path>, ts: seq<Template>): (r: Outcome)
    ensures r.exit == Returned(0) || r.exit == Raised
    decreases |analysisDirs|
  {
    if analysisDirs == [] then Outcome(Returned(0), d)
    else
      var step := Step(d, analysisDirs[0], ts);
      if step.ok then Run(step.disk, analysisDirs[1..], ts) else Outcome(Raised, step.disk)
  }

  /**
   * `main`: walk from `start`, and for every `analysis` directory found
   * create `gbsa` and generate the files of `FILE_TEMPLATES`; 0 when all of
   * that went through, including when there was nothing to do.
   */
  method GbsaMain(fs: FileSystem, start: Path, tree: Dir) returns (exit: Exit)
    requires fs.Valid()
    modifies fs
    ensures fs.Valid()
    ensures Outcome(exit, fs.State()) == Run(old(fs.State()), AnalysisDirsOf(Walk(start, tree)), FileTemplates)
  {
    var analysisDirs := FindAnalysisDirectories(start, tree);
    if |analysisDirs| == 0 {
      return Returned(0);
    }
    exit := ProcessAnalysisDirectories(fs, analysisDirs, FileTemplates);
  }

  /** The loop of `main` over the found directories, generating `templates` in each; an exception ends it. */
  method ProcessAnalysisDirectories(fs: FileSystem, analysisDirs: seq<Path>, templates: seq<Template>)
    returns (exit: Exit)
    requires fs.Valid()
    modifies fs
    ensures fs.Valid()
    ensures Outcome(exit, fs.State()) == Run(old(fs.State()), analysisDirs, templates)
  {
    var i := 0;
    assert analysisDirs[i..] == analysisDirs;
    while i < |analysisDirs|
      invariant 0 <= i <= |analysisDirs|
      invariant fs.Valid()
      invariant Run(fs.State(), analysisDirs[i..], templates) == Run(old(fs.State()), analysisDirs, templates)
    {
      assert analysisDirs[i..][0] == analysisDirs[i] && analysisDirs[i..][1..] == analysisDirs[i + 1..];
      var gbsa, created := CreateGbsaDirectory(fs, analysisDirs[i]);
      if !created {
        return Raised;
      }
      var generated := GenerateFiles(fs, gbsa, templates);
      if !generated {
        return Raised;
      }
      i := i + 1;
    }
    return Returned(0);
  }

  /** `g` holds every template with its text, each shell script executable. */
  predicate Populated(d: Disk, g: Path, ts: seq<Template>) {
    && g in d.dirs
    && forall k | 0 <= k < |ts| ::
      && TemplatePath(g, ts, k) in d.files
      && d.files[TemplatePath(g, ts, k)].content == ts[k].content
      && (IsScript(ts[k]) ==> d.files[TemplatePath(g, ts, k)].executable)
  }

  /** Generating the files in any directory keeps every populated directory populated. */
  lemma PopulatedKept(d: Disk, g: Path, g': Path, ts: seq<Template>)
    requires NamesDistinct(ts)
    requires Populated(d, g, ts)
    ensures Populated(Generated(d, g', ts, |ts|), g, ts)
  {
    GeneratedEffect(d, g', ts, |ts|);
    forall k | 0 <= k < |ts| && TemplatePath(g, ts, k) in TemplatePaths(g', ts, |ts|)
      ensures TemplatePath(g, ts, k) == TemplatePath(g', ts, k)
    {
      var j :| 0 <= j < |ts| && TemplatePath(g, ts, k) == TemplatePath(g', ts, j);
      TemplatePathsDistinct(g, g', ts, k, j);
    }
  }

  /** A step that goes through leaves its `gbsa` directory populated and keeps the others populated. */
  lemma StepPopulates(d: Disk, a: Path, g: Path, ts: seq<Template>)
    requires ts != [] && NamesDistinct(ts)
    requires Step(d, a, ts).ok
    requires Populated(d, g, ts) || g == a + ["gbsa"]
    ensures Populated(Step(d, a, ts).disk, g, ts)
  {
    var d1 := Created(d, a).value;
    var g1 := a + ["gbsa"];
    ReachAll(d1, g1, ts);
    GeneratedEffect(d1, g1, ts, |ts|);
    if g != g1 {
      PopulatedKept(d1, g, g1, ts);
    }
  }

  /**
   * When `main` returns 0, every `analysis` directory it was given has a
   * `gbsa` subdirectory holding every template's text, the shell scripts
   * executable.
   */
  lemma {:induction false} RunPopulates(d: Disk, analysisDirs: seq<Path>, ts: seq<Template>)
    requires ts != [] && NamesDistinct(ts)
    requires Run(d, analysisDirs, ts).exit == Returned(0)
    ensures forall a | a in analysisDirs :: Populated(Run(d, analysisDirs, ts).disk, a + ["gbsa"], ts)
    decreases |analysisDirs|
  {
    if analysisDirs != [] {
      var a := analysisDirs[0];
      var d1 := Step(d, a, ts).disk;
      RunPopulates(d1, analysisDirs[1..], ts);
      StepPopulates(d, a, a + ["gbsa"], ts);
      RunKeepsPopulated(d1, analysisDirs[1..], a + ["gbsa"], ts);
    }
  }

  lemma {:induction false} RunKeepsPopulated(d: Disk, analysisDirs: seq<Path>, g: Path, ts: seq<Template>)
    requires ts != [] && NamesDistinct(ts)
    requires Run(d, analysisDirs, ts).exit == Returned(0)
    requires Populated(d, g, ts)
    ensures Populated(Run(d, analysisDirs, ts).disk, g, ts)
    decreases |analysisDirs|
  {
    if analysisDirs != [] {
      StepPopulates(d, analysisDirs[0], g, ts);
      RunKeepsPopulated(Step(d, analysisDirs[0], ts).disk, analysisDirs[1..], g, ts);
    }
  }

  /**
   * With the six fixed templates: when `main` returns 0, every `analysis`
   * directory found has a `gbsa` subdirectory holding the six texts, and
   * `MM-GBSA.sh` in it is executable.
   */
  lemma MainPopulates(d: Disk, analysisDirs: seq<Path>)
    requires Run(d, analysisDirs, FileTemplates).exit == Returned(0)
    ensures forall a | a in analysisDirs ::
      && Populated(Run(d, analysisDirs, FileTemplates).disk, a + ["gbsa"], FileTemplates)
      && a + ["gbsa", "MM-GBSA.sh"] in Run(d, analysisDirs, FileTemplates).disk.files
      && Run(d, analysisDirs, FileTemplates).disk.files[a + ["gbsa", "MM-GBSA.sh"]].executable
  {
    TemplateNamesDistinct();
    OnlyMmGbsaShIsScript();
    RunPopulates(d, analysisDirs, FileTemplates);
    forall a | a in analysisDirs
      ensures TemplatePath(a + ["gbsa"], FileTemplates, 4) == a + ["gbsa", "MM-GBSA.sh"]
    {
    }
  }
}
