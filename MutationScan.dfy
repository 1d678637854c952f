/**
 * `find_mutation_directories`: the walk that collects every `analysis`
 * directory holding a `gbsa` subdirectory, labelled with the mutation, the
 * name of the directory that contains `analysis`.
 */
module MutationScan {
  import opened Common
  import opened DirTree

  /** A `gbsa` directory to process and the mutation it belongs to. */
  datatype MutationDir = MutationDir(gbsa: Path, mutation: string)

  /** A walked directory is named `analysis` and lists a `gbsa` subdirectory. */
  predicate IsAnalysisWithGbsa(v: Visit) {
    Name(v.path) == "analysis" && HasSubdir(v.dir, "gbsa")
  }

  /** What the scan records for such a directory. */
  function EntryFor(v: Visit): MutationDir {
    MutationDir(v.path + ["gbsa"], Name(Parent(v.path)))
  }

  /** The records for the qualifying visits, in walk order. */
  function MutationDirsOf(visits: seq<Visit>): seq<MutationDir> {
    if visits == [] then []
    else
      var last := visits[|visits| - 1];
      MutationDirsOf(visits[..|visits| - 1]) + (if IsAnalysisWithGbsa(last) then [EntryFor(last)] else [])
  }

  /** How many visits qualify. */
  function CountQualifying(visits: seq<Visit>): nat {
    if visits == [] then 0
    else CountQualifying(visits[..|visits| - 1]) + (if IsAnalysisWithGbsa(visits[|visits| - 1]) then 1 else 0)
  }

  /** The scan, appending one record per qualifying directory as the walk goes. */
  method FindMutationDirectories(start: Path, tree: Dir) returns (found: seq<MutationDir>)
    ensures found == MutationDirsOf(Walk(start, tree))
  {
    var visits := Walk(start, tree);
    found := [];
    for i := 0 to |visits|
      invariant found == MutationDirsOf(visits[..i])
    {
      assert visits[..i + 1][..i] == visits[..i];
      var v := visits[i];
      if Name(v.path) == "analysis" && "gbsa" in SubdirNames(v.dir) {
        found := found + [MutationDir(v.path + ["gbsa"], Name(Parent(v.path)))];
      }
    }
    assert visits[..|visits|] == visits;
  }

  /**
   * One record per qualifying walked directory and nothing else: the records
   * are exactly those of the qualifying visits, there are as many as such
   * visits, and each names a `gbsa` directory inside an `analysis` directory,
   * labelled with the name of the directory above `analysis`.
   */
  lemma MutationDirsExactlyOnce(visits: seq<Visit>)
    ensures |MutationDirsOf(visits)| == CountQualifying(visits)
    ensures forall md :: md in MutationDirsOf(visits) <==>
      exists v :: v in visits && IsAnalysisWithGbsa(v) && md == EntryFor(v)
    ensures forall md | md in MutationDirsOf(visits) ::
      && |md.gbsa| >= 2
      && md.gbsa[|md.gbsa| - 2..] == ["analysis", "gbsa"]
      && md.mutation == Name(Parent(Parent(md.gbsa)))
  {
    MutationDirsCount(visits);
    MutationDirsMembers(visits);
    MutationDirsShape(visits);
  }

  lemma {:induction false} MutationDirsCount(visits: seq<Visit>)
    ensures |MutationDirsOf(visits)| == CountQualifying(visits)
  {
    if visits != [] {
      MutationDirsCount(visits[..|visits| - 1]);
    }
  }

  lemma {:induction false} MutationDirsMembers(visits: seq<Visit>)
    ensures forall md :: md in MutationDirsOf(visits) <==>
      exists v :: v in visits && IsAnalysisWithGbsa(v) && md == EntryFor(v)
  {
    if visits != [] {
      var init, last := visits[..|visits| - 1], visits[|visits| - 1];
      MutationDirsMembers(init);
      assert visits == init + [last];
      assert forall v :: v in visits <==> v in init || v == last;
    }
  }

  lemma {:induction false} MutationDirsShape(visits: seq<Visit>)
    ensures forall md | md in MutationDirsOf(visits) ::
      && |md.gbsa| >= 2
      && md.gbsa[|md.gbsa| - 2..] == ["analysis", "gbsa"]
      && md.mutation == Name(Parent(Parent(md.gbsa)))
  {
    if visits != [] {
      var init, last := visits[..|visits| - 1], visits[|visits| - 1];
      MutationDirsShape(init);
      var e := EntryFor(last);
      assert Parent(e.gbsa) == last.path;
      if IsAnalysisWithGbsa(last) {
        assert e.gbsa[|e.gbsa| - 2..] == [Name(last.path), "gbsa"];
      }
    }
  }

  /** With the tree as walked, the records cover every qualifying directory of the tree. */
  lemma FindsEveryAnalysisDirectory(start: Path, tree: Dir, v: Visit)
    requires v in Walk(start, tree) && IsAnalysisWithGbsa(v)
    ensures EntryFor(v) in MutationDirsOf(Walk(start, tree))
  {
    MutationDirsExactlyOnce(Walk(start, tree));
  }
}
