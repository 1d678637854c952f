/**
 * `find_analysis_directories`: the walk that collects, for every directory
 * listing an `analysis` subdirectory, the path of that subdirectory.
 */
module AnalysisScan {
  import opened Common
  import opened DirTree

  /** A walked directory lists an `analysis` subdirectory. */
  predicate HasAnalysis(v: Visit) {
    HasSubdir(v.dir, "analysis")
  }

  /** The `analysis` paths of the qualifying visits, in walk order. */
  function AnalysisDirsOf(visits: seq<Visit>): seq<Path> {
    if visits == [] then []
    else
      var last := visits[|visits| - 1];
      AnalysisDirsOf(visits[..|visits| - 1]) + (if HasAnalysis(last) then [last.path + ["analysis"]] else [])
  }

  function CountWithAnalysis(visits: seq<Visit>): nat {
    if visits == [] then 0
    else CountWithAnalysis(visits[..|visits| - 1]) + (if HasAnalysis(visits[|visits| - 1]) then 1 else 0)
  }

  /** The scan, appending `root/analysis` for every walked `root` that lists `analysis`. */
  method FindAnalysisDirectories(start: Path, tree: Dir) returns (found: seq<Path>)
    ensures found == AnalysisDirsOf(Walk(start, tree))
  {
    var visits := Walk(start, tree);
    found := [];
    for i := 0 to |visits|
      invariant found == AnalysisDirsOf(visits[..i])
    {
      assert visits[..i + 1][..i] == visits[..i];
      var v := visits[i];
      if "analysis" in SubdirNames(v.dir) {
        found := found + [v.path + ["analysis"]];
      }
    }
    assert visits[..|visits|] == visits;
  }

  /**
   * One path per walked directory that lists `analysis`, and nothing else;
   * each returned path ends in `analysis` and sits in a walked directory that
   * lists it.
   */
  lemma {:induction false} AnalysisDirsExactlyOnce(visits: seq<Visit>)
    ensures |AnalysisDirsOf(visits)| == CountWithAnalysis(visits)
    ensures forall p :: p in AnalysisDirsOf(visits) <==>
      exists v :: v in visits && HasAnalysis(v) && p == v.path + ["analysis"]
    ensures forall p | p in AnalysisDirsOf(visits) :: Name(p) == "analysis"
  {
    if visits != [] {
      var init, last := visits[..|visits| - 1], visits[|visits| - 1];
      AnalysisDirsExactlyOnce(init);
      assert visits == init + [last];
      assert forall v :: v in visits <==> v in init || v == last;
    }
  }

  /** Every returned directory lies below the starting directory and is itself walked. */
  lemma AnalysisDirsAreWalked(start: Path, tree: Dir, p: Path)
    requires p in AnalysisDirsOf(Walk(start, tree))
    ensures |start| < |p| && p[..|start|] == start
    ensures exists d :: Visit(p, d) in Walk(start, tree)
  {
    var visits := Walk(start, tree);
    AnalysisDirsExactlyOnce(visits);
    var v :| v in visits && HasAnalysis(v) && p == v.path + ["analysis"];
    WalkStaysBelow(start, tree);
    assert p[..|start|] == v.path[..|start|];
    var k :| 0 <= k < |SubdirNames(v.dir)| && SubdirNames(v.dir)[k] == "analysis";
    WalkReachesSubdirs(start, tree, v, k);
  }
}
