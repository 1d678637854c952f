/**
 * `main` of the trajectory-stripping script: for every mutation directory
 * found by the walk, locate the topology and trajectory, count the frames,
 * render the cpptraj input and the batch script, submit it, and record the
 * mutation as a success or a failure; the exit code says whether every
 * mutation went through.
 */
module StripMain {
  import opened Common
  import opened Text
  import opened DirTree
  import opened Submission
  import opened FrameCount
  import opened Locator
  import opened MutationScan
  import opened StripTemplates

  const NoTopology := "prmtop file not found"
  const NoTrajectory := "trajectory file not found"

  /** The stripped trajectory the script asks cpptraj to write. */
  function OutputTrajectory(mutation: string): string {
    "AF-" + mutation + "_solv_gbsa_750.nc"
  }

  /**
   * What the script sees while it handles one `gbsa` directory: the names
   * the directory lists (in listing order), the finished `cpptraj` run that
   * counts the frames and the finished `sbatch` run (`None` where the tool is
   * missing or timed out).
   */
  datatype Observed = Observed(listing: seq<string>, cpptraj: Option<ToolRun>, sbatch: Option<ToolRun>)

  /** `successful_jobs`, `failed_jobs`, `frame_counts` and the files written so far. */
  datatype Summary = Summary(
    successful: seq<(string, string)>,
    failed: seq<(string, string)>,
    frameCounts: map<string, int>,
    written: seq<FileWrite>)

  const NothingYet := Summary([], [], map[], [])

  /** The summary after handling the mutation directory `md`. */
  function Handle(s: Summary, md: MutationDir, obs: Observed): Summary {
    var m := md.mutation;
    var prmtop := FirstMatch(TopologyPatterns(m), obs.listing);
    var nc := FirstAdmissibleMatch(TrajectoryPatterns(m), obs.listing);
    if prmtop.None? then s.(failed := s.failed + [(m, NoTopology)])
    else if nc.None? then s.(failed := s.failed + [(m, NoTrajectory)])
    else
      var count := FrameCountOf(obs.cpptraj);
      var counts := if count.Some? && count.value != 0 then s.frameCounts[m := count.value] else s.frameCounts;
      var input := WriteStripTraj(md.gbsa, m, prmtop.value, nc.value, OutputTrajectory(m));
      var script := WriteStripBash(md.gbsa, m, input.path);
      var outcome := ParseSubmission(obs.sbatch).AsPair();
      var s1 := s.(frameCounts := counts, written := s.written + [input, script]);
      if outcome.0 then s1.(successful := s.successful + [(m, outcome.1)])
      else s1.(failed := s.failed + [(m, outcome.1)])
  }

  /** The summary after handling `dirs` in order, each with what `env` shows for its `gbsa` directory. */
  function Summarize(dirs: seq<MutationDir>, env: Path -> Observed): Summary {
    if dirs == [] then NothingYet
    else Handle(Summarize(dirs[..|dirs| - 1], env), dirs[|dirs| - 1], env(dirs[|dirs| - 1].gbsa))
  }

  lemma SummarizeStep(dirs: seq<MutationDir>, i: nat, env: Path -> Observed)
    requires i < |dirs|
    ensures Summarize(dirs[..i + 1], env) == Handle(Summarize(dirs[..i], env), dirs[i], env(dirs[i].gbsa))
  {
    assert dirs[..i + 1][..i] == dirs[..i];
  }

  /** 1 when there was nothing to do, otherwise 0 exactly when nothing failed. */
  function ExitCode(dirs: seq<MutationDir>, s: Summary): int {
    if dirs == [] then 1 else if s.failed == [] then 0 else 1
  }

  /** The script's `main`, with the walk from `start` over `tree` and the world as `env` shows it. */
  method StripTrajectories(start: Path, tree: Dir, env: Path -> Observed)
    returns (code: int, successful: seq<(string, string)>, failed: seq<(string, string)>,
             frameCounts: map<string, int>, written: seq<FileWrite>)
    ensures var dirs := MutationDirsOf(Walk(start, tree));
      && Summary(successful, failed, frameCounts, written) == Summarize(dirs, env)
      && code == ExitCode(dirs, Summarize(dirs, env))
  {
    var dirs := FindMutationDirectories(start, tree);
    successful, failed, frameCounts, written := [], [], map[], [];
    if |dirs| == 0 {
      return 1, successful, failed, frameCounts, written;
    }
    for i := 0 to |dirs|
      invariant Summary(successful, failed, frameCounts, written) == Summarize(dirs[..i], env)
    {
      var md := dirs[i];
      var obs := env(md.gbsa);
      SummarizeStep(dirs, i, env);
      ghost var before := Summary(successful, failed, frameCounts, written);
      var prmtop, nc := FindTrajectoryFiles(obs.listing, md.mutation);
      if prmtop.None? {
        failed := failed + [(md.mutation, NoTopology)];
        assert Summary(successful, failed, frameCounts, written) == Handle(before, md, obs);
        continue;
      }
      if nc.None? {
        failed := failed + [(md.mutation, NoTrajectory)];
        assert Summary(successful, failed, frameCounts, written) == Handle(before, md, obs);
        continue;
      }
      var count := CountTrajectoryFrames(obs.cpptraj);
      if count.Some? && count.value != 0 {
        frameCounts := frameCounts[md.mutation := count.value];
      }
      var outputNc := OutputTrajectory(md.mutation);
      var input := WriteStripTraj(md.gbsa, md.mutation, prmtop.value, nc.value, outputNc);
      var script := WriteStripBash(md.gbsa, md.mutation, input.path);
      written := written + [input, script];
      var success, info := ParseSubmission(obs.sbatch).AsPair().0, ParseSubmission(obs.sbatch).AsPair().1;
      if success {
        successful := successful + [(md.mutation, info)];
      } else {
        failed := failed + [(md.mutation, info)];
      }
      assert Summary(successful, failed, frameCounts, written) == Handle(before, md, obs);
    }
    assert dirs[..|dirs|] == dirs;
    code := if |failed| == 0 then 0 else 1;
  }

  // ---------------------------------------------------------------------
  // Properties of the bookkeeping

  /** The mutation labels of `dirs`, in order. */
  function Labels(dirs: seq<MutationDir>): (labels: seq<string>)
    ensures |labels| == |dirs| && forall i | 0 <= i < |dirs| :: labels[i] == dirs[i].mutation
  {
    if dirs == [] then [] else Labels(dirs[..|dirs| - 1]) + [dirs[|dirs| - 1].mutation]
  }

  /**
   * Every handled mutation adds exactly one entry, to the successful or to
   * the failed list, under its own label; every recorded frame count is
   * non-zero and belongs to a handled mutation.
   */
  lemma {:induction false} SummaryAccounts(dirs: seq<MutationDir>, env: Path -> Observed)
    ensures |Summarize(dirs, env).successful| + |Summarize(dirs, env).failed| == |dirs|
    ensures forall e | e in Summarize(dirs, env).successful :: e.0 in Labels(dirs)
    ensures forall e | e in Summarize(dirs, env).failed :: e.0 in Labels(dirs)
    ensures forall m | m in Summarize(dirs, env).frameCounts ::
      Summarize(dirs, env).frameCounts[m] != 0 && m in Labels(dirs)
  {
    if dirs != [] {
      var init, last := dirs[..|dirs| - 1], dirs[|dirs| - 1];
      SummaryAccounts(init, env);
      HandleAddsOne(Summarize(init, env), last, env(last.gbsa));
      assert Labels(dirs) == Labels(init) + [last.mutation];
    }
  }

  /** Handling one directory appends one entry, under its label, to one of the two lists, and records at most a non-zero count for it. */
  lemma HandleAddsOne(s: Summary, md: MutationDir, obs: Observed)
    ensures var h := Handle(s, md, obs);
      || (h.failed == s.failed && exists info :: h.successful == s.successful + [(md.mutation, info)])
      || (h.successful == s.successful && exists info :: h.failed == s.failed + [(md.mutation, info)])
    ensures var h := Handle(s, md, obs);
      || h.frameCounts == s.frameCounts
      || (md.mutation in h.frameCounts && h.frameCounts[md.mutation] != 0
          && h.frameCounts == s.frameCounts[md.mutation := h.frameCounts[md.mutation]])
    ensures FrameCountOf(obs.cpptraj) == None || FrameCountOf(obs.cpptraj) == Some(0) ==>
      Handle(s, md, obs).frameCounts == s.frameCounts
    ensures FirstMatch(TopologyPatterns(md.mutation), obs.listing).None? ||
            FirstAdmissibleMatch(TrajectoryPatterns(md.mutation), obs.listing).None? ==>
      Handle(s, md, obs).frameCounts == s.frameCounts
    ensures && FirstMatch(TopologyPatterns(md.mutation), obs.listing).Some?
            && FirstAdmissibleMatch(TrajectoryPatterns(md.mutation), obs.listing).Some?
            && FrameCountOf(obs.cpptraj).Some? && FrameCountOf(obs.cpptraj).value != 0 ==>
      Handle(s, md, obs).frameCounts == s.frameCounts[md.mutation := FrameCountOf(obs.cpptraj).value]
  {
    var m := md.mutation;
    var h := Handle(s, md, obs);
    if FirstMatch(TopologyPatterns(m), obs.listing).None? {
      assert h.failed == s.failed + [(m, NoTopology)];
    } else if FirstAdmissibleMatch(TrajectoryPatterns(m), obs.listing).None? {
      assert h.failed == s.failed + [(m, NoTrajectory)];
    } else {
      var outcome := ParseSubmission(obs.sbatch).AsPair();
      if outcome.0 {
        assert h.successful == s.successful + [(m, outcome.1)];
      } else {
        assert h.failed == s.failed + [(m, outcome.1)];
      }
    }
  }

  /**
   * A directory whose listing has no name ending in `.prmtop` fails with
   * "prmtop file not found", whether or not a trajectory is there, and
   * nothing else is recorded for it.
   */
  lemma MissingTopologyReported(s: Summary, md: MutationDir, obs: Observed)
    requires forall n | n in obs.listing :: !EndsWith(n, TopologySuffix)
    ensures Handle(s, md, obs) == s.(failed := s.failed + [(md.mutation, NoTopology)])
  {
    TopologyChoice(obs.listing, md.mutation);
  }

  /** With directories to handle, the exit code is 0 exactly when every mutation was submitted. */
  lemma ExitCodeMeaning(dirs: seq<MutationDir>, env: Path -> Observed)
    ensures dirs == [] ==> ExitCode(dirs, Summarize(dirs, env)) == 1
    ensures dirs != [] ==>
      (ExitCode(dirs, Summarize(dirs, env)) == 0 <==> |Summarize(dirs, env).successful| == |dirs|)
  {
    SummaryAccounts(dirs, env);
  }

  /** The stripped trajectory the script writes is never picked as an input trajectory. */
  lemma OutputNeverSelected(mutation: string, listing: seq<string>)
    ensures FirstAdmissibleMatch(TrajectoryPatterns(mutation), listing) != Some(OutputTrajectory(mutation))
  {
    TrajectoryChoice(listing, mutation);
    ContainsInfix([], "AF-", mutation + "_solv_gbsa_750.nc");
    assert [] + "AF-" + (mutation + "_solv_gbsa_750.nc") == OutputTrajectory(mutation);
  }

  /**
   * When both files are found, the mutation's two files land in its `gbsa`
   * directory: the cpptraj input reads frames 825 to 850 of the chosen
   * trajectory and writes the stripped one, and the executable batch script
   * runs cpptraj on that very input.
   */
  lemma HandledFiles(s: Summary, md: MutationDir, obs: Observed)
    requires '\n' !in md.mutation && forall n | n in obs.listing :: '\n' !in n
    requires FirstMatch(TopologyPatterns(md.mutation), obs.listing).Some?
    requires FirstAdmissibleMatch(TrajectoryPatterns(md.mutation), obs.listing).Some?
    ensures var h := Handle(s, md, obs);
      var nc := FirstAdmissibleMatch(TrajectoryPatterns(md.mutation), obs.listing).value;
      && |h.written| == |s.written| + 2
      && |SplitOn(Content(h.written[|s.written|]), '\n')| == 10
      && |SplitOn(Content(h.written[|s.written| + 1]), '\n')| == 22
      && h.written[..|s.written|] == s.written
      && var input := h.written[|s.written|];
         var script := h.written[|s.written| + 1];
         && Parent(input.path) == md.gbsa && Parent(script.path) == md.gbsa
         && SplitOn(Content(input), '\n')[2] == "trajin " + nc + " 825 850"
         && SplitOn(Content(input), '\n')[7] == "trajout " + OutputTrajectory(md.mutation) + " netcdf"
         && script.chmod
         && SplitOn(Content(script), '\n')[18] == "cpptraj -i " + Name(input.path) + " > strip_" + md.mutation + ".log 2>&1"
  {
    var m := md.mutation;
    var prmtop := FirstMatch(TopologyPatterns(m), obs.listing).value;
    var nc := FirstAdmissibleMatch(TrajectoryPatterns(m), obs.listing).value;
    TopologyChoice(obs.listing, m);
    TrajectoryChoice(obs.listing, m);
    HandleWrites(s, md, obs);
    StripFilesReadBack(md.gbsa, m, prmtop, nc);
  }

  /** A handled directory whose files were found gets its two files appended, input first. */
  lemma HandleWrites(s: Summary, md: MutationDir, obs: Observed)
    requires FirstMatch(TopologyPatterns(md.mutation), obs.listing).Some?
    requires FirstAdmissibleMatch(TrajectoryPatterns(md.mutation), obs.listing).Some?
    ensures var m := md.mutation;
      var input := WriteStripTraj(md.gbsa, m, FirstMatch(TopologyPatterns(m), obs.listing).value,
                                  FirstAdmissibleMatch(TrajectoryPatterns(m), obs.listing).value, OutputTrajectory(m));
      Handle(s, md, obs).written == s.written + [input, WriteStripBash(md.gbsa, m, input.path)]
  {
  }

  lemma StripFilesReadBack(gbsa: Path, m: string, prmtop: string, nc: string)
    requires '\n' !in m && '\n' !in prmtop && '\n' !in nc
    ensures var input := WriteStripTraj(gbsa, m, prmtop, nc, OutputTrajectory(m));
      var script := WriteStripBash(gbsa, m, input.path);
      && |SplitOn(Content(input), '\n')| == 10
      && |SplitOn(Content(script), '\n')| == 22
      && Parent(input.path) == gbsa && Parent(script.path) == gbsa
      && SplitOn(Content(input), '\n')[2] == "trajin " + nc + " 825 850"
      && SplitOn(Content(input), '\n')[7] == "trajout " + OutputTrajectory(m) + " netcdf"
      && script.chmod
      && SplitOn(Content(script), '\n')[18] == "cpptraj -i " + Name(input.path) + " > strip_" + m + ".log 2>&1"
  {
    assert '\n' !in OutputTrajectory(m);
    StripInputReadBack(gbsa, m, prmtop, nc, OutputTrajectory(m));
    var input := WriteStripTraj(gbsa, m, prmtop, nc, OutputTrajectory(m));
    StripScriptReadBack(gbsa, m, input.path);
  }
}
