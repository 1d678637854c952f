/**
 * `write_strip_traj` and `write_strip_bash`: the cpptraj input that keeps
 * frames 825 to 850 of a trajectory without water and potassium, and the
 * SLURM batch script that runs it. Each is rendered as the file the script
 * writes (its path, its text, and whether it is then made executable); the
 * write itself is not part of this model.
 */
module StripTemplates {
  import opened Common
  import opened Text

  /** Which of the two templates a file is rendered from, and what is filled into it. */
  datatype Body =
    | CpptrajInput(prmtop: string, inputTrajectory: string, outputTrajectory: string)
    | BatchScript(mutation: string, inputName: string)

  /**
   * A file the script writes: where, from which filled-in template, and
   * whether it then runs `chmod(0o755)` on it. `Content` renders the text.
   */
  datatype FileWrite = FileWrite(path: Path, body: Body, chmod: bool)

  function StripInputName(mutation: string): string {
    "strip_traj_" + mutation + ".in"
  }

  function StripScriptName(mutation: string): string {
    "strip_traj_" + mutation + ".sh"
  }

  /** The lines of the cpptraj input; the file ends with a newline, hence the empty last line. */
  function StripInputLines(prmtop: string, inputTrajectory: string, outputTrajectory: string): seq<string> {
    [ "parm " + prmtop,
      "",
      "trajin " + inputTrajectory + " 825 850",
      "",
      "autoimage origin",
      "strip :WAT,K+",
      "",
      "trajout " + outputTrajectory + " netcdf",
      "run",
      "" ]
  }

  function WriteStripTraj(outputDir: Path, mutation: string, prmtop: string, inputTrajectory: string,
                          outputTrajectory: string): FileWrite
  {
    FileWrite(outputDir + [StripInputName(mutation)], CpptrajInput(prmtop, inputTrajectory, outputTrajectory), false)
  }

  /** The SLURM directives that open the batch script, and the blank line after them. */
  function SlurmHeader(mutation: string): seq<string> {
    [ "#!/bin/bash",
      "#SBATCH --job-name=" + "strip_" + mutation,
      "#SBATCH --output=" + "strip_" + mutation + ".out",
      "#SBATCH --error=" + "strip_" + mutation + ".err",
      "#SBATCH --nodes=1",
      "#SBATCH --ntasks=1",
      "#SBATCH --cpus-per-task=1",
      "#SBATCH --mem=8G",
      "#SBATCH --partition=" + "cisneros",
      "#SBATCH --nodelist=" + "g-02-04",
      "" ]
  }

  /** The commands of the batch script, which run cpptraj on the input file `inputName`. */
  function StripCommands(mutation: string, inputName: string): seq<string> {
    [ "module load " + "amber/24-cuda",
      "module list",
      "",
      "echo \"Starting " + "trajectory stripping for " + mutation + "...\"",
      "echo \"Input file: " + inputName + "\"",
      "echo \"Working " + "directory: $(pwd)\"",
      "",
      "cpptraj -i " + inputName + " > strip_" + mutation + ".log 2>&1",
      "",
      "echo \"Stripping " + "completed!\"",
      "" ]
  }

  /** The lines of the batch script; it ends with a newline, hence the empty last line. */
  function StripScriptLines(mutation: string, inputName: string): seq<string> {
    SlurmHeader(mutation) + StripCommands(mutation, inputName)
  }

  /** The batch script beside the cpptraj input, made executable; it names the input by its last component. */
  function WriteStripBash(outputDir: Path, mutation: string, cpptrajInput: Path): FileWrite {
    FileWrite(outputDir + [StripScriptName(mutation)], BatchScript(mutation, Name(cpptrajInput)), true)
  }

  /** The lines of a rendered template. */
  function BodyLines(b: Body): seq<string> {
    match b
    case CpptrajInput(prmtop, inputTrajectory, outputTrajectory) =>
      StripInputLines(prmtop, inputTrajectory, outputTrajectory)
    case BatchScript(mutation, inputName) => StripScriptLines(mutation, inputName)
  }

  /** The text written: the lines joined by newlines. */
  function Content(w: FileWrite): string {
    Join(BodyLines(w.body), '\n')
  }

  /**
   * The cpptraj input is `strip_traj_<m>.in` in the output directory and,
   * read back line by line, loads the topology, reads frames 825 to 850 of
   * the input trajectory and writes the output trajectory in NetCDF; it is
   * not made executable.
   */
  lemma StripInputReadBack(outputDir: Path, mutation: string, prmtop: string, inputTrajectory: string,
                           outputTrajectory: string)
    requires '\n' !in prmtop && '\n' !in inputTrajectory && '\n' !in outputTrajectory
    ensures var w := WriteStripTraj(outputDir, mutation, prmtop, inputTrajectory, outputTrajectory);
      && Parent(w.path) == outputDir && Name(w.path) == "strip_traj_" + mutation + ".in"
      && !w.chmod
      && |SplitOn(Content(w), '\n')| == 10
      && SplitOn(Content(w), '\n')[0] == "parm " + prmtop
      && SplitOn(Content(w), '\n')[2] == "trajin " + inputTrajectory + " 825 850"
      && SplitOn(Content(w), '\n')[7] == "trajout " + outputTrajectory + " netcdf"
  {
    var lines := StripInputLines(prmtop, inputTrajectory, outputTrajectory);
    assert forall k | 0 <= k < |lines| :: '\n' !in lines[k];
    SplitJoin(lines, '\n');
    var w := WriteStripTraj(outputDir, mutation, prmtop, inputTrajectory, outputTrajectory);
    assert w.path[..|w.path| - 1] == outputDir;
  }

  /**
   * The batch script is `strip_traj_<m>.sh` in the output directory, is made
   * executable, and, read back line by line, names the job `strip_<m>` and
   * runs `cpptraj -i` on the input file's name, logging to `strip_<m>.log`.
   */
  lemma StripScriptReadBack(outputDir: Path, mutation: string, cpptrajInput: Path)
    requires '\n' !in mutation && '\n' !in Name(cpptrajInput)
    ensures var w := WriteStripBash(outputDir, mutation, cpptrajInput);
      && Parent(w.path) == outputDir && Name(w.path) == "strip_traj_" + mutation + ".sh"
      && w.chmod
      && |SplitOn(Content(w), '\n')| == 22
      && SplitOn(Content(w), '\n')[1] == "#SBATCH --job-name=strip_" + mutation
      && SplitOn(Content(w), '\n')[18] == "cpptraj -i " + Name(cpptrajInput) + " > strip_" + mutation + ".log 2>&1"
  {
    var lines := StripScriptLines(mutation, Name(cpptrajInput));
    ScriptLinesOneEach(mutation, Name(cpptrajInput));
    SplitJoin(lines, '\n');
    var w := WriteStripBash(outputDir, mutation, cpptrajInput);
    assert w.path[..|w.path| - 1] == outputDir;
    assert "#SBATCH --job-name=" + "strip_" + mutation == "#SBATCH --job-name=strip_" + mutation;
  }

  lemma ScriptLinesOneEach(mutation: string, inputName: string)
    requires '\n' !in mutation && '\n' !in inputName
    ensures forall k | 0 <= k < |StripScriptLines(mutation, inputName)| :: '\n' !in StripScriptLines(mutation, inputName)[k]
  {
    HeaderLinesOneEach(mutation);
    CommandLinesOneEach(mutation, inputName);
  }

  lemma HeaderLinesOneEach(mutation: string)
    requires '\n' !in mutation
    ensures forall k | 0 <= k < |SlurmHeader(mutation)| :: '\n' !in SlurmHeader(mutation)[k]
  {
    var h := SlurmHeader(mutation);
    assert '\n' !in h[0];
    assert '\n' !in h[1];
    assert '\n' !in h[2];
    assert '\n' !in h[3];
    assert '\n' !in h[4];
    assert '\n' !in h[5];
    assert '\n' !in h[6];
    assert '\n' !in h[7];
    assert '\n' !in h[8];
    assert '\n' !in h[9];
    assert '\n' !in h[10];
  }

  lemma CommandLinesOneEach(mutation: string, inputName: string)
    requires '\n' !in mutation && '\n' !in inputName
    ensures forall k | 0 <= k < |StripCommands(mutation, inputName)| :: '\n' !in StripCommands(mutation, inputName)[k]
  {
    var c := StripCommands(mutation, inputName);
    assert '\n' !in c[0];
    assert '\n' !in c[1];
    assert '\n' !in c[2];
    assert '\n' !in c[3];
    assert '\n' !in c[4];
    assert '\n' !in c[5];
    assert '\n' !in c[6];
    assert '\n' !in c[7];
    assert '\n' !in c[8];
    assert '\n' !in c[9];
    assert '\n' !in c[10];
  }
}
