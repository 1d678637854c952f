# Trajectory stripping and GBSA input generation, modelled in Dafny

Two command-line scripts prepare MM-GBSA free-energy runs for a set of
protein mutations. Each mutation lives in its own directory. Inside it,
`analysis/gbsa` holds the topology (`.prmtop`) and trajectory (`.nc`) files.

- `strip_trajectories.py` walks the tree for `analysis/gbsa` directories,
  which gives it the mutation label (the name of the directory above
  `analysis`). For each one it:
  - picks a topology and a trajectory by an ordered list of wildcard patterns;
  - asks `cpptraj` how many frames the trajectory holds;
  - renders a cpptraj input that keeps frames 825 to 850 without water or
    potassium, plus a SLURM batch script that runs it;
  - submits the script with `sbatch`.

  Each mutation ends up on a success list or a failure list. The exit code is
  0 only when the walk found mutations and none of them failed.
- `generate_gbsa_files.py` walks the tree for directories that list an
  `analysis` subdirectory. It creates `analysis/gbsa` when nothing of that
  name exists and writes six fixed template files into it. The shell script
  among them is made executable.

The external world is an input to the model:

- a directory tree is a datatype, and `os.walk` is a pre-order function over it (`DirTree`);
- a directory listing is a sequence of names, in the order the directory yields them;
- a finished tool run is a record of exit status, standard output and standard error (`Common.ToolRun`), or `None` when the tool is missing or timed out;
- the filesystem the generator writes into is a set of directories plus a map from file paths to contents and an executable flag. It exists as a value (`FileSys.Disk`) and as the object the generator mutates (`FileSys.FileSystem`).

Python's string operations appear as Dafny functions in `Text`:

- `strip`, `split()` and `split('\n')`;
- `lower` on ASCII letters;
- `int()` on an optional sign and ASCII digits;
- the substring test `in`.

`Glob` holds wildcard matching for patterns whose only metacharacter is `*`.

Each loop of the scripts is a method. Its `ensures` ties the result, or the
new filesystem state, to a specification function. Lemmas then prove what
the scripts promise about those functions.

## Model

| member | source | states |
|---|---|---|
| Text.Strip | strip_trajectories.py:119 | `str.strip()`: the result is the input with a run of leading and a run of trailing whitespace removed and nothing else changed. Neither of its ends is whitespace, and a text whose ends are not whitespace comes back unchanged |
| Text.Words | strip_trajectories.py:170 | `str.split()`: every word is non-empty and contains no whitespace |
| Text.WordsSingle | strip_trajectories.py:170 | `str.split()` of a single non-empty word without whitespace is that word alone |
| Text.WordsCons | strip_trajectories.py:170 | `str.split()` of a word, a whitespace character and a rest is the word followed by the split of the rest |
| Text.WordsOfJoin | strip_trajectories.py:121 | splitting the single-space join of non-empty, whitespace-free words gives back exactly those words |
| Text.SplitOn | strip_trajectories.py:167 | `str.split('\n')` yields at least one piece, and no piece contains the separator |
| Text.SplitJoin | strip_trajectories.py:167 | splitting lines joined by the separator gives back the lines, when none contains it |
| Text.JoinSplit | strip_trajectories.py:167 | joining the pieces of a split with the separator gives back the text |
| Text.ParseShow | strip_trajectories.py:174 | `int()` (`ParseInt`) reads back the decimal rendering of every integer, negative ones included. Python also limits the rendering to 4300 digits (see "## Left out") |
| Text.Lower | strip_trajectories.py:168-172 | `str.lower()` on ASCII: the result has the same length and no capital letter. Capitals are replaced by their lower-case letter and every other character is kept |
| FrameCount.CountTrajectoryFrames | strip_trajectories.py:138-181 | the nested scan with early return computes the specified count. The line loop keeps the count of the remaining lines, and the word loop keeps the count of the line. A run that did not finish gives unknown |
| FrameCount.CountInWordsFinds | strip_trajectories.py:171-176 | within a line, the result is the integer after the first word equal to "read" (any case) that is followed by a parseable integer. It is unknown exactly when no such word exists. A non-integer after "read" does not stop the scan |
| FrameCount.CountInLinesFinds | strip_trajectories.py:167-178 | over the lines in order, the result is the value of the first hit in reading order. A hit is a qualifying line (its lower-case form contains "frames" and "read") with such a word. The result is unknown exactly when there is no hit |
| FrameCount.FrameCountMeaning | strip_trajectories.py:167-178 | the same first-hit characterisation, stated for a finished `cpptraj` run |
| FrameCount.ReadFramesLine | strip_trajectories.py:166-174 | output `Read <n> frames.` reports `n`, whatever the exit status and error stream |
| Submission.ParseSubmission | strip_trajectories.py:109-135 | there are four outcomes. Tool missing happens exactly when there is no run, and carries the fixed "sbatch command not found" message. Failed submission happens exactly when the status is non-zero, and carries "Failed to submit job: " followed by stderr. Submitted happens exactly when the status is 0 and the stripped output contains "Submitted batch job"; the job id is then its last word, non-empty and whitespace-free. Otherwise the output is unexpected and carried stripped |
| Submission.SuccessFlag | strip_trajectories.py:119-135 | the `(success, job id or error)` pair (`AsPair`) has a true flag exactly for a submission. Its text is the job id for a submission, the stripped output for unexpected output, and the error message for a failed run or a missing `sbatch` |
| Submission.MissingToolIsDistinct | strip_trajectories.py:128-135 | a failed submission's pair never equals the missing-tool pair |
| Submission.SubmittedJobId | strip_trajectories.py:118-123 | exit 0 with `Submitted batch job <id>` and a newline gives exactly `<id>` |
| Submission.ExampleSubmitted | strip_trajectories.py:118-123 | `Submitted batch job 4242` gives `(True, "4242")` |
| Submission.ExampleFailed | strip_trajectories.py:128-131 | exit 1 with stderr "bad partition" gives `(False, "Failed to submit job: bad partition")` |
| Glob.Matches | strip_trajectories.py:237 | the glob result (`Match` on each listed name) holds listed names that match, and every listed name that matches |
| Glob.MatchesHead | strip_trajectories.py:237-240 | the glob result keeps the listing order: when some listed name matches, the result is non-empty and starts with the first one |
| Glob.MatchesHeadListed | strip_trajectories.py:237-240 | a non-empty glob result starts with the first listed name that matches |
| Glob.MatchLiteral | strip_trajectories.py:228-230 | a pattern without `*` matches exactly itself |
| Glob.MatchEndsWith | strip_trajectories.py:227-247 | whatever matches a pattern ending in a `*`-free literal ends with that literal |
| Glob.MatchStarSuffix | strip_trajectories.py:232-233 | `*<lit>` matches exactly the names ending with `<lit>` |
| Locator.Admissibles | strip_trajectories.py:251-254 | the exclusion filter keeps every admissible name and nothing else. Admissible means no "AF-" and either "gbsa" or "imaged" in the name |
| Locator.AdmissibleMatchesHead | strip_trajectories.py:249-257 | the filtered glob result keeps the listing order: when some listed name matches and is admissible, the result starts with the first one |
| Locator.AdmissibleMatchesHeadListed | strip_trajectories.py:249-257 | a non-empty filtered glob result starts with the first listed name that matches and is admissible |
| Locator.FindTrajectoryFiles | strip_trajectories.py:215-259 | the two pattern loops with `break` compute the earliest-pattern choices. A chosen topology is listed. A chosen trajectory is listed and admissible |
| Locator.FirstMatchPrecedence | strip_trajectories.py:235-240 | the choice is the first listed match of the earliest pattern with any match. There is none exactly when no pattern matches |
| Locator.FirstMatchIsFirstListed | strip_trajectories.py:235-240 | a chosen topology is the first name in listing order that the earliest matching pattern matches |
| Locator.FirstAdmissiblePrecedence | strip_trajectories.py:249-257 | a pattern whose matches are all filtered out falls through. The choice is the first admissible match of the earliest pattern that has one, and there is none exactly when no pattern has one |
| Locator.FirstAdmissibleIsFirstListed | strip_trajectories.py:249-257 | a chosen trajectory is the first name in listing order that the earliest pattern with an admissible match matches and admits |
| Locator.TopologyPatternsEndWithSuffix | strip_trajectories.py:227-233 | every topology pattern ends in `.prmtop` |
| Locator.TrajectoryPatternsEndWithSuffix | strip_trajectories.py:243-247 | every trajectory pattern ends in `.nc` |
| Locator.TopologyChoice | strip_trajectories.py:227-240 | a chosen topology is a listed `.prmtop` name. None is chosen exactly when no listed name ends in `.prmtop` |
| Locator.ExactTopologyWins | strip_trajectories.py:227-240 | if `strip.1xjv_POT1_ssDNA-<m>_wat.prmtop` is listed, it is chosen over any other `.prmtop` (for a label without `*`) |
| Locator.TrajectoryChoice | strip_trajectories.py:243-257 | a chosen trajectory is a listed, admissible `.nc` name. None is chosen exactly when no listed `.nc` name is admissible |
| DirTree.SubdirNames | strip_trajectories.py:202 | the `dirs` list of a walked directory is its subdirectories' names in order |
| DirTree.Walk | strip_trajectories.py:202 | `os.walk` (in both scripts; generate_gbsa_files.py:112 too) is top-down: its first visit is the starting directory itself |
| DirTree.WalkStaysBelow | strip_trajectories.py:202 | every path the walk yields lies at or below the starting path |
| DirTree.WalkReachesSubdirs | strip_trajectories.py:202 | the walk is complete: every subdirectory of a walked directory is walked, under its path |
| MutationScan.FindMutationDirectories | strip_trajectories.py:198-212 | the walk loop appends the records of the qualifying directories, in walk order |
| MutationScan.MutationDirsExactlyOnce | strip_trajectories.py:202-210 | there is one record per walked directory named `analysis` that lists `gbsa`, and nothing else. The record is (`…/analysis/gbsa`, name of the directory above `analysis`) |
| MutationScan.FindsEveryAnalysisDirectory | strip_trajectories.py:202-210 | every qualifying walked directory has its record |
| AnalysisScan.FindAnalysisDirectories | generate_gbsa_files.py:108-117 | the walk loop appends `root/analysis` for every walked `root` that lists `analysis`, in walk order |
| AnalysisScan.AnalysisDirsExactlyOnce | generate_gbsa_files.py:112-115 | there is one path per walked directory listing `analysis`, and nothing else. Every returned path's last component is `analysis` |
| AnalysisScan.AnalysisDirsAreWalked | generate_gbsa_files.py:112-115 | every returned path lies strictly below the start and is itself walked |
| StripTemplates.StripInputReadBack | strip_trajectories.py:18-49 | `write_strip_traj` (`WriteStripTraj`): the input is `strip_traj_<m>.in` in the output directory and is not made executable. Read back line by line, it holds `parm <prmtop>`, `trajin <nc> 825 850` and `trajout <out> netcdf` |
| StripTemplates.StripScriptReadBack | strip_trajectories.py:52-96 | `write_strip_bash` (`WriteStripBash`): the script is `strip_traj_<m>.sh` in the output directory and is made executable. Read back, it names the job `strip_<m>` and runs `cpptraj -i <input name> > strip_<m>.log 2>&1` |
| StripMain.StripTrajectories | strip_trajectories.py:262-370 | `main`'s loop builds the specified successful list, failed list, frame counts and written files. The exit code follows from them |
| StripMain.HandleAddsOne | strip_trajectories.py:292-341 | one mutation (`Handle`) appends exactly one entry, under its label, to exactly one of the two lists. When the topology or the trajectory is missing, or the frame count is `None` or 0, no count is recorded; otherwise the parsed count is recorded under the label and no other count changes |
| StripMain.SummaryAccounts | strip_trajectories.py:288-341 | the two lists together have one entry per mutation directory. Every entry and every recorded count belongs to a handled label, and every recorded count is non-zero |
| StripMain.MissingTopologyReported | strip_trajectories.py:297-302 | a listing without a `.prmtop` name fails with "prmtop file not found", even if the trajectory is missing too, and nothing else changes |
| StripMain.ExitCodeMeaning | strip_trajectories.py:274-370 | the exit code is 1 when no directory was found. Otherwise it is 0 exactly when every mutation was submitted |
| StripMain.OutputNeverSelected | strip_trajectories.py:249-257 | the script's own output `AF-<m>_solv_gbsa_750.nc` (line 319) is never chosen as input |
| StripMain.StripFilesReadBack | strip_trajectories.py:32-93 | the two files for a mutation land in its `gbsa` directory. The input has 10 lines and reads frames 825-850 of the trajectory into the `AF-` output. The executable 22-line script runs cpptraj on that input's name |
| StripMain.HandledFiles | strip_trajectories.py:309-331 | with both files found, two files land in the mutation's `gbsa` directory. The input reads frames 825-850 of the chosen trajectory and writes the `AF-` output. The executable script runs cpptraj on that input's name |
| FileSys.Written | generate_gbsa_files.py:151-152 | `open('w')` plus `write` sets the content and keeps an existing file's executable flag (a new file has none). No directory changes |
| FileSys.MadeExecutable | generate_gbsa_files.py:155-156 | `chmod` sets the flag of that one file and keeps its content. No path appears or disappears |
| FileSys.WithDirs | generate_gbsa_files.py:135 | `mkdir(parents=True)` adds the path and all its ancestors as directories and touches no file |
| FileSys.WithDirsWellFormed | generate_gbsa_files.py:135 | when no ancestor is a file, making the directories keeps the filesystem well formed and the path becomes a directory |
| FileSys.WrittenWellFormed | generate_gbsa_files.py:151-152 | a write that succeeds keeps the filesystem well formed |
| FileSys.FileSystem.WriteText | generate_gbsa_files.py:151-152 | the write succeeds exactly when the parent is a directory and the path is not a directory. It then produces `Written`; otherwise nothing changes |
| FileSys.FileSystem.MakeExecutable | generate_gbsa_files.py:155-156 | `chmod` succeeds exactly when the path exists, and then produces `MadeExecutable` |
| FileSys.FileSystem.MakeDirs | generate_gbsa_files.py:135 | `mkdir` succeeds exactly when no ancestor (nor the path) is a file, and then produces `WithDirs` |
| GbsaTemplates.TemplateNamesDistinct | generate_gbsa_files.py:17-95 | the six template names are distinct |
| GbsaTemplates.OnlyMmGbsaShIsScript | generate_gbsa_files.py:17-95 | of the six names, exactly `MM-GBSA.sh` ends with `.sh` |
| GbsaTemplates.TemplatesFitTogether | generate_gbsa_files.py:18-76 | the texts fit together. The trajectory `pt-strip-Q94R.in` writes is the one `MM-GBSA.sh` analyses. The three topologies the parmstrip inputs write are the ones it passes to MMPBSA.py. It reads the `MM-GBSA.in` template |
| GbsaFiles.CreateGbsaDirectory | generate_gbsa_files.py:130-138 | the result is always `analysis/gbsa`. `mkdir` runs only when nothing of that name exists |
| GbsaFiles.CreatedMeaning | generate_gbsa_files.py:130-138 | `create_gbsa_directory` (`Created`): afterwards `analysis/gbsa` exists, and no file and no existing directory changes. Nothing is done if it already existed. A second call changes nothing (idempotent) |
| GbsaFiles.CreatedFails | generate_gbsa_files.py:132-136 | creation fails exactly when `analysis/gbsa` is absent and one of its ancestors is a file |
| GbsaFiles.WrittenTemplate | generate_gbsa_files.py:149-156 | writing one template creates no directory |
| GbsaFiles.WrittenTemplateAt | generate_gbsa_files.py:149-156 | after one template is written, its path holds its text. The file is executable exactly when the name ends in `.sh` or the overwritten file was executable. Every other path is unchanged |
| GbsaFiles.WriteTemplate | generate_gbsa_files.py:149-156 | the write succeeds exactly when the parent is a directory and the path is not one. It then produces `WrittenTemplate`, with `chmod` when the name ends in `.sh`. Otherwise nothing changes |
| GbsaFiles.Generated | generate_gbsa_files.py:148-156 | generating files creates no directory |
| GbsaFiles.ReachFromMeaning | generate_gbsa_files.py:148-152 | the writes stop at the first template whose path cannot be written. Every path before it can be written |
| GbsaFiles.GenerateFiles | generate_gbsa_files.py:141-158 | the loop writes the templates of the dictionary in order, with `chmod` after each `.sh` name. It stops at the first write that fails (the exception), and reports success exactly when every template went through |
| GbsaFiles.GeneratedEffect | generate_gbsa_files.py:148-156 | for distinct template names, each template path holds its template text, overwriting what was there. It is executable exactly when its name ends in `.sh` or the file it overwrote was executable. Every other path is unchanged |
| GbsaFiles.GeneratedIdempotent | generate_gbsa_files.py:148-156 | running `generate_files` twice leaves the same disk as running it once |
| GbsaFiles.GeneratedIndependent | generate_gbsa_files.py:148-152 | every `gbsa` directory receives the same text for each template, whatever the directory and whatever was there |
| GbsaFiles.ReachAll | generate_gbsa_files.py:149-152 | for a non-empty dictionary, all writes succeed exactly when `gbsa` is a directory and none of the template names in it is a directory |
| GbsaFiles.Run | generate_gbsa_files.py:170-195 | `main` either returns 0 or raises. It returns 0 also when nothing was found |
| GbsaFiles.GbsaMain | generate_gbsa_files.py:161-195 | `main` on the walk's `analysis` directories and `FILE_TEMPLATES` produces `Run`'s exit and final disk; nothing is written when none was found |
| GbsaFiles.ProcessAnalysisDirectories | generate_gbsa_files.py:183-192 | the loop that creates `gbsa` and generates the files in each directory in turn produces `Run`'s exit and final disk, stopping at the first failure |
| GbsaFiles.RunPopulates | generate_gbsa_files.py:183-195 | for a non-empty dictionary with distinct names: when the loop returns 0, every given `analysis` has a `gbsa` directory holding every template's text, with every `.sh` file executable |
| GbsaFiles.RunKeepsPopulated | generate_gbsa_files.py:183-192 | later directories' writes never undo a populated `gbsa` directory |
| GbsaFiles.MainPopulates | generate_gbsa_files.py:183-195 | with `FILE_TEMPLATES`: when `main` returns 0, every found `analysis` has a `gbsa` directory holding the six texts, with `MM-GBSA.sh` executable |

## Left out

- Running `sbatch` and `cpptraj` is not modelled: no process, working directory, 30-second timeout or text decoding. Each finished run is an input. A `cpptraj` timeout or missing tool becomes `None`. The `cpptraj` call does not pass `check=True`, so a run that exits non-zero is parsed like any other; an `sbatch` failure or missing tool becomes a failed submission with its message.
- Output that is not valid text is not modelled. With `text=True` the decoding error is caught by none of the handlers at strip_trajectories.py:128, 132 and 180, so it escapes `main`, and the wrapper at strip_trajectories.py:379-382 ends the run with exit code 1.
- The script `count_trajectory_frames` feeds to `cpptraj` on standard input is not modelled. Neither are the topology and trajectory paths it names. The run's output is given.
- The real filesystem is not modelled: no `os.walk` on a disk, no `Path.resolve`, no symbolic links, permissions or mode bits (`chmod(0o755)` is a boolean flag). The tree, the listings and the starting path are inputs, and the start is taken as already resolved. The listing order the directory yields is kept as given.
- The walked tree and the generator's filesystem are separate inputs. The model does not assume they agree. Where the disk lacks an `analysis` directory the walk reported, `mkdir(parents=True, exist_ok=True)` creates it together with `gbsa` without complaint (`GbsaFiles.Created`); only a file standing on the path makes it fail.
- The trajectory-stripping script's two file writes are values, not updates of a filesystem. Each value is a path, the template with its fill-ins, and whether `chmod` follows. `StripTemplates.Content` renders the text. An `OSError` from them, which would end that run, is not modelled.
- `generate_files` reads the module-level `FILE_TEMPLATES`. In the model the dictionary is a parameter: `GbsaMain` passes `FileTemplates`, and the lemmas about `generate_files` hold for any dictionary. Some of them need distinct names, which a dictionary's keys always are, or a non-empty dictionary, which `FILE_TEMPLATES` is.
- Glob matching covers `*` only. `?`, `[...]`, hidden-file rules and directories that match a pattern are not modelled.
- Locator.FindTrajectoryFiles: an empty mutation label is not treated specially. The label is empty when the walk reaches an `analysis` directory directly under `/`. The pattern `*{mutation}*.nc` (strip_trajectories.py:245) then becomes `**.nc`. The glob of Python 3.12 rejects that pattern with `ValueError` as soon as the search reaches it. The error escapes `main`, and the wrapper at strip_trajectories.py:379-382 ends the run with exit code 1. The model reads `**` as `*` and goes on choosing, so `StripMain.StripTrajectories` and `StripMain.ExitCodeMeaning` differ from the source in that case too.
- Locator.TrajectoryChoice: states the choice for every label, including the empty one, where the source raises instead (see the line above).
- `int()` accepts only an optional sign and ASCII digits. Underscores, non-ASCII digits and surrounding whitespace are not modelled; the words it is applied to never contain whitespace.
- Text.ParseShow: `ParseInt` reads numbers of any length. Since Python 3.11, `int()` raises `ValueError` on a decimal string of more than 4300 digits, and `str()` refuses to render such a number. So the round trip holds in Python only below that size. Where `count_trajectory_frames` meets such a word after "read", the source catches the error (strip_trajectories.py:175) and moves on to the next word, while the model returns the number.
- `str.lower()` lowers ASCII letters only. The comparisons with "read" and "frames" give the same answers as the full Unicode mapping.
- Printing and progress messages are not modelled, including the iteration order of the frame-count report (`StripMain.Summary.frameCounts` is a map).
- The `KeyboardInterrupt` and exception wrappers around both `main`s are not modelled (exit codes 130 and 1). An exception escaping the generator's `main` is modelled as `Raised`.

## Notes on the code

- `generate_files` opens each file with mode `'w'`, which keeps the mode bits of a file that already exists. Only `.sh` files are given mode 0o755; a template file that was executable before stays executable (`GbsaFiles.GeneratedEffect`).
- The batch script in `FILE_TEMPLATES` names its job `mmpbsa`, and the label `Q94R` is fixed text in five of the six templates (all but `MM-GBSA.in`). Nothing in them depends on the directory they are written to (`GbsaFiles.GeneratedIndependent`).
- Every file is written in place with `open(..., 'w')`; there is no temporary name and no rename. The model writes in place too.
- The job id is the last whitespace-separated word of `sbatch`'s stripped output, whatever that word is; it need not be a number (`Submission.SubmittedJobId`).
