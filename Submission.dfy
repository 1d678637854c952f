/**
 * `submit_slurm_job`: how the result of running `sbatch <script>` becomes
 * the script's `(success, job id or error message)` answer.
 */
module Submission {
  import opened Common
  import opened Text

  const Phrase := "Submitted batch job"
  const FailurePrefix := "Failed to submit job: "
  const NotFoundMessage := "sbatch command not found." + " Are you on a SLURM cluster?"

  /** The four ways a submission can end. */
  datatype SubmitOutcome =
    | Submitted(jobId: string)
    | UnexpectedOutput(output: string)
    | SubmitFailed(message: string)
    | ToolMissing(message: string)
  {
    /** The `(success, job_id_or_error)` pair the script passes on. */
    function AsPair(): (bool, string) {
      match this
      case Submitted(id) => (true, id)
      case UnexpectedOutput(o) => (false, o)
      case SubmitFailed(m) => (false, m)
      case ToolMissing(m) => (false, m)
    }
  }

  /**
   * The outcome of `sbatch <script>`, where `None` means the executable was
   * not found. A non-zero exit status raises `CalledProcessError` (the run
   * uses `check=True`); otherwise the stripped standard output is searched
   * for the phrase and the job id is its last whitespace-separated token.
   */
  function ParseSubmission(run: Option<ToolRun>): (r: SubmitOutcome)
    ensures r.ToolMissing? <==> run.None?
    ensures r.ToolMissing? ==> r.message == NotFoundMessage
    ensures r.SubmitFailed? <==> run.Some? && run.value.status != 0
    ensures r.SubmitFailed? ==> r.message == FailurePrefix + run.value.stderr
    ensures r.Submitted? <==> run.Some? && run.value.status == 0 && Contains(Strip(run.value.stdout), Phrase)
    ensures r.Submitted? ==> r.jobId != [] && NoSpace(r.jobId)
    ensures r.Submitted? ==>
      var words := Words(Strip(run.value.stdout));
      words != [] && r.jobId == words[|words| - 1]
    ensures r.UnexpectedOutput? ==> r.output == Strip(run.value.stdout)
  {
    match run
    case None => ToolMissing(NotFoundMessage)
    case Some(ToolRun(status, out, err)) =>
      if status != 0 then SubmitFailed(FailurePrefix + err)
      else
        var output := Strip(out);
        if Contains(output, Phrase) then
          PhraseHasWords(output);
          var words := Words(output);
          Submitted(words[|words| - 1])
        else UnexpectedOutput(output)
  }

  /** Text that contains the phrase has at least one word. */
  lemma PhraseHasWords(output: string)
    requires Contains(output, Phrase)
    ensures Words(output) != []
  {
    ContainsOccurs(output, Phrase);
    var i :| OccursAt(output, Phrase, i);
    assert output[i] == Phrase[0];
    WordsNonEmpty(output, i);
  }

  /**
   * Only a submission reports success in the script's pair; its second
   * component is the job id, or else the output or message that explains
   * the failure.
   */
  lemma SuccessFlag(run: Option<ToolRun>)
    ensures ParseSubmission(run).AsPair().0 <==> ParseSubmission(run).Submitted?
    ensures ParseSubmission(run).Submitted? ==> ParseSubmission(run).AsPair().1 == ParseSubmission(run).jobId
    ensures ParseSubmission(run).UnexpectedOutput? ==> ParseSubmission(run).AsPair().1 == ParseSubmission(run).output
    ensures ParseSubmission(run).SubmitFailed? || ParseSubmission(run).ToolMissing? ==>
      ParseSubmission(run).AsPair().1 == ParseSubmission(run).message
  {
  }

  /**
   * A missing `sbatch` is told apart from a failed one even in the pair:
   * no non-zero exit produces the not-found message.
   */
  lemma MissingToolIsDistinct(run: ToolRun)
    requires run.status != 0
    ensures ParseSubmission(Some(run)).AsPair() != ParseSubmission(None).AsPair()
  {
    var r := ParseSubmission(Some(run));
    assert r.message[0] == FailurePrefix[0] == 'F';
    assert NotFoundMessage[0] == 's';
  }

  /** `sbatch` printing `Submitted batch job <id>` (and a newline) yields exactly that id. */
  lemma SubmittedJobId(id: string, err: string)
    requires id != [] && NoSpace(id)
    ensures ParseSubmission(Some(ToolRun(0, Phrase + " " + id + "\n", err))) == Submitted(id)
  {
    var line := Phrase + " " + id;
    JobLineStrips(id);
    JobLineFound(id);
    PhraseWords(id);
    assert Words(line)[|Words(line)| - 1] == id;
  }

  lemma JobLineStrips(id: string)
    requires id != [] && NoSpace(id)
    ensures Strip(Phrase + " " + id + "\n") == Phrase + " " + id
  {
    var line := Phrase + " " + id;
    assert line[|line| - 1] == id[|id| - 1];
    assert line[0] == 'S';
    StripNewline(line);
  }

  lemma JobLineFound(id: string)
    ensures Contains(Phrase + " " + id, Phrase)
  {
    ContainsInfix([], Phrase, " " + id);
    assert [] + Phrase + (" " + id) == Phrase + " " + id;
  }

  lemma StripNewline(line: string)
    requires line != [] && !IsSpace(line[0]) && !IsSpace(line[|line| - 1])
    ensures Strip(line + "\n") == line
  {
    var out := line + "\n";
    assert out[..|out| - 1] == line;
    assert TrailingSpaces(out) == 1;
    assert LeadingSpaces(out) == 0;
  }

  lemma PhraseWords(id: string)
    requires id != [] && NoSpace(id)
    ensures Words(Phrase + " " + id) == ["Submitted", "batch", "job", id]
  {
    var ws := ["Submitted", "batch", "job", id];
    assert Join(ws[3..], ' ') == id;
    assert Join(ws[2..], ' ') == "job" + [' '] + id;
    assert Join(ws[1..], ' ') == "batch" + [' '] + ("job" + [' '] + id);
    assert Join(ws, ' ') == "Submitted" + [' '] + ("batch" + [' '] + ("job" + [' '] + id));
    assert Phrase == "Submitted" + " " + "batch" + " " + "job";
    assert Join(ws, ' ') == Phrase + " " + id;
    assert NoSpace("Submitted") && NoSpace("batch") && NoSpace("job");
    WordsOfJoin(ws);
  }

  /** `Submitted batch job 4242` yields job id 4242. */
  lemma ExampleSubmitted()
    ensures ParseSubmission(Some(ToolRun(0, Phrase + " 4242\n", ""))).AsPair() == (true, "4242")
  {
    var id := "4242";
    assert Phrase + " " + id + "\n" == Phrase + " 4242\n";
    assert NoSpace(id);
    SubmittedJobId(id, "");
  }

  /** Exit status 1 reports the captured error text. */
  lemma ExampleFailed()
    ensures ParseSubmission(Some(ToolRun(1, "", "bad partition"))).AsPair() == (false, FailurePrefix + "bad partition")
  {
  }
}
