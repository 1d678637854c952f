/**
 * `count_trajectory_frames`: reading the frame count out of what `cpptraj`
 * prints after loading a topology and a trajectory. The tool itself is not
 * run here; its finished run (or `None`, for a timeout or a missing
 * executable) is the input.
 */
module FrameCount {
  import opened Common
  import opened Text

  /** A line is looked at when, lower-cased, it mentions both "frames" and "read". */
  predicate Qualifies(line: string) {
    Contains(Lower(line), "frames") && Contains(Lower(line), "read")
  }

  /** Word `j` is "read" in any letter case and the word after it parses as an integer. */
  predicate ReadAt(words: seq<string>, j: int) {
    0 <= j && j + 1 < |words| && Lower(words[j]) == "read" && ParseInt(words[j + 1]).Some?
  }

  /** The integer after the first "read" word, from index `from` on, that is followed by one. */
  function CountInWords(words: seq<string>, from: nat): Option<int>
    decreases |words| - from
  {
    if from + 1 >= |words| then None
    else if Lower(words[from]) == "read" && ParseInt(words[from + 1]).Some? then ParseInt(words[from + 1])
    else CountInWords(words, from + 1)
  }

  function CountInLine(line: string): Option<int> {
    if Qualifies(line) then CountInWords(Words(line), 0) else None
  }

  /** The count from the first line that yields one. */
  function CountInLines(lines: seq<string>): Option<int> {
    if lines == [] then None
    else if CountInLine(lines[0]).Some? then CountInLine(lines[0])
    else CountInLines(lines[1..])
  }

  /** The frame count for a `cpptraj` run: unknown (`None`) when the run did not finish. */
  function FrameCountOf(run: Option<ToolRun>): Option<int> {
    if run.None? then None else CountInLines(SplitOn(run.value.stdout, '\n'))
  }

  /**
   * The scan over `cpptraj`'s standard output, line by line and word by
   * word, stopping at the first "read" that is followed by an integer.
   */
  method CountTrajectoryFrames(run: Option<ToolRun>) returns (count: Option<int>)
    ensures count == FrameCountOf(run)
  {
    if run.None? {
      return None;
    }
    var lines := SplitOn(run.value.stdout, '\n');
    var li := 0;
    while li < |lines|
      invariant 0 <= li <= |lines|
      invariant CountInLines(lines[li..]) == CountInLines(lines)
    {
      var line := lines[li];
      assert lines[li..][0] == line && lines[li..][1..] == lines[li + 1..];
      var lower := Lower(line);
      if Contains(lower, "frames") && Contains(lower, "read") {
        var words := Words(line);
        var i := 0;
        while i < |words|
          invariant 0 <= i <= |words|
          invariant CountInWords(words, i) == CountInLine(line)
        {
          if Lower(words[i]) == "read" && i + 1 < |words| {
            var parsed := ParseInt(words[i + 1]);
            if parsed.Some? {
              return parsed;
            }
          }
          i := i + 1;
        }
      }
      li := li + 1;
    }
    return None;
  }

  // ---------------------------------------------------------------------
  // What the scan finds, stated without the scan

  /** Line `i` qualifies and its word `j` is a "read" followed by an integer. */
  ghost predicate HitAt(lines: seq<string>, i: int, j: int) {
    0 <= i < |lines| && Qualifies(lines[i]) && ReadAt(Words(lines[i]), j)
  }

  ghost function HitValue(lines: seq<string>, i: int, j: int): int
    requires HitAt(lines, i, j)
  {
    ParseInt(Words(lines[i])[j + 1]).value
  }

  /** The hit at (i, j) comes first in reading order: no hit precedes it. */
  ghost predicate FirstHit(lines: seq<string>, i: int, j: int) {
    && HitAt(lines, i, j)
    && (forall j' | 0 <= j' < j :: !HitAt(lines, i, j'))
    && (forall i', j' | 0 <= i' < i :: !HitAt(lines, i', j'))
  }

  lemma {:induction false} CountInWordsFinds(words: seq<string>, from: nat)
    ensures CountInWords(words, from).None? <==> forall j | from <= j :: !ReadAt(words, j)
    ensures CountInWords(words, from).Some? ==>
      exists j :: from <= j && ReadAt(words, j) && (forall j' | from <= j' < j :: !ReadAt(words, j'))
                  && CountInWords(words, from) == ParseInt(words[j + 1])
    decreases |words| - from
  {
    if from + 1 >= |words| {
    } else if Lower(words[from]) == "read" && ParseInt(words[from + 1]).Some? {
      assert ReadAt(words, from);
    } else {
      CountInWordsFinds(words, from + 1);
      assert !ReadAt(words, from);
      if CountInWords(words, from + 1).Some? {
        var j :| from + 1 <= j && ReadAt(words, j) && (forall j' | from + 1 <= j' < j :: !ReadAt(words, j'))
                 && CountInWords(words, from + 1) == ParseInt(words[j + 1]);
        assert forall j' | from <= j' < j :: !ReadAt(words, j');
      }
    }
  }

  lemma {:induction false} CountInLinesFinds(lines: seq<string>)
    ensures CountInLines(lines).None? <==> forall i, j :: !HitAt(lines, i, j)
    ensures CountInLines(lines).Some? ==>
      exists i, j :: FirstHit(lines, i, j) && CountInLines(lines) == Some(HitValue(lines, i, j))
  {
    if lines != [] {
      if CountInLine(lines[0]).Some? {
        var j := FirstLineHit(lines);
        assert HitAt(lines, 0, j);
      } else {
        FirstLineMisses(lines);
        CountInLinesFinds(lines[1..]);
        assert CountInLines(lines) == CountInLines(lines[1..]);
        if CountInLines(lines[1..]).Some? {
          var i, j :| FirstHit(lines[1..], i, j) && CountInLines(lines[1..]) == Some(HitValue(lines[1..], i, j));
          ShiftedHit(lines, i, j);
          assert FirstHit(lines, i + 1, j) && CountInLines(lines) == Some(HitValue(lines, i + 1, j));
        } else {
          forall i, j
            ensures !HitAt(lines, i, j)
          {
            if 1 <= i {
              HitShift(lines, i, j);
            }
          }
        }
      }
    }
  }

  /** A first line that yields a count holds the first hit, and that is the count. */
  lemma FirstLineHit(lines: seq<string>) returns (j: int)
    requires lines != [] && CountInLine(lines[0]).Some?
    ensures FirstHit(lines, 0, j) && CountInLines(lines) == Some(HitValue(lines, 0, j))
  {
    var ws := Words(lines[0]);
    CountInWordsFinds(ws, 0);
    j :| 0 <= j && ReadAt(ws, j) && (forall j' | 0 <= j' < j :: !ReadAt(ws, j'))
         && CountInWords(ws, 0) == ParseInt(ws[j + 1]);
    assert HitAt(lines, 0, j);
  }

  /** The first hit after a line without one is the first hit of the remaining lines, shifted. */
  lemma ShiftedHit(lines: seq<string>, i: int, j: int)
    requires lines != [] && CountInLine(lines[0]).None?
    requires FirstHit(lines[1..], i, j)
    ensures FirstHit(lines, i + 1, j)
    ensures HitValue(lines, i + 1, j) == HitValue(lines[1..], i, j)
  {
    var k := i + 1;
    FirstLineMisses(lines);
    HitShift(lines, k, j);
    forall j' | 0 <= j' < j
      ensures !HitAt(lines, k, j')
    {
      HitShift(lines, k, j');
    }
    forall i', j' | 0 <= i' < k
      ensures !HitAt(lines, i', j')
    {
      if 1 <= i' {
        HitShift(lines, i', j');
      }
    }
    assert lines[k] == lines[1..][i];
  }

  /** A line that yields no count has no hit. */
  lemma FirstLineMisses(lines: seq<string>)
    requires lines != [] && CountInLine(lines[0]).None?
    ensures forall j :: !HitAt(lines, 0, j)
  {
    CountInWordsFinds(Words(lines[0]), 0);
  }

  /** Hits past the first line are the hits of the remaining lines, one line earlier. */
  lemma HitShift(lines: seq<string>, i: int, j: int)
    requires lines != [] && 1 <= i
    ensures HitAt(lines, i, j) == HitAt(lines[1..], i - 1, j)
  {
    if i < |lines| {
      assert lines[1..][i - 1] == lines[i];
    }
  }

  /**
   * For a finished run, the count is the integer after the first qualifying
   * "read" in reading order, and it is unknown exactly when no qualifying
   * line has a "read" followed by an integer.
   */
  lemma FrameCountMeaning(run: ToolRun, lines: seq<string>)
    requires lines == SplitOn(run.stdout, '\n')
    ensures FrameCountOf(Some(run)).None? <==> forall i, j :: !HitAt(lines, i, j)
    ensures FrameCountOf(Some(run)).Some? ==>
      exists i, j :: FirstHit(lines, i, j) && FrameCountOf(Some(run)) == Some(HitValue(lines, i, j))
  {
    CountInLinesFinds(lines);
  }

  /** `Read <n> frames.` reports `n`, whatever the exit status and error stream. */
  lemma ReadFramesLine(n: int, status: int, err: string)
    ensures FrameCountOf(Some(ToolRun(status, "Read " + Show(n) + " frames.", err))) == Some(n)
  {
    var line := "Read " + Show(n) + " frames.";
    ReadFramesIsOneLine(n);
    ReadFramesCount(n);
    assert CountInLines([line]) == Some(n);
  }

  /** The line `Read <n> frames.` qualifies and yields `n`. */
  lemma ReadFramesCount(n: int)
    ensures CountInLine("Read " + Show(n) + " frames.") == Some(n)
  {
    ReadFramesQualifies(n);
    ReadFramesWords(n);
    ReadWordsCount(n);
  }

  lemma ReadWordsCount(n: int)
    ensures CountInWords(["Read", Show(n), "frames."], 0) == Some(n)
  {
    ParseShow(n);
    LowerRead();
  }

  lemma LowerRead()
    ensures Lower("Read") == "read"
  {
    var r := Lower("Read");
    assert r[0] == 'r' && r[1] == 'e' && r[2] == 'a' && r[3] == 'd';
  }

  lemma ReadFramesIsOneLine(n: int)
    ensures SplitOn("Read " + Show(n) + " frames.", '\n') == ["Read " + Show(n) + " frames."]
  {
    var num := Show(n);
    var line := "Read " + num + " frames.";
    ShowNoSpace(n);
    assert forall k | 0 <= k < |line| :: line[k] in "Read " || line[k] in num || line[k] in " frames.";
    SplitJoin([line], '\n');
  }

  lemma ReadFramesQualifies(n: int)
    ensures Qualifies("Read " + Show(n) + " frames.")
  {
    ReadFramesLower(n);
    MentionsFrames(Show(n));
    MentionsRead(Show(n));
  }

  lemma MentionsFrames(num: string)
    ensures Contains("read " + num + " frames.", "frames")
  {
    var pre := "read " + num + " ";
    ContainsInfix(pre, "frames", ".");
    assert pre + "frames" + "." == "read " + num + " frames.";
  }

  lemma MentionsRead(num: string)
    ensures Contains("read " + num + " frames.", "read")
  {
    var s := "read " + num + " frames.";
    assert s[..4] == "read";
  }

  lemma ReadFramesLower(n: int)
    ensures Lower("Read " + Show(n) + " frames.") == "read " + Show(n) + " frames."
  {
    var num := Show(n);
    LowerAppend("Read " + num, " frames.");
    LowerAppend("Read ", num);
    ShowLower(n);
    assert Lower("Read ") == "read ";
    assert Lower(" frames.") == " frames.";
  }

  lemma ReadFramesWords(n: int)
    ensures Words("Read " + Show(n) + " frames.") == ["Read", Show(n), "frames."]
  {
    var num := Show(n);
    ShowNoSpace(n);
    var ws := ["Read", num, "frames."];
    assert Join(ws[2..], ' ') == "frames.";
    assert Join(ws[1..], ' ') == num + [' '] + "frames.";
    assert Join(ws, ' ') == "Read" + [' '] + (num + [' '] + "frames.");
    assert Join(ws, ' ') == "Read " + num + " frames.";
    assert NoSpace("Read") && NoSpace("frames.");
    WordsOfJoin(ws);
  }
}
