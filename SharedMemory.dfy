/**
 * The `shared_memory` record that every worker attaches to, and the code
 * that runs on it: the file helpers and the critical sections of
 * `ta_process` in the synchronised program. `LoadRubric` and `Start` run
 * at start-up, before any worker exists; `SaveRubric` and `LoadExam` are the
 * helpers called inside a locked region, and so is the flag loop
 * `AllQuestionsMarked`; `IsFinished`, `ChangeRubric`, `ProbeQuestion` and
 * `CompleteExam` are each one region between a lock acquire and its release;
 * `ClaimQuestion` is the whole claim scan, five such regions, with no other
 * worker between them. Each contract ties the record after the call to the
 * matching transition of `Grading`.
 */
module SharedMemory {
  import opened Wrappers
  import opened RubricFile
  import opened ExamFiles
  import opened Grading

  class GradingState {
    const rubric: array<char>
    var studentId: string
    const marked: array<bool>
    var currentExam: int

    ghost predicate Valid()
      reads this, rubric
    {
      && rubric.Length == NumQuestions && ByteText(rubric[..])
      && marked.Length == NumQuestions
      && |studentId| <= IdCapacity
      && currentExam >= 0
    }

    /** The record as a value. */
    ghost function Snapshot(): (s: Shared)
      reads this, rubric, marked
      ensures Valid() ==> WellFormed(s)
    {
      Shared(rubric[..], studentId, marked[..], currentExam)
    }

    /** `shmget` + `shmat`: a zero-filled record. */
    constructor ()
      ensures Valid() && Snapshot() == Zero()
      ensures fresh(rubric) && fresh(marked)
    {
      rubric := new char[NumQuestions](_ => Nul);
      marked := new bool[NumQuestions](_ => false);
      studentId := "";
      currentExam := 0;
      new;
      assert rubric[..] == Zero().rubric;
      assert marked[..] == Zero().marked;
    }

    /** `load_rubric`: apply the lines of `rubric.txt` in file order; a missing file changes nothing. */
    method LoadRubric(file: Option<seq<string>>)
      requires Valid() && (file.Some? ==> Loadable(file.value))
      modifies rubric
      ensures Valid()
      ensures rubric[..] == LoadFile(old(rubric[..]), file)
    {
      if file.None? {
        return;
      }
      var lines := file.value;
      var k := 0;
      while k < |lines|
        invariant 0 <= k <= |lines|
        invariant Loadable(lines[..k])
        invariant rubric[..] == LoadLines(old(rubric[..]), lines[..k])
      {
        assert lines[..k + 1][..k] == lines[..k];
        match ParseLine(lines[k]) {
          case Some((q, c)) =>
            if q <= NumQuestions {
              rubric[q - 1] := c;
            }
          case None =>
        }
        k := k + 1;
      }
      assert lines[..k] == lines;
    }

    /** `save_rubric`: the file is rewritten as one line `i+1,c` per question, in order. */
    method SaveRubric() returns (lines: seq<string>)
      requires Valid()
      ensures |lines| == NumQuestions
      ensures forall i :: 0 <= i < NumQuestions ==> lines[i] == RubricLine(i + 1, rubric[i])
      ensures lines == RubricText(rubric[..])
    {
      lines := [];
      for i := 0 to NumQuestions
        invariant |lines| == i
        invariant forall k :: 0 <= k < i ==> lines[k] == RubricLine(k + 1, rubric[k])
      {
        lines := lines + [RubricLine(i + 1, rubric[i])];
      }
    }

    /**
     * `load_exam`: bump the counter, open `exams/exam_NN.txt`, and on success
     * take its first line as the identifier and clear every flag.
     */
    method LoadExam(dir: Directory) returns (path: string)
      requires Valid() && ValidDirectory(dir)
      modifies this, marked
      ensures Valid()
      ensures path == ExamPath(currentExam)
      ensures Snapshot() == Grading.LoadExam(old(Snapshot()), dir)
    {
      currentExam := currentExam + 1;
      var fileNumber := currentExam;
      path := ExamPath(fileNumber);
      if path !in dir {
        return;
      }
      match dir[path] {
        case Some(line) => studentId := StripLine(line);
        case None =>
      }
      for i := 0 to NumQuestions
        invariant forall k :: 0 <= k < i ==> !marked[k]
        modifies marked
      {
        marked[i] := false;
      }
      assert marked[..] == Unmarked();
    }

    /** The start-up sequence: read the rubric, reset the counter, load the first exam. */
    method Start(file: Option<seq<string>>, dir: Directory)
      requires Valid() && Snapshot() == Zero()
      requires (file.Some? ==> Loadable(file.value)) && ValidDirectory(dir)
      modifies this, rubric, marked
      ensures Valid() && Snapshot() == Grading.Start(file, dir)
    {
      LoadRubric(file);
      currentExam := 0;
      var _ := LoadExam(dir);
    }

    /** The termination check: the sentinel identifier tells the worker to leave its loop. */
    method IsFinished() returns (finished: bool)
      requires Valid()
      ensures finished <==> studentId == Sentinel
    {
      finished := studentId == Sentinel;
    }

    /** A rubric change: entry `i` goes up by one and the whole rubric is saved again. */
    method ChangeRubric(i: nat) returns (saved: seq<string>)
      requires Valid() && i < NumQuestions
      modifies rubric
      ensures Valid()
      ensures Snapshot() == Grading.ChangeRubric(old(Snapshot()), i)
      ensures saved == RubricText(rubric[..])
    {
      var previous := rubric[i];
      rubric[i] := Increment(previous);
      saved := SaveRubric();
    }

    /** One iteration of the claim scan, under the exam lock. */
    method ProbeQuestion(i: nat) returns (outcome: ProbeOutcome)
      requires Valid() && i < NumQuestions
      modifies marked
      ensures Valid()
      ensures (Snapshot(), outcome) == ProbeAt(old(Snapshot()), i)
    {
      if studentId == Sentinel {
        return SawSentinel;
      }
      if !marked[i] {
        marked[i] := true;
        return Claimed;
      }
      return AlreadyMarked;
    }

    /**
     * The claim scan: probe the questions in index order and stop at the
     * sentinel or at the first claim. Without another worker between the
     * probes this claims the lowest unmarked question.
     */
    method ClaimQuestion() returns (claimed: Option<nat>)
      requires Valid()
      modifies marked
      ensures Valid()
      ensures (Snapshot(), claimed) == Claim(old(Snapshot()))
    {
      ghost var s := Snapshot();
      claimed := None;
      var i := 0;
      while i < NumQuestions
        invariant 0 <= i <= NumQuestions
        invariant Snapshot() == s
        invariant i > 0 ==> !Done(s)
        invariant forall k :: 0 <= k < i ==> s.marked[k]
      {
        var outcome := ProbeQuestion(i);
        if outcome == SawSentinel {
          return;
        }
        if outcome == Claimed {
          claimed := Some(i);
          assert FirstUnmarked(s.marked) == Some(i);
          return;
        }
        i := i + 1;
      }
      assert AllMarked(s.marked);
    }

    /** The completion test: the scan stops at the first unmarked question. */
    method AllQuestionsMarked() returns (allMarked: bool)
      requires Valid()
      ensures allMarked <==> AllMarked(marked[..])
    {
      allMarked := true;
      for i := 0 to NumQuestions
        invariant allMarked <==> forall k :: 0 <= k < i ==> marked[k]
      {
        if !marked[i] {
          allMarked := false;
          break;
        }
      }
    }

    /** The completion critical section: advance to the next exam when this one is fully marked. */
    method CompleteExam(dir: Directory) returns (advanced: bool)
      requires Valid() && ValidDirectory(dir)
      modifies this, marked
      ensures Valid()
      ensures advanced <==> !Done(old(Snapshot())) && AllMarked(old(marked[..]))
      ensures Snapshot() == Advance(old(Snapshot()), dir)
    {
      advanced := false;
      if studentId != Sentinel {
        var allMarked := AllQuestionsMarked();
        if allMarked {
          var _ := LoadExam(dir);
          advanced := true;
        }
      }
    }
  }
}
