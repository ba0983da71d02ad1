/**
 * The shared grading record as a value, and each critical section of a
 * worker as a transition on it. Every transition is what one worker does
 * while it holds the lock that guards the fields it touches, so a run of the
 * whole pool is some sequence of these transitions.
 */
module Grading {
  import opened Wrappers
  import opened RubricFile
  import opened ExamFiles

  /** The identifier in the last exam record: no exams remain. */
  const Sentinel: string := "9999"

  /** `char student_id[5]`: four characters and the terminating NUL. */
  const IdCapacity: nat := 4

  /** `struct shared_memory`, with `student_id` read as the C string it holds. */
  datatype Shared = Shared(rubric: seq<char>, studentId: string, marked: seq<bool>, currentExam: int)

  predicate WellFormed(s: Shared) {
    && |s.rubric| == NumQuestions && ByteText(s.rubric)
    && |s.marked| == NumQuestions
    && |s.studentId| <= IdCapacity
    && s.currentExam >= 0
  }

  /**
   * The exam directory: a path that is absent cannot be opened; `None` is a
   * file with no first line; `Some(line)` is its first line as `fgets` reads it.
   */
  type Directory = map<string, Option<string>>

  /**
   * `strcpy` into `student_id` overflows on a longer first line. The bound is
   * asked of every record in the directory, including records no run opens.
   */
  predicate ValidDirectory(dir: Directory) {
    forall p :: p in dir && dir[p].Some? ==> |StripLine(dir[p].value)| <= IdCapacity
  }

  function Unmarked(): (m: seq<bool>)
    ensures |m| == NumQuestions && forall i :: 0 <= i < |m| ==> !m[i]
  {
    seq(NumQuestions, _ => false)
  }

  /** Fresh shared memory from `shmget` is zero-filled. */
  function Zero(): (s: Shared)
    ensures WellFormed(s)
  {
    Shared(seq(NumQuestions, _ => Nul), "", Unmarked(), 0)
  }

  predicate Done(s: Shared) {
    s.studentId == Sentinel
  }

  predicate AllMarked(m: seq<bool>) {
    forall i :: 0 <= i < |m| ==> m[i]
  }

  function MarkedCount(m: seq<bool>): (n: nat)
    ensures n <= |m|
  {
    if m == [] then 0 else (if m[0] then 1 else 0) + MarkedCount(m[1..])
  }

  /** Setting one unset flag adds exactly one to the count. */
  lemma {:induction false} MarkedCountSet(m: seq<bool>, i: nat)
    requires i < |m| && !m[i]
    ensures MarkedCount(m[i := true]) == MarkedCount(m) + 1
  {
    if i > 0 {
      assert m[i := true][1..] == m[1..][i - 1 := true];
      MarkedCountSet(m[1..], i - 1);
    }
  }

  /**
   * `shm->rubric[i]++` on a one-byte `char`: the sum is converted back to a
   * byte modulo 256, as GCC does for signed and unsigned `char` alike, so
   * byte 255 (a signed `-1`) becomes NUL.
   */
  function Increment(c: char): (d: char)
    requires IsByte(c)
    ensures IsByte(d) && d as int == (c as int + 1) % 256
  {
    ((c as int + 1) % 256) as char
  }

  /** The rubric-change critical section: entry `i` goes up by one byte and nothing else moves. */
  function ChangeRubric(s: Shared, i: nat): (t: Shared)
    requires WellFormed(s) && i < NumQuestions
    ensures WellFormed(t)
    ensures t.rubric[i] as int == (s.rubric[i] as int + 1) % 256
    ensures forall j :: 0 <= j < NumQuestions && j != i ==> t.rubric[j] == s.rubric[j]
    ensures t.studentId == s.studentId && t.marked == s.marked && t.currentExam == s.currentExam
  {
    s.(rubric := s.rubric[i := Increment(s.rubric[i])])
  }

  /**
   * `load_exam`: the counter always advances; a record that cannot be opened
   * changes nothing else; an opened record clears every flag and, when it has
   * a first line, installs that line without its newline as the identifier.
   */
  function LoadExam(s: Shared, dir: Directory): (t: Shared)
    requires WellFormed(s) && ValidDirectory(dir)
    ensures WellFormed(t)
    ensures t.currentExam == s.currentExam + 1 && t.rubric == s.rubric
    ensures ExamPath(t.currentExam) !in dir ==> t.studentId == s.studentId && t.marked == s.marked
    ensures ExamPath(t.currentExam) in dir ==>
      && t.marked == Unmarked()
      && t.studentId == match dir[ExamPath(t.currentExam)]
                        case Some(line) => StripLine(line)
                        case None => s.studentId
  {
    var n := s.currentExam + 1;
    var path := ExamPath(n);
    if path !in dir then s.(currentExam := n)
    else
      var id := if dir[path].Some? then StripLine(dir[path].value) else s.studentId;
      s.(currentExam := n, studentId := id, marked := Unmarked())
  }

  /** A missing record cannot undo a completed exam: all flags stay set. */
  lemma {:induction false} MissingRecordKeepsMarks(s: Shared, dir: Directory)
    requires WellFormed(s) && ValidDirectory(dir) && AllMarked(s.marked)
    requires ExamPath(s.currentExam + 1) !in dir
    ensures AllMarked(LoadExam(s, dir).marked) && LoadExam(s, dir).studentId == s.studentId
  {
  }

  /** `load_rubric(shm); shm->current_exam = 0; load_exam(shm);` on fresh shared memory. */
  function Start(file: Option<seq<string>>, dir: Directory): (s: Shared)
    requires (file.Some? ==> Loadable(file.value)) && ValidDirectory(dir)
    ensures WellFormed(s) && s.currentExam == 1
    ensures s.rubric == LoadFile(Zero().rubric, file)
  {
    var z := Zero();
    LoadExam(z.(rubric := LoadFile(z.rubric, file), currentExam := 0), dir)
  }

  datatype ProbeOutcome = SawSentinel | Claimed | AlreadyMarked

  /**
   * One pass of the claim scan, under the exam lock: stop on the sentinel,
   * otherwise claim question `i` if it is still unmarked.
   */
  function ProbeAt(s: Shared, i: nat): (r: (Shared, ProbeOutcome))
    requires WellFormed(s) && i < NumQuestions
    ensures WellFormed(r.0)
    ensures r.1 == SawSentinel <==> Done(s)
    ensures r.1 == Claimed <==> !Done(s) && !s.marked[i]
    ensures r.1 == Claimed ==>
      r.0 == s.(marked := s.marked[i := true]) && MarkedCount(r.0.marked) == MarkedCount(s.marked) + 1
    ensures r.1 != Claimed ==> r.0 == s
  {
    if Done(s) then (s, SawSentinel)
    else if !s.marked[i] then
      MarkedCountSet(s.marked, i);
      (s.(marked := s.marked[i := true]), Claimed)
    else (s, AlreadyMarked)
  }

  /** The lowest index whose flag is unset, if any. */
  function FirstUnmarked(m: seq<bool>): (k: Option<nat>)
    ensures k.Some? ==> k.value < |m| && !m[k.value] && forall j :: 0 <= j < k.value ==> m[j]
    ensures k.None? ==> AllMarked(m)
  {
    if m == [] then None
    else if !m[0] then Some(0)
    else match FirstUnmarked(m[1..])
      case None => None
      case Some(j) => Some(j + 1)
  }

  /**
   * A whole claim scan by one worker with no other worker in between: the
   * lowest unmarked question is claimed, unless the sentinel is present or
   * every question is already marked.
   */
  function Claim(s: Shared): (r: (Shared, Option<nat>))
    requires WellFormed(s)
    ensures WellFormed(r.0)
    ensures Done(s) || AllMarked(s.marked) ==> r == (s, None)
    ensures !Done(s) && !AllMarked(s.marked) ==>
      && r.1.Some? && r.1.value < NumQuestions
      && !s.marked[r.1.value]
      && (forall j :: 0 <= j < r.1.value ==> s.marked[j])
      && r.0 == s.(marked := s.marked[r.1.value := true])
      && MarkedCount(r.0.marked) == MarkedCount(s.marked) + 1 <= NumQuestions
  {
    if Done(s) then (s, None)
    else match FirstUnmarked(s.marked)
      case None => (s, None)
      case Some(k) =>
        MarkedCountSet(s.marked, k);
        (s.(marked := s.marked[k := true]), Some(k))
  }

  /**
   * The completion critical section: load the next exam exactly when the
   * sentinel is absent and every question is marked; otherwise do nothing.
   */
  function Advance(s: Shared, dir: Directory): (t: Shared)
    requires WellFormed(s) && ValidDirectory(dir)
    ensures WellFormed(t)
    ensures t.currentExam == s.currentExam + 1 <==> !Done(s) && AllMarked(s.marked)
    ensures t.currentExam != s.currentExam + 1 ==> t == s
    ensures t.currentExam == s.currentExam + 1 ==> t == LoadExam(s, dir)
  {
    if !Done(s) && AllMarked(s.marked) then LoadExam(s, dir) else s
  }

  /** Once the sentinel is in place, no marking step changes the exam fields. */
  lemma {:induction false} SentinelFreezes(s: Shared, dir: Directory, i: nat)
    requires WellFormed(s) && ValidDirectory(dir) && i < NumQuestions && Done(s)
    ensures ProbeAt(s, i) == (s, SawSentinel)
    ensures Claim(s) == (s, None)
    ensures Advance(s, dir) == s
  {
  }

  /**
   * An advance that opens a record cannot be repeated before new claims:
   * the next completion check finds unmarked questions or the sentinel.
   */
  lemma {:induction false} AdvanceOncePerRecord(s: Shared, dir: Directory)
    requires WellFormed(s) && ValidDirectory(dir) && !Done(s) && AllMarked(s.marked)
    requires ExamPath(s.currentExam + 1) in dir
    ensures Advance(Advance(s, dir), dir) == Advance(s, dir)
  {
    assert !Unmarked()[0];
  }

  /**
   * A missing record is not the end of the run: the flags stay set, so the
   * next completion check advances again, to the record after it.
   */
  lemma {:induction false} MissingRecordAdvancesAgain(s: Shared, dir: Directory)
    requires WellFormed(s) && ValidDirectory(dir) && !Done(s) && AllMarked(s.marked)
    requires ExamPath(s.currentExam + 1) !in dir
    ensures Advance(Advance(s, dir), dir).currentExam == s.currentExam + 2
  {
  }

  /** A step of one worker: one critical section. */
  datatype Action =
    | RubricChange(q: nat)
    | ClaimAttempt(q: nat)
    | CompletionCheck

  predicate ActionOk(a: Action) {
    !a.CompletionCheck? ==> a.q < NumQuestions
  }

  /** How many times `acts` increments rubric entry `j`. */
  function Changes(acts: seq<Action>, j: nat): nat {
    if acts == [] then 0 else (if acts[0] == RubricChange(j) then 1 else 0) + Changes(acts[1..], j)
  }

  predicate Runnable(s: Shared, dir: Directory, acts: seq<Action>) {
    WellFormed(s) && ValidDirectory(dir) && (forall k :: 0 <= k < |acts| ==> ActionOk(acts[k]))
  }

  function Step(s: Shared, dir: Directory, a: Action): Shared
    requires WellFormed(s) && ValidDirectory(dir) && ActionOk(a)
  {
    match a
    case RubricChange(q) => ChangeRubric(s, q)
    case ClaimAttempt(q) => ProbeAt(s, q).0
    case CompletionCheck => Advance(s, dir)
  }

  lemma {:induction false} StepRunnable(s: Shared, dir: Directory, acts: seq<Action>)
    requires Runnable(s, dir, acts) && acts != []
    ensures Runnable(Step(s, dir, acts[0]), dir, acts[1..])
  {
    assert forall k :: 0 <= k < |acts[1..]| ==> acts[1..][k] == acts[k + 1];
  }

  /** The state after the critical sections `acts`, in this order. */
  function Run(s: Shared, dir: Directory, acts: seq<Action>): (t: Shared)
    requires Runnable(s, dir, acts)
    ensures WellFormed(t)
    ensures t.currentExam >= s.currentExam
    decreases |acts|
  {
    if acts == [] then s
    else
      StepRunnable(s, dir, acts);
      Run(Step(s, dir, acts[0]), dir, acts[1..])
  }

  /** How many of the claim attempts in `acts` set a flag. */
  function Claims(s: Shared, dir: Directory, acts: seq<Action>): nat
    requires Runnable(s, dir, acts)
    decreases |acts|
  {
    if acts == [] then 0
    else
      StepRunnable(s, dir, acts);
      var hit := acts[0].ClaimAttempt? && ProbeAt(s, acts[0].q).1 == Claimed;
      (if hit then 1 else 0) + Claims(Step(s, dir, acts[0]), dir, acts[1..])
  }

  /** No lost updates: every rubric change under the lock is counted, modulo the byte's 256 values. */
  lemma {:induction false} RunCountsRubricChanges(s: Shared, dir: Directory, acts: seq<Action>, j: nat)
    requires Runnable(s, dir, acts) && j < NumQuestions
    ensures Raised(s.rubric[j] as int, Run(s, dir, acts).rubric[j] as int, Changes(acts, j))
    decreases |acts|
  {
    if acts != [] {
      StepRunnable(s, dir, acts);
      var t := Step(s, dir, acts[0]);
      var d := if acts[0] == RubricChange(j) then 1 else 0;
      assert Raised(s.rubric[j] as int, t.rubric[j] as int, d);
      RunCountsRubricChanges(t, dir, acts[1..], j);
      CountStep(s.rubric[j] as int, t.rubric[j] as int, Run(s, dir, acts).rubric[j] as int,
                d, Changes(acts[1..], j), Changes(acts, j));
    }
  }

  /** Byte `e` is byte `a` raised `k` times by `Increment`: `a + k` modulo 256. */
  predicate Raised(a: int, e: int, k: nat) {
    e == (a + k) % 256
  }

  /** A byte raised `d` times and then `c` times is raised `d + c` times. */
  lemma {:induction false} CountStep(a: int, b: int, e: int, d: nat, c: nat, k: nat)
    requires 0 <= a < 256 && Raised(a, b, d) && Raised(b, e, c) && k == d + c
    ensures Raised(a, e, k)
  {
    ByteSum(a, d, c);
  }

  /** Adding in two steps, each reduced to a byte, is adding once. */
  lemma {:induction false} ByteSum(a: int, m: nat, n: nat)
    requires 0 <= a < 256
    ensures ((a + m) % 256 + n) % 256 == (a + m + n) % 256
  {
    var q := (a + m) / 256;
    assert a + m == 256 * q + (a + m) % 256;
  }

  /** Once the sentinel is visible, no sequence of steps moves the exam fields. */
  lemma {:induction false} RunAfterSentinel(s: Shared, dir: Directory, acts: seq<Action>)
    requires Runnable(s, dir, acts) && Done(s)
    ensures var t := Run(s, dir, acts);
      t.studentId == s.studentId && t.marked == s.marked && t.currentExam == s.currentExam
    decreases |acts|
  {
    if acts != [] {
      StepRunnable(s, dir, acts);
      RunAfterSentinel(Step(s, dir, acts[0]), dir, acts[1..]);
    }
  }

  /**
   * At most once per question per exam: while the exam does not advance,
   * every successful claim sets a distinct flag, so the successful claims
   * number exactly the flags gained and never exceed the unmarked questions.
   */
  lemma {:induction false} ClaimsWithinExam(s: Shared, dir: Directory, acts: seq<Action>)
    requires Runnable(s, dir, acts)
    requires Run(s, dir, acts).currentExam == s.currentExam
    ensures MarkedCount(Run(s, dir, acts).marked) == MarkedCount(s.marked) + Claims(s, dir, acts)
    ensures Claims(s, dir, acts) <= NumQuestions - MarkedCount(s.marked)
    decreases |acts|
  {
    if acts != [] {
      StepRunnable(s, dir, acts);
      var t := Step(s, dir, acts[0]);
      assert Run(s, dir, acts) == Run(t, dir, acts[1..]);
      assert t.currentExam == s.currentExam;
      ClaimsWithinExam(t, dir, acts[1..]);
    }
  }
  /** Every flag set is a full count. */
  lemma {:induction false} AllMarkedCount(m: seq<bool>)
    requires AllMarked(m)
    ensures MarkedCount(m) == |m|
  {
    if m != [] {
      assert AllMarked(m[1..]) by {
        forall i | 0 <= i < |m[1..]| ensures m[1..][i] { assert m[1..][i] == m[i + 1]; }
      }
      AllMarkedCount(m[1..]);
    }
  }

  /** No flag set is an empty count. */
  lemma {:induction false} NoneMarkedCount(m: seq<bool>)
    requires forall i :: 0 <= i < |m| ==> !m[i]
    ensures MarkedCount(m) == 0
  {
    if m != [] {
      assert forall i :: 0 <= i < |m[1..]| ==> m[1..][i] == m[i + 1];
      NoneMarkedCount(m[1..]);
    }
  }

  /**
   * At most one advance per exam: a run can move the exam counter only after
   * every question still unmarked at its start has been claimed by some step.
   */
  lemma {:induction false} AdvanceNeedsAllClaims(s: Shared, dir: Directory, acts: seq<Action>)
    requires Runnable(s, dir, acts)
    requires Run(s, dir, acts).currentExam > s.currentExam
    ensures Claims(s, dir, acts) + MarkedCount(s.marked) >= NumQuestions
    decreases |acts|
  {
    StepRunnable(s, dir, acts);
    var t := Step(s, dir, acts[0]);
    assert Run(s, dir, acts) == Run(t, dir, acts[1..]);
    if t.currentExam == s.currentExam + 1 {
      assert acts[0].CompletionCheck? && AllMarked(s.marked);
      AllMarkedCount(s.marked);
    } else {
      assert t.currentExam == s.currentExam;
      AdvanceNeedsAllClaims(t, dir, acts[1..]);
    }
  }

  /**
   * No double advance: after a load that opened a record, every one of its
   * questions is claimed in the run before the counter can move again.
   */
  lemma {:induction false} AdvanceAfterOpenNeedsEveryClaim(s: Shared, dir: Directory, acts: seq<Action>)
    requires Runnable(s, dir, acts) && s.marked == Unmarked()
    requires Run(s, dir, acts).currentExam > s.currentExam
    ensures Claims(s, dir, acts) >= NumQuestions
  {
    AdvanceNeedsAllClaims(s, dir, acts);
    NoneMarkedCount(s.marked);
  }
}
