/**
 * The unsynchronised program: the same record and file helpers, and a
 * worker whose loop body runs the rubric pass, the claim scan and the
 * completion block with no lock at all. Modelled as one worker running
 * alone, which is the only schedule under which its steps are sequential.
 *
 * The random choices of the rubric pass (`rand() % 10 == 0`) are inputs:
 * `coins[k][i]` says whether round `k` changes question `i`.
 */
module PartA {
  import opened Wrappers
  import opened RubricFile
  import opened ExamFiles
  import opened Grading
  import opened SharedMemory

  /** The rubric pass of one round: each chosen entry goes up by one byte. */
  function AfterRubricPass(s: Shared, coins: seq<bool>): (t: Shared)
    requires WellFormed(s) && |coins| == NumQuestions
    ensures WellFormed(t)
    ensures forall j :: 0 <= j < NumQuestions ==>
      t.rubric[j] as int == (s.rubric[j] as int + (if coins[j] then 1 else 0)) % 256
    ensures t.studentId == s.studentId && t.marked == s.marked && t.currentExam == s.currentExam
  {
    s.(rubric := seq(NumQuestions, j requires 0 <= j < NumQuestions =>
                       if coins[j] then Increment(s.rubric[j]) else s.rubric[j]))
  }

  /** One iteration of the worker loop: rubric pass, claim scan, completion block. */
  function AfterRound(s: Shared, dir: Directory, coins: seq<bool>): (t: Shared)
    requires WellFormed(s) && ValidDirectory(dir) && |coins| == NumQuestions
    ensures WellFormed(t)
    ensures forall j :: 0 <= j < NumQuestions ==>
      t.rubric[j] as int == (s.rubric[j] as int + (if coins[j] then 1 else 0)) % 256
  {
    Advance(Claim(AfterRubricPass(s, coins)).0, dir)
  }

  /** Every round has a choice per question. */
  predicate RoundsOk(coins: seq<seq<bool>>) {
    forall k :: 0 <= k < |coins| ==> |coins[k]| == NumQuestions
  }

  /**
   * The worker loop `while (strcmp(student_id, "9999") != 0)`, cut off after
   * `|coins|` rounds: the final record and the number of rounds run.
   */
  function AfterRounds(s: Shared, dir: Directory, coins: seq<seq<bool>>): (r: (Shared, nat))
    requires WellFormed(s) && ValidDirectory(dir) && RoundsOk(coins)
    ensures WellFormed(r.0) && r.1 <= |coins|
    ensures r.1 < |coins| ==> Done(r.0)
    ensures r.1 == 0 <==> Done(s) || coins == []
    decreases |coins|
  {
    if Done(s) || coins == [] then (s, 0)
    else
      var r := AfterRounds(AfterRound(s, dir, coins[0]), dir, coins[1..]);
      (r.0, r.1 + 1)
  }

  /** The loop keeps going exactly while the identifier is not the sentinel: no round starts after it. */
  lemma {:induction false} RoundsRunWhileNotSentinel(s: Shared, dir: Directory, coins: seq<seq<bool>>, k: nat)
    requires WellFormed(s) && ValidDirectory(dir) && RoundsOk(coins)
    requires k < AfterRounds(s, dir, coins).1
    ensures RoundsOk(coins[..k])
    ensures !Done(AfterRounds(s, dir, coins[..k]).0) && AfterRounds(s, dir, coins[..k]).1 == k
    decreases k
  {
    if k > 0 {
      var t := AfterRound(s, dir, coins[0]);
      assert coins[..k][1..] == coins[1..][..k - 1];
      assert coins[..k][0] == coins[0];
      RoundsRunWhileNotSentinel(t, dir, coins[1..], k - 1);
    }
  }

  /**
   * The sentinel arrives only from a record whose first line is `9999`: with
   * no such record the worker never stops and runs every round it is given.
   */
  lemma {:induction false} NoSentinelRecordNeverStops(s: Shared, dir: Directory, coins: seq<seq<bool>>)
    requires WellFormed(s) && ValidDirectory(dir) && RoundsOk(coins) && !Done(s)
    requires forall p :: p in dir && dir[p].Some? ==> StripLine(dir[p].value) != Sentinel
    ensures AfterRounds(s, dir, coins).1 == |coins| && !Done(AfterRounds(s, dir, coins).0)
    decreases |coins|
  {
    if coins != [] {
      var t := AfterRound(s, dir, coins[0]);
      assert !Done(t);
      NoSentinelRecordNeverStops(t, dir, coins[1..]);
    }
  }

  /** How many of the first `n` rounds of `coins` choose to change entry `j`. */
  function Chosen(coins: seq<seq<bool>>, n: nat, j: nat): nat
    requires RoundsOk(coins) && n <= |coins| && j < NumQuestions
    decreases n
  {
    if n == 0 then 0
    else
      RoundsTail(coins);
      (if coins[0][j] then 1 else 0) + Chosen(coins[1..], n - 1, j)
  }

  /** Entry `j` after one round. */
  lemma {:induction false} RoundEntry(s: Shared, dir: Directory, c: seq<bool>, j: nat)
    requires WellFormed(s) && ValidDirectory(dir) && |c| == NumQuestions && j < NumQuestions
    ensures Raised(s.rubric[j] as int, AfterRound(s, dir, c).rubric[j] as int, if c[j] then 1 else 0)
  {
  }

  /**
   * One worker alone loses no rubric change: after the loop, each entry has
   * gone up once for every round that ran and chose it, modulo 256.
   */
  lemma {:induction false} RoundsCountRubricChanges(s: Shared, dir: Directory, coins: seq<seq<bool>>, j: nat, e: Shared, n: nat)
    requires WellFormed(s) && ValidDirectory(dir) && RoundsOk(coins) && j < NumQuestions
    requires AfterRounds(s, dir, coins) == (e, n)
    ensures n <= |coins|
    ensures Raised(s.rubric[j] as int, e.rubric[j] as int, Chosen(coins, n, j))
    decreases |coins|
  {
    if Done(s) || coins == [] {
      RoundsStop(s, dir, coins);
    } else {
      RoundsTail(coins);
      var t := AfterRound(s, dir, coins[0]);
      var r := AfterRounds(t, dir, coins[1..]);
      RoundsCountRubricChanges(t, dir, coins[1..], j, r.0, r.1);
      CountFirstRound(s, t, dir, coins, j, r.0, r.1, e, n);
    }
  }

  /** The count after the first round and the `m` rounds that follow it. */
  lemma {:induction false} CountFirstRound(s: Shared, t: Shared, dir: Directory, coins: seq<seq<bool>>, j: nat,
                                           u: Shared, m: nat, e: Shared, n: nat)
    requires WellFormed(s) && ValidDirectory(dir) && RoundsOk(coins) && j < NumQuestions
    requires !Done(s) && coins != [] && RoundsOk(coins[1..])
    requires t == AfterRound(s, dir, coins[0]) && AfterRounds(t, dir, coins[1..]) == (u, m)
    requires m <= |coins[1..]| && Raised(t.rubric[j] as int, u.rubric[j] as int, Chosen(coins[1..], m, j))
    requires AfterRounds(s, dir, coins) == (e, n)
    ensures n <= |coins|
    ensures Raised(s.rubric[j] as int, e.rubric[j] as int, Chosen(coins, n, j))
  {
    RoundsThen(s, t, dir, coins, u, m);
    RoundEntry(s, dir, coins[0], j);
    CountCons(coins, j, m, n, s.rubric[j] as int, t.rubric[j] as int, e.rubric[j] as int);
  }

  /** A first round that raised `a` to `b`, then `m` rounds that raised `b` to `x`. */
  lemma {:induction false} CountCons(coins: seq<seq<bool>>, j: nat, m: nat, n: nat, a: int, b: int, x: int)
    requires RoundsOk(coins) && coins != [] && RoundsOk(coins[1..]) && j < NumQuestions
    requires n == m + 1 && m <= |coins[1..]| && 0 <= a < 256
    requires Raised(a, b, if coins[0][j] then 1 else 0) && Raised(b, x, Chosen(coins[1..], m, j))
    ensures n <= |coins| && Raised(a, x, Chosen(coins, n, j))
  {
    CountStep(a, b, x, if coins[0][j] then 1 else 0, Chosen(coins[1..], m, j), Chosen(coins, n, j));
  }

  /** No exam record at all: the first load leaves the empty identifier and the run never ends. */
  lemma {:induction false} EmptyDirectoryNeverStops(file: Option<seq<string>>, coins: seq<seq<bool>>)
    requires (file.Some? ==> Loadable(file.value)) && RoundsOk(coins)
    ensures AfterRounds(Start(file, map[]), map[], coins).1 == |coins|
  {
    NoSentinelRecordNeverStops(Start(file, map[]), map[], coins);
  }

  /** The rubric pass of one round, with `usleep` left out and the coin flips given. */
  method RubricPass(g: GradingState, coins: seq<bool>) returns (saved: Option<seq<string>>)
    requires g.Valid() && |coins| == NumQuestions
    modifies g.rubric
    ensures g.Valid()
    ensures g.Snapshot() == AfterRubricPass(old(g.Snapshot()), coins)
    ensures saved == if true in coins then Some(RubricText(g.rubric[..])) else None
  {
    ghost var target := AfterRubricPass(g.Snapshot(), coins);
    saved := None;
    for i := 0 to NumQuestions
      invariant g.Valid()
      invariant forall j :: 0 <= j < i ==> g.rubric[j] == target.rubric[j]
      invariant forall j :: i <= j < NumQuestions ==> g.rubric[j] == old(g.rubric[j])
      invariant g.studentId == target.studentId && g.marked[..] == target.marked
      invariant g.currentExam == target.currentExam
      invariant saved == if true in coins[..i] then Some(RubricText(g.rubric[..])) else None
    {
      assert coins[..i + 1] == coins[..i] + [coins[i]];
      if coins[i] {
        var text := g.ChangeRubric(i);
        saved := Some(text);
      }
    }
    assert coins[..NumQuestions] == coins;
    assert g.rubric[..] == target.rubric;
  }

  /** The claim scan without the lock: claim the lowest unmarked question unless the sentinel is present. */
  method ClaimUnlocked(g: GradingState) returns (claimed: Option<nat>)
    requires g.Valid()
    modifies g.marked
    ensures g.Valid()
    ensures (g.Snapshot(), claimed) == Claim(old(g.Snapshot()))
  {
    ghost var s := g.Snapshot();
    claimed := None;
    for i := 0 to NumQuestions
      invariant g.Snapshot() == s
      invariant i > 0 ==> !Done(s)
      invariant forall k :: 0 <= k < i ==> s.marked[k]
    {
      if g.studentId == Sentinel {
        return;
      }
      if !g.marked[i] {
        g.marked[i] := true;
        claimed := Some(i);
        assert FirstUnmarked(s.marked) == Some(i);
        return;
      }
    }
    assert AllMarked(s.marked);
  }

  /** `all_marked` without an early exit: it still means "every flag is set". */
  method AllMarkedNoBreak(g: GradingState) returns (allMarked: bool)
    requires g.Valid()
    ensures allMarked <==> AllMarked(g.marked[..])
  {
    allMarked := true;
    for i := 0 to NumQuestions
      invariant allMarked <==> forall k :: 0 <= k < i ==> g.marked[k]
    {
      if !g.marked[i] {
        allMarked := false;
      }
    }
  }

  /** Both completion tests, with and without the early exit, give the same answer. */
  method CompareAllMarked(g: GradingState) returns (early: bool, full: bool)
    requires g.Valid()
    ensures early == full
    ensures full <==> AllMarked(g.marked[..])
  {
    early := g.AllQuestionsMarked();
    full := AllMarkedNoBreak(g);
  }

  /** The completion block without the lock. */
  method CompleteUnlocked(g: GradingState, dir: Directory) returns (advanced: bool)
    requires g.Valid() && ValidDirectory(dir)
    modifies g, g.marked
    ensures g.Valid()
    ensures advanced <==> !Done(old(g.Snapshot())) && AllMarked(old(g.marked[..]))
    ensures g.Snapshot() == Advance(old(g.Snapshot()), dir)
  {
    advanced := false;
    if g.studentId != Sentinel {
      var allMarked := AllMarkedNoBreak(g);
      if allMarked {
        var _ := g.LoadExam(dir);
        advanced := true;
      }
    }
  }

  /** One iteration of the worker loop body. */
  method RunRound(g: GradingState, dir: Directory, coins: seq<bool>)
    requires g.Valid() && ValidDirectory(dir) && |coins| == NumQuestions
    modifies g, g.rubric, g.marked
    ensures g.Valid()
    ensures g.Snapshot() == AfterRound(old(g.Snapshot()), dir, coins)
  {
    var _ := RubricPass(g, coins);
    var _ := ClaimUnlocked(g);
    var _ := CompleteUnlocked(g, dir);
  }

  lemma {:induction false} RoundsTail(coins: seq<seq<bool>>)
    requires RoundsOk(coins) && coins != []
    ensures |coins[0]| == NumQuestions && RoundsOk(coins[1..])
  {
    forall k | 0 <= k < |coins[1..]| ensures |coins[1..][k]| == NumQuestions {
      assert coins[1..][k] == coins[k + 1];
    }
  }

  lemma {:induction false} RoundsUnfold(s: Shared, t: Shared, dir: Directory, coins: seq<seq<bool>>)
    requires WellFormed(s) && ValidDirectory(dir) && RoundsOk(coins) && !Done(s) && coins != []
    requires t == AfterRound(s, dir, coins[0]) && RoundsOk(coins[1..])
    ensures AfterRounds(s, dir, coins).0 == AfterRounds(t, dir, coins[1..]).0
    ensures AfterRounds(s, dir, coins).1 == AfterRounds(t, dir, coins[1..]).1 + 1
  {
  }

  lemma {:induction false} RoundsStop(s: Shared, dir: Directory, coins: seq<seq<bool>>)
    requires WellFormed(s) && ValidDirectory(dir) && RoundsOk(coins) && (Done(s) || coins == [])
    ensures AfterRounds(s, dir, coins) == (s, 0)
  {
  }

  /** The worker loop of the unsynchronised program, for at most `|coins|` rounds. */
  method RunWorker(g: GradingState, dir: Directory, coins: seq<seq<bool>>) returns (rounds: nat)
    requires g.Valid() && ValidDirectory(dir) && RoundsOk(coins)
    modifies g, g.rubric, g.marked
    ensures g.Valid()
    ensures (g.Snapshot(), rounds) == AfterRounds(old(g.Snapshot()), dir, coins)
  {
    ghost var goal := AfterRounds(g.Snapshot(), dir, coins);
    ghost var rest := coins;
    rounds := 0;
    while g.studentId != Sentinel && rounds < |coins|
      invariant g.Valid() && rounds <= |coins| && rest == coins[rounds..]
      invariant RoundsOk(rest)
      invariant goal.0 == AfterRounds(g.Snapshot(), dir, rest).0
      invariant goal.1 == AfterRounds(g.Snapshot(), dir, rest).1 + rounds
      decreases |coins| - rounds
    {
      ghost var before := g.Snapshot();
      RoundsTail(rest);
      RunRound(g, dir, coins[rounds]);
      RoundsUnfold(before, g.Snapshot(), dir, rest);
      rest := rest[1..];
      rounds := rounds + 1;
    }
    RoundsStop(g.Snapshot(), dir, rest);
  }

  /** The exam directory of the one-exam scenario: student `S1`, then the sentinel record. */
  function ScenarioDirectory(): Directory {
    map[ExamPath(1) := Some("S1\n"), ExamPath(2) := Some("9999\n")]
  }

  function NoChanges(): (c: seq<bool>)
    ensures |c| == NumQuestions
  {
    seq(NumQuestions, _ => false)
  }

  lemma {:induction false} ScenarioDirectoryValid()
    ensures ValidDirectory(ScenarioDirectory())
    ensures ExamPath(1) != ExamPath(2)
    ensures StripLine("S1\n") == "S1" && StripLine("9999\n") == Sentinel
  {
    assert "S1\n" == "S1" + "\n";
    TakeUntilSkips("S1", "\n", {'\n', Nul});
    assert "9999\n" == "9999" + "\n";
    TakeUntilSkips("9999", "\n", {'\n', Nul});
    if ExamPath(1) == ExamPath(2) {
      ExamPathInjective(1, 2);
    }
  }

  /** A round that changes no rubric entry is a claim followed by the completion block. */
  lemma {:induction false} QuietRound(s: Shared, dir: Directory)
    requires WellFormed(s) && ValidDirectory(dir)
    ensures AfterRound(s, dir, NoChanges()) == Advance(Claim(s).0, dir)
  {
    assert AfterRubricPass(s, NoChanges()).rubric == s.rubric;
  }

  lemma {:induction false} ScenarioStart()
    ensures ValidDirectory(ScenarioDirectory())
    ensures Start(None, ScenarioDirectory()) == ScenarioState(0)
  {
    ScenarioDirectoryValid();
    assert Start(None, ScenarioDirectory()) == Zero().(studentId := "S1", currentExam := 1);
    assert seq(NumQuestions, j => j < 0) == Unmarked();
  }

  /** The scenario state after `k` rounds: questions below `k` are marked. */
  function ScenarioState(k: nat): (s: Shared)
    ensures WellFormed(s) && !Done(s)
    ensures forall j :: 0 <= j < NumQuestions ==> s.rubric[j] == Nul
  {
    Zero().(studentId := "S1", currentExam := 1, marked := seq(NumQuestions, j => j < k))
  }

  /** Where the scenario ends: the sentinel record of exam 2 is loaded. */
  function ScenarioEnd(): (s: Shared)
    ensures WellFormed(s) && Done(s)
  {
    Zero().(studentId := Sentinel, currentExam := 2)
  }

  /** The state the scenario reaches after round `k + 1`. */
  function ScenarioNext(k: nat): (s: Shared)
    ensures WellFormed(s)
  {
    if k < NumQuestions - 1 then ScenarioState(k + 1) else ScenarioEnd()
  }

  /** Round `k + 1` of the scenario claims question `k`; the fifth round also loads the sentinel record. */
  lemma {:induction false} ScenarioRound(k: nat)
    requires k < NumQuestions
    ensures ValidDirectory(ScenarioDirectory())
    ensures AfterRound(ScenarioState(k), ScenarioDirectory(), NoChanges()) == ScenarioNext(k)
  {
    ScenarioDirectoryValid();
    var s := ScenarioState(k);
    var m := s.marked;
    QuietRound(s, ScenarioDirectory());
    assert !m[k];
    assert !AllMarked(m);
    var r := Claim(s);
    var v := r.1.value;
    assert forall j :: 0 <= j < NumQuestions ==> (m[j] <==> j < k);
    assert k <= v by { assert !m[v]; }
    assert v <= k by { assert !m[k]; }
    assert r.0.marked == seq(NumQuestions, j => j < k + 1);
    if k < NumQuestions - 1 {
      assert !r.0.marked[NumQuestions - 1];
      assert r.0 == ScenarioState(k + 1);
    } else {
      assert AllMarked(r.0.marked);
      assert LoadExam(r.0, ScenarioDirectory()) == Zero().(studentId := Sentinel, currentExam := 2);
    }
  }

  /** One more round of the loop, given where the remaining rounds end. */
  lemma {:induction false} RoundsThen(s: Shared, t: Shared, dir: Directory, coins: seq<seq<bool>>, e: Shared, n: nat)
    requires WellFormed(s) && ValidDirectory(dir) && RoundsOk(coins) && !Done(s) && coins != []
    requires t == AfterRound(s, dir, coins[0])
    requires RoundsOk(coins[1..]) && AfterRounds(t, dir, coins[1..]) == (e, n)
    ensures AfterRounds(s, dir, coins) == (e, n + 1)
  {
    RoundsTail(coins);
    RoundsUnfold(s, t, dir, coins);
    assert AfterRounds(s, dir, coins).0 == e && AfterRounds(s, dir, coins).1 == n + 1;
  }

  /** Round `c` of the loop takes record `s` to record `t`. */
  predicate RoundStep(s: Shared, dir: Directory, c: seq<bool>, t: Shared) {
    && WellFormed(s) && ValidDirectory(dir) && |c| == NumQuestions
    && AfterRound(s, dir, c) == t
  }

  /**
   * A chain of records, each one round after the last, none but the last
   * holding the sentinel: the loop walks the whole chain and stops at its end.
   */
  lemma {:induction false} RoundsFollowChain(chain: seq<Shared>, dir: Directory, coins: seq<seq<bool>>)
    requires 0 < |chain| <= |coins| + 1
    requires WellFormed(chain[0]) && ValidDirectory(dir) && RoundsOk(coins)
    requires forall i :: 0 <= i < |chain| - 1 ==> !Done(chain[i]) && RoundStep(chain[i], dir, coins[i], chain[i + 1])
    requires Done(chain[|chain| - 1])
    ensures AfterRounds(chain[0], dir, coins) == (chain[|chain| - 1], |chain| - 1)
    decreases |chain|
  {
    if |chain| == 1 {
      RoundsStop(chain[0], dir, coins);
    } else {
      var s := chain[0];
      var t := chain[1];
      assert !Done(s) && RoundStep(s, dir, coins[0], t);
      RoundsTail(coins);
      var tail := chain[1..];
      var rest := coins[1..];
      forall i | 0 <= i < |tail| - 1
        ensures !Done(tail[i]) && RoundStep(tail[i], dir, rest[i], tail[i + 1])
      {
        assert tail[i] == chain[i + 1] && tail[i + 1] == chain[i + 2] && rest[i] == coins[i + 1];
      }
      assert tail[|tail| - 1] == chain[|chain| - 1];
      RoundsFollowChain(tail, dir, rest);
      RoundsThen(s, t, dir, coins, chain[|chain| - 1], |chain| - 2);
    }
  }

  /** The records of the one-exam scenario, one per round, ending on the sentinel. */
  function ScenarioChain(): (c: seq<Shared>)
    ensures |c| == NumQuestions + 1
  {
    seq(NumQuestions, i requires 0 <= i => ScenarioState(i)) + [ScenarioEnd()]
  }

  /** Each record of the scenario chain is one quiet round after the one before. */
  lemma {:induction false} ScenarioChainSteps(dir: Directory, coins: seq<seq<bool>>)
    requires dir == ScenarioDirectory()
    requires NumQuestions <= |coins|
    requires forall k :: 0 <= k < |coins| ==> coins[k] == NoChanges()
    ensures forall i :: 0 <= i < NumQuestions ==>
      !Done(ScenarioChain()[i]) && RoundStep(ScenarioChain()[i], dir, coins[i], ScenarioChain()[i + 1])
  {
    var chain := ScenarioChain();
    forall i | 0 <= i < NumQuestions
      ensures !Done(chain[i]) && RoundStep(chain[i], dir, coins[i], chain[i + 1])
    {
      ScenarioRound(i);
      assert chain[i] == ScenarioState(i) && chain[i + 1] == ScenarioNext(i);
    }
  }

  /**
   * With no rubric file, exam 1 for student `S1` and a sentinel record as
   * exam 2, and no rubric change, one worker claims the five questions in
   * five rounds, loads the sentinel at the end of the fifth and stops there.
   */
  lemma {:induction false} OneExamScenario(dir: Directory, coins: seq<seq<bool>>)
    requires dir == ScenarioDirectory()
    requires NumQuestions <= |coins|
    requires forall k :: 0 <= k < |coins| ==> coins[k] == NoChanges()
    ensures ValidDirectory(dir) && RoundsOk(coins)
    ensures AfterRounds(Start(None, dir), dir, coins) == (ScenarioEnd(), NumQuestions)
  {
    ScenarioStart();
    var chain := ScenarioChain();
    ScenarioChainSteps(dir, coins);
    assert chain[0] == ScenarioState(0);
    assert RoundsOk(coins);
    RoundsFollowChain(chain, dir, coins);
    assert chain[|chain| - 1] == ScenarioEnd();
  }
}
