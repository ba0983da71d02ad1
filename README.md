# Exam-marking workers over one shared grading record

A pool of teaching-assistant processes marks a stream of exams. They share
one `shared_memory` record:

- the rubric, one character per question;
- the current student identifier, where `9999` means "no exams remain";
- one "marked" flag per question;
- the exam counter.

Each worker loops. It stops once it sees the sentinel identifier `9999`.
Otherwise it may bump rubric entries, claims one unmarked question, and
loads the next exam once every question is marked. The synchronised program
(`PartB_101262180_101268578.c`) guards each of these steps with a semaphore
(one for the rubric, one for the exam fields). The unsynchronised program
(`PartA_101262180_101268578.c`) runs the same steps with no lock.

The model has the following parts:

- `RubricFile.dfy` (module `RubricFile`): the `rubric.txt` format. A file that
  `load_rubric` reads is the sequence of its lines, each as `fgets` returns it.
  - `ParseLine` is the `%d,%c` scan, on unsigned decimal numbers.
  - `ApplyLine` and `LoadLines` give the effect of `load_rubric`.
  - `RubricText` is the five strings the `fprintf` calls of `save_rubric`
    write. `FileText` is the file's text, and `ReadLines` splits a text into
    the lines `fgets` returns.
  - Lemmas prove that the last line for a question wins, that an unnamed
    entry keeps its value, and that saving, then reading the file back line
    by line and loading it, restores every entry that is not NUL. A newline
    marker is written as `q,` and two newlines, which `fgets` reads as two
    lines; the second names no question.
- `ExamFiles.dfy` (module `ExamFiles`): the path `exams/exam_NN.txt`, built
  with `%02d`, and the stripping of a record's first line into an identifier.
- `Grading.dfy` (module `Grading`): the record as a value `Shared`, plus one
  transition function per critical section. These are the rubric change,
  `load_exam`, one probe of the claim scan, the whole claim scan and the
  completion check. A run of the pool is any sequence of critical sections
  (`Run`). Lemmas over runs state these properties:
  - no rubric update is lost;
  - the sentinel freezes the exam fields;
  - each question is claimed at most once per exam.
- `SharedMemory.dfy` (module `SharedMemory`): class `GradingState`, holding
  the record's fields. It has the arrays `rubric` and `marked`, the string
  `studentId` and the integer `currentExam`. Each method is one helper or
  one critical section of the synchronised program. Its contract ties the
  record after the call to the matching `Grading` transition of the record
  before it.
- `PartA.dfy` (module `PartA`): the unsynchronised worker, run as one worker
  alone. Its `load_rubric`, `save_rubric` and `load_exam` are textually the
  same as the synchronised program's (PartA 26-83 = PartB 58-115), so the
  `GradingState` methods model both.
  - `RubricPass`, `ClaimUnlocked`, `AllMarkedNoBreak`, `CompleteUnlocked` and
    `RunWorker` follow its loop body and its `while` loop.
  - `AfterRounds` is the loop as a function. It is cut off after the number
    of rounds the caller supplies.

Inputs that the C code takes from the environment are parameters here:

- The coin flips `rand() % 10 == 0` of the rubric pass are `seq<bool>`
  values. A run of the unsynchronised loop takes one per round.
- The exam directory is a `map` from path to an optional first line. A
  missing key means `fopen` fails. `None` means the file has no first line.
- The rubric file is an `Option` of its lines. `None` means it cannot be
  opened.
- `save_rubric` returns the strings it writes, in order; the file holds their
  concatenation.

Behaviour of the code that a reader might not expect:

- The sentinel only arrives from an exam record whose first line is `9999`.
  If a record is missing, `load_exam` still bumps the counter, but it leaves
  the identifier and the flags as they were (PartB 93-101). The flags stay
  set, so the next completion check advances again. With no sentinel record
  the workers never stop. `Grading.MissingRecordAdvancesAgain`,
  `PartA.NoSentinelRecordNeverStops` and `PartA.EmptyDirectoryNeverStops`
  state this. With an empty exam directory the identifier stays empty, so no
  worker ever leaves its loop.
- A record that opens but has no first line still clears every flag, and it
  keeps the previous identifier (PartB 104-112).
- The synchronised claim scan takes and releases the exam lock once per
  question (PartB 147-166). It does no separate unlocked pre-scan.
  - The atomic unit is therefore `GradingState.ProbeQuestion`, one probe.
  - `GradingState.ClaimQuestion` is the whole scan with no other worker
    between its probes.

Undefined behaviour in the C code is ruled out by preconditions:

- A rubric line naming question 0 writes out of bounds (`LoadableLine`,
  `Loadable`).
- An identifier longer than four characters overflows `student_id` when
  `load_exam` copies it. `ValidDirectory` asks this of every record in the
  directory, not only of the ones a run opens (see `## Left out`).

Characters are bytes. A C `char` holds one byte, so rubric markers and the
text of the rubric file are characters 0 to 255 (`IsByte`, `ByteText`).
`++` on a marker adds one modulo 256 (`Grading.Increment`): 127 becomes 128
and 255 becomes NUL, which is how GCC converts the promoted `int` back to
`char`, signed or unsigned.

## Model

| member | source | states |
|---|---|---|
| `RubricFile.TakeUntil` | PartB_101262180_101268578.c:105 | the result is the longest prefix free of the stop characters; this gives the C-string view (text before NUL) and the `strcspn` cut |
| `RubricFile.LeadingDigits` | PartB_101262180_101268578.c:69 | `%d` consumes exactly the maximal run of leading decimal digits |
| `RubricFile.FormatNat` | PartB_101262180_101268578.c:87 | `%d` output is a non-empty digit string with no leading zero whose value is the number printed |
| `RubricFile.FormatNatInjective` | PartB_101262180_101268578.c:87 | distinct numbers print differently |
| `RubricFile.DigitsValueLeadingZero` | PartB_101262180_101268578.c:98 | a leading zero does not change a digit string's value (needed for `%02d`) |
| `RubricFile.TakeUntilSkips` | PartB_101262180_101268578.c:69 | a prefix free of stop characters passes through the C-string view unchanged |
| `RubricFile.ApplyLine` | PartB_101262180_101268578.c:69-72 | a line `q,c` with `q <= 5` sets only entry `q-1` to `c`; a non-matching line or `q > 5` changes nothing |
| `RubricFile.LoadLines` | PartB_101262180_101268578.c:68-74 | reading lines in file order keeps the rubric at five entries |
| `RubricFile.LoadLinesLastWins` | PartB_101262180_101268578.c:68-74 | the last line naming question `j+1` decides entry `j`, overriding every earlier one (also PartA 36-41) |
| `RubricFile.LoadLinesUntouched` | PartB_101262180_101268578.c:68-74 | an entry no line names keeps its previous value (also PartA 36-41) |
| `RubricFile.RubricLineCString` | PartB_101262180_101268578.c:87 | a NUL marker cuts the written line short just after the comma; any other marker leaves the line whole |
| `RubricFile.ParseLine` | PartB_101262180_101268578.c:69 | a scanned marker of a byte line is a byte; what the scan reads from a written line is stated by `DigitsThenComma` and `ParseRubricLine` |
| `RubricFile.LoadFile` | PartB_101262180_101268578.c:59-63 | a file that cannot be opened leaves the rubric as it is, otherwise its lines are applied in order; its properties are stated by `LoadLinesLastWins`, `LoadLinesUntouched` and `GradingState.LoadRubric` |
| `RubricFile.RubricLine` | PartB_101262180_101268578.c:87 | the `%d,%c\n` line of one question; `RubricLineCString`, `ParseRubricLine` and `RubricLineBytes` state what it holds and how it scans back |
| `RubricFile.RubricText` | PartB_101262180_101268578.c:86-88 | the five strings `save_rubric` writes; `RubricRoundTrip` and `RubricRoundTripExact` state that reading their text back restores the rubric |
| `RubricFile.RubricTextLoadable` | PartB_101262180_101268578.c:86-88 | every written line of a byte rubric can be loaded |
| `RubricFile.ReadLines` | PartB_101262180_101268578.c:68 | the lines successive `fgets` calls return: together they spell the file's text, none has a newline before its end, and each but the last ends with a newline |
| `RubricFile.ReadLinesFirst` | PartB_101262180_101268578.c:68 | a text that starts with a whole line reads as that line followed by the lines of the rest |
| `RubricFile.ReadRubricLine` | PartB_101262180_101268578.c:68 | a written line `q,c` reads back as that one line, except that a newline marker reads as `q,` plus newline and then a bare newline |
| `RubricFile.ParseMarkerLine` | PartB_101262180_101268578.c:69 | `%d,%c` reads `(q, c)` from any text that starts `q,c` with `c` not NUL |
| `RubricFile.MarkerLineLoadable` | PartB_101262180_101268578.c:69-71 | a text `q,c` with `q > 0` and a byte marker is a line `load_rubric` can apply |
| `RubricFile.NewlineMarkerLoads` | PartB_101262180_101268578.c:68-74 | the two lines of a newline marker load as its written line would: the first sets the entry to newline, the bare newline changes nothing |
| `RubricFile.ReadBackLoads` | PartB_101262180_101268578.c:68-74 | the lines read back from any written line load as that written line does |
| `RubricFile.LoadLinesAppend` | PartB_101262180_101268578.c:68-74 | loading the lines of `a` then those of `b` is loading `a + b` |
| `RubricFile.ReadRubricFrom` | PartB_101262180_101268578.c:68-88 | the file text of the written lines from question `i + 1` on, read back, loads as those written lines |
| `RubricFile.WrittenLinesRestore` | PartB_101262180_101268578.c:86-88 | applying each written line whole restores every non-NUL entry; a NUL entry keeps the reader's value |
| `RubricFile.RubricLineBytes` | PartB_101262180_101268578.c:87 | a line written for a byte marker is byte text, so the file `save_rubric` writes can be read back |
| `RubricFile.DigitsThenComma` | PartB_101262180_101268578.c:69 | `%d` consumes exactly the digits before the comma |
| `RubricFile.ParseRubricLine` | PartB_101262180_101268578.c:87 | a written line `q,c` scans back as `(q, c)`, and does not scan at all when `c` is NUL |
| `RubricFile.RubricRoundTrip` | PartB_101262180_101268578.c:86-88 | for a rubric of bytes, reading the file `save_rubric` wrote with `fgets` and loading it restores every non-NUL entry, a newline marker included; a NUL entry keeps the reader's value (also PartA 54-56 with 36-41) |
| `RubricFile.RubricRoundTripExact` | PartB_101262180_101268578.c:86-88 | for a rubric of bytes with no NUL marker, reading back and loading the saved file gives exactly the saved rubric |
| `ExamFiles.ZeroPad` | PartB_101262180_101268578.c:98 | `%02d` padding yields at least two characters and leaves longer numbers alone |
| `ExamFiles.ZeroPadValue` | PartB_101262180_101268578.c:98 | zero padding keeps the number's value |
| `ExamFiles.ExamPath` | PartB_101262180_101268578.c:98 | the record path of exam `n`; `ExamPathInjective`, `ExamPathTwoDigits` and `ExamPathWide` state its form |
| `ExamFiles.ExamPathInjective` | PartB_101262180_101268578.c:98 | distinct exam numbers open distinct files |
| `ExamFiles.ExamPathTwoDigits` | PartB_101262180_101268578.c:98 | exam `n` in 1..99 is read from `exams/exam_` + two zero-padded digits of `n` + `.txt` |
| `ExamFiles.ExamPathWide` | PartB_101262180_101268578.c:98 | from 100 on the number is written in full |
| `ExamFiles.StripLine` | PartB_101262180_101268578.c:104-106 | the identifier is the first line up to its newline (or an embedded NUL) |
| `Grading.Unmarked` | PartB_101262180_101268578.c:110-112 | five flags, all false |
| `Grading.Zero` | PartB_101262180_101268578.c:203-213 | fresh zero-filled shared memory is a well-formed record |
| `Grading.MarkedCount` | PartB_101262180_101268578.c:24 | the number of set flags is at most the number of questions |
| `Grading.MarkedCountSet` | PartB_101262180_101268578.c:155-156 | setting an unset flag raises the count by exactly one |
| `Grading.Done` | PartB_101262180_101268578.c:129 | the identifier is the sentinel `9999` (the same test at lines 150 and 170); `SentinelFreezes`, `RunAfterSentinel` and `GradingState.IsFinished` state what it implies |
| `Grading.Increment` | PartB_101262180_101268578.c:140 | `++` on a byte marker gives the byte one above it modulo 256 |
| `Grading.ChangeRubric` | PartB_101262180_101268578.c:139-140 | entry `i` goes up by one modulo 256; every other entry and every exam field is unchanged (also PartA 100-101) |
| `Grading.LoadExam` | PartB_101262180_101268578.c:92-112 | the counter always rises by one; a missing record leaves identifier and flags unchanged; an opened record clears all five flags and installs its stripped first line if it has one (also PartA 60-80) |
| `Grading.MissingRecordKeepsMarks` | PartB_101262180_101268578.c:100-101 | an all-marked record stays all-marked, with the same identifier, when the next record is missing |
| `Grading.Start` | PartB_101262180_101268578.c:233-235 | start-up gives a well-formed record with the file's rubric and counter 1 |
| `Grading.ProbeAt` | PartB_101262180_101268578.c:148-165 | one probe sees the sentinel iff it is present; it claims iff there is no sentinel and the flag is unset, setting exactly that flag; otherwise nothing changes |
| `Grading.FirstUnmarked` | PartB_101262180_101268578.c:147-166 | the lowest unset flag's index, or none when all are set |
| `Grading.Claim` | PartB_101262180_101268578.c:147-166 | with no sentinel and some flag unset, exactly the lowest unset flag becomes true and the marked count rises by one, staying at most 5; otherwise nothing changes (also PartA 107-118) |
| `Grading.Advance` | PartB_101262180_101268578.c:168-184 | the next exam is loaded iff the sentinel is absent and all flags are set; otherwise the record is unchanged |
| `Grading.SentinelFreezes` | PartB_101262180_101268578.c:150-153 | under the sentinel a probe, a claim scan and a completion check change nothing |
| `Grading.AdvanceOncePerRecord` | PartB_101262180_101268578.c:170-183 | after an advance that opens a record, the next completion check changes nothing |
| `Grading.AllMarkedCount` | PartB_101262180_101268578.c:171-177 | with every flag set, the marked count is the number of questions |
| `Grading.NoneMarkedCount` | PartB_101262180_101268578.c:110-112 | with no flag set, the marked count is zero |
| `Grading.AdvanceNeedsAllClaims` | PartB_101262180_101268578.c:147-184 | in any interleaving of critical sections, the counter moves only if the claims made plus the flags already set reach the number of questions |
| `Grading.AdvanceAfterOpenNeedsEveryClaim` | PartB_101262180_101268578.c:168-184 | no double advance: starting just after a record was opened, any run that moves the counter again has claimed every question |
| `Grading.MissingRecordAdvancesAgain` | PartB_101262180_101268578.c:93-101 | if the next record is missing, two completion checks in a row raise the counter by two |
| `Grading.Step` | PartB_101262180_101268578.c:127-185 | one critical section of any worker: a rubric change, one probe of the claim scan or one completion check; `StepRunnable`, `RunCountsRubricChanges` and `ClaimsWithinExam` state what steps do |
| `Grading.Run` | PartB_101262180_101268578.c:127-185 | any sequence of critical sections keeps the record well-formed and never lowers the counter |
| `Grading.RunCountsRubricChanges` | PartB_101262180_101268578.c:138-143 | no lost update: after any run, entry `j` equals its start value plus the number of locked changes to `j`, modulo 256 |
| `Grading.CountStep` | PartB_101262180_101268578.c:138-143 | proof step of `RunCountsRubricChanges` (also of `PartA.RoundsCountRubricChanges`): a byte raised `d` times and then `c` times is raised `d + c` times, modulo 256 |
| `Grading.RunAfterSentinel` | PartB_101262180_101268578.c:128-133 | once the sentinel is visible, no run of steps changes identifier, flags or counter |
| `Grading.ClaimsWithinExam` | PartB_101262180_101268578.c:147-166 | while the exam does not advance, the successful claims equal the flags gained, and there are never more of them than unmarked questions |
| `SharedMemory.GradingState.constructor` | PartB_101262180_101268578.c:203-213 | the attached record is zero-filled |
| `SharedMemory.GradingState.LoadRubric` | PartB_101262180_101268578.c:58-76 | applies the file's lines in order; a file that cannot be opened changes nothing |
| `SharedMemory.GradingState.SaveRubric` | PartB_101262180_101268578.c:78-90 | writes exactly five strings, string `i` being `i+1,c` and a newline with `c` the entry `i`, in order; this is `RubricText` of the rubric |
| `SharedMemory.GradingState.LoadExam` | PartB_101262180_101268578.c:92-115 | the record becomes `Grading.LoadExam` of the record before; the path opened is that of the new counter |
| `SharedMemory.GradingState.Start` | PartB_101262180_101268578.c:233-235 | rubric load, counter reset, first exam load, as `Grading.Start` |
| `SharedMemory.GradingState.IsFinished` | PartB_101262180_101268578.c:128-133 | the worker leaves its loop iff the identifier is `9999` |
| `SharedMemory.GradingState.ChangeRubric` | PartB_101262180_101268578.c:138-143 | the record becomes `Grading.ChangeRubric` of the record before, and the saved text is the new rubric's |
| `SharedMemory.GradingState.ProbeQuestion` | PartB_101262180_101268578.c:148-165 | record and outcome are `Grading.ProbeAt` of the record before |
| `SharedMemory.GradingState.ClaimQuestion` | PartB_101262180_101268578.c:147-166 | the scan's record and claimed index are `Grading.Claim` of the record before |
| `SharedMemory.GradingState.AllQuestionsMarked` | PartB_101262180_101268578.c:171-177 | the early-exit loop returns true iff every flag is set |
| `SharedMemory.GradingState.CompleteExam` | PartB_101262180_101268578.c:168-184 | it advances iff there is no sentinel and all flags are set; the record becomes `Grading.Advance` of the record before |
| `PartA.AfterRubricPass` | PartA_101262180_101268578.c:97-105 | each chosen entry goes up by one modulo 256, the others and the exam fields stay |
| `PartA.AfterRound` | PartA_101262180_101268578.c:97-132 | a round keeps the record well-formed and raises exactly the chosen entries by one modulo 256 |
| `PartA.RoundEntry` | PartA_101262180_101268578.c:99-101 | entry `j` after one round is entry `j` before it, raised once if the round chose it |
| `PartA.RoundsCountRubricChanges` | PartA_101262180_101268578.c:95-105 | one worker alone loses no change: after the loop, entry `j` is its start value raised once for every round that ran and chose it, modulo 256 |
| `PartA.AfterRounds` | PartA_101262180_101268578.c:95-133 | the loop runs no round when the sentinel is already present, and it stops before the supplied rounds run out only on the sentinel |
| `PartA.RoundsRunWhileNotSentinel` | PartA_101262180_101268578.c:95 | every round that runs starts from a record whose identifier is not `9999` |
| `PartA.NoSentinelRecordNeverStops` | PartA_101262180_101268578.c:61-80 | if no record's first line is `9999`, the loop never stops and runs every supplied round |
| `PartA.EmptyDirectoryNeverStops` | PartA_101262180_101268578.c:163-165 | with no exam record at all, start-up then the loop runs every supplied round |
| `PartA.RoundsFollowChain` | PartA_101262180_101268578.c:95-133 | if each record of a chain is one round after the one before and only the last holds `9999`, the loop walks the whole chain and stops at its end |
| `PartA.ScenarioRound` | PartA_101262180_101268578.c:107-132 | in the one-exam scenario, round `k+1` claims question `k`; the fifth round also completes the exam and loads the sentinel record |
| `PartA.ScenarioDirectoryValid` | PartA_101262180_101268578.c:66 | the scenario's two records have distinct paths and strip to `S1` and `9999` |
| `PartA.OneExamScenario` | PartA_101262180_101268578.c:95-133 | no rubric file, record 1 `S1`, record 2 `9999`, no rubric changes: the worker runs exactly five rounds and ends with the sentinel loaded, the counter at 2 and the flags cleared |
| `PartA.RubricPass` | PartA_101262180_101268578.c:97-105 | the record becomes `AfterRubricPass` of the record before; the file holds the new rubric iff some entry changed |
| `PartA.ClaimUnlocked` | PartA_101262180_101268578.c:107-118 | record and claimed index are `Grading.Claim` of the record before |
| `PartA.AllMarkedNoBreak` | PartA_101262180_101268578.c:121-126 | the loop without an early exit still returns true iff every flag is set |
| `PartA.CompareAllMarked` | PartA_101262180_101268578.c:121-126 | the loop without an exit and the early-exit loop (PartB 171-177) return the same value |
| `PartA.CompleteUnlocked` | PartA_101262180_101268578.c:120-132 | it advances iff there is no sentinel and all flags are set; the record becomes `Grading.Advance` of the record before |
| `PartA.RunRound` | PartA_101262180_101268578.c:97-132 | the record becomes `AfterRound` of the record before |
| `PartA.RunWorker` | PartA_101262180_101268578.c:95-133 | record and rounds run are `AfterRounds` of the record before |

## Left out

- Semaphores (`semget`, `semctl`, `semop` and their failures): each locked region is one method or one transition instead. A run of the pool is any sequence of them.
- Process and shared-memory plumbing (`fork`, `wait`, `shmget`, `shmat`, `shmdt`, `shmctl`), and both `main` functions apart from the start-up sequence. This is operating-system IPC.
- The worker loop of the synchronised program as a method of its own. It is covered by `Grading.Run` over its critical sections, because the steps of different workers interleave.
- `usleep` and `rand`: there is no timing. The coin flips are parameters.
- `printf` and `perror` logging.
- Real file I/O. A file read with `fgets` is its line sequence, a written file its text, and the exam directory is a map. `save_rubric` failing to open its file is not modelled. The file on disk is not part of the state; the saved text is returned.
- `fgets` splitting lines longer than 31 characters.
- Grading.ValidDirectory: every record in the directory must strip to at most four characters, whether or not a run ever opens it. This is stronger than the C code needs, since only the record `load_exam` opens is copied into `student_id`. No run is lost: removing the records a run never opens leaves a valid directory on which the run is the same.
- Grading.Increment: a `char` value outside 0 to 255 does not arise from a byte-sized field, so markers are bytes by precondition; the wrap from 255 to NUL follows GCC's conversion, which the C standard leaves to the implementation for signed `char`.
- `sscanf` details: leading white space, signs and integer overflow in `%d`. `ParseLine` reads unsigned decimal digits only.
- Grading.LoadExam: `current_exam` is an unbounded integer, so 32-bit overflow after 2^31 - 1 loads is not modelled.
- PartA.AfterRounds: the loop is cut off after the supplied rounds, so rounds beyond the last supplied one are not modelled.
- SharedMemory.GradingState.ClaimQuestion: proved only for a scan with no other worker between its probes. Under interleaving only the per-probe contract (`ProbeQuestion`) holds.
- The lost updates that the unsynchronised program exhibits under concurrency. Its steps are modelled for one worker only.
- Command-line checks (`argc`, `atoi`, at least two workers).
