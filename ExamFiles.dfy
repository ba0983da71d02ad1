/**
 * The exam directory: record number `n` is the file `exams/exam_NN.txt`,
 * and its first line is the student identifier.
 */
module ExamFiles {
  import opened RubricFile

  /** EXAM_DIR */
  const ExamDir: string := "exams/"

  const PathPrefix: string := ExamDir + "exam_"
  const PathSuffix: string := ".txt"

  /** `%0Nd`: left-pad a digit string with zeros to `width` characters. */
  function ZeroPad(d: string, width: nat): (r: string)
    ensures |r| == if |d| < width then width else |d|
    decreases width - |d|
  {
    if |d| >= width then d else ZeroPad(['0'] + d, width)
  }

  /** Padding with zeros keeps a digit string's value. */
  lemma {:induction false} ZeroPadValue(d: string, width: nat)
    requires AllDigits(d)
    ensures AllDigits(ZeroPad(d, width)) && DigitsValue(ZeroPad(d, width)) == DigitsValue(d)
    decreases width - |d|
  {
    if |d| < width {
      DigitsValueLeadingZero(d);
      ZeroPadValue(['0'] + d, width);
    }
  }

  /** `sprintf(filepath, "%sexam_%02d.txt", EXAM_DIR, n)` */
  function ExamPath(n: nat): string {
    PathPrefix + ZeroPad(FormatNat(n), 2) + PathSuffix
  }

  /** The number inside a path determines the record: distinct numbers name distinct files. */
  lemma {:induction false} ExamPathInjective(m: nat, n: nat)
    requires ExamPath(m) == ExamPath(n)
    ensures m == n
  {
    var x, y := ZeroPad(FormatNat(m), 2), ZeroPad(FormatNat(n), 2);
    var p, q := ExamPath(m), ExamPath(n);
    assert p[|PathPrefix|..|p| - |PathSuffix|] == x;
    assert q[|PathPrefix|..|q| - |PathSuffix|] == y;
    ZeroPadValue(FormatNat(m), 2);
    ZeroPadValue(FormatNat(n), 2);
  }

  /** Records 1 to 99 carry exactly two digits, the tens digit first, zero-padded below 10. */
  lemma {:induction false} ExamPathTwoDigits(n: nat)
    requires 1 <= n < 100
    ensures ExamPath(n) == "exams/exam_" + [Digit(n / 10), Digit(n % 10)] + ".txt"
  {
    if n < 10 {
      assert FormatNat(n) == [Digit(n)];
      assert ZeroPad(FormatNat(n), 2) == ['0', Digit(n)];
    } else {
      assert FormatNat(n / 10) == [Digit(n / 10)];
      assert FormatNat(n) == [Digit(n / 10), Digit(n % 10)];
    }
  }

  /** From record 100 on the number is written in full, without padding. */
  lemma {:induction false} ExamPathWide(n: nat)
    requires n >= 100
    ensures ExamPath(n) == "exams/exam_" + FormatNat(n) + ".txt"
  {
    assert FormatNat(n) == FormatNat(n / 10) + [Digit(n % 10)];
  }

  /**
   * `buffer[strcspn(buffer, "\n")] = 0; strcpy(student_id, buffer)`: the
   * identifier is the first line up to its newline (or an embedded NUL).
   */
  function StripLine(line: string): (id: string)
    ensures id <= line
    ensures forall i :: 0 <= i < |id| ==> id[i] != '\n' && id[i] != Nul
    ensures |id| < |line| ==> line[|id|] == '\n' || line[|id|] == Nul
  {
    TakeUntil(line, {'\n', Nul})
  }
}
