/**
 * The rubric file `rubric.txt`: one line per question, `q,c` where `q` is
 * the 1-based question number in decimal and `c` the grade marker.
 * A file that is read is the sequence of its lines, each as `fgets` returns
 * it (with its trailing newline when it has one); a file that is written is
 * the text of its strings one after another, and `ReadLines` gives the lines
 * `fgets` reads from that text.
 */
module RubricFile {
  import opened Wrappers

  /** NUM_QUESTIONS */
  const NumQuestions: nat := 5

  const Nul: char := '\0'

  predicate IsDigit(c: char) { '0' <= c <= '9' }

  predicate AllDigits(s: string) { forall i :: 0 <= i < |s| ==> IsDigit(s[i]) }

  /** A C `char` holds one byte; files and buffers are read as characters 0 to 255. */
  predicate IsByte(c: char) { c as int < 256 }

  predicate ByteText(s: string) { forall i :: 0 <= i < |s| ==> IsByte(s[i]) }

  /** The longest prefix of `s` holding no character of `stop`. */
  function TakeUntil(s: string, stop: set<char>): (r: string)
    ensures r <= s
    ensures forall i :: 0 <= i < |r| ==> r[i] !in stop
    ensures |r| < |s| ==> s[|r|] in stop
  {
    if s == [] || s[0] in stop then [] else [s[0]] + TakeUntil(s[1..], stop)
  }

  /** What the C string functions see of a buffer: the text before the first NUL. */
  function CString(s: string): string {
    TakeUntil(s, {Nul})
  }

  /** A prefix free of stop characters passes through unchanged. */
  lemma {:induction false} TakeUntilSkips(a: string, b: string, stop: set<char>)
    requires forall i :: 0 <= i < |a| ==> a[i] !in stop
    ensures TakeUntil(a + b, stop) == a + TakeUntil(b, stop)
  {
    if a == [] {
      assert a + b == b;
    } else {
      assert (a + b)[0] == a[0] && (a + b)[1..] == a[1..] + b;
      TakeUntilSkips(a[1..], b, stop);
      assert a == [a[0]] + a[1..];
    }
  }

  /** Number of decimal digits at the front of `s` (what `%d` consumes). */
  function LeadingDigits(s: string): (k: nat)
    ensures k <= |s|
    ensures AllDigits(s[..k])
    ensures k < |s| ==> !IsDigit(s[k])
  {
    if s == [] || !IsDigit(s[0]) then 0
    else
      var k := 1 + LeadingDigits(s[1..]);
      assert s[..k] == [s[0]] + s[1..][..k - 1];
      k
  }

  function DigitValue(c: char): nat
    requires IsDigit(c)
  {
    c as nat - '0' as nat
  }

  function Digit(d: nat): (c: char)
    requires d < 10
    ensures IsDigit(c) && DigitValue(c) == d
  {
    ('0' as nat + d) as char
  }

  /** The number a string of decimal digits denotes, most significant digit first. */
  function DigitsValue(s: string): nat
    requires AllDigits(s)
  {
    if s == [] then 0 else 10 * DigitsValue(s[..|s| - 1]) + DigitValue(s[|s| - 1])
  }

  /** `%d` of a non-negative number: its decimal digits, no leading zero. */
  function FormatNat(n: nat): (s: string)
    ensures 0 < |s| && AllDigits(s)
    ensures DigitsValue(s) == n
    ensures |s| > 1 ==> s[0] != '0'
  {
    if n < 10 then [Digit(n)]
    else
      var s := FormatNat(n / 10) + [Digit(n % 10)];
      assert s[..|s| - 1] == FormatNat(n / 10);
      s
  }

  /** A leading zero does not change the value of a digit string. */
  lemma {:induction false} DigitsValueLeadingZero(s: string)
    requires AllDigits(s)
    ensures AllDigits(['0'] + s) && DigitsValue(['0'] + s) == DigitsValue(s)
  {
    var z := ['0'] + s;
    if s != [] {
      assert z[..|z| - 1] == ['0'] + s[..|s| - 1];
      DigitsValueLeadingZero(s[..|s| - 1]);
    }
  }

  /** Two digit strings without leading zeros denote the same number only if they are equal. */
  lemma {:induction false} FormatNatInjective(m: nat, n: nat)
    requires FormatNat(m) == FormatNat(n)
    ensures m == n
  {
    assert DigitsValue(FormatNat(m)) == DigitsValue(FormatNat(n));
  }

  /** `sscanf(line, "%d,%c", &question, &text) == 2`, on unsigned decimal numbers. */
  function ParseLine(line: string): (r: Option<(nat, char)>)
    ensures r.Some? && ByteText(line) ==> IsByte(r.value.1)
  {
    var s := CString(line);
    var k := LeadingDigits(s);
    if 0 < k && k + 1 < |s| && s[k] == ',' then Some((DigitsValue(s[..k]), s[k + 1])) else None
  }

  /** The line parses and names question `q`. */
  predicate Names(line: string, q: nat) {
    ParseLine(line).Some? && ParseLine(line).value.0 == q
  }

  /**
   * A line of bytes that `load_rubric` can apply. The C code writes
   * `rubric[question - 1]` without rejecting `question == 0`, an
   * out-of-bounds write; a file is accepted only when no line does that.
   */
  predicate LoadableLine(line: string) {
    ByteText(line) && !Names(line, 0)
  }

  predicate Loadable(lines: seq<string>) {
    forall k :: 0 <= k < |lines| ==> LoadableLine(lines[k])
  }

  /**
   * One iteration of the loop in `load_rubric`: a line `q,c` with
   * `q <= NUM_QUESTIONS` sets entry `q - 1` to `c`; any other line changes nothing.
   */
  function ApplyLine(r: seq<char>, line: string): (r': seq<char>)
    requires |r| == NumQuestions && LoadableLine(line)
    ensures |r'| == NumQuestions
    ensures forall j :: 0 <= j < NumQuestions ==>
      r'[j] == if Names(line, j + 1) then ParseLine(line).value.1 else r[j]
    ensures (ParseLine(line).None? || ParseLine(line).value.0 > NumQuestions) ==> r' == r
    ensures ByteText(r) ==> ByteText(r')
  {
    match ParseLine(line)
    case Some((q, c)) => if q <= NumQuestions then r[q - 1 := c] else r
    case None => r
  }

  /** The rubric after `load_rubric` has read `lines`, starting from `r`. */
  function LoadLines(r: seq<char>, lines: seq<string>): (r': seq<char>)
    requires |r| == NumQuestions && Loadable(lines)
    ensures |r'| == NumQuestions
    ensures ByteText(r) ==> ByteText(r')
    decreases |lines|
  {
    if lines == [] then r
    else ApplyLine(LoadLines(r, lines[..|lines| - 1]), lines[|lines| - 1])
  }

  /** `load_rubric`: a file that cannot be opened leaves the rubric as it was. */
  function LoadFile(r: seq<char>, file: Option<seq<string>>): seq<char>
    requires |r| == NumQuestions && (file.Some? ==> Loadable(file.value))
  {
    if file.None? then r else LoadLines(r, file.value)
  }

  /** The last line naming question `j + 1` decides entry `j`. */
  lemma {:induction false} LoadLinesLastWins(r: seq<char>, lines: seq<string>, i: nat, j: nat)
    requires |r| == NumQuestions && Loadable(lines)
    requires j < NumQuestions && i < |lines| && Names(lines[i], j + 1)
    requires forall k :: i < k < |lines| ==> !Names(lines[k], j + 1)
    ensures LoadLines(r, lines)[j] == ParseLine(lines[i]).value.1
    decreases |lines|
  {
    var n := |lines| - 1;
    if i < n {
      var init := lines[..n];
      assert Loadable(init) by {
        forall k | 0 <= k < |init| ensures LoadableLine(init[k]) { assert init[k] == lines[k]; }
      }
      assert forall k :: i < k < |init| ==> init[k] == lines[k];
      LoadLinesLastWins(r, init, i, j);
    }
  }

  /** An entry that no line names keeps its value. */
  lemma {:induction false} LoadLinesUntouched(r: seq<char>, lines: seq<string>, j: nat)
    requires |r| == NumQuestions && Loadable(lines) && j < NumQuestions
    requires forall k :: 0 <= k < |lines| ==> !Names(lines[k], j + 1)
    ensures LoadLines(r, lines)[j] == r[j]
    decreases |lines|
  {
    if lines != [] {
      var init := lines[..|lines| - 1];
      assert forall k :: 0 <= k < |init| ==> init[k] == lines[k];
      LoadLinesUntouched(r, init, j);
    }
  }

  /** `fprintf(fp, "%d,%c\n", q, c)` */
  function RubricLine(q: nat, c: char): string {
    FormatNat(q) + [',', c, '\n']
  }

  /** The file `save_rubric` writes: one line per question, in ascending order. */
  function RubricText(r: seq<char>): seq<string>
    requires |r| == NumQuestions
  {
    seq(NumQuestions, i requires 0 <= i < NumQuestions => RubricLine(i + 1, r[i]))
  }

  /** A written line is bytes when its marker is. */
  lemma {:induction false} RubricLineBytes(q: nat, c: char)
    requires IsByte(c)
    ensures ByteText(RubricLine(q, c))
  {
    var d := FormatNat(q);
    assert forall i :: 0 <= i < |d| ==> IsDigit(d[i]);
  }

  /** A NUL marker cuts the written line short, just after the comma. */
  lemma {:induction false} RubricLineCString(q: nat, c: char)
    ensures CString(RubricLine(q, c)) == if c == Nul then FormatNat(q) + [','] else RubricLine(q, c)
  {
    var d := FormatNat(q);
    var line := RubricLine(q, c);
    if c == Nul {
      assert line == (d + [',']) + [Nul, '\n'];
      TakeUntilSkips(d + [','], [Nul, '\n'], {Nul});
    } else {
      TakeUntilSkips(line, [], {Nul});
      assert line + [] == line;
    }
  }

  /** `%d` stops at the comma after a run of digits. */
  lemma {:induction false} DigitsThenComma(d: string, s: string)
    requires AllDigits(d) && |d| < |s| && s[..|d|] == d && s[|d|] == ','
    ensures LeadingDigits(s) == |d|
  {
    assert forall i :: 0 <= i < |d| ==> s[i] == d[i];
  }

  /** A written line reads back as the same question and marker, unless the marker is NUL. */
  lemma {:induction false} ParseRubricLine(q: nat, c: char)
    ensures ParseLine(RubricLine(q, c)) == if c == Nul then None else Some((q, c))
  {
    RubricLineCString(q, c);
    var d := FormatNat(q);
    var s := CString(RubricLine(q, c));
    assert s[..|d|] == d && s[|d|] == ',';
    DigitsThenComma(d, s);
    if c == Nul {
      assert |s| == |d| + 1;
    } else {
      assert |s| == |d| + 3 && s[|d| + 1] == c;
    }
  }

  /** Every line `save_rubric` writes for a rubric of bytes can be loaded. */
  lemma {:induction false} RubricTextLoadable(r: seq<char>)
    requires |r| == NumQuestions && ByteText(r)
    ensures Loadable(RubricText(r))
  {
    var lines := RubricText(r);
    forall k | 0 <= k < NumQuestions ensures LoadableLine(lines[k]) {
      ParseRubricLine(k + 1, r[k]);
      RubricLineBytes(k + 1, r[k]);
    }
  }

  /**
   * Applying the written lines one by one, each as a whole, restores every
   * entry whose marker is not NUL; a NUL entry keeps the reader's value.
   */
  lemma {:induction false} WrittenLinesRestore(r0: seq<char>, r: seq<char>)
    requires |r0| == NumQuestions && |r| == NumQuestions && ByteText(r)
    ensures Loadable(RubricText(r))
    ensures forall j :: 0 <= j < NumQuestions ==>
      LoadLines(r0, RubricText(r))[j] == if r[j] == Nul then r0[j] else r[j]
  {
    var lines := RubricText(r);
    RubricTextLoadable(r);
    forall k | 0 <= k < NumQuestions
      ensures ParseLine(lines[k]) == if r[k] == Nul then None else Some((k + 1, r[k]))
    {
      ParseRubricLine(k + 1, r[k]);
    }
    forall j | 0 <= j < NumQuestions
      ensures LoadLines(r0, lines)[j] == if r[j] == Nul then r0[j] else r[j]
    {
      if r[j] == Nul {
        LoadLinesUntouched(r0, lines, j);
      } else {
        LoadLinesLastWins(r0, lines, j, j);
      }
    }
  }

  /** The bytes of a file written one string after another. */
  function FileText(lines: seq<string>): string {
    if lines == [] then [] else lines[0] + FileText(lines[1..])
  }

  /** A piece of text with no newline before its last character. */
  predicate OneLine(l: string) {
    l != [] && forall i :: 0 <= i < |l| - 1 ==> l[i] != '\n'
  }

  /**
   * `lines` are the lines of `text`: together they spell it, each has no
   * newline before its end, and each but the last ends with a newline.
   */
  predicate LinesOf(text: string, lines: seq<string>) {
    && FileText(lines) == text
    && (forall k :: 0 <= k < |lines| ==> OneLine(lines[k]))
    && (forall k :: 0 <= k < |lines| - 1 ==> lines[k] != [] && lines[k][|lines[k]| - 1] == '\n')
  }

  /** The lines successive `fgets` calls return for a file holding `text`. */
  function ReadLines(text: string): (lines: seq<string>)
    ensures LinesOf(text, lines)
    decreases |text|
  {
    if text == [] then []
    else
      var p := TakeUntil(text, {'\n'});
      if |p| == |text| then
        assert FileText([text][1..]) == [];
        [text]
      else
        var rest := ReadLines(text[|p| + 1..]);
        LinesOfCons(text, p, rest);
        [text[..|p| + 1]] + rest
  }

  /** A first line cut just after the first newline, then the lines of what follows. */
  lemma {:induction false} LinesOfCons(text: string, p: string, rest: seq<string>)
    requires p == TakeUntil(text, {'\n'}) && |p| < |text|
    requires LinesOf(text[|p| + 1..], rest)
    ensures LinesOf(text, [text[..|p| + 1]] + rest)
  {
    var line := text[..|p| + 1];
    assert ([line] + rest)[1..] == rest;
    assert line + text[|p| + 1..] == text;
    assert forall i :: 0 <= i < |p| ==> line[i] == p[i];
    assert forall k :: 1 <= k < |[line] + rest| ==> ([line] + rest)[k] == rest[k - 1];
  }

  /** A file that starts with a whole line reads as that line, then the rest. */
  lemma {:induction false} ReadLinesFirst(line: string, rest: string)
    requires OneLine(line) && line[|line| - 1] == '\n'
    ensures ReadLines(line + rest) == [line] + ReadLines(rest)
  {
    var n := |line| - 1;
    var text := line + rest;
    assert text == line[..n] + (['\n'] + rest);
    TakeUntilSkips(line[..n], ['\n'] + rest, {'\n'});
    assert TakeUntil(text, {'\n'}) == line[..n];
    assert text[..n + 1] == line && text[n + 1..] == rest;
  }

  /**
   * What `fgets` reads back from one line `save_rubric` wrote. A newline marker
   * makes the written `q,\n\n` two lines: `q,\n` and a bare `\n`.
   */
  function ReadBack(q: nat, c: char): seq<string> {
    if c == '\n' then [FormatNat(q) + [',', '\n'], ['\n']] else [RubricLine(q, c)]
  }

  lemma {:induction false} ReadRubricLine(q: nat, c: char, rest: string)
    ensures ReadLines(RubricLine(q, c) + rest) == ReadBack(q, c) + ReadLines(rest)
  {
    var d := FormatNat(q);
    assert forall i :: 0 <= i < |d| ==> IsDigit(d[i]);
    if c == '\n' {
      var first := d + [',', '\n'];
      assert RubricLine(q, c) + rest == first + (['\n'] + rest);
      ReadLinesFirst(first, ['\n'] + rest);
      ReadLinesFirst(['\n'], rest);
      assert [first] + ([['\n']] + ReadLines(rest)) == ReadBack(q, c) + ReadLines(rest);
    } else {
      ReadLinesFirst(RubricLine(q, c), rest);
    }
  }

  /** `%d,%c` reads question `q` and marker `c` from a text that starts `q,c`. */
  lemma {:induction false} ParseMarkerLine(q: nat, c: char, tail: string)
    requires c != Nul
    ensures ParseLine(FormatNat(q) + [',', c] + tail) == Some((q, c))
  {
    var d := FormatNat(q);
    var head := d + [',', c];
    assert forall i :: 0 <= i < |d| ==> IsDigit(d[i]);
    TakeUntilSkips(head, tail, {Nul});
    var s := CString(head + tail);
    assert s[..|d|] == d && s[|d|] == ',' && s[|d| + 1] == c;
    DigitsThenComma(d, s);
  }

  /** `load_rubric` concatenates: the lines of `a`, then those of `b`. */
  lemma {:induction false} LoadLinesAppend(r: seq<char>, a: seq<string>, b: seq<string>)
    requires |r| == NumQuestions && Loadable(a) && Loadable(b)
    ensures Loadable(a + b) && LoadLines(r, a + b) == LoadLines(LoadLines(r, a), b)
    decreases |b|
  {
    assert forall k :: 0 <= k < |a + b| ==> (a + b)[k] == if k < |a| then a[k] else b[k - |a|];
    if b == [] {
      assert a + b == a;
    } else {
      var init := b[..|b| - 1];
      assert Loadable(init) by {
        forall k | 0 <= k < |init| ensures LoadableLine(init[k]) { assert init[k] == b[k]; }
      }
      LoadLinesAppend(r, a, init);
      assert (a + b)[..|a + b| - 1] == a + init;
    }
  }

  /** The lines read back from one written line load as that line does. */
  lemma {:induction false} ReadBackLoads(x: seq<char>, q: nat, c: char)
    requires |x| == NumQuestions && 0 < q && IsByte(c)
    ensures Loadable(ReadBack(q, c)) && Loadable([RubricLine(q, c)])
    ensures LoadLines(x, ReadBack(q, c)) == LoadLines(x, [RubricLine(q, c)])
  {
    RubricLineBytes(q, c);
    ParseRubricLine(q, c);
    assert LoadableLine(RubricLine(q, c));
    assert Loadable([RubricLine(q, c)]);
    if c == '\n' {
      NewlineMarkerLoads(x, q);
    }
  }

  /** A text `q,c` with `q > 0` and a byte marker `c` can be loaded. */
  lemma {:induction false} MarkerLineLoadable(q: nat, c: char)
    requires 0 < q && IsByte(c) && c != Nul
    ensures LoadableLine(FormatNat(q) + [',', c])
  {
    var line := FormatNat(q) + [',', c];
    ParseMarkerLine(q, c, []);
    assert line + [] == line;
    assert forall i :: 0 <= i < |line| - 2 ==> IsDigit(line[i]);
    assert forall i :: |line| - 2 <= i < |line| ==> line[i] in {',', c};
  }

  /** A newline marker's two lines: `q,\n` sets the entry, the bare `\n` names no question. */
  lemma {:induction false} NewlineMarkerLoads(x: seq<char>, q: nat)
    requires |x| == NumQuestions && 0 < q
    requires Loadable([RubricLine(q, '\n')])
    ensures Loadable(ReadBack(q, '\n'))
    ensures LoadLines(x, ReadBack(q, '\n')) == LoadLines(x, [RubricLine(q, '\n')])
  {
    var first := FormatNat(q) + [',', '\n'];
    var lines := ReadBack(q, '\n');
    assert ParseLine(first) == ParseLine(RubricLine(q, '\n')) by {
      ParseRubricLine(q, '\n');
      ParseMarkerLine(q, '\n', []);
      assert first + [] == first;
    }
    MarkerLineLoadable(q, '\n');
    assert ParseLine(lines[1]).None? by {
      assert LeadingDigits(CString(['\n'])) == 0;
    }
    assert lines[..1] == [first] && [RubricLine(q, '\n')][..0] == lines[..1][..0];
  }

  /** Reading back the written lines from question `i + 1` on loads as applying them whole. */
  lemma {:induction false} ReadRubricFrom(x: seq<char>, r: seq<char>, i: nat)
    requires |x| == NumQuestions && |r| == NumQuestions && ByteText(r) && i <= NumQuestions
    ensures Loadable(RubricText(r)[i..]) && Loadable(ReadLines(FileText(RubricText(r)[i..])))
    ensures LoadLines(x, ReadLines(FileText(RubricText(r)[i..]))) == LoadLines(x, RubricText(r)[i..])
    decreases NumQuestions - i
  {
    var all := RubricText(r);
    RubricTextLoadable(r);
    var t := all[i..];
    assert Loadable(t) by {
      forall k | 0 <= k < |t| ensures LoadableLine(t[k]) { assert t[k] == all[i + k]; }
    }
    if i < NumQuestions {
      var line := RubricLine(i + 1, r[i]);
      var tail := all[i + 1..];
      assert t == [line] + tail && t[1..] == tail;
      var rest := FileText(tail);
      assert FileText(t) == line + rest;
      ReadRubricLine(i + 1, r[i], rest);
      ReadBackLoads(x, i + 1, r[i]);
      var y := LoadLines(x, ReadBack(i + 1, r[i]));
      ReadRubricFrom(y, r, i + 1);
      LoadLinesAppend(x, ReadBack(i + 1, r[i]), ReadLines(rest));
      LoadLinesAppend(x, [line], tail);
    } else {
      assert t == [];
    }
  }

  /**
   * Reading back the file `save_rubric` wrote, line by line as `fgets` returns
   * it, restores every entry whose marker is not NUL; an entry holding NUL is
   * lost and keeps whatever the reader had.
   */
  lemma {:induction false} RubricRoundTrip(r0: seq<char>, r: seq<char>)
    requires |r0| == NumQuestions && |r| == NumQuestions && ByteText(r)
    ensures Loadable(ReadLines(FileText(RubricText(r))))
    ensures forall j :: 0 <= j < NumQuestions ==>
      LoadLines(r0, ReadLines(FileText(RubricText(r))))[j] == if r[j] == Nul then r0[j] else r[j]
  {
    WrittenLinesRestore(r0, r);
    ReadRubricFrom(r0, r, 0);
    assert RubricText(r)[0..] == RubricText(r);
  }

  /** With no NUL marker, the round trip is exact. */
  lemma {:induction false} RubricRoundTripExact(r0: seq<char>, r: seq<char>)
    requires |r0| == NumQuestions && |r| == NumQuestions && ByteText(r)
    requires forall j :: 0 <= j < NumQuestions ==> r[j] != Nul
    ensures Loadable(ReadLines(FileText(RubricText(r))))
    ensures LoadLines(r0, ReadLines(FileText(RubricText(r)))) == r
  {
    RubricRoundTrip(r0, r);
  }
}
