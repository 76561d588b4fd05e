/** A file of one-record lines: reading it back whole, cut anywhere, or appended to after a cut.

    Everything here holds for any line parser; the journal uses `JSON.parse`. */
module RecordFile {
  import opened Prelude
  import Text

  /** Lines as an uninterrupted writer leaves them. */
  function FileText(lines: seq<string>): string {
    if lines == [] then "" else lines[0] + "\n" + FileText(lines[1..])
  }

  // ---------- reading ----------

  /** The values read, or the line numbers whose corruption is reported by throwing. */
  datatype ParsedJournal<V> = Parsed(values: seq<V>, droppedTrailingPartial: bool) | Corrupt(lines: seq<nat>)

  /** White space as `trim()` removes it. */
  predicate IsWhite(c: char) {
    || c == ' ' || c == '\t' || c == '\n' || c == '\r' || c as int == 11 || c as int == 12
    || c as int in {0xA0, 0x1680, 0x2028, 0x2029, 0x202F, 0x205F, 0x3000, 0xFEFF} || 0x2000 <= c as int <= 0x200A
  }

  predicate IsBlank(line: string) { forall i :: 0 <= i < |line| ==> IsWhite(line[i]) }

  /** The reader's accumulated state after some of the candidate lines. */
  datatype Scan<V> = Scan(values: seq<V>, dropped: bool, errors: seq<nat>)

  function ScanLine<V>(parse: string -> Option<V>, s: Scan<V>, lines: seq<string>, index: nat, terminated: bool): Scan<V>
    requires index < |lines|
  {
    if IsBlank(lines[index]) then s
    else
      match parse(lines[index])
      case Some(v) => s.(values := s.values + [v])
      case None =>
        if index == |lines| - 1 && !terminated then s.(dropped := true) else s.(errors := s.errors + [index])
  }

  function ScanLines<V>(parse: string -> Option<V>, lines: seq<string>, terminated: bool, upTo: nat): Scan<V>
    requires upTo <= |lines|
  {
    if upTo == 0 then Scan([], false, [])
    else ScanLine(parse, ScanLines(parse, lines, terminated, upTo - 1), lines, upTo - 1, terminated)
  }

  predicate Terminated(raw: string) { raw != "" && raw[|raw| - 1] == '\n' }

  function CandidateLines(raw: string): seq<string> {
    var lines := Text.Split(raw, '\n');
    if Terminated(raw) then lines[..|lines| - 1] else lines
  }

  function ReadText<V>(parse: string -> Option<V>, raw: string): ParsedJournal<V> {
    if raw == "" then Parsed([], false)
    else
      var lines := CandidateLines(raw);
      var s := ScanLines(parse, lines, Terminated(raw), |lines|);
      if s.errors != [] then Corrupt(s.errors) else Parsed(s.values, s.dropped)
  }

  // ---------- files made of record lines ----------

  /** A line that holds one JSON object, is on one line, and of which no proper prefix is JSON. */
  ghost predicate RecordLine<V>(parse: string -> Option<V>, s: string) {
    && '\n' !in s && s != "" && s[0] == '{' && parse(s).Some?
    && forall j :: 0 <= j < |s| ==> parse(s[..j]) == None
  }

  /** No non-empty part of `a`, completed by `b`, is JSON. */
  ghost predicate Clash<V>(parse: string -> Option<V>, a: string, b: string) {
    forall j :: 0 < j <= |a| ==> parse(a[..j] + b) == None
  }

  ghost predicate RecordLines<V>(parse: string -> Option<V>, lines: seq<string>) {
    forall i :: 0 <= i < |lines| ==> RecordLine(parse, lines[i])
  }

  ghost function Values<V>(parse: string -> Option<V>, lines: seq<string>): seq<V>
    requires RecordLines(parse, lines)
  {
    seq(|lines|, i requires 0 <= i < |lines| => parse(lines[i]).value)
  }

  /** No line is empty or broken by a newline. */
  ghost predicate Unbroken(lines: seq<string>) {
    forall i :: 0 <= i < |lines| ==> lines[i] != "" && '\n' !in lines[i]
  }

  lemma RecordsUnbroken<V>(parse: string -> Option<V>, lines: seq<string>)
    requires RecordLines(parse, lines)
    ensures Unbroken(lines)
  {
  }

  lemma SplitLine(line: string, rest: string, tail: string)
    requires '\n' !in line
    ensures Text.Split(line + "\n" + rest + tail, '\n') == [line] + Text.Split(rest + tail, '\n')
  {
    assert line + "\n" + rest + tail == line + ['\n'] + (rest + tail);
    Text.SplitAtSeparator(line, rest + tail, '\n');
  }

  lemma {:induction false} SplitFile(lines: seq<string>, tail: string)
    requires Unbroken(lines)
    ensures Text.Split(FileText(lines) + tail, '\n') == lines + Text.Split(tail, '\n')
  {
    if lines == [] {
      assert FileText(lines) + tail == tail;
    } else {
      SplitFile(lines[1..], tail);
      SplitLine(lines[0], FileText(lines[1..]), tail);
      assert lines == [lines[0]] + lines[1..];
    }
  }

  lemma {:induction false} FileConcat(a: seq<string>, b: seq<string>)
    ensures FileText(a + b) == FileText(a) + FileText(b)
  {
    if a == [] {
      assert a + b == b;
    } else {
      FileConcat(a[1..], b);
      assert (a + b)[1..] == a[1..] + b;
    }
  }

  lemma {:induction false} FileEnds(lines: seq<string>)
    ensures FileText(lines) != "" <==> lines != []
    ensures lines != [] ==> Terminated(FileText(lines))
  {
    if lines != [] {
      FileEnds(lines[1..]);
      var rest := FileText(lines[1..]);
      if lines[1..] != [] {
        assert FileText(lines)[|FileText(lines)| - 1] == rest[|rest| - 1];
      }
    }
  }

  /** Record lines are all kept, whatever follows them. */
  lemma {:induction false} ScanRecords<V>(parse: string -> Option<V>, lines: seq<string>, more: seq<string>, terminated: bool, n: nat)
    requires RecordLines(parse, lines) && n <= |lines|
    ensures ScanLines(parse, lines + more, terminated, n) == Scan(Values(parse, lines[..n]), false, [])
  {
    if n > 0 {
      ScanRecords(parse, lines, more, terminated, n - 1);
      assert RecordLine(parse, lines[n - 1]) && (lines + more)[n - 1] == lines[n - 1];
      assert !IsWhite(lines[n - 1][0]);
      assert Values(parse, lines[..n - 1]) + [parse(lines[n - 1]).value] == Values(parse, lines[..n]);
    } else {
      assert Values(parse, lines[..0]) == [];
    }
  }

  lemma ReadWhole<V>(parse: string -> Option<V>, lines: seq<string>)
    requires RecordLines(parse, lines)
    ensures ReadText(parse, FileText(lines)) == Parsed(Values(parse, lines), false)
  {
    RecordsUnbroken(parse, lines);
    FileEnds(lines);
    if lines == [] {
      assert Values(parse, lines) == [];
    } else {
      SplitFile(lines, "");
      assert FileText(lines) + "" == FileText(lines);
      assert CandidateLines(FileText(lines)) == lines;
      assert lines + [] == lines && lines[..|lines|] == lines;
      ScanRecords(parse, lines, [], true, |lines|);
    }
  }

  /** Whole lines followed by an unterminated one. */
  lemma ReadWithTail<V>(parse: string -> Option<V>, lines: seq<string>, tail: string)
    requires RecordLines(parse, lines) && tail != "" && '\n' !in tail && tail[0] == '{'
    ensures ReadText(parse, FileText(lines) + tail) ==
      match parse(tail)
      case Some(v) => Parsed(Values(parse, lines) + [v], false)
      case None => Parsed(Values(parse, lines), true)
  {
    RecordsUnbroken(parse, lines);
    var raw := FileText(lines) + tail;
    SplitFile(lines, tail);
    Text.SplitWhole(tail, '\n');
    assert raw[|raw| - 1] == tail[|tail| - 1];
    assert !Terminated(raw);
    var all := lines + [tail];
    assert CandidateLines(raw) == all;
    ScanRecords(parse, lines, [tail], false, |lines|);
    assert lines[..|lines|] == lines;
    assert all[|lines|] == tail && !IsWhite(tail[0]);
  }

  /** What survives a cut: how many whole objects, and whether the cut falls strictly inside one. */
  datatype Survivors = Survivors(kept: nat, torn: bool)

  /** What survives cutting the file after `k` characters. */
  function Surviving(lines: seq<string>, k: nat): Survivors {
    if lines == [] || k == 0 then Survivors(0, false)
    else
      var n := |lines[0]|;
      if k < n then Survivors(0, true)
      else if k == n then Survivors(1, false)
      else
        var rest := Surviving(lines[1..], k - n - 1);
        Survivors(rest.kept + 1, rest.torn)
  }

  /** The cut position, resolved to whole lines and a remainder of the next one. */
  lemma {:induction false} LocateCut(lines: seq<string>, k: nat) returns (m: nat, j: nat)
    requires k <= |FileText(lines)| && Unbroken(lines)
    ensures m <= |lines| && (j > 0 ==> m < |lines| && j <= |lines[m]|)
    ensures FileText(lines)[..k] == FileText(lines[..m]) + (if j > 0 then lines[m][..j] else "")
    ensures Surviving(lines, k) == if j == 0 then Survivors(m, false)
      else if j < |lines[m]| then Survivors(m, true) else Survivors(m + 1, false)
    decreases lines
  {
    if lines == [] || k == 0 {
      m, j := 0, 0;
      assert FileText(lines)[..0] == "";
    } else {
      var line, rest := lines[0], FileText(lines[1..]);
      assert FileText(lines) == line + "\n" + rest;
      if k <= |line| {
        m, j := 0, k;
        assert FileText(lines)[..k] == line[..k];
        assert FileText(lines[..0]) == "";
      } else {
        var k' := k - |line| - 1;
        var m', j' := LocateCut(lines[1..], k');
        m, j := m' + 1, j';
        assert lines[..m][1..] == lines[1..][..m'];
        assert FileText(lines)[..k] == line + "\n" + rest[..k'];
      }
    }
  }

  lemma ReadTornTail<V>(parse: string -> Option<V>, lines: seq<string>, torn: string, j: nat)
    requires RecordLines(parse, lines) && RecordLine(parse, torn) && 0 < j <= |torn|
    ensures ReadText(parse, FileText(lines) + torn[..j]) ==
      if j < |torn| then Parsed(Values(parse, lines), true) else Parsed(Values(parse, lines + [torn]), false)
  {
    ReadWithTail(parse, lines, torn[..j]);
    if j == |torn| {
      assert torn[..j] == torn;
      assert Values(parse, lines) + [parse(torn).value] == Values(parse, lines + [torn]);
    }
  }

  lemma ReadCut<V>(parse: string -> Option<V>, lines: seq<string>, k: nat)
    requires RecordLines(parse, lines) && k <= |FileText(lines)|
    ensures var s := Surviving(lines, k);
      s.kept <= |lines| && ReadText(parse, FileText(lines)[..k]) == Parsed(Values(parse, lines[..s.kept]), s.torn)
  {
    assert Unbroken(lines) by { RecordsUnbroken(parse, lines); }
    var m, j := LocateCut(lines, k);
    if j == 0 {
      WholeLinesRead(parse, lines, m);
    } else {
      TornLineRead(parse, lines, m, j);
    }
  }

  lemma WholeLinesRead<V>(parse: string -> Option<V>, lines: seq<string>, m: nat)
    requires RecordLines(parse, lines) && m <= |lines|
    ensures ReadText(parse, FileText(lines[..m]) + "") == Parsed(Values(parse, lines[..m]), false)
  {
    ReadWhole(parse, lines[..m]);
    assert FileText(lines[..m]) + "" == FileText(lines[..m]);
  }

  lemma TornLineRead<V>(parse: string -> Option<V>, lines: seq<string>, m: nat, j: nat)
    requires RecordLines(parse, lines) && m < |lines| && 0 < j <= |lines[m]|
    ensures ReadText(parse, FileText(lines[..m]) + lines[m][..j]) ==
      if j == |lines[m]| then Parsed(Values(parse, lines[..m + 1]), false) else Parsed(Values(parse, lines[..m]), true)
  {
    ReadTornTail(parse, lines[..m], lines[m], j);
    assert lines[..m] + [lines[m]] == lines[..m + 1];
  }

  /** A cut on a line boundary: nothing, or text ending in a newline. */
  predicate OnLineBoundary(text: string) { text == "" || Terminated(text) }

  /** Text cut inside line `m`, or right after its object, is off a line boundary. */
  lemma CutBoundary(lines: seq<string>, tail: string)
    requires '\n' !in tail
    ensures OnLineBoundary(FileText(lines) + tail) <==> tail == ""
  {
  }

  lemma ReadBoundaryCut<V>(parse: string -> Option<V>, lines: seq<string>, later: seq<string>)
    requires RecordLines(parse, lines) && RecordLines(parse, later)
    ensures ReadText(parse, FileText(lines) + FileText(later)) == Parsed(Values(parse, lines + later), false)
  {
    FileConcat(lines, later);
    ReadWhole(parse, lines + later);
  }

  lemma ReadTornCut<V>(parse: string -> Option<V>, lines: seq<string>, torn: string, j: nat, later: seq<string>)
    requires RecordLines(parse, lines) && RecordLine(parse, torn) && RecordLines(parse, later) && later != []
    requires 0 < j <= |torn| && Clash(parse, torn, later[0])
    ensures '\n' !in torn[..j]
    ensures ReadText(parse, FileText(lines) + torn[..j] + FileText(later)) == Corrupt([|lines|])
  {
    var line := torn[..j] + later[0];
    assert line[0] == torn[0];
    assert Unbroken(lines) by { RecordsUnbroken(parse, lines); }
    assert Unbroken(later) by { RecordsUnbroken(parse, later); }
    assert ScanLines(parse, lines + ([line] + later[1..]), true, |lines + ([line] + later[1..])|).errors == [|lines|] by {
      ScanAfterError(parse, lines, line, later[1..], |later| - 1);
    }
    ReadTornLine(parse, lines, torn[..j], later);
  }

  /** What the reader makes of `lines` cut inside or after the object of line `m`, then appended to. */
  lemma ReadCutThenAppended<V>(parse: string -> Option<V>, lines: seq<string>, m: nat, j: nat, later: seq<string>)
    requires RecordLines(parse, lines) && RecordLines(parse, later) && later != []
    requires m <= |lines| && (j > 0 ==> m < |lines| && j <= |lines[m]| && Clash(parse, lines[m], later[0]))
    ensures var text := FileText(lines[..m]) + (if j > 0 then lines[m][..j] else "");
      && (OnLineBoundary(text) <==> j == 0)
      && ReadText(parse, text + FileText(later)) ==
         if j == 0 then Parsed(Values(parse, lines[..m] + later), false) else Corrupt([m])
  {
    if j == 0 {
      CutBoundary(lines[..m], "");
      ReadBoundaryCut(parse, lines[..m], later);
      assert FileText(lines[..m]) + "" == FileText(lines[..m]);
    } else {
      ReadTornCut(parse, lines[..m], lines[m], j, later);
      CutBoundary(lines[..m], lines[m][..j]);
    }
  }

  lemma SplitLineThenFile(line: string, more: seq<string>)
    requires '\n' !in line && Unbroken(more)
    ensures Text.Split(line + ['\n'] + FileText(more), '\n') == [line] + (more + [""])
  {
    var rest := FileText(more);
    Text.SplitAtSeparator(line, rest, '\n');
    SplitFile(more, "");
    assert rest + "" == rest;
  }

  lemma CandidatesOf(raw: string, parts: seq<string>)
    requires Terminated(raw) && Text.Split(raw, '\n') == parts
    ensures CandidateLines(raw) == parts[..|parts| - 1]
  {
  }

  lemma TornCandidates(lines: seq<string>, tail: string, later: seq<string>)
    requires Unbroken(lines) && Unbroken(later) && later != [] && '\n' !in tail
    ensures var raw := FileText(lines) + tail + FileText(later);
      Terminated(raw) && CandidateLines(raw) == lines + ([tail + later[0]] + later[1..])
  {
    var line, more := tail + later[0], later[1..];
    var raw, text := FileText(lines) + tail + FileText(later), line + ['\n'] + FileText(more);
    var parts := Text.Split(text, '\n');
    assert raw == FileText(lines) + text by { Regroup(FileText(lines), tail, later[0], FileText(more)); }
    assert Terminated(raw) by {
      FileEnds(later);
      EndsAlike(FileText(lines) + tail, FileText(later));
    }
    assert parts == [line] + (more + [""]) by { SplitLineThenFile(line, more); }
    assert Text.Split(raw, '\n') == lines + parts by { SplitFile(lines, text); }
    CandidatesOf(raw, lines + parts);
    LastDropped(lines, line, more);
  }

  lemma Regroup(a: string, t: string, l: string, r: string)
    ensures a + t + (l + "\n" + r) == a + (t + l + ['\n'] + r)
  {
  }

  lemma EndsAlike(a: string, b: string)
    requires Terminated(b)
    ensures Terminated(a + b)
  {
  }

  lemma LastDropped(a: seq<string>, x: string, b: seq<string>)
    ensures var all := a + ([x] + (b + [""])); all[..|all| - 1] == a + ([x] + b)
  {
  }

  lemma ReadTornLine<V>(parse: string -> Option<V>, lines: seq<string>, tail: string, later: seq<string>)
    requires Unbroken(lines) && Unbroken(later) && later != [] && '\n' !in tail
    requires var all := lines + ([tail + later[0]] + later[1..]); ScanLines(parse, all, true, |all|).errors == [|lines|]
    ensures ReadText(parse, FileText(lines) + tail + FileText(later)) == Corrupt([|lines|])
  {
    TornCandidates(lines, tail, later);
  }

  lemma {:induction false} ScanAfterError<V>(parse: string -> Option<V>, lines: seq<string>, line: string, later: seq<string>, n: nat)
    requires RecordLines(parse, lines) && RecordLines(parse, later)
    requires line != "" && !IsWhite(line[0]) && parse(line) == None && n <= |later|
    ensures ScanLines(parse, lines + ([line] + later), true, |lines| + 1 + n).errors == [|lines|]
  {
    var all := lines + ([line] + later);
    if n == 0 {
      ScanRecords(parse, lines, [line] + later, true, |lines|);
      assert all[|lines|] == line;
    } else {
      ScanAfterError(parse, lines, line, later, n - 1);
      assert RecordLine(parse, later[n - 1]) && all[|lines| + n] == later[n - 1];
      assert !IsWhite(all[|lines| + n][0]);
    }
  }

  // ---------- a bad line that is not the last ----------

  lemma {:induction false} ErrorsStay<V>(parse: string -> Option<V>, lines: seq<string>, terminated: bool, n: nat, m: nat)
    requires n <= m <= |lines| && ScanLines(parse, lines, terminated, n).errors != []
    ensures ScanLines(parse, lines, terminated, m).errors != []
  {
    if n < m { ErrorsStay(parse, lines, terminated, n, m - 1); }
  }

  /** A terminated line that does not parse makes every later reading throw, whatever follows it. */
  lemma BadLineCorrupts<V>(parse: string -> Option<V>, lines: seq<string>, bad: string, rest: string)
    requires RecordLines(parse, lines)
    requires bad != "" && '\n' !in bad && !IsWhite(bad[0]) && parse(bad) == None
    ensures ReadText(parse, FileText(lines) + (bad + ['\n'] + rest)).Corrupt?
  {
    var raw := FileText(lines) + (bad + ['\n'] + rest);
    var more := Text.Split(rest, '\n');
    assert Text.Split(raw, '\n') == lines + ([bad] + more) by {
      RecordsUnbroken(parse, lines);
      SplitFile(lines, bad + ['\n'] + rest);
      Text.SplitAtSeparator(bad, rest, '\n');
    }
    var kept := if Terminated(raw) then more[..|more| - 1] else more;
    assert CandidateLines(raw) == lines + ([bad] + kept) by { KeptCandidates(lines, bad, more); }
    BadLineScanned(parse, lines, bad, kept, Terminated(raw));
  }

  lemma KeptCandidates(lines: seq<string>, bad: string, more: seq<string>)
    requires more != []
    ensures var all := lines + ([bad] + more); all[..|all| - 1] == lines + ([bad] + more[..|more| - 1])
  {
  }

  lemma BadLineScanned<V>(parse: string -> Option<V>, lines: seq<string>, bad: string, kept: seq<string>, terminated: bool)
    requires RecordLines(parse, lines) && bad != "" && !IsWhite(bad[0]) && parse(bad) == None
    requires terminated || kept != []
    ensures var all := lines + ([bad] + kept); ScanLines(parse, all, terminated, |all|).errors != []
  {
    var all := lines + ([bad] + kept);
    ScanRecords(parse, lines, [bad] + kept, terminated, |lines|);
    assert all[|lines|] == bad;
    ErrorsStay(parse, all, terminated, |lines| + 1, |all|);
  }

  // ---------- the reading in its own terms ----------

  /** A line that is neither blank nor parsed. */
  ghost predicate BadLine<V>(parse: string -> Option<V>, line: string) { !IsBlank(line) && parse(line) == None }

  /** The values of the lines that are neither blank nor bad, in order. */
  function GoodValues<V>(parse: string -> Option<V>, lines: seq<string>): seq<V> {
    if lines == [] then []
    else (if !IsBlank(lines[0]) && parse(lines[0]).Some? then [parse(lines[0]).value] else []) + GoodValues(parse, lines[1..])
  }

  lemma {:induction false} GoodValuesSnoc<V>(parse: string -> Option<V>, lines: seq<string>, line: string)
    ensures GoodValues(parse, lines + [line]) ==
      GoodValues(parse, lines) + if !IsBlank(line) && parse(line).Some? then [parse(line).value] else []
  {
    if lines == [] {
      assert [] + [line] == [line] && [line][1..] == [];
    } else {
      assert (lines + [line])[0] == lines[0] && (lines + [line])[1..] == lines[1..] + [line];
      GoodValuesSnoc(parse, lines[1..], line);
    }
  }

  /** A bad line is an error, unless it is the last one and unterminated. */
  ghost predicate Fatal<V>(parse: string -> Option<V>, lines: seq<string>, terminated: bool, i: nat) {
    i < |lines| && BadLine(parse, lines[i]) && (i < |lines| - 1 || terminated)
  }

  lemma {:induction false} ScanMeaning<V>(parse: string -> Option<V>, lines: seq<string>, terminated: bool, n: nat)
    requires n <= |lines|
    ensures var s := ScanLines(parse, lines, terminated, n);
      && s.values == GoodValues(parse, lines[..n])
      && (forall i: nat :: i in s.errors <==> i < n && Fatal(parse, lines, terminated, i))
      && (s.dropped <==> n == |lines| && n > 0 && !terminated && BadLine(parse, lines[n - 1]))
  {
    if n > 0 {
      ScanMeaning(parse, lines, terminated, n - 1);
      assert lines[..n] == lines[..n - 1] + [lines[n - 1]];
      GoodValuesSnoc(parse, lines[..n - 1], lines[n - 1]);
    }
  }

  /** A line is blank exactly when it holds only these characters: tab to carriage return, space, and the spaces beyond ASCII. */
  lemma BlankMeaning(line: string)
    ensures IsBlank(line) <==> forall i :: 0 <= i < |line| ==>
      (line[i] as int in {9, 10, 11, 12, 13, 32, 0xA0, 0x1680, 0x2028, 0x2029, 0x202F, 0x205F, 0x3000, 0xFEFF}
       || 0x2000 <= line[i] as int <= 0x200A)
  {
  }

  /** What reading `lines` comes to: it throws exactly when one of them is fatal, naming those that
      are; otherwise it gives the values of the good lines in order, and reports a dropped line
      exactly when the last one is unterminated and bad. */
  ghost predicate ReadsAs<V>(parse: string -> Option<V>, lines: seq<string>, terminated: bool, r: ParsedJournal<V>) {
    match r
    case Corrupt(errors) => errors != [] && forall i: nat :: i in errors <==> Fatal(parse, lines, terminated, i)
    case Parsed(values, dropped) =>
      && values == GoodValues(parse, lines) && (forall i: nat :: !Fatal(parse, lines, terminated, i))
      && (dropped <==> lines != [] && !terminated && BadLine(parse, lines[|lines| - 1]))
  }

  /** Any text reads as the lines it splits into, without the empty one after a final newline. */
  lemma ReadMeaning<V>(parse: string -> Option<V>, raw: string)
    ensures raw == "" ==> ReadText(parse, raw) == Parsed([], false)
    ensures raw != "" && raw[|raw| - 1] != '\n' ==> ReadsAs(parse, Text.Split(raw, '\n'), false, ReadText(parse, raw))
    ensures raw != "" && raw[|raw| - 1] == '\n' ==>
      ReadsAs(parse, Text.Split(raw, '\n')[..|Text.Split(raw, '\n')| - 1], true, ReadText(parse, raw))
  {
    if raw != "" { LinesReadAs(parse, CandidateLines(raw), Terminated(raw)); }
  }

  lemma LinesReadAs<V>(parse: string -> Option<V>, lines: seq<string>, terminated: bool)
    ensures var s := ScanLines(parse, lines, terminated, |lines|);
      ReadsAs(parse, lines, terminated, if s.errors != [] then Corrupt(s.errors) else Parsed(s.values, s.dropped))
  {
    ScanMeaning(parse, lines, terminated, |lines|);
    assert lines[..|lines|] == lines;
    var s := ScanLines(parse, lines, terminated, |lines|);
    if s.errors == [] {
      forall i: nat ensures !Fatal(parse, lines, terminated, i) { assert i !in s.errors; }
    }
  }
}
