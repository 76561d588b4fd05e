/** The journal file as text: one printed event per line, possibly torn by a crash. */
module JournalText {
  import opened Prelude
  import Text
  import J = Json
  import opened Journal
  import opened JournalRecord
  import opened RecordFile

  // ---------- writing ----------

  /** What `formatTaskJournalLine` insists on before it prints. */
  predicate Writable(e: Event) { e.runId != "" && e.taskId != "" && e.at != "" }

  function Line(e: Event): string { J.Print(EventJson(e)) }

  /** One line, newline included; None is the thrown error. */
  function FormatLine(e: Event): Option<string> {
    if Writable(e) then Some(Line(e) + "\n") else None
  }

  // ---------- reading ----------

  function ReadJournal(raw: string): ParsedJournal<J.Value> { ReadText(J.Parse, raw) }

  method ParseJournalLines(raw: string) returns (r: ParsedJournal<J.Value>)
    ensures r == ReadJournal(raw)
  {
    if raw == "" { return Parsed([], false); }
    var hasTrailingNewline := Terminated(raw);
    var lines := Text.Split(raw, '\n');
    var candidates := if hasTrailingNewline then lines[..|lines| - 1] else lines;
    var values: seq<J.Value> := [];
    var errors: seq<nat> := [];
    var droppedTrailingPartial := false;
    for index := 0 to |candidates|
      invariant Scan(values, droppedTrailingPartial, errors) == ScanLines(J.Parse, candidates, hasTrailingNewline, index)
    {
      var line := candidates[index];
      if !IsBlank(line) {
        match J.Parse(line) {
          case Some(v) => values := values + [v];
          case None =>
            if index == |candidates| - 1 && !hasTrailingNewline {
              droppedTrailingPartial := true;
            } else {
              errors := errors + [index];
            }
        }
      }
    }
    r := if errors != [] then Corrupt(errors) else Parsed(values, droppedTrailingPartial);
  }

  // ---------- printed lines hold no control characters ----------

  ghost predicate NoControl(s: string) { forall i :: 0 <= i < |s| ==> s[i] >= ' ' }

  lemma {:induction false} NumberNoControl(s: string)
    requires J.PhaseAfter(s) != J.Bad
    ensures NoControl(s)
  {
    if s != [] { NumberNoControl(s[..|s| - 1]); }
  }

  lemma {:induction false} EscapeNoControl(s: string)
    ensures NoControl(J.Escape(s))
  {
    if s != [] { EscapeNoControl(s[1..]); }
  }

  lemma {:induction false} PrintNoControl(v: J.Value)
    requires J.Valid(v)
    ensures NoControl(J.Print(v))
    decreases v, 1
  {
    match v {
      case Number(literal) => NumberNoControl(literal);
      case String(text) => EscapeNoControl(text);
      case Array(items) =>
        if items != [] {
          PrintNoControl(items[0]);
          ItemsNoControl(items[1..]);
          NoControlConcat(J.Print(items[0]), J.PrintItems(items[1..]));
        }
        BracketNoControl("[", J.ArrayBody(items), "]");
      case Object(fields) =>
        if fields != [] {
          FieldNoControl(fields[0]);
          FieldsNoControl(fields[1..]);
          NoControlConcat(J.PrintField(fields[0]), J.PrintFields(fields[1..]));
        }
        BracketNoControl("{", J.ObjectBody(fields), "}");
      case _ =>
    }
  }

  lemma BracketNoControl(left: string, body: string, right: string)
    requires NoControl(left) && NoControl(body) && NoControl(right)
    ensures NoControl(left + body + right)
  {
  }

  lemma NoControlConcat(a: string, b: string)
    ensures NoControl(a + b) <==> NoControl(a) && NoControl(b)
  {
    if NoControl(a + b) {
      assert forall i :: 0 <= i < |a| ==> (a + b)[i] == a[i];
      assert forall i :: 0 <= i < |b| ==> (a + b)[|a| + i] == b[i];
    }
  }

  lemma {:induction false} ItemsNoControl(items: seq<J.Value>)
    requires forall x | x in items :: J.Valid(x)
    ensures NoControl(J.PrintItems(items))
    decreases items, 0
  {
    if items != [] {
      PrintNoControl(items[0]);
      ItemsNoControl(items[1..]);
    }
  }

  lemma {:induction false} FieldNoControl(f: J.Field)
    requires J.Valid(f.value)
    ensures NoControl(J.PrintField(f))
    decreases f, 0
  {
    EscapeNoControl(f.key);
    PrintNoControl(f.value);
  }

  lemma {:induction false} FieldsNoControl(fields: seq<J.Field>)
    requires forall f | f in fields :: J.Valid(f.value)
    ensures NoControl(J.PrintFields(fields))
    decreases fields, 0
  {
    if fields != [] {
      FieldNoControl(fields[0]);
      FieldsNoControl(fields[1..]);
    }
  }

  // ---------- main results: the journal of events ----------

  function Lines(events: seq<Event>): seq<string> { seq(|events|, i requires 0 <= i < |events| => Line(events[i])) }

  function Records(events: seq<Event>): seq<J.Value> {
    seq(|events|, i requires 0 <= i < |events| => EventJson(events[i]))
  }

  predicate AllWritable(events: seq<Event>) { events == [] || (Writable(events[0]) && AllWritable(events[1..])) }

  /** What the writer appends for these events, one formatted line at a time. */
  function Written(events: seq<Event>): string
    requires AllWritable(events)
  {
    if events == [] then "" else FormatLine(events[0]).value + Written(events[1..])
  }

  lemma LinesConcat(a: seq<Event>, b: seq<Event>)
    ensures Lines(a) + Lines(b) == Lines(a + b)
  {
  }

  lemma FirstLine(events: seq<Event>)
    requires events != []
    ensures FileText(Lines(events)) == Line(events[0]) + "\n" + FileText(Lines(events[1..]))
  {
    LinesConcat([events[0]], events[1..]);
    assert [events[0]] + events[1..] == events && Lines([events[0]]) == [Line(events[0])];
    LineFirst(Line(events[0]), Lines(events[1..]));
  }

  lemma LineFirst(line: string, lines: seq<string>)
    ensures FileText([line] + lines) == line + "\n" + FileText(lines)
  {
    assert ([line] + lines)[1..] == lines;
  }

  /** The appended lines add up to the file the theorems below are about. */
  lemma {:induction false} WrittenIsFileText(events: seq<Event>)
    requires AllWritable(events)
    ensures Written(events) == FileText(Lines(events))
  {
    if events != [] {
      WrittenIsFileText(events[1..]);
      FirstLine(events);
    }
  }

  lemma LineIsRecord(e: Event)
    ensures RecordLine(J.Parse, Line(e)) && J.Parse(Line(e)) == Some(EventJson(e))
  {
    EventJsonValid(e);
    PrintNoControl(EventJson(e));
    J.ParsePrint(EventJson(e));
    forall j | 0 <= j < |Line(e)| ensures J.Parse(Line(e)[..j]) == None {
      J.NoProperPrefixParses(EventFields(e), j);
    }
  }

  lemma LinesClash(a: Event, b: Event)
    ensures Clash(J.Parse, Line(a), Line(b))
  {
    EventJsonValid(a);
    EventJsonValid(b);
    EventJsonOpens(b);
    forall j | 0 < j <= |Line(a)| ensures J.Parse(Line(a)[..j] + Line(b)) == None {
      J.TornThenAppendedIsNotJson(EventFields(a), j, EventFields(b));
    }
  }

  lemma JournalLines(events: seq<Event>)
    ensures RecordLines(J.Parse, Lines(events)) && Values(J.Parse, Lines(events)) == Records(events)
  {
    forall i | 0 <= i < |events|
      ensures RecordLine(J.Parse, Lines(events)[i]) && J.Parse(Lines(events)[i]) == Some(EventJson(events[i]))
    {
      LineIsRecord(events[i]);
    }
  }

  /** The uncut journal reads back as exactly the events written, and no other event list gives the same text. */
  lemma RoundTrip(events: seq<Event>)
    ensures ReadJournal(FileText(Lines(events))) == Parsed(Records(events), false)
    ensures forall other :: FileText(Lines(other)) == FileText(Lines(events)) ==> other == events
  {
    JournalLines(events);
    ReadWhole(J.Parse, Lines(events));
    forall other | FileText(Lines(other)) == FileText(Lines(events)) ensures other == events {
      JournalLines(other);
      ReadWhole(J.Parse, Lines(other));
      RecordsInjective(events, other);
    }
  }

  lemma RecordsInjective(a: seq<Event>, b: seq<Event>)
    requires Records(a) == Records(b)
    ensures a == b
  {
    forall i | 0 <= i < |a| ensures a[i] == b[i] {
      assert Records(a)[i] == Records(b)[i];
      EventJsonInjective(a[i], b[i]);
    }
  }

  /** The journal cut at any character position parses, without throwing, to the events
      whose whole object is present; a partial line is reported exactly when the cut
      falls strictly inside an object. */
  lemma CutJournalParses(events: seq<Event>, k: nat)
    requires k <= |FileText(Lines(events))|
    ensures var s := Surviving(Lines(events), k);
      s.kept <= |events| && ReadJournal(FileText(Lines(events))[..k]) == Parsed(Records(events[..s.kept]), s.torn)
  {
    JournalLines(events);
    ReadCut(J.Parse, Lines(events), k);
    var kept := Surviving(Lines(events), k).kept;
    JournalLines(events[..kept]);
    assert Lines(events)[..kept] == Lines(events[..kept]);
  }

  /** The writer reopens the file for appending and never repairs its tail. If a crash cut
      the text on a line boundary, later events are read after the surviving ones; if it
      cut anywhere else, even right after a whole object, the first later event completes the cut line
      into one that is not JSON, and every read from then on throws. */
  lemma AppendAfterCut(events: seq<Event>, k: nat, later: seq<Event>)
    requires k <= |FileText(Lines(events))| && later != []
    ensures var text := FileText(Lines(events))[..k];
      var s := Surviving(Lines(events), k);
      && s.kept <= |events|
      && (ReadJournal(text + FileText(Lines(later))).Parsed? <==> OnLineBoundary(text))
      && (OnLineBoundary(text) ==>
            ReadJournal(text + FileText(Lines(later))) == Parsed(Records(events[..s.kept] + later), false))
  {
    JournalLines(events);
    RecordsUnbroken(J.Parse, Lines(events));
    var m, j := LocateCut(Lines(events), k);
    AppendAtCut(events, m, j, later);
  }

  /** The smallest case: a crash right after the object of an only event, before its newline.
      The journal still reads as that event; once anything is appended it never reads again. */
  lemma AppendAfterWholeObject(e: Event, later: seq<Event>)
    requires later != []
    ensures var text := FileText(Lines([e]))[..|Line(e)|];
      && ReadJournal(text) == Parsed(Records([e]), false)
      && ReadJournal(text + FileText(Lines(later))) == Corrupt([0])
  {
    OnlyLine(e);
    WholeObjectReads(e);
    AppendToLine(e, later);
  }

  lemma OnlyLine(e: Event)
    ensures Lines([e]) == [Line(e)] && Line(e) != ""
    ensures FileText(Lines([e])) == Line(e) + "\n" && FileText(Lines([e]))[..|Line(e)|] == Line(e)
  {
    assert Lines([e]) == [Line(e)];
    LineIsRecord(e);
    OneLineFile(Line(e));
  }

  lemma OneLineFile(line: string)
    ensures FileText([line]) == line + "\n" && FileText([line])[..|line|] == line
  {
    assert [line][1..] == [];
  }

  lemma WholeObjectReads(e: Event)
    ensures ReadJournal(Line(e)) == Parsed(Records([e]), false)
  {
    OnlyLine(e);
    CutJournalParses([e], |Line(e)|);
    assert Surviving([Line(e)], |Line(e)|) == Survivors(1, false);
    assert [e][..1] == [e];
  }

  lemma AppendToLine(e: Event, later: seq<Event>)
    requires later != []
    ensures ReadJournal(Line(e) + FileText(Lines(later))) == Corrupt([0])
  {
    OnlyLine(e);
    AppendAtCut([e], 0, |Line(e)|, later);
    LineTaken(Line(e));
  }

  lemma LineTaken(line: string)
    ensures FileText([line][..0]) + [line][0][..|line|] == line
  {
  }

  lemma AppendAtCut(events: seq<Event>, m: nat, j: nat, later: seq<Event>)
    requires later != [] && m <= |events| && (j > 0 ==> m < |events| && j <= |Line(events[m])|)
    ensures var text := FileText(Lines(events)[..m]) + (if j > 0 then Lines(events)[m][..j] else "");
      && (OnLineBoundary(text) <==> j == 0)
      && ReadJournal(text + FileText(Lines(later))) == if j == 0 then Parsed(Records(events[..m] + later), false) else Corrupt([m])
  {
    var lines, more := Lines(events), Lines(later);
    assert RecordLines(J.Parse, lines) by { JournalLines(events); }
    assert RecordLines(J.Parse, more) by { JournalLines(later); }
    assert j > 0 ==> Clash(J.Parse, lines[m], more[0]) by {
      if j > 0 { LinesClash(events[m], later[0]); }
    }
    ReadCutThenAppended(J.Parse, lines, m, j, more);
    if j == 0 { BoundaryValues(events, m, later); }
  }

  lemma BoundaryValues(events: seq<Event>, m: nat, later: seq<Event>)
    requires m <= |events|
    ensures RecordLines(J.Parse, Lines(events)[..m] + Lines(later))
    ensures Values(J.Parse, Lines(events)[..m] + Lines(later)) == Records(events[..m] + later)
  {
    JournalLines(events[..m] + later);
    assert Lines(events)[..m] + Lines(later) == Lines(events[..m] + later);
  }

  /** An event is refused exactly when its run, its task or its time is empty; otherwise its line is
      its object and a newline, the only one in it. */
  lemma FormatMeaning(e: Event)
    ensures FormatLine(e) == None <==> e.runId == "" || e.taskId == "" || e.at == ""
    ensures FormatLine(e).Some? ==>
      var text := FormatLine(e).value;
      text != "" && text[|text| - 1] == '\n' && '\n' !in text[..|text| - 1] && J.Parse(text[..|text| - 1]) == Some(EventJson(e))
  {
    LineIsRecord(e);
    assert (Line(e) + "\n")[..|Line(e)|] == Line(e);
  }
}
