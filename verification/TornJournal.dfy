/** Lifetimes over the journal file as text: every crash may also leave any part of the line it
    was appending. What is done and what is read are those of a lifetime cut between steps. */
module TornJournal {
  import opened Prelude
  import opened Plan
  import Text
  import J = Json
  import opened Journal
  import opened JournalRecord
  import opened RecordFile
  import opened JournalText
  import opened ExecutionLog
  import opened RealExecution
  import opened CrashSafety
  import opened OncePerTask

  // ---------- junk: torn pieces on one line ----------

  const START := J.Reading(J.Base, J.WantValue)

  /** Rejected for good, or still inside something: no value of its own. */
  ghost predicate Open(st: J.State) { st.Rejected? || (st.stack.Push? && J.Lettered(st)) }

  lemma OpenIsNotJson(w: string)
    requires Open(J.Run(START, w))
    ensures J.Parse(w) == None
  {
    var st := J.Run(START, w);
    if st.Reading? && st.mode.InNumber? { J.DeliverDepth(J.Number(st.mode.literal), st.stack); }
  }

  lemma BraceStaysOpen(r: J.State)
    requires r.Reading? && (r.stack.Push? || r.mode.Complete?) && !J.AtValue(r, r.stack) && J.Lettered(r)
    ensures Open(J.Step(r, '{')) && Open(J.Step(J.Step(r, '{'), '"'))
  {
    if r.mode.InNumber? {
      var literal := r.mode.literal;
      assert (literal + ['{'])[..|literal + ['{']| - 1] == literal;
      assert J.PhaseAfter(literal + ['{']) == J.Bad;
      J.DeliverDepth(J.Number(literal), r.stack);
    } else if r.mode.InString? {
      assert J.Step(r, '{') == J.Reading(r.stack, J.InString(r.mode.text + ['{'], r.mode.isKey));
    } else {
      J.BraceRejected(r);
    }
  }

  /** Part of a printed object after a tear, or after a whole object, leaves no value. */
  lemma PieceStaysOpen(r: J.State, next: seq<J.Field>, k: nat)
    requires r.Reading? && (r.stack.Push? || r.mode.Complete?) && J.Lettered(r)
    requires J.Valid(J.Object(next)) && J.OpensWithKey(next) && 0 < k <= |J.Print(J.Object(next))|
    ensures Open(J.Run(r, J.Print(J.Object(next))[..k]))
  {
    var text := J.Print(J.Object(next));
    J.RunLettered(r, text[..k]);
    if J.AtValue(r, r.stack) {
      J.PrintReads(J.Object(next), r.stack, r);
      var e :| J.Reads(r, text, e, J.Depth(r.stack)) && J.Settle(e) == J.Deliver(J.Object(next), r.stack);
      J.StaysAbovePrefix(r, text, J.Depth(r.stack), k);
    } else {
      PieceRejected(r, next, k);
    }
  }

  lemma PieceRejected(r: J.State, next: seq<J.Field>, k: nat)
    requires r.Reading? && (r.stack.Push? || r.mode.Complete?) && !J.AtValue(r, r.stack) && J.Lettered(r)
    requires J.Valid(J.Object(next)) && J.OpensWithKey(next) && 0 < k <= |J.Print(J.Object(next))|
    ensures Open(J.Run(r, J.Print(J.Object(next))[..k]))
  {
    var c := next[0].key[0];
    var tail := J.PrintedObjectOpening(next);
    var text := J.Print(J.Object(next));
    BraceStaysOpen(r);
    if k == 1 {
      assert text[..1] == ['{'] + [];
      RunOne(r, '{');
    } else if k == 2 {
      assert text[..2] == ['{'] + ['"'];
      J.RunConcat(r, ['{'], ['"']);
      RunOne(r, '{');
      RunOne(J.Step(r, '{'), '"');
    } else {
      assert text[..k] == ['{', '"', c] + tail[..k - 3];
      J.RunConcat(r, ['{', '"', c], tail[..k - 3]);
      J.RunThree(r, '{', '"', c);
      J.TearRejects(r, c);
      J.RunRejected(tail[..k - 3]);
    }
  }

  lemma RunOne(r: J.State, c: char)
    ensures J.Run(r, [c]) == J.Step(r, c)
  {
    assert [c][1..] == [] && J.Run(J.Step(r, c), []) == J.Step(r, c);
  }

  /** What is left on the last line when pieces of it are all there is. */
  ghost predicate IsJunk(w: string) { w != "" && w[0] == '{' && '\n' !in w && Open(J.Run(START, w)) }

  lemma LineShape(e: Event)
    ensures Line(e) != "" && Line(e)[0] == '{' && '\n' !in Line(e)
  {
    LineIsRecord(e);
  }

  lemma FirstTear(e: Event, k: nat)
    requires 0 < k < |Line(e)|
    ensures IsJunk(Line(e)[..k])
  {
    LineShape(e);
    EventJsonValid(e);
    J.PrefixStaysOpen(EventFields(e), k);
    J.RunLettered(START, Line(e)[..k]);
  }

  lemma TearAfterWhole(e: Event, next: Event, k: nat)
    requires 0 < k <= |Line(next)|
    ensures IsJunk(Line(e) + Line(next)[..k])
  {
    LineShape(e);
    LineShape(next);
    EventJsonValid(e);
    EventJsonValid(next);
    EventJsonOpens(next);
    var r := J.Run(START, Line(e));
    J.PrintReads(EventJson(e), J.Base, START);
    J.RunLettered(START, Line(e));
    PieceStaysOpen(r, EventFields(next), k);
    J.RunConcat(START, Line(e), Line(next)[..k]);
  }

  lemma TearAfterJunk(w: string, next: Event, k: nat)
    requires IsJunk(w) && 0 < k <= |Line(next)|
    ensures IsJunk(w + Line(next)[..k])
  {
    LineShape(next);
    EventJsonValid(next);
    EventJsonOpens(next);
    var r := J.Run(START, w);
    if r.Rejected? { J.RunRejected(Line(next)[..k]); } else { PieceStaysOpen(r, EventFields(next), k); }
    J.RunConcat(START, w, Line(next)[..k]);
  }

  // ---------- reading a file that ends in pieces ----------

  /** The last, unterminated line: nothing, a whole object, or pieces. */
  datatype Tail = Clean | Whole(event: Event) | Junk(text: string)

  function TailText(t: Tail): string {
    match t
    case Clean => ""
    case Whole(e) => Line(e)
    case Junk(w) => w
  }

  ghost predicate Sound(t: Tail) { t.Junk? ==> IsJunk(t.text) }

  /** The events a reader finds. */
  function Known(base: seq<Event>, t: Tail): seq<Event> { if t.Whole? then base + [t.event] else base }

  lemma CleanReads(base: seq<Event>)
    ensures ReadJournal(FileText(Lines(base)) + "") == Parsed(Records(base), false)
  {
    JournalLines(base);
    ReadWhole(J.Parse, Lines(base));
    assert FileText(Lines(base)) + "" == FileText(Lines(base));
  }

  lemma WholeReads(base: seq<Event>, e: Event)
    ensures ReadJournal(FileText(Lines(base)) + Line(e)) == Parsed(Records(base + [e]), false)
  {
    JournalLines(base);
    LineIsRecord(e);
    ReadWithTail(J.Parse, Lines(base), Line(e));
    assert Records(base) + [EventJson(e)] == Records(base + [e]);
  }

  lemma JunkReads(base: seq<Event>, w: string)
    requires IsJunk(w)
    ensures ReadJournal(FileText(Lines(base)) + w) == Parsed(Records(base), true)
  {
    JournalLines(base);
    OpenIsNotJson(w);
    ReadWithTail(J.Parse, Lines(base), w);
  }

  /** A file of whole lines and a tail reads as its events; pieces are reported as a dropped partial line. */
  lemma TailReads(base: seq<Event>, t: Tail)
    requires Sound(t)
    ensures ReadJournal(FileText(Lines(base)) + TailText(t)) == Parsed(Records(Known(base, t)), t.Junk?)
  {
    match t {
      case Clean => CleanReads(base);
      case Whole(e) => WholeReads(base, e);
      case Junk(w) => JunkReads(base, w);
    }
  }

  /** A line appended to an unfinished one is never JSON, so the file no longer reads. */
  lemma AppendedToTail(base: seq<Event>, t: Tail, e: Event, rest: string)
    requires Sound(t) && !t.Clean?
    ensures ReadJournal(FileText(Lines(base)) + (TailText(t) + Line(e) + ['\n'] + rest)).Corrupt?
  {
    var bad := TailText(t) + Line(e);
    assert Line(e)[..|Line(e)|] == Line(e);
    LineShape(e);
    if t.Whole? { TearAfterWhole(t.event, e, |Line(e)|); } else { TearAfterJunk(t.text, e, |Line(e)|); }
    assert IsJunk(bad);
    OpenIsNotJson(bad);
    JournalLines(base);
    BadLineCorrupts(J.Parse, Lines(base), bad, rest);
  }

  /** An event already read can vanish: a crash after its whole object keeps it, and a later
      crash inside the next append makes the two into one torn line that is dropped. */
  lemma ReadEventVanishes(e: Event, next: Event, k: nat)
    requires 0 < k <= |Line(next)|
    ensures ReadJournal(Line(e)) == Parsed(Records([e]), false)
    ensures ReadJournal(Line(e) + Line(next)[..k]) == Parsed([], true)
  {
    TearAfterWhole(e, next, k);
    TailReads([], Whole(e));
    TailReads([], Junk(Line(e) + Line(next)[..k]));
    assert FileText(Lines([])) == "" && [] + [e] == [e] && Records([]) == [];
    assert "" + Line(e) == Line(e) && "" + (Line(e) + Line(next)[..k]) == Line(e) + Line(next)[..k];
  }

  // ---------- lifetimes over the file ----------

  /** A session of which the first `cut` durable steps happened, and of the append that would
      have come next the first `chars` characters, its newline never among them. */
  datatype TornBoot = TornBoot(env: Env, cut: nat, chars: nat)

  /** Everything done but the appends, in order, and the journal file. */
  datatype Dir = Dir(calls: seq<Op>, text: string)

  function Calls(h: seq<Op>): seq<Op> {
    if h == [] then []
    else if h[|h| - 1].Append? then Calls(h[..|h| - 1])
    else Calls(h[..|h| - 1]) + [h[|h| - 1]]
  }

  function Done(b: TornBoot, j: seq<Event>): seq<Op> { Survives(Boot(b.env, b.cut), j) }

  /** What is left of the append that was cut. */
  function Piece(b: TornBoot, j: seq<Event>): string {
    var log := Session(b.env, j).cursor.log;
    if b.cut < |log| && log[b.cut].Append? then
      var line := Line(log[b.cut].event);
      if b.chars < |line| then line[..b.chars] else line
    else ""
  }

  /** A boot reads the file; if it no longer reads, the executor throws before doing anything. */
  ghost function Restart(d: Dir, b: TornBoot): Dir {
    match ReadJournal(d.text)
    case Corrupt(_) => d
    case Parsed(values, _) =>
      if j :| Records(j) == values then
        Dir(d.calls + Calls(Done(b, j)), d.text + FileText(Lines(JournalOf(Done(b, j)))) + Piece(b, j))
      else d
  }

  ghost function TornLife(boots: seq<TornBoot>): Dir {
    if boots == [] then Dir([], "") else Restart(TornLife(boots[..|boots| - 1]), boots[|boots| - 1])
  }

  lemma RestartFrom(d: Dir, b: TornBoot, j: seq<Event>, torn: bool)
    requires ReadJournal(d.text) == Parsed(Records(j), torn)
    ensures Restart(d, b) == Dir(d.calls + Calls(Done(b, j)), d.text + FileText(Lines(JournalOf(Done(b, j)))) + Piece(b, j))
  {
    forall other | Records(other) == Records(j) ensures other == j { RecordsInjective(other, j); }
  }

  // ---------- the same lifetime, cut between steps ----------

  /** Lifetimes of the same environments that did the same and leave the journal `j`. */
  ghost predicate Matches(boots: seq<TornBoot>, steps: seq<Boot>, calls: seq<Op>, j: seq<Event>) {
    && |steps| == |boots| && (forall i :: 0 <= i < |boots| ==> steps[i].env == boots[i].env)
    && Calls(Lifetime(steps)) == calls && JournalOf(Lifetime(steps)) == j
  }

  lemma {:induction false} CallsConcat(a: seq<Op>, b: seq<Op>)
    ensures Calls(a + b) == Calls(a) + Calls(b)
  {
    if b == [] {
      assert a + b == a;
    } else {
      var n := |b| - 1;
      CallsConcat(a, b[..n]);
      assert a + b == (a + b[..n]) + [b[n]];
      Snoc(a + b[..n], b[n]);
    }
  }

  lemma {:induction false} JournalConcat(a: seq<Op>, b: seq<Op>)
    ensures JournalOf(a + b) == JournalOf(a) + JournalOf(b)
  {
    if b == [] {
      assert a + b == a;
    } else {
      var n := |b| - 1;
      JournalConcat(a, b[..n]);
      assert a + b == (a + b[..n]) + [b[n]];
      Snoc(a + b[..n], b[n]);
    }
  }

  /** One more boot, cut after `cut` steps. */
  lemma MatchesBoot(boots: seq<TornBoot>, steps: seq<Boot>, calls: seq<Op>, j: seq<Event>, b: TornBoot, cut: nat)
    requires Matches(boots, steps, calls, j)
    ensures var more := Survives(Boot(b.env, cut), j);
      Matches(boots + [b], steps + [Boot(b.env, cut)], calls + Calls(more), j + JournalOf(more))
  {
    var next, more := steps + [Boot(b.env, cut)], Survives(Boot(b.env, cut), j);
    assert next[..|next| - 1] == steps;
    assert Lifetime(next) == Lifetime(steps) + more;
    CallsConcat(Lifetime(steps), more);
    JournalConcat(Lifetime(steps), more);
  }

  lemma MatchesIdle(boots: seq<TornBoot>, steps: seq<Boot>, calls: seq<Op>, j: seq<Event>, b: TornBoot)
    requires Matches(boots, steps, calls, j)
    ensures Matches(boots + [b], steps + [Boot(b.env, 0)], calls, j)
  {
    MatchesBoot(boots, steps, calls, j, b, 0);
    assert Survives(Boot(b.env, 0), j) == [];
    assert calls + [] == calls && j + [] == j;
  }

  // ---------- a session's first step is an append ----------

  lemma RunTaskAppends(env: Env, c: Cursor, id: string, t: Turn)
    ensures var log := RunTask(env, c, id, t).cursor.log;
      |c.log| < |log| && c.log == log[..|c.log|] && log[|c.log|].Append?
  {
    var step := if t.abortBefore.Some? then Cancelled(t.abortBefore.value, None) else Pending;
    EmitAppends(env, c, id, step);
    if t.abortBefore.None? {
      var c1 := Emit(env, c, id, Pending);
      EmitAppends(env, c1, id, Running);
      var c2 := Emit(env, c1, id, Running);
      if IsSynthetic(id) {
        EmitAppends(env, c2, id, Succeeded(EvidenceRef(id)));
      } else {
        var executed := Perform(c2, Execute(id));
        var done := if Applies(t) then Perform(executed, ApplyChangeSet(id)) else executed;
        EmitAppends(env, done, id, Conclusion(t, EvidenceRef(id)));
      }
    }
  }

  lemma EmitAppends(env: Env, c: Cursor, id: string, step: Transition)
    ensures var log := Emit(env, c, id, step).log;
      |c.log| < |log| && c.log == log[..|c.log|] && log[|c.log|].Append?
  {
  }

  lemma {:induction false} RunTasksExtend(env: Env, c: Cursor, ids: seq<string>, turn: nat)
    ensures var log := RunTasks(env, c, ids, turn).cursor.log;
      && |c.log| <= |log| && c.log == log[..|c.log|]
      && (|c.log| < |log| ==> log[|c.log|].Append?)
    decreases ids
  {
    if ids != [] {
      RunTaskAppends(env, c, ids[0], env.turn(turn));
      var r := RunTask(env, c, ids[0], env.turn(turn));
      if r.stop.None? {
        RunTasksExtend(env, r.cursor, ids[1..], turn + 1);
        var log := RunTasks(env, r.cursor, ids[1..], turn + 1).cursor.log;
        assert log[..|c.log|] == log[..|r.cursor.log|][..|c.log|];
      }
    }
  }

  lemma SessionStarts(env: Env, j: seq<Event>)
    ensures var log := Session(env, j).cursor.log; log == [] || log[0].Append?
  {
    var c := Opening(env, j);
    RunTasksExtend(env, c, Remaining(Ids(env.tasks), c.journal), 0);
    if c.log != [] { assert Session(env, j).cursor.log[0] == c.log[0]; }
  }

  /** A session cut before its first append has done nothing. */
  lemma NothingAppended(b: TornBoot, j: seq<Event>)
    ensures JournalOf(Done(b, j)) == [] <==> Done(b, j) == []
  {
    var done := Done(b, j);
    SessionStarts(b.env, j);
    if done != [] {
      JournalConcat(done[..1], done[1..]);
      assert done == done[..1] + done[1..];
      assert done[..1][..0] == [] && JournalOf(done[..1]) == [done[0].event];
    }
  }

  // ---------- what the file holds after any boots ----------

  /** Whole lines, the last line, and step-cut lifetimes that account for the file without
      and with a whole object on its last line. */
  datatype Account = Account(base: seq<Event>, tail: Tail, plain: seq<Boot>, whole: seq<Boot>)

  ghost predicate Stands(boots: seq<TornBoot>, d: Dir, a: Account) {
    && d.text == FileText(Lines(a.base)) + TailText(a.tail) && Sound(a.tail)
    && Matches(boots, a.plain, d.calls, a.base)
    && (a.tail.Whole? ==> Matches(boots, a.whole, d.calls, Known(a.base, a.tail)))
  }

  ghost predicate Bricked(boots: seq<TornBoot>, d: Dir, steps: seq<Boot>) {
    ReadJournal(d.text).Corrupt? && Matches(boots, steps, d.calls, JournalOf(Lifetime(steps)))
  }

  lemma MoreLines(base: seq<Event>, more: seq<Event>, p: string)
    ensures FileText(Lines(base)) + "" + FileText(Lines(more)) + p == FileText(Lines(base + more)) + p
  {
    LinesConcat(base, more);
    FileConcat(Lines(base), Lines(more));
    assert FileText(Lines(base)) + "" == FileText(Lines(base));
  }

  /** The cut append finished after all: one more event, nothing else done. */
  lemma OneStepMore(b: TornBoot, j: seq<Event>)
    requires b.cut < |Session(b.env, j).cursor.log| && Session(b.env, j).cursor.log[b.cut].Append?
    ensures var more := Survives(Boot(b.env, b.cut + 1), j);
      && Calls(more) == Calls(Done(b, j))
      && JournalOf(more) == JournalOf(Done(b, j)) + [Session(b.env, j).cursor.log[b.cut].event]
  {
    var log := Session(b.env, j).cursor.log;
    OnePlus(log, b.cut);
    Snoc(log[..b.cut], log[b.cut]);
  }

  lemma OnePlus(log: seq<Op>, cut: nat)
    requires cut < |log|
    ensures (if cut + 1 < |log| then log[..cut + 1] else log) == log[..cut] + [log[cut]]
  {
  }

  /** What a cut append leaves on an empty last line. */
  lemma PieceAsTail(b: TornBoot, j: seq<Event>) returns (t: Tail)
    ensures Sound(t) && TailText(t) == Piece(b, j)
    ensures t.Whole? ==> var log := Session(b.env, j).cursor.log; b.cut < |log| && log[b.cut] == Append(t.event)
  {
    var p := Piece(b, j);
    if p == "" { return Clean; }
    var e := Session(b.env, j).cursor.log[b.cut].event;
    if b.chars < |Line(e)| {
      FirstTear(e, b.chars);
      return Junk(p);
    }
    return Whole(e);
  }

  lemma WholeMatches(boots: seq<TornBoot>, steps: seq<Boot>, calls: seq<Op>, j: seq<Event>, b: TornBoot, e: Event)
    requires Matches(boots, steps, calls, j)
    requires b.cut < |Session(b.env, j).cursor.log| && Session(b.env, j).cursor.log[b.cut] == Append(e)
    ensures Matches(boots + [b], steps + [Boot(b.env, b.cut + 1)], calls + Calls(Done(b, j)), j + JournalOf(Done(b, j)) + [e])
  {
    var events, more := JournalOf(Done(b, j)), Survives(Boot(b.env, b.cut + 1), j);
    assert Calls(more) == Calls(Done(b, j)) && JournalOf(more) == events + [e] by { OneStepMore(b, j); }
    assert j + (events + [e]) == j + events + [e];
    assert Matches(boots + [b], steps + [Boot(b.env, b.cut + 1)], calls + Calls(more), j + JournalOf(more)) by {
      MatchesBoot(boots, steps, calls, j, b, b.cut + 1);
    }
  }

  /** From a file that ends on a line boundary. */
  lemma FromClean(boots: seq<TornBoot>, d: Dir, a: Account, b: TornBoot) returns (a': Account)
    requires Stands(boots, d, a) && a.tail.Clean?
    ensures Stands(boots + [b], Restart(d, b), a')
  {
    var j := a.base;
    var events := JournalOf(Done(b, j));
    assert ReadJournal(d.text) == Parsed(Records(j), false) by { TailReads(j, Clean); }
    RestartFrom(d, b, j, false);
    MatchesBoot(boots, a.plain, d.calls, j, b, b.cut);
    var t := PieceAsTail(b, j);
    if t.Whole? { WholeMatches(boots, a.plain, d.calls, j, b, t.event); }
    MoreLines(j, events, Piece(b, j));
    a' := Account(j + events, t, a.plain + [Boot(b.env, b.cut)], a.plain + [Boot(b.env, b.cut + 1)]);
  }

  /** From an unfinished last line, when the boot gets no event appended. */
  lemma FromTailIdle(boots: seq<TornBoot>, d: Dir, a: Account, b: TornBoot) returns (a': Account)
    requires Stands(boots, d, a) && !a.tail.Clean? && JournalOf(Done(b, Known(a.base, a.tail))) == []
    ensures Stands(boots + [b], Restart(d, b), a')
  {
    var j := Known(a.base, a.tail);
    var p := Piece(b, j);
    RestartIdle(d, a.base, a.tail, b);
    MatchesIdle(boots, a.plain, d.calls, a.base, b);
    var t := TailAfter(a.tail, b, j);
    if t.Whole? { MatchesIdle(boots, a.whole, d.calls, j, b); }
    Regrouped(FileText(Lines(a.base)), TailText(a.tail), p);
    a' := Account(a.base, t, a.plain + [Boot(b.env, 0)], a.whole + [Boot(b.env, 0)]);
  }

  lemma RestartIdle(d: Dir, base: seq<Event>, t: Tail, b: TornBoot)
    requires d.text == FileText(Lines(base)) + TailText(t) && Sound(t) && JournalOf(Done(b, Known(base, t))) == []
    ensures Restart(d, b) == Dir(d.calls, d.text + Piece(b, Known(base, t)))
  {
    var j := Known(base, t);
    TailReads(base, t);
    RestartFrom(d, b, j, t.Junk?);
    NothingAppended(b, j);
    assert Lines([]) == [] && d.calls + [] == d.calls && d.text + "" == d.text;
  }

  /** What a cut append leaves behind an unfinished line: that line, or pieces. */
  lemma TailAfter(t: Tail, b: TornBoot, j: seq<Event>) returns (t': Tail)
    requires Sound(t) && !t.Clean?
    ensures Sound(t') && !t'.Clean? && TailText(t') == TailText(t) + Piece(b, j) && (t'.Whole? ==> t' == t)
  {
    var p := Piece(b, j);
    if p == "" {
      assert TailText(t) + "" == TailText(t);
      return t;
    }
    PieceOnTail(t, Session(b.env, j).cursor.log[b.cut].event, p);
    return Junk(TailText(t) + p);
  }

  lemma Regrouped(a: string, b: string, c: string)
    ensures a + b + c == a + (b + c)
  {
  }

  lemma PieceOnTail(t: Tail, e: Event, p: string)
    requires Sound(t) && !t.Clean? && p != "" && p <= Line(e)
    ensures IsJunk(TailText(t) + p)
  {
    assert p == Line(e)[..|p|];
    if t.Whole? { TearAfterWhole(t.event, e, |p|); } else { TearAfterJunk(t.text, e, |p|); }
  }

  /** From an unfinished last line, when the boot gets an event appended: no reading after it. */
  lemma FromTailBricks(boots: seq<TornBoot>, d: Dir, a: Account, b: TornBoot) returns (steps: seq<Boot>)
    requires Stands(boots, d, a) && !a.tail.Clean? && JournalOf(Done(b, Known(a.base, a.tail))) != []
    ensures Bricked(boots + [b], Restart(d, b), steps)
  {
    var j := Known(a.base, a.tail);
    var events, p := JournalOf(Done(b, j)), Piece(b, j);
    TailReads(a.base, a.tail);
    RestartFrom(d, b, j, a.tail.Junk?);
    AppendedText(a.base, a.tail, events, p);
    AppendedToTail(a.base, a.tail, events[0], FileText(Lines(events[1..])) + p);
    steps := (if a.tail.Whole? then a.whole else a.plain) + [Boot(b.env, b.cut)];
    MatchesBoot(boots, if a.tail.Whole? then a.whole else a.plain, d.calls, j, b, b.cut);
  }

  lemma AppendedText(base: seq<Event>, t: Tail, events: seq<Event>, p: string)
    requires events != []
    ensures FileText(Lines(base)) + TailText(t) + FileText(Lines(events)) + p ==
      FileText(Lines(base)) + (TailText(t) + Line(events[0]) + ['\n'] + (FileText(Lines(events[1..])) + p))
  {
    FirstLine(events);
    LineSpliced(FileText(Lines(base)), TailText(t), Line(events[0]), FileText(Lines(events[1..])), p);
  }

  lemma LineSpliced(a: string, t: string, line: string, rest: string, p: string)
    ensures a + t + (line + "\n" + rest) + p == a + (t + line + ['\n'] + (rest + p))
  {
  }

  /** After any boots, the file is accounted for, or no longer reads. */
  lemma {:induction false} TornLifeStands(boots: seq<TornBoot>) returns (bricked: bool, a: Account)
    ensures if bricked then Bricked(boots, TornLife(boots), a.plain) else Stands(boots, TornLife(boots), a)
  {
    if boots == [] {
      bricked, a := false, Account([], Clean, [], []);
      assert FileText(Lines([])) + "" == "";
    } else {
      var n := |boots| - 1;
      var b, d := boots[n], TornLife(boots[..n]);
      assert boots == boots[..n] + [b];
      bricked, a := TornLifeStands(boots[..n]);
      if bricked {
        MatchesIdle(boots[..n], a.plain, d.calls, JournalOf(Lifetime(a.plain)), b);
        a := Account([], Clean, a.plain + [Boot(b.env, 0)], []);
      } else if a.tail.Clean? {
        a := FromClean(boots[..n], d, a, b);
      } else if JournalOf(Done(b, Known(a.base, a.tail))) == [] {
        a := FromTailIdle(boots[..n], d, a, b);
      } else {
        var steps := FromTailBricks(boots[..n], d, a, b);
        bricked, a := true, Account([], Clean, steps, []);
      }
    }
  }

  // ---------- main results ----------

  /** Every lifetime with torn appends did what some lifetime of the same sessions, cut between
      steps, does; and as long as its file reads, it reads as that lifetime's journal. */
  lemma TornLifeRefines(boots: seq<TornBoot>) returns (steps: seq<Boot>)
    ensures |steps| == |boots| && forall i :: 0 <= i < |boots| ==> steps[i].env == boots[i].env
    ensures Calls(Lifetime(steps)) == TornLife(boots).calls
    ensures var r := ReadJournal(TornLife(boots).text);
      r.Parsed? ==> r.values == Records(JournalOf(Lifetime(steps)))
  {
    var bricked, a := TornLifeStands(boots);
    if bricked {
      steps := a.plain;
    } else {
      steps := if a.tail.Whole? then a.whole else a.plain;
      TailReads(a.base, a.tail);
    }
  }

  /** While the file reads, one more boot leaves it unreadable exactly when the file does not
      end on a line boundary and the boot gets an event appended. */
  lemma ReadsOnIff(boots: seq<TornBoot>, b: TornBoot, j: seq<Event>, torn: bool)
    requires ReadJournal(TornLife(boots).text) == Parsed(Records(j), torn)
    ensures ReadJournal(TornLife(boots + [b]).text).Parsed? <==>
      OnLineBoundary(TornLife(boots).text) || JournalOf(Done(b, j)) == []
  {
    var d := TornLife(boots);
    var bricked, a := TornLifeStands(boots);
    TailReads(a.base, a.tail);
    RecordsInjective(Known(a.base, a.tail), j);
    BoundaryIsClean(a.base, a.tail);
    assert (boots + [b])[..|boots + [b]| - 1] == boots;
    assert TornLife(boots + [b]) == Restart(d, b);
    if a.tail.Clean? {
      var a' := FromClean(boots, d, a, b);
      TailReads(a'.base, a'.tail);
    } else if JournalOf(Done(b, j)) == [] {
      var a' := FromTailIdle(boots, d, a, b);
      TailReads(a'.base, a'.tail);
    } else {
      var steps := FromTailBricks(boots, d, a, b);
    }
  }

  lemma BoundaryIsClean(base: seq<Event>, t: Tail)
    requires Sound(t)
    ensures OnLineBoundary(FileText(Lines(base)) + TailText(t)) <==> t.Clean?
  {
    if t.Whole? { LineShape(t.event); }
    JournalLines(base);
    CutBoundary(Lines(base), TailText(t));
  }

  lemma {:induction false} CountsOfCalls(h: seq<Op>)
    ensures Executed(Calls(h)) == Executed(h) && Applied(Calls(h)) == Applied(h)
  {
    if h != [] {
      var n := |h| - 1;
      CountsOfCalls(h[..n]);
      if !h[n].Append? { Snoc(Calls(h[..n]), h[n]); }
    }
  }

  /** At-most-once holds for torn files too: whatever characters each crash leaves behind, the
      adapter runs at most once for every task that no plan names twice. */
  lemma TornAtMostOnce(boots: seq<TornBoot>, id: string)
    requires forall i :: 0 <= i < |boots| ==> multiset(Ids(boots[i].env.tasks))[id] <= 1
    ensures Executed(TornLife(boots).calls)[id] <= 1 && Applied(TornLife(boots).calls)[id] <= 1
    ensures Applied(TornLife(boots).calls)[id] == 1 ==> Executed(TornLife(boots).calls)[id] == 1
  {
    var steps := TornLifeRefines(boots);
    CountsOfCalls(Lifetime(steps));
    AtMostOnceEver(steps, id);
  }
}
