/** The clarification questions that the generator asks for: the paths it builds have no
    twins, so its output is canonical whatever the draft. */
module GeneratedQuestions {
  import opened Prelude
  import Text
  import opened FieldPathOrder
  import opened Clarification

  // ---------- the paths the generator builds ----------

  /** A path is built from names and from array indices. */
  datatype Part = Name(text: string) | Index(n: nat)

  predicate IsName(text: string) { text != "" && 'a' <= text[0] <= 'z' && '.' !in text }

  function Segment(p: Part): string {
    match p
    case Name(text) => text
    case Index(n) => Text.Decimal(n)
  }

  ghost predicate WellFormed(parts: seq<Part>) {
    parts != [] && forall i :: 0 <= i < |parts| ==> parts[i].Name? ==> IsName(parts[i].text)
  }

  ghost predicate NamesOnly(parts: seq<Part>) { WellFormed(parts) && forall i :: 0 <= i < |parts| ==> parts[i].Name? }

  function Segments(parts: seq<Part>): (r: seq<string>)
    ensures |r| == |parts| && forall i :: 0 <= i < |r| ==> r[i] == Segment(parts[i])
  {
    seq(|parts|, i requires 0 <= i < |parts| => Segment(parts[i]))
  }

  function PathOf(parts: seq<Part>): string
    requires parts != []
  {
    Text.Join(Segments(parts), '.')
  }

  function DefaultPrompt(path: string): string { "What value should be provided for " + path + "?" }

  /** What the generator can hand to dedupe and sort. A required-field candidate has a path of
      names, or is a caller's own path with the prompt that quotes it; every other candidate
      has a path of names and indices. */
  ghost predicate Generated(c: Candidate) {
    if c.category.RequiredField? then
      (exists parts :: NamesOnly(parts) && c.fieldPath == PathOf(parts)) || c.prompt == DefaultPrompt(c.fieldPath)
    else exists parts :: WellFormed(parts) && c.fieldPath == PathOf(parts)
  }

  // ---------- their segments ----------

  lemma {:induction false} SplitJoin(parts: seq<string>)
    requires parts != [] && forall i :: 0 <= i < |parts| ==> '.' !in parts[i]
    ensures Text.Split(Text.Join(parts, '.'), '.') == parts
  {
    if |parts| == 1 {
      Text.SplitWhole(parts[0], '.');
    } else {
      SplitJoin(parts[1..]);
      Text.SplitAtSeparator(parts[0], Text.Join(parts[1..], '.'), '.');
      assert parts == [parts[0]] + parts[1..];
    }
  }

  lemma PathSegments(parts: seq<Part>)
    requires WellFormed(parts)
    ensures Text.Split(PathOf(parts), '.') == Segments(parts)
  {
    forall i | 0 <= i < |parts| ensures '.' !in Segments(parts)[i] {
      if parts[i].Index? { assert Text.AllDigits(Text.Decimal(parts[i].n)); }
    }
    SplitJoin(Segments(parts));
  }

  /** Not written with superfluous leading zeros. */
  predicate NoLeadingZero(segment: string) { segment == "" || segment[0] != '0' || |segment| == 1 }

  ghost predicate PlainPath(path: string) {
    forall i :: 0 <= i < |Text.Split(path, '.')| ==> NoLeadingZero(Text.Split(path, '.')[i])
  }

  lemma PaddedHasLeadingZero(s: string, t: string)
    requires PaddedTwin(s, t)
    ensures !NoLeadingZero(t)
  {
    assert t[0] == '0' && |t| == WIDTH;
  }

  /** Paths without superfluous leading zeros have no twins among themselves. */
  lemma PlainTwinsEqual(p: string, q: string)
    requires PlainPath(p) && PlainPath(q) && TwinPaths(p, q)
    ensures p == q
  {
    var a, b := Text.Split(p, '.'), Text.Split(q, '.');
    forall i | 0 <= i < |a| ensures a[i] == b[i] {
      if PaddedTwin(a[i], b[i]) { PaddedHasLeadingZero(a[i], b[i]); }
      if PaddedTwin(b[i], a[i]) { PaddedHasLeadingZero(b[i], a[i]); }
    }
    SameSegments(p, q);
  }

  lemma SameSegments(p: string, q: string)
    requires Text.Split(p, '.') == Text.Split(q, '.')
    ensures p == q
  {
    Text.JoinSplit(p, '.');
    Text.JoinSplit(q, '.');
  }

  lemma BuiltIsPlain(parts: seq<Part>)
    requires WellFormed(parts)
    ensures PlainPath(PathOf(parts))
  {
    PathSegments(parts);
  }

  /** A name does not read as a number, so it has no padded form. */
  lemma NameNotNumeric(s: string)
    requires IsName(s)
    ensures CanonicalInteger(Trim(s)) == None
  {
    TrimEndKeepsHead(s);
    assert Trim(s) == TrimEnd(s) && Trim(s)[0] == s[0];
  }

  /** A path of names has no twin but itself, whatever the other path. */
  lemma NamesHaveNoTwin(parts: seq<Part>, q: string)
    requires NamesOnly(parts) && (TwinPaths(PathOf(parts), q) || TwinPaths(q, PathOf(parts)))
    ensures PathOf(parts) == q
  {
    PathSegments(parts);
    var a, b := Segments(parts), Text.Split(q, '.');
    forall i | 0 <= i < |a| ensures a[i] == b[i] {
      NameNotNumeric(a[i]);
      if PaddedTwin(b[i], a[i]) { PaddedHasLeadingZero(b[i], a[i]); }
    }
    SameSegments(PathOf(parts), q);
  }

  // ---------- the generator's output ----------

  lemma DefaultPromptInjective(p: string, q: string)
    requires DefaultPrompt(p) == DefaultPrompt(q)
    ensures p == q
  {
    var n := |"What value should be provided for "|;
    assert DefaultPrompt(p)[n..|DefaultPrompt(p)| - 1] == p;
    assert DefaultPrompt(q)[n..|DefaultPrompt(q)| - 1] == q;
  }

  lemma GeneratedTwinsEqual(x: Candidate, y: Candidate)
    requires Generated(x) && Generated(y) && Twins(x, y)
    ensures x == y
  {
    var p, q := x.fieldPath, y.fieldPath;
    if !x.category.RequiredField? {
      var a :| WellFormed(a) && p == PathOf(a);
      var b :| WellFormed(b) && q == PathOf(b);
      BuiltIsPlain(a);
      BuiltIsPlain(b);
      PlainTwinsEqual(p, q);
    } else if a :| NamesOnly(a) && p == PathOf(a) {
      NamesHaveNoTwin(a, q);
    } else if b :| NamesOnly(b) && q == PathOf(b) {
      NamesHaveNoTwin(b, p);
    } else {
      DefaultPromptInjective(p, q);
    }
  }

  /** Whatever the draft: the generator's questions are the same for every order of its
      candidates, strictly increasing, and exactly one per path, the best. */
  lemma GeneratedQuestionsCanonical(cs: seq<Candidate>, ds: seq<Candidate>)
    requires (forall c | c in cs :: Generated(c)) && multiset(cs) == multiset(ds)
    ensures Canonical(cs, ds)
  {
    forall x: Candidate, y: Candidate | IsBest(cs, x.fieldPath, x) && IsBest(cs, y.fieldPath, y) && Twins(x, y) ensures x == y {
      GeneratedTwinsEqual(x, y);
    }
    QuestionsCanonical(cs, ds);
  }

  /** More generally, for any candidates whose paths have no superfluous leading zeros. */
  lemma PlainQuestionsCanonical(cs: seq<Candidate>, ds: seq<Candidate>)
    requires (forall c | c in cs :: PlainPath(c.fieldPath)) && multiset(cs) == multiset(ds)
    ensures Canonical(cs, ds)
  {
    forall x: Candidate, y: Candidate | IsBest(cs, x.fieldPath, x) && IsBest(cs, y.fieldPath, y) && Twins(x, y) ensures x == y {
      PlainTwinsEqual(x.fieldPath, y.fieldPath);
    }
    QuestionsCanonical(cs, ds);
  }
}
