/** The order of field paths used to sort clarification questions. */
module FieldPathOrder {
  import opened Prelude
  import Text
  import RecordFile

  // ---------- three-way comparison ----------

  function CompareNumber(a: int, b: int): int { if a == b then 0 else if a < b then -1 else 1 }

  function CompareText(a: string, b: string): int { if a == b then 0 else if Text.Less(a, b) then -1 else 1 }

  lemma CompareTextLaws(a: string, b: string, c: string)
    ensures CompareText(a, b) == -CompareText(b, a)
    ensures CompareText(a, b) == 0 <==> a == b
    ensures CompareText(a, b) <= 0 && CompareText(b, c) <= 0 ==> CompareText(a, c) <= 0
  {
    Text.LessTotal(a, b);
    Text.LessTotal(b, c);
    Text.LessTotal(a, c);
    if Text.Less(a, b) { Text.LessAsymmetric(a, b); }
    if Text.Less(b, a) { Text.LessAsymmetric(b, a); }
    if Text.Less(a, b) && Text.Less(b, c) { Text.LessTransitive(a, b, c); }
  }

  // ---------- the token of a path segment ----------

  datatype Token = Token(rank: int, value: string)

  function TrimStart(s: string): string { if s != [] && RecordFile.IsWhite(s[0]) then TrimStart(s[1..]) else s }

  function TrimEnd(s: string): string {
    if s != [] && RecordFile.IsWhite(s[|s| - 1]) then TrimEnd(s[..|s| - 1]) else s
  }

  function Trim(s: string): string { TrimEnd(TrimStart(s)) }

  /** A decimal numeral as `String(n)` writes it: no sign, no superfluous zeros. */
  predicate CanonicalNat(t: string) { t != "" && Text.AllDigits(t) && (t[0] == '0' ==> |t| == 1) }

  /** The integer `n` with `String(n)` equal to `t`, if there is one. */
  function CanonicalInteger(t: string): Option<int> {
    if CanonicalNat(t) then
      var n: int := Text.DecimalValue(t);
      Some(n)
    else if t != "" && t[0] == '-' && CanonicalNat(t[1..]) && t[1..] != "0" then
      var n: int := Text.DecimalValue(t[1..]);
      Some(-n)
    else None
  }

  const WIDTH := 10

  function Zeros(n: nat): string { seq(n, i => '0') }

  /** `segment.padStart(10, "0")`. */
  function PadStart(s: string): string { if |s| >= WIDTH then s else Zeros(WIDTH - |s|) + s }

  const DEFAULT_RANK := 1000

  function SegmentRank(s: string): int {
    if s in {"title", "statement", "repoScopes", "workspace", "tool", "maxUsd"} then 10
    else if s in {"problem", "verification", "path", "toolPermissions", "reason", "maxTokens"} then 20
    else if s in {"requester", "justification", "access", "risk", "budget", "timeoutMs"} then 30
    else if s in {"goalArchetype", "maxRepairLoops", "authorityJustification"} then 40
    else if s == "acceptanceCriteria" then 50
    else if s == "constraints" then 60
    else if s == "stopConditions" then 65
    else if s == "context" then 70
    else if s == "capabilityEnvelope" then 80
    else DEFAULT_RANK
  }

  function SegmentToken(segment: string): Token {
    match CanonicalInteger(Trim(segment))
    case Some(n) => Token(n, PadStart(segment))
    case None => Token(SegmentRank(segment), segment)
  }

  function Tokens(segments: seq<string>): (r: seq<Token>)
    ensures |r| == |segments| && forall i :: 0 <= i < |r| ==> r[i] == SegmentToken(segments[i])
  {
    seq(|segments|, i requires 0 <= i < |segments| => SegmentToken(segments[i]))
  }

  function PathTokens(path: string): seq<Token> { Tokens(Text.Split(path, '.')) }

  function CompareToken(a: Token, b: Token): int {
    if CompareNumber(a.rank, b.rank) != 0 then CompareNumber(a.rank, b.rank) else CompareText(a.value, b.value)
  }

  function CompareTokens(a: seq<Token>, b: seq<Token>): int {
    if a == [] && b == [] then 0
    else if a == [] then -1
    else if b == [] then 1
    else if CompareToken(a[0], b[0]) != 0 then CompareToken(a[0], b[0])
    else CompareTokens(a[1..], b[1..])
  }

  method CompareFieldPath(left: string, right: string) returns (r: int)
    ensures r == CompareTokens(PathTokens(left), PathTokens(right))
  {
    var leftTokens, rightTokens := PathTokens(left), PathTokens(right);
    var tokenCount := if |leftTokens| < |rightTokens| then |rightTokens| else |leftTokens|;
    for index := 0 to tokenCount
      invariant index <= |leftTokens| && index <= |rightTokens|
      invariant CompareTokens(leftTokens, rightTokens) == CompareTokens(leftTokens[index..], rightTokens[index..])
    {
      if index >= |leftTokens| { return -1; }
      if index >= |rightTokens| { return 1; }
      var comparison := CompareToken(leftTokens[index], rightTokens[index]);
      if comparison != 0 { return comparison; }
    }
    return 0;
  }

  lemma CompareTokenLaws(a: Token, b: Token, c: Token)
    ensures CompareToken(a, b) == -CompareToken(b, a)
    ensures CompareToken(a, b) == 0 <==> a == b
    ensures CompareToken(a, b) <= 0 && CompareToken(b, c) <= 0 ==> CompareToken(a, c) <= 0
  {
    CompareTextLaws(a.value, b.value, c.value);
  }

  /** The comparison of token sequences is a total order. */
  lemma {:induction false} CompareTokensLaws(a: seq<Token>, b: seq<Token>, c: seq<Token>)
    ensures CompareTokens(a, b) == -CompareTokens(b, a)
    ensures CompareTokens(a, b) == 0 <==> a == b
    ensures CompareTokens(a, b) <= 0 && CompareTokens(b, c) <= 0 ==> CompareTokens(a, c) <= 0
  {
    if a != [] && b != [] {
      CompareTokenLaws(a[0], b[0], if c == [] then a[0] else c[0]);
      if c != [] {
        CompareTokenLaws(b[0], c[0], a[0]);
        CompareTokenLaws(a[0], c[0], b[0]);
      }
      CompareTokensLaws(a[1..], b[1..], if c == [] then [] else c[1..]);
      assert a == [a[0]] + a[1..] && b == [b[0]] + b[1..];
    }
  }

  // ---------- when two segments get the same token ----------

  /** `t` is the padded form of a segment that reads 1000, the rank given to unknown names. */
  predicate PaddedTwin(s: string, t: string) {
    CanonicalInteger(Trim(s)) == Some(DEFAULT_RANK) && |s| < WIDTH && t == PadStart(s)
  }

  lemma {:induction false} TrimEndKeepsHead(s: string)
    requires s != "" && !RecordFile.IsWhite(s[0])
    ensures TrimEnd(s) != "" && TrimEnd(s) <= s
    ensures forall k :: |TrimEnd(s)| <= k < |s| ==> RecordFile.IsWhite(s[k])
  {
    if RecordFile.IsWhite(s[|s| - 1]) {
      TrimEndKeepsHead(s[..|s| - 1]);
    }
  }

  lemma {:induction false} TrimAllWhite(s: string)
    requires forall k :: 0 <= k < |s| ==> RecordFile.IsWhite(s[k])
    ensures Trim(s) == ""
  {
    if s != "" { TrimAllWhite(s[1..]); }
  }

  /** A segment that starts with a zero and is a canonical numeral is a zero followed by white space. */
  lemma ZeroLed(t: string)
    requires t != "" && t[0] == '0' && CanonicalInteger(Trim(t)).Some?
    ensures forall k :: 1 <= k < |t| ==> RecordFile.IsWhite(t[k])
  {
    TrimEndKeepsHead(t);
    assert Trim(t) == TrimEnd(t);
  }

  lemma PaddedAt(s: string, k: nat)
    requires k < |PadStart(s)|
    ensures var zeros := |PadStart(s)| - |s|;
      PadStart(s)[k] == if k < zeros then '0' else s[k - zeros]
  {
  }

  /** Of two segments padded to the same form, the longer is the shorter behind zeros. */
  lemma LongerIsPadded(s: string, t: string)
    requires PadStart(s) == PadStart(t) && |s| < |t|
    ensures var m := |t| - |s|;
      (forall k :: 0 <= k < m ==> t[k] == '0') && forall k :: 0 <= k < |s| ==> s[k] == t[m + k]
  {
    var m, zeros := |t| - |s|, |PadStart(t)| - |t|;
    forall k | 0 <= k < m ensures t[k] == '0' {
      PaddedAt(s, zeros + k);
      PaddedAt(t, zeros + k);
    }
    forall k | 0 <= k < |s| ensures s[k] == t[m + k] {
      PaddedAt(s, zeros + m + k);
      PaddedAt(t, zeros + m + k);
    }
  }

  /** A shorter segment padded to the same form as a numeric one is blank, hence not numeric. */
  lemma ShorterIsBlank(s: string, t: string)
    requires CanonicalInteger(Trim(t)).Some? && PadStart(s) == PadStart(t) && |s| < |t|
    ensures Trim(s) == ""
  {
    LongerIsPadded(s, t);
    ZeroLed(t);
    TrimAllWhite(s);
  }

  lemma NamesStartWithLetters(t: string)
    requires t != "" && t[0] == '0'
    ensures SegmentRank(t) == DEFAULT_RANK
  {
  }

  /** A numeric and a non-numeric segment share a token only as padded twins. */
  lemma MixedTokens(s: string, t: string)
    requires CanonicalInteger(Trim(s)).Some? && CanonicalInteger(Trim(t)).None?
    ensures SegmentToken(s) == SegmentToken(t) <==> PaddedTwin(s, t)
  {
    if |s| >= WIDTH {
      assert PadStart(s) == s;
    } else {
      assert PadStart(s)[0] == '0';
      if t == PadStart(s) { NamesStartWithLetters(t); }
    }
  }

  /** The padded form of a short segment that reads 1000 is not itself numeric. */
  lemma TwinNotNumeric(s: string)
    requires CanonicalInteger(Trim(s)) == Some(DEFAULT_RANK) && |s| < WIDTH
    ensures CanonicalInteger(Trim(PadStart(s))).None?
  {
    var t := PadStart(s);
    assert t[0] == '0';
    if CanonicalInteger(Trim(t)).Some? {
      ZeroLed(t);
      var n := WIDTH - |s|;
      assert forall k :: 0 <= k < |s| ==> s[k] == t[n + k];
      TrimAllWhite(s);
    }
  }

  /** Two segments get the same token exactly when they are equal or padded twins. */
  lemma SegmentTokensEqual(s: string, t: string)
    ensures SegmentToken(s) == SegmentToken(t) <==> s == t || PaddedTwin(s, t) || PaddedTwin(t, s)
  {
    var ns, nt := CanonicalInteger(Trim(s)), CanonicalInteger(Trim(t));
    if PaddedTwin(s, t) { TwinNotNumeric(s); }
    if PaddedTwin(t, s) { TwinNotNumeric(t); }
    if ns.Some? && nt.Some? {
      if SegmentToken(s) == SegmentToken(t) {
        if |s| < |t| { ShorterIsBlank(s, t); }
        if |t| < |s| { ShorterIsBlank(t, s); }
        PadSameLength(s, t);
      }
    } else if ns.Some? {
      MixedTokens(s, t);
    } else if nt.Some? {
      MixedTokens(t, s);
    }
  }

  lemma PadSameLength(s: string, t: string)
    requires |s| == |t| && PadStart(s) == PadStart(t)
    ensures s == t
  {
    var n := |PadStart(s)| - |s|;
    assert PadStart(s)[n..] == s && PadStart(t)[n..] == t;
  }

  /** The paths agree segment by segment up to padded twins. */
  ghost predicate TwinPaths(p: string, q: string) {
    var a, b := Text.Split(p, '.'), Text.Split(q, '.');
    |a| == |b| && forall i :: 0 <= i < |a| ==> a[i] == b[i] || PaddedTwin(a[i], b[i]) || PaddedTwin(b[i], a[i])
  }

  /** Two field paths compare equal exactly when they are twins. */
  lemma PathsCompareEqual(p: string, q: string)
    ensures CompareTokens(PathTokens(p), PathTokens(q)) == 0 <==> TwinPaths(p, q)
  {
    var a, b := Text.Split(p, '.'), Text.Split(q, '.');
    CompareTokensLaws(PathTokens(p), PathTokens(q), []);
    forall i | 0 <= i < |a| && i < |b|
      ensures PathTokens(p)[i] == PathTokens(q)[i] <==> a[i] == b[i] || PaddedTwin(a[i], b[i]) || PaddedTwin(b[i], a[i])
    {
      SegmentTokensEqual(a[i], b[i]);
    }
  }

  // ---------- the order in full ----------

  ghost predicate TokenBefore(a: Token, b: Token) { a.rank < b.rank || (a.rank == b.rank && Text.Less(a.value, b.value)) }

  /** At the first token where they differ, `a` has ended or has the smaller one. */
  ghost predicate DiffersAt(a: seq<Token>, b: seq<Token>, k: nat) {
    k <= |a| && k < |b| && a[..k] == b[..k] && (k == |a| || TokenBefore(a[k], b[k]))
  }

  lemma SameStart(a: seq<Token>, b: seq<Token>, k: nat)
    requires k <= |a| && k <= |b| && a[..k] == b[..k]
    ensures k > 0 ==> a[0] == b[0]
  {
    if k > 0 { assert a[..k][0] == a[0] && b[..k][0] == b[0]; }
  }

  lemma TokenOrder(a: Token, b: Token)
    ensures CompareToken(a, b) < 0 <==> TokenBefore(a, b)
    ensures CompareToken(a, b) == 0 <==> a == b
  {
    if a.value == b.value { Text.LessIrreflexive(a.value); }
  }

  /** One path is before another exactly when, at the first token where they differ, it has ended
      or its token has the lower rank, or the same rank and the lesser text. */
  lemma {:induction false} PathsCompareBefore(a: seq<Token>, b: seq<Token>)
    ensures CompareTokens(a, b) < 0 <==> exists k: nat :: DiffersAt(a, b, k)
  {
    if a == [] || b == [] {
      if a == [] && b != [] { assert DiffersAt(a, b, 0); }
    } else {
      TokenOrder(a[0], b[0]);
      if a[0] != b[0] {
        if TokenBefore(a[0], b[0]) { assert DiffersAt(a, b, 0); }
        forall k: nat | DiffersAt(a, b, k) ensures k == 0 { SameStart(a, b, k); }
      } else {
        PathsCompareBefore(a[1..], b[1..]);
        if k: nat :| DiffersAt(a[1..], b[1..], k) { DiffersLater(a, b, k); }
        if k: nat :| DiffersAt(a, b, k) { DiffersEarlier(a, b, k); }
      }
    }
  }

  lemma DiffersLater(a: seq<Token>, b: seq<Token>, k: nat)
    requires a != [] && b != [] && a[0] == b[0] && DiffersAt(a[1..], b[1..], k)
    ensures DiffersAt(a, b, k + 1)
  {
    assert a[..k + 1] == [a[0]] + a[1..][..k] && b[..k + 1] == [b[0]] + b[1..][..k];
  }

  lemma DiffersEarlier(a: seq<Token>, b: seq<Token>, k: nat)
    requires a != [] && b != [] && a[0] == b[0] && DiffersAt(a, b, k)
    ensures k > 0 && DiffersAt(a[1..], b[1..], k - 1)
  {
    if k == 0 { TokenOrder(a[0], b[0]); }
    assert k > 0 ==> a[1..][..k - 1] == a[..k][1..] && b[1..][..k - 1] == b[..k][1..];
  }

  // ---------- the token of a segment ----------

  lemma KnownRanks()
    ensures SegmentRank("title") == SegmentRank("statement") == SegmentRank("repoScopes") == 10
    ensures SegmentRank("workspace") == SegmentRank("tool") == SegmentRank("maxUsd") == 10
    ensures SegmentRank("problem") == SegmentRank("verification") == SegmentRank("path") == 20
    ensures SegmentRank("toolPermissions") == SegmentRank("reason") == SegmentRank("maxTokens") == 20
    ensures SegmentRank("requester") == SegmentRank("justification") == SegmentRank("access") == 30
    ensures SegmentRank("risk") == SegmentRank("budget") == SegmentRank("timeoutMs") == 30
    ensures SegmentRank("goalArchetype") == SegmentRank("maxRepairLoops") == SegmentRank("authorityJustification") == 40
    ensures SegmentRank("acceptanceCriteria") == 50 && SegmentRank("constraints") == 60 && SegmentRank("stopConditions") == 65
    ensures SegmentRank("context") == 70 && SegmentRank("capabilityEnvelope") == 80
  {
  }

  /** A segment that starts with a letter stands for itself, and an unknown one ranks 1000. */
  lemma NameToken(s: string)
    requires s != "" && ('a' <= s[0] <= 'z' || 'A' <= s[0] <= 'Z')
    ensures SegmentToken(s) == Token(SegmentRank(s), s)
    ensures SegmentRank(s) != 1000 ==>
      s in {"title", "statement", "repoScopes", "workspace", "tool", "maxUsd", "problem", "verification", "path", "toolPermissions",
            "reason", "maxTokens", "requester", "justification", "access", "risk", "budget", "timeoutMs", "goalArchetype",
            "maxRepairLoops", "authorityJustification", "acceptanceCriteria", "constraints", "stopConditions", "context",
            "capabilityEnvelope"}
  {
    TrimEndKeepsHead(s);
    assert Trim(s) == TrimEnd(s) && Trim(s)[0] == s[0];
  }

  lemma {:induction false} TrimStartOf(before: string, t: string)
    requires RecordFile.IsBlank(before) && t != "" && !RecordFile.IsWhite(t[0])
    ensures TrimStart(before + t) == t
  {
    if before == "" { assert before + t == t; } else { assert (before + t)[1..] == before[1..] + t; TrimStartOf(before[1..], t); }
  }

  lemma {:induction false} TrimEndOf(t: string, after: string)
    requires RecordFile.IsBlank(after) && t != "" && !RecordFile.IsWhite(t[|t| - 1])
    ensures TrimEnd(t + after) == t
  {
    if after == "" {
      assert t + after == t;
    } else {
      var n := |after| - 1;
      assert (t + after)[..|t + after| - 1] == t + after[..n];
      TrimEndOf(t, after[..n]);
    }
  }

  lemma TrimOf(before: string, s: string, after: string)
    requires RecordFile.IsBlank(before) && RecordFile.IsBlank(after)
    requires s != "" && !RecordFile.IsWhite(s[0]) && !RecordFile.IsWhite(s[|s| - 1])
    ensures Trim(before + s + after) == s
  {
    assert before + s + after == before + (s + after);
    TrimStartOf(before, s + after);
    TrimEndOf(s, after);
  }

  lemma NegativeInteger(n: int)
    requires n > 0
    ensures CanonicalInteger("-" + Text.Decimal(n)) == Some(-n)
  {
    var s := "-" + Text.Decimal(n);
    assert s[1..] == Text.Decimal(n);
    Text.DecimalRoundTrip(n);
    Text.DecimalRoundTrip(0);
    assert Text.Decimal(0) == "0" && Text.Decimal(n) != "0";
  }

  /** The segment, filled up in front with zeros to ten characters. */
  ghost predicate Padded(segment: string, value: string) {
    if |segment| >= 10 then value == segment
    else |value| == 10 && value[10 - |segment|..] == segment && forall i :: 0 <= i < 10 - |segment| ==> value[i] == '0'
  }

  /** A segment that reads as an array index, white space around it aside, ranks as that number. */
  lemma IndexToken(before: string, n: nat, after: string)
    requires RecordFile.IsBlank(before) && RecordFile.IsBlank(after)
    ensures var t := SegmentToken(before + Text.Decimal(n) + after);
      t.rank == n && Padded(before + Text.Decimal(n) + after, t.value)
  {
    var s := Text.Decimal(n);
    TrimOf(before, s, after);
    Text.DecimalRoundTrip(n);
    PaddedBy(before + s + after);
  }

  /** And below zero likewise. */
  lemma NegativeToken(before: string, n: int, after: string)
    requires RecordFile.IsBlank(before) && RecordFile.IsBlank(after) && n > 0
    ensures var t := SegmentToken(before + ("-" + Text.Decimal(n)) + after);
      t.rank == -n && Padded(before + ("-" + Text.Decimal(n)) + after, t.value)
  {
    var s := "-" + Text.Decimal(n);
    assert s[1..] == Text.Decimal(n);
    assert s[|s| - 1] == Text.Decimal(n)[|s| - 2];
    TrimOf(before, s, after);
    NegativeInteger(n);
    PaddedBy(before + s + after);
  }

  lemma PaddedBy(s: string)
    ensures Padded(s, PadStart(s))
  {
  }
}
