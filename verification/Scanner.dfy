/** The two brace scanners that dig JSON objects out of model output. */
module Scanner {
  import opened Prelude
  import J = Json

  // ---------- the scan as a fold over the text ----------

  datatype Quoting = Plain | Quoted | Escaped

  /** Where a scan stands: brace depth, string state, the text since the current object
      opened, and the objects completed. */
  datatype Scan = Scan(depth: nat, quoting: Quoting, current: string, found: seq<string>)

  /** One character, as seen by the scanner that collects every object. */
  function ScanChar(s: Scan, c: char): Scan {
    var held := if s.depth > 0 then s.current + [c] else s.current;
    match s.quoting
    case Escaped => s.(quoting := Quoted, current := held)
    case Quoted =>
      s.(quoting := if c == '\\' then Escaped else if c == '"' then Plain else Quoted, current := held)
    case Plain =>
      if c == '"' then s.(quoting := Quoted, current := held)
      else if c == '{' then s.(depth := s.depth + 1, current := if s.depth == 0 then [c] else held)
      else if c == '}' && s.depth > 0 then
        if s.depth == 1 then Scan(0, Plain, "", s.found + [held]) else s.(depth := s.depth - 1, current := held)
      else s.(current := held)
  }

  function ScanText(s: Scan, text: string): Scan
    decreases text
  {
    if text == [] then s else ScanText(ScanChar(s, text[0]), text[1..])
  }

  const START := Scan(0, Plain, "", [])

  /** Every complete top-level object of the text, in order. */
  function Candidates(text: string): seq<string> { ScanText(START, text).found }

  lemma {:induction false} ScanConcat(s: Scan, a: string, b: string)
    ensures ScanText(s, a + b) == ScanText(ScanText(s, a), b)
    decreases a
  {
    if a == [] {
      assert a + b == b;
    } else {
      assert (a + b)[0] == a[0] && (a + b)[1..] == a[1..] + b;
      ScanConcat(ScanChar(s, a[0]), a[1..], b);
    }
  }

  lemma ScanSnoc(s: Scan, text: string, k: nat)
    requires k < |text|
    ensures ScanText(s, text[..k + 1]) == ScanChar(ScanText(s, text[..k]), text[k])
  {
    assert text[..k + 1] == text[..k] + [text[k]];
    ScanConcat(s, text[..k], [text[k]]);
    assert [text[k]][1..] == [];
  }

  // ---------- extractJsonObjectCandidates ----------

  method ExtractJsonObjectCandidates(text: string) returns (candidates: seq<string>)
    ensures candidates == Candidates(text)
  {
    candidates := [];
    var start := -1;
    var depth := 0;
    var inString := false;
    var escaped := false;
    ghost var scan := START;
    var index := 0;
    while index < |text|
      invariant index <= |text| && depth >= 0
      invariant escaped ==> inString
      invariant if depth > 0 then 0 <= start < index else start == -1
      invariant scan == ScanText(START, text[..index])
      invariant scan.quoting == if escaped then Escaped else if inString then Quoted else Plain
      invariant scan.depth == depth && scan.found == candidates
      invariant scan.current == if depth > 0 then text[start..index] else ""
    {
      var ch := text[index];
      ScanSnoc(START, text, index);
      scan := ScanChar(scan, ch);
      Extend(text, index);
      index := index + 1;
      if inString {
        if escaped {
          escaped := false;
        } else if ch == '\\' {
          escaped := true;
        } else if ch == '"' {
          inString := false;
        }
        continue;
      }
      if ch == '"' {
        inString := true;
        continue;
      }
      if ch == '{' {
        if depth == 0 { start := index - 1; }
        depth := depth + 1;
        continue;
      }
      if ch == '}' && depth > 0 {
        depth := depth - 1;
        if depth == 0 && start >= 0 {
          candidates := candidates + [text[start..index]];
          start := -1;
        }
      }
    }
    assert text[..|text|] == text;
  }

  lemma Extend(text: string, index: nat)
    requires index < |text|
    ensures forall start | 0 <= start <= index :: text[start..index + 1] == text[start..index] + [text[index]]
  {
  }

  // ---------- extractBalancedJsonObject ----------

  /** Found objects are never lost, and the first one found stays first. */
  lemma {:induction false} FoundGrows(s: Scan, text: string)
    ensures s.found <= ScanText(s, text).found
    decreases text
  {
    if text != [] { FoundGrows(ScanChar(s, text[0]), text[1..]); }
  }

  /** The other scanner: written independently, it tests for an escape first, toggles its
      string flag, and stops at the first complete object. It returns exactly the first
      candidate of the scanner above, for every text that starts with a brace. */
  method ExtractBalancedJsonObject(input: string) returns (r: Option<string>)
    ensures (input == [] || input[0] != '{') ==> r == None
    ensures input != [] && input[0] == '{' ==>
      r == if Candidates(input) == [] then None else Some(Candidates(input)[0])
  {
    if input == [] || input[0] != '{' { return None; }
    var depth := 0;
    var inString := false;
    var escaped := false;
    var index := 0;
    while index < |input|
      invariant index <= |input| && depth >= 0
      invariant index > 0 <==> depth > 0
      invariant index == 0 ==> !inString
      invariant escaped ==> inString
      invariant ScanText(START, input[..index]) ==
        Scan(depth, if escaped then Escaped else if inString then Quoted else Plain, input[..index], [])
    {
      var ch := input[index];
      ScanSnoc(START, input, index);
      assert input[..index + 1] == input[..index] + [ch];
      index := index + 1;
      if escaped {
        escaped := false;
        continue;
      }
      if ch == '\\' {
        escaped := inString;
        continue;
      }
      if ch == '"' {
        inString := !inString;
        continue;
      }
      if inString { continue; }
      if ch == '{' {
        depth := depth + 1;
        continue;
      }
      if ch == '}' {
        depth := depth - 1;
        if depth == 0 {
          var found := input[..index];
          assert ScanText(START, found).found == [found];
          FoundGrows(ScanText(START, found), input[index..]);
          ScanConcat(START, found, input[index..]);
          assert found + input[index..] == input;
          return Some(found);
        }
      }
    }
    assert input[..|input|] == input;
    return None;
  }

  // ---------- scanning printed JSON ----------

  /** The scan as it stands after collecting `text` and nothing else. */
  function After(s: Scan, text: string): Scan { s.(current := s.current + text) }

  /** Inside an object, outside a string. */
  predicate Inside(s: Scan) { s.depth > 0 && s.quoting == Plain }

  /** From `s`, the whole text is collected, and the scan ends where it began. */
  ghost predicate Passes(s: Scan, text: string) { ScanText(s, text) == After(s, text) }

  lemma PassesConcat(s: Scan, a: string, b: string)
    requires Passes(s, a) && Passes(After(s, a), b)
    ensures Passes(s, a + b)
  {
    ScanConcat(s, a, b);
    assert s.current + a + b == s.current + (a + b);
  }

  lemma PassesCons(s: Scan, c: char, text: string)
    requires ScanChar(s, c) == After(s, [c]) && Passes(After(s, [c]), text)
    ensures Passes(s, [c] + text)
  {
    assert ([c] + text)[1..] == text;
    assert s.current + [c] + text == s.current + ([c] + text);
  }

  predicate Inert(c: char) { c != '"' && c != '{' && c != '}' }

  lemma {:induction false} InertPasses(s: Scan, text: string)
    requires Inside(s) && forall i :: 0 <= i < |text| ==> Inert(text[i])
    ensures Passes(s, text)
    decreases text
  {
    if text == [] {
    } else {
      InertPasses(After(s, [text[0]]), text[1..]);
      PassesCons(s, text[0], text[1..]);
      assert [text[0]] + text[1..] == text;
    }
  }

  lemma {:induction false} QuotedPlain(s: Scan, text: string)
    requires s.depth > 0 && s.quoting == Quoted && forall i :: 0 <= i < |text| ==> text[i] != '"' && text[i] != '\\'
    ensures Passes(s, text)
    decreases text
  {
    if text == [] {
    } else {
      QuotedPlain(After(s, [text[0]]), text[1..]);
      PassesCons(s, text[0], text[1..]);
      assert [text[0]] + text[1..] == text;
    }
  }

  lemma ScanTwo(s: Scan, a: char, b: char)
    ensures ScanText(s, [a, b]) == ScanChar(ScanChar(s, a), b)
  {
    var s1 := ScanChar(s, a);
    assert [a, b][1..] == [b] && [b][1..] == [];
    assert ScanText(s, [a, b]) == ScanText(s1, [b]);
    assert ScanText(s1, [b]) == ScanText(ScanChar(s1, b), []);
  }

  lemma EscapeCharPasses(s: Scan, c: char)
    requires s.depth > 0 && s.quoting == Quoted
    ensures Passes(s, J.EscapeChar(c))
  {
    var e := J.EscapeChar(c);
    if |e| == 1 {
      QuotedPlain(s, e);
    } else {
      var s2 := ScanChar(ScanChar(s, e[0]), e[1]);
      assert s2 == After(s, [e[0], e[1]]) by {
        assert s.current + [e[0]] + [e[1]] == s.current + [e[0], e[1]];
      }
      ScanTwo(s, e[0], e[1]);
      QuotedPlain(s2, e[2..]);
      PassesConcat(s, [e[0], e[1]], e[2..]);
      assert [e[0], e[1]] + e[2..] == e;
    }
  }

  lemma {:induction false} EscapedPasses(s: Scan, t: string)
    requires s.depth > 0 && s.quoting == Quoted
    ensures Passes(s, J.Escape(t))
    decreases t
  {
    if t == [] {
    } else {
      EscapeCharPasses(s, t[0]);
      EscapedPasses(After(s, J.EscapeChar(t[0])), t[1..]);
      PassesConcat(s, J.EscapeChar(t[0]), J.Escape(t[1..]));
    }
  }

  lemma QuotePasses(s: Scan, t: string)
    requires Inside(s)
    ensures Passes(s, J.Quote(t))
  {
    var e := J.Escape(t);
    EscapedPasses(ScanChar(s, '"'), t);
    QuotesScanned(s, e);
    Requoted(s.current, e);
    assert J.Quote(t) == ['"'] + (e + ['"']);
  }

  /** A quote, a text that passes, and a quote. */
  lemma QuotesScanned(s: Scan, e: string)
    requires Passes(ScanChar(s, '"'), e)
    ensures ScanText(s, ['"'] + (e + ['"'])) == ScanChar(After(ScanChar(s, '"'), e), '"')
  {
    ScanConcat(ScanChar(s, '"'), e, ['"']);
    ScanLast(After(ScanChar(s, '"'), e), '"');
  }

  lemma ScanLast(s: Scan, c: char)
    ensures ScanText(s, [c]) == ScanChar(s, c)
  {
    assert [c][1..] == [];
  }

  lemma Requoted(current: string, e: string)
    ensures current + ['"'] + e + ['"'] == current + (['"'] + (e + ['"']))
  {
  }

  lemma {:induction false} NumberInert(t: string)
    requires J.PhaseAfter(t) != J.Bad
    ensures forall i :: 0 <= i < |t| ==> Inert(t[i])
  {
    if t != [] { NumberInert(t[..|t| - 1]); }
  }

  lemma PassesThree(s: Scan, a: string, b: string, c: string)
    requires Passes(s, a) && Passes(After(s, a), b) && Passes(After(s, a + b), c)
    ensures Passes(s, a + b + c)
  {
    PassesConcat(s, a, b);
    PassesConcat(s, a + b, c);
  }

  /** Scanning a printed value inside an object returns to the same depth, outside a
      string, having completed nothing. */
  lemma {:induction false} PrintPasses(s: Scan, v: J.Value)
    requires Inside(s) && J.Valid(v)
    ensures Passes(s, J.Print(v))
    decreases v, 1
  {
    match v {
      case Null => InertPasses(s, "null");
      case Bool(b) => InertPasses(s, if b then "true" else "false");
      case Number(literal) =>
        NumberInert(literal);
        InertPasses(s, literal);
      case String(text) => QuotePasses(s, text);
      case Array(items) =>
        InertPasses(s, "[");
        ArrayBodyPasses(After(s, "["), items);
        InertPasses(After(s, "[" + J.ArrayBody(items)), "]");
        PassesThree(s, "[", J.ArrayBody(items), "]");
      case Object(fields) =>
        ObjectPasses(s, fields);
    }
  }

  lemma {:induction false} ArrayBodyPasses(s: Scan, items: seq<J.Value>)
    requires Inside(s) && forall x | x in items :: J.Valid(x)
    ensures Passes(s, J.ArrayBody(items))
    decreases items, 1
  {
    if items == [] {
    } else {
      PrintPasses(s, items[0]);
      ItemsPass(After(s, J.Print(items[0])), items[1..]);
      PassesConcat(s, J.Print(items[0]), J.PrintItems(items[1..]));
    }
  }

  lemma {:induction false} ItemsPass(s: Scan, items: seq<J.Value>)
    requires Inside(s) && forall x | x in items :: J.Valid(x)
    ensures Passes(s, J.PrintItems(items))
    decreases items, 0
  {
    if items == [] {
    } else {
      var first, rest := J.Print(items[0]), J.PrintItems(items[1..]);
      InertPasses(s, ",");
      PrintPasses(After(s, ","), items[0]);
      ItemsPass(After(After(s, ","), first), items[1..]);
      PassesConcat(After(s, ","), first, rest);
      PassesConcat(s, ",", first + rest);
    }
  }

  /** A printed object, read inside another: one level down and back up. */
  lemma {:induction false} ObjectPasses(s: Scan, fields: seq<J.Field>)
    requires Inside(s) && forall f | f in fields :: J.Valid(f.value)
    ensures Passes(s, J.Print(J.Object(fields)))
    decreases fields, 1
  {
    var t, body := J.Print(J.Object(fields)), J.ObjectBody(fields);
    var inner := ScanChar(s, '{');
    BodyPasses(inner, fields);
    Braced(s, body);
    assert s.current + ['{'] + body + ['}'] == s.current + t;
  }

  /** A brace, a body that passes, and a brace. */
  lemma Braced(s: Scan, body: string)
    requires s.quoting == Plain && Passes(ScanChar(s, '{'), body)
    ensures ScanText(s, "{" + body + "}") == ScanChar(After(ScanChar(s, '{'), body), '}')
  {
    ScanConcat(ScanChar(s, '{'), body, ['}']);
    assert "{" + body + "}" == ['{'] + (body + ['}']);
  }

  lemma {:induction false} BodyPasses(s: Scan, fields: seq<J.Field>)
    requires Inside(s) && forall f | f in fields :: J.Valid(f.value)
    ensures Passes(s, J.ObjectBody(fields))
    decreases fields, 0
  {
    if fields == [] {
    } else {
      FieldPasses(s, fields[0]);
      FieldsPass(After(s, J.PrintField(fields[0])), fields[1..]);
      PassesConcat(s, J.PrintField(fields[0]), J.PrintFields(fields[1..]));
    }
  }

  lemma {:induction false} FieldPasses(s: Scan, f: J.Field)
    requires Inside(s) && J.Valid(f.value)
    ensures Passes(s, J.PrintField(f))
    decreases f, 0
  {
    var key, value := J.Quote(f.key), J.Print(f.value);
    var keyed := After(s, key);
    QuotePasses(s, f.key);
    InertPasses(keyed, ":");
    PrintPasses(After(keyed, ":"), f.value);
    PassesConcat(keyed, ":", value);
    PassesConcat(s, key, ":" + value);
  }

  lemma {:induction false} FieldsPass(s: Scan, fields: seq<J.Field>)
    requires Inside(s) && forall f | f in fields :: J.Valid(f.value)
    ensures Passes(s, J.PrintFields(fields))
    decreases fields, 0
  {
    if fields == [] {
    } else {
      var first, rest := J.PrintField(fields[0]), J.PrintFields(fields[1..]);
      InertPasses(s, ",");
      FieldPasses(After(s, ","), fields[0]);
      FieldsPass(After(After(s, ","), first), fields[1..]);
      PassesConcat(After(s, ","), first, rest);
      PassesConcat(s, ",", first + rest);
    }
  }

  // ---------- exactness ----------

  /** Model output in pieces: prose, a printed string or a printed object after each, and prose last,
      a string that never closes, or the beginning of an object. */
  datatype Mixed =
    | Prose(text: string)
    | OpenQuote(before: string, text: string)
    | OpenObject(before: string, fields: seq<J.Field>, length: nat)
    | ThenString(before: string, text: string, rest: Mixed)
    | ThenObject(before: string, fields: seq<J.Field>, rest: Mixed)

  /** Prose holds no quote and no opening brace; a closing brace is harmless. */
  ghost predicate IsProse(text: string) { forall i :: 0 <= i < |text| ==> text[i] != '"' && text[i] != '{' }

  /** Strings may hold anything, and the objects are well formed. */
  ghost predicate WellFormed(m: Mixed) {
    match m
    case Prose(text) => IsProse(text)
    case OpenQuote(before, _) => IsProse(before)
    case OpenObject(before, fields, length) =>
      IsProse(before) && J.Valid(J.Object(fields)) && length < |J.Print(J.Object(fields))|
    case ThenString(before, _, rest) => IsProse(before) && WellFormed(rest)
    case ThenObject(before, fields, rest) => IsProse(before) && J.Valid(J.Object(fields)) && WellFormed(rest)
  }

  function Render(m: Mixed): string
    requires WellFormed(m)
  {
    match m
    case Prose(text) => text
    case OpenQuote(before, text) => before + (['"'] + J.Escape(text))
    case OpenObject(before, fields, length) => before + J.Print(J.Object(fields))[..length]
    case ThenString(before, text, rest) => before + (J.Quote(text) + Render(rest))
    case ThenObject(before, fields, rest) => before + (J.Print(J.Object(fields)) + Render(rest))
  }

  function Objects(m: Mixed): seq<J.Value> {
    match m
    case ThenString(_, _, rest) => Objects(rest)
    case ThenObject(_, fields, rest) => [J.Object(fields)] + Objects(rest)
    case _ => []
  }

  function Printed(vs: seq<J.Value>): seq<string> { seq(|vs|, i requires 0 <= i < |vs| => J.Print(vs[i])) }

  /** Where a scan stands between pieces. */
  function Between(found: seq<string>): Scan { Scan(0, Plain, "", found) }

  lemma {:induction false} ProseIgnored(found: seq<string>, text: string)
    requires IsProse(text)
    ensures ScanText(Between(found), text) == Between(found)
  {
    if text != [] { ProseIgnored(found, text[1..]); }
  }

  /** Inside a string at the top level nothing is collected and nothing is found. */
  lemma {:induction false} QuotedPlainIgnored(found: seq<string>, text: string)
    requires forall i :: 0 <= i < |text| ==> text[i] != '"' && text[i] != '\\'
    ensures ScanText(Scan(0, Quoted, "", found), text) == Scan(0, Quoted, "", found)
  {
    if text != [] { QuotedPlainIgnored(found, text[1..]); }
  }

  lemma EscapeCharIgnored(found: seq<string>, c: char)
    ensures ScanText(Scan(0, Quoted, "", found), J.EscapeChar(c)) == Scan(0, Quoted, "", found)
  {
    var e, s := J.EscapeChar(c), Scan(0, Quoted, "", found);
    if |e| == 1 {
      QuotedPlainIgnored(found, e);
    } else {
      ScanTwo(s, e[0], e[1]);
      QuotedPlainIgnored(found, e[2..]);
      ScanConcat(s, [e[0], e[1]], e[2..]);
      assert [e[0], e[1]] + e[2..] == e;
    }
  }

  lemma {:induction false} EscapedIgnored(found: seq<string>, t: string)
    ensures ScanText(Scan(0, Quoted, "", found), J.Escape(t)) == Scan(0, Quoted, "", found)
  {
    if t != [] {
      EscapeCharIgnored(found, t[0]);
      EscapedIgnored(found, t[1..]);
      ScanConcat(Scan(0, Quoted, "", found), J.EscapeChar(t[0]), J.Escape(t[1..]));
    }
  }

  lemma OpenQuoteIgnored(found: seq<string>, t: string)
    ensures ScanText(Between(found), ['"'] + J.Escape(t)) == Scan(0, Quoted, "", found)
  {
    EscapedIgnored(found, t);
    assert (['"'] + J.Escape(t))[1..] == J.Escape(t);
  }

  lemma StringIgnored(found: seq<string>, t: string)
    ensures ScanText(Between(found), J.Quote(t)) == Between(found)
  {
    OpenQuoteIgnored(found, t);
    ScanConcat(Between(found), ['"'] + J.Escape(t), ['"']);
    ScanLast(Scan(0, Quoted, "", found), '"');
    assert J.Quote(t) == (['"'] + J.Escape(t)) + ['"'];
  }

  lemma ObjectFound(found: seq<string>, fields: seq<J.Field>)
    requires J.Valid(J.Object(fields))
    ensures ScanText(Between(found), J.Print(J.Object(fields))) == Between(found + [J.Print(J.Object(fields))])
  {
    var s, body := Between(found), J.ObjectBody(fields);
    var inner := ScanChar(s, '{');
    assert inner == Scan(1, Plain, "{", found);
    BodyPasses(inner, fields);
    Braced(s, body);
    assert "{" + body + ['}'] == J.Print(J.Object(fields));
  }

  /** The beginning of an object finds nothing. */
  lemma OpenObjectFinds(found: seq<string>, fields: seq<J.Field>, length: nat)
    requires J.Valid(J.Object(fields)) && length < |J.Print(J.Object(fields))|
    ensures ScanText(Between(found), J.Print(J.Object(fields))[..length]).found == found
  {
    var s, body, t := Between(found), J.ObjectBody(fields), J.Print(J.Object(fields));
    var open, inner := ['{'] + body, ScanChar(s, '{');
    BodyPasses(inner, fields);
    assert open[1..] == body && ScanText(s, open) == After(inner, body);
    assert t == open + ['}'];
    assert t[..length] == open[..length] && open == open[..length] + open[length..];
    ScanConcat(s, open[..length], open[length..]);
    FoundGrows(s, open[..length]);
    FoundGrows(ScanText(s, open[..length]), open[length..]);
  }

  /** Prose, then a piece, then the rest. */
  lemma ScanPiece(found: seq<string>, before: string, piece: string, more: seq<string>, rest: string)
    requires IsProse(before) && ScanText(Between(found), piece) == Between(found + more)
    ensures ScanText(Between(found), before + (piece + rest)) == ScanText(Between(found + more), rest)
  {
    ScanConcat(Between(found), before, piece + rest);
    ProseIgnored(found, before);
    ScanConcat(Between(found), piece, rest);
  }

  lemma PrintedCons(found: seq<string>, v: J.Value, vs: seq<J.Value>)
    ensures found + [J.Print(v)] + Printed(vs) == found + Printed([v] + vs)
  {
    assert Printed([v] + vs) == [J.Print(v)] + Printed(vs);
  }

  lemma {:induction false} MixedFound(found: seq<string>, m: Mixed)
    requires WellFormed(m)
    ensures ScanText(Between(found), Render(m)).found == found + Printed(Objects(m))
    decreases m
  {
    match m {
      case Prose(text) => ProseIgnored(found, text);
      case OpenQuote(before, text) =>
        ProseIgnored(found, before);
        OpenQuoteIgnored(found, text);
        ScanConcat(Between(found), before, ['"'] + J.Escape(text));
      case OpenObject(before, fields, length) =>
        ProseIgnored(found, before);
        OpenObjectFinds(found, fields, length);
        ScanConcat(Between(found), before, J.Print(J.Object(fields))[..length]);
      case ThenString(before, text, rest) =>
        MixedFound(found, rest);
        StringIgnored(found, text);
        assert found + [] == found;
        ScanPiece(found, before, J.Quote(text), [], Render(rest));
      case ThenObject(before, fields, rest) =>
        var t := J.Print(J.Object(fields));
        MixedFound(found + [t], rest);
        ObjectFound(found, fields);
        ScanPiece(found, before, t, [t], Render(rest));
        PrintedCons(found, J.Object(fields), Objects(rest));
    }
    assert found + Printed([]) == found;
  }

  /** From prose with stray closing braces and printed strings of any content, interleaved with any
      printed objects and cut off anywhere at the end, the scanner returns exactly the whole
      objects, in order; and each of them parses back. */
  lemma CandidatesExact(m: Mixed)
    requires WellFormed(m)
    ensures Candidates(Render(m)) == Printed(Objects(m))
    ensures forall i :: 0 <= i < |Objects(m)| ==> J.Parse(Candidates(Render(m))[i]) == Some(Objects(m)[i])
  {
    MixedFound([], m);
    assert [] + Printed(Objects(m)) == Printed(Objects(m));
    ObjectsValid(m);
    forall i | 0 <= i < |Objects(m)| ensures J.Parse(Printed(Objects(m))[i]) == Some(Objects(m)[i]) {
      J.ParsePrint(Objects(m)[i]);
    }
  }

  lemma {:induction false} ObjectsValid(m: Mixed)
    requires WellFormed(m)
    ensures forall i :: 0 <= i < |Objects(m)| ==> J.Valid(Objects(m)[i])
  {
    match m
    case ThenString(_, _, rest) => ObjectsValid(rest);
    case ThenObject(_, _, rest) => ObjectsValid(rest);
    case _ =>
  }
}
