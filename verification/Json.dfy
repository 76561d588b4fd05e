/** JSON text: `JSON.stringify` as a structural printer and `JSON.parse` as a
    character-by-character pushdown automaton (the grammar of RFC 8259).

    The automaton form makes every statement about "the text cut at this
    position" or "this text followed by that one" a statement about runs, and
    runs compose over concatenation. A number is kept as its literal: the
    conversion to a double is not part of this model. */
module Json {
  import opened Prelude
  import Text

  datatype Value =
    | Null
    | Bool(b: bool)
    | Number(literal: string)
    | String(text: string)
    | Array(items: seq<Value>)
    | Object(fields: seq<Field>)

  datatype Field = Field(key: string, value: Value)

  // ---------- number literals (RFC 8259, section 6) ----------

  datatype Phase = Start | Minus | Zero | Whole | Point | Fraction | Exp | ExpSign | ExpDigits | Bad

  function NextPhase(p: Phase, c: char): Phase {
    match p
    case Start => if c == '-' then Minus else if c == '0' then Zero else if Text.IsDigit(c) then Whole else Bad
    case Minus => if c == '0' then Zero else if Text.IsDigit(c) then Whole else Bad
    case Zero => if c == '.' then Point else if c == 'e' || c == 'E' then Exp else Bad
    case Whole =>
      if Text.IsDigit(c) then Whole else if c == '.' then Point else if c == 'e' || c == 'E' then Exp else Bad
    case Point => if Text.IsDigit(c) then Fraction else Bad
    case Fraction => if Text.IsDigit(c) then Fraction else if c == 'e' || c == 'E' then Exp else Bad
    case Exp => if c == '+' || c == '-' then ExpSign else if Text.IsDigit(c) then ExpDigits else Bad
    case ExpSign => if Text.IsDigit(c) then ExpDigits else Bad
    case ExpDigits => if Text.IsDigit(c) then ExpDigits else Bad
    case Bad => Bad
  }

  function PhaseAfter(s: string): Phase {
    if s == [] then Start else NextPhase(PhaseAfter(s[..|s| - 1]), s[|s| - 1])
  }

  predicate IsNumber(s: string) {
    PhaseAfter(s) in {Zero, Whole, Fraction, ExpDigits}
  }

  // ---------- well-formed values ----------

  ghost predicate DistinctKeys(fields: seq<Field>) {
    forall i, j :: 0 <= i < j < |fields| ==> fields[i].key != fields[j].key
  }

  /** What the host language's values guarantee: number literals are numbers, keys of an object are distinct. */
  ghost predicate Valid(v: Value) {
    match v
    case Number(literal) => IsNumber(literal)
    case Array(items) => forall x | x in items :: Valid(x)
    case Object(fields) => DistinctKeys(fields) && forall f | f in fields :: Valid(f.value)
    case _ => true
  }

  // ---------- JSON.stringify ----------

  function HexDigit(d: nat): char
    requires d < 16
  {
    if d < 10 then Text.Digit(d) else ('a' as int + (d - 10)) as char
  }

  function EscapeChar(c: char): string {
    if c == '"' then "\\\""
    else if c == '\\' then "\\\\"
    else if c as int == 8 then "\\b"
    else if c == '\t' then "\\t"
    else if c == '\n' then "\\n"
    else if c as int == 12 then "\\f"
    else if c == '\r' then "\\r"
    else if c < ' ' then "\\u00" + [HexDigit(c as int / 16), HexDigit(c as int % 16)]
    else [c]
  }

  function Escape(s: string): string {
    if s == [] then "" else EscapeChar(s[0]) + Escape(s[1..])
  }

  function Quote(s: string): string { "\"" + Escape(s) + "\"" }

  function Print(v: Value): string
    decreases v
  {
    match v
    case Null => "null"
    case Bool(b) => if b then "true" else "false"
    case Number(literal) => literal
    case String(text) => Quote(text)
    case Array(items) => "[" + (if items == [] then "" else Print(items[0]) + PrintItems(items[1..])) + "]"
    case Object(fields) => "{" + (if fields == [] then "" else PrintField(fields[0]) + PrintFields(fields[1..])) + "}"
  }

  function PrintItems(items: seq<Value>): string
    decreases items
  {
    if items == [] then "" else "," + (Print(items[0]) + PrintItems(items[1..]))
  }

  function PrintField(f: Field): string
    decreases f
  {
    Quote(f.key) + (":" + Print(f.value))
  }

  function PrintFields(fields: seq<Field>): string
    decreases fields
  {
    if fields == [] then "" else "," + (PrintField(fields[0]) + PrintFields(fields[1..]))
  }

  // ---------- JSON.parse ----------

  /** An enclosing array or object still being read. */
  datatype Frame = InArray(items: seq<Value>) | InObject(fields: seq<Field>, key: string)

  datatype Stack = Base | Push(top: Frame, below: Stack)

  function Depth(stack: Stack): nat {
    if stack.Base? then 0 else 1 + Depth(stack.below)
  }

  datatype Mode =
    | WantValue
    | WantValueOrClose
    | WantKey
    | WantKeyOrClose
    | WantColon
    | AfterValue
    | Complete(value: Value)
    | InString(text: string, isKey: bool)
    | InEscape(text: string, isKey: bool)
    | InHex(text: string, isKey: bool, code: nat, digits: nat)
    | InWord(left: string, word: Value)
    | InNumber(literal: string)

  datatype State = Rejected | Reading(stack: Stack, mode: Mode)

  predicate IsSpace(c: char) { c == ' ' || c == '\t' || c == '\n' || c == '\r' }

  /** Assigning to a property: a repeated key overwrites in place. */
  function SetField(fields: seq<Field>, key: string, value: Value): seq<Field> {
    if fields == [] then [Field(key, value)]
    else if fields[0].key == key then [Field(key, value)] + fields[1..]
    else [fields[0]] + SetField(fields[1..], key, value)
  }

  function Deliver(v: Value, stack: Stack): State {
    match stack
    case Base => Reading(Base, Complete(v))
    case Push(InArray(items), below) => Reading(Push(InArray(items + [v]), below), AfterValue)
    case Push(InObject(fields, key), below) => Reading(Push(InObject(SetField(fields, key, v), ""), below), AfterValue)
  }

  function Close(stack: Stack): State {
    match stack
    case Base => Rejected
    case Push(InArray(items), below) => Deliver(Array(items), below)
    case Push(InObject(fields, _), below) => Deliver(Object(fields), below)
  }

  function BeginValue(stack: Stack, c: char): State {
    if c == '"' then Reading(stack, InString("", false))
    else if c == '{' then Reading(Push(InObject([], ""), stack), WantKeyOrClose)
    else if c == '[' then Reading(Push(InArray([]), stack), WantValueOrClose)
    else if c == 't' then Reading(stack, InWord("rue", Bool(true)))
    else if c == 'f' then Reading(stack, InWord("alse", Bool(false)))
    else if c == 'n' then Reading(stack, InWord("ull", Null))
    else if PhaseAfter([c]) != Bad then Reading(stack, InNumber([c]))
    else Rejected
  }

  /** The step taken once a value is complete: a comma, a close, or white space. */
  function Punctuate(st: State, c: char): State {
    if st.Rejected? then Rejected
    else if IsSpace(c) then st
    else
      match st.stack
      case Base => Rejected
      case Push(InArray(_), _) =>
        if c == ',' then Reading(st.stack, WantValue) else if c == ']' then Close(st.stack) else Rejected
      case Push(InObject(_, _), _) =>
        if c == ',' then Reading(st.stack, WantKey) else if c == '}' then Close(st.stack) else Rejected
  }

  function EndString(stack: Stack, text: string, isKey: bool): State {
    if !isKey then Deliver(String(text), stack)
    else
      match stack
      case Push(InObject(fields, _), below) => Reading(Push(InObject(fields, text), below), WantColon)
      case _ => Rejected
  }

  function Unescape(c: char): Option<char> {
    if c == '"' || c == '\\' || c == '/' then Some(c)
    else if c == 'b' then Some(8 as char)
    else if c == 't' then Some('\t')
    else if c == 'n' then Some('\n')
    else if c == 'f' then Some(12 as char)
    else if c == 'r' then Some('\r')
    else None
  }

  function HexValue(c: char): Option<nat> {
    if Text.IsDigit(c) then Some(c as int - '0' as int)
    else if 'a' <= c <= 'f' then Some(c as int - 'a' as int + 10)
    else if 'A' <= c <= 'F' then Some(c as int - 'A' as int + 10)
    else None
  }

  function StepHex(stack: Stack, text: string, isKey: bool, code: nat, digits: nat, c: char): State {
    match HexValue(c)
    case None => Rejected
    case Some(h) =>
      var code' := 16 * code + h;
      if digits < 3 then Reading(stack, InHex(text, isKey, code', digits + 1))
      else if code' < 0xD800 || 0xE000 <= code' < 0x10000 then Reading(stack, InString(text + [code' as char], isKey))
      else Rejected
  }

  function Step(st: State, c: char): State {
    match st
    case Rejected => Rejected
    case Reading(stack, mode) =>
      match mode
      case WantValue => if IsSpace(c) then st else BeginValue(stack, c)
      case WantValueOrClose => if IsSpace(c) then st else if c == ']' then Close(stack) else BeginValue(stack, c)
      case WantKey => if IsSpace(c) then st else if c == '"' then Reading(stack, InString("", true)) else Rejected
      case WantKeyOrClose =>
        if IsSpace(c) then st
        else if c == '"' then Reading(stack, InString("", true))
        else if c == '}' then Close(stack)
        else Rejected
      case WantColon => if IsSpace(c) then st else if c == ':' then Reading(stack, WantValue) else Rejected
      case AfterValue => Punctuate(st, c)
      case Complete(_) => Punctuate(st, c)
      case InString(text, isKey) =>
        if c == '"' then EndString(stack, text, isKey)
        else if c == '\\' then Reading(stack, InEscape(text, isKey))
        else if c < ' ' then Rejected
        else Reading(stack, InString(text + [c], isKey))
      case InEscape(text, isKey) =>
        if c == 'u' then Reading(stack, InHex(text, isKey, 0, 0))
        else if Unescape(c).Some? then Reading(stack, InString(text + [Unescape(c).value], isKey))
        else Rejected
      case InHex(text, isKey, code, digits) => StepHex(stack, text, isKey, code, digits, c)
      case InWord(left, word) =>
        if left == [c] then Deliver(word, stack)
        else if left != [] && left[0] == c then Reading(stack, InWord(left[1..], word))
        else Rejected
      case InNumber(literal) =>
        if PhaseAfter(literal + [c]) != Bad then Reading(stack, InNumber(literal + [c]))
        else Punctuate(Settle(st), c)
  }

  /** A number ends only when something else follows; at the end of the text it is settled. */
  function Settle(st: State): State {
    if st.Reading? && st.mode.InNumber? then
      if IsNumber(st.mode.literal) then Deliver(Number(st.mode.literal), st.stack) else Rejected
    else st
  }

  function Run(st: State, s: string): State
    decreases s
  {
    if s == [] then st else Run(Step(st, s[0]), s[1..])
  }

  /** `JSON.parse(s)`; None is the thrown SyntaxError. */
  function Parse(s: string): Option<Value> {
    match Settle(Run(Reading(Base, WantValue), s))
    case Reading(Base, Complete(v)) => Some(v)
    case _ => None
  }

  // ---------- runs compose ----------

  lemma {:induction false} RunConcat(st: State, a: string, b: string)
    ensures Run(st, a + b) == Run(Run(st, a), b)
    decreases a
  {
    if a == [] {
      assert a + b == b;
    } else {
      var next := Step(st, a[0]);
      assert (a + b)[0] == a[0] && (a + b)[1..] == a[1..] + b;
      assert Run(st, a + b) == Run(next, a[1..] + b) && Run(st, a) == Run(next, a[1..]);
      RunConcat(next, a[1..], b);
    }
  }

  lemma {:induction false} RunRejected(s: string)
    ensures Run(Rejected, s) == Rejected
  {
    if s != [] { RunRejected(s[1..]); }
  }

  /** Every state met while reading `s` is live and at least `d` deep. */
  ghost predicate StaysAbove(st: State, s: string, d: nat)
    decreases s
  {
    && st.Reading?
    && Depth(st.stack) >= d
    && (s != [] ==> StaysAbove(Step(st, s[0]), s[1..], d))
  }

  lemma {:induction false} StaysAbovePrefix(st: State, s: string, d: nat, k: nat)
    requires StaysAbove(st, s, d) && k <= |s|
    ensures var r := Run(st, s[..k]); r.Reading? && Depth(r.stack) >= d
    decreases k
  {
    if k > 0 {
      StaysAbovePrefix(Step(st, s[0]), s[1..], d, k - 1);
      assert s[..k][1..] == s[1..][..k - 1];
    }
  }

  /** Reading `s` from `st` ends in `st'` and never drops below depth `d` on the way. */
  ghost predicate Reads(st: State, s: string, st': State, d: nat) {
    StaysAbove(st, s, d) && Run(st, s) == st'
  }

  lemma {:induction false} StaysAboveConcat(st: State, a: string, mid: State, b: string, d: nat)
    requires Reads(st, a, mid, d) && StaysAbove(mid, b, d)
    ensures StaysAbove(st, a + b, d)
    decreases a
  {
    if a == [] {
      assert a + b == b;
    } else {
      StaysAboveConcat(Step(st, a[0]), a[1..], mid, b, d);
      assert (a + b)[1..] == a[1..] + b;
    }
  }

  lemma ReadsStep(st: State, c: char, s: string, st': State, d: nat)
    requires st.Reading? && Depth(st.stack) >= d && Reads(Step(st, c), s, st', d)
    ensures Reads(st, [c] + s, st', d)
  {
  }

  lemma {:induction false} StaysAboveDeeper(st: State, s: string, d: nat, d': nat)
    requires StaysAbove(st, s, d) && d' <= d
    ensures StaysAbove(st, s, d')
    decreases s
  {
    if s != [] { StaysAboveDeeper(Step(st, s[0]), s[1..], d, d'); }
  }

  // ---------- reading back what was printed ----------

  lemma {:induction false} ReadsWord(stack: Stack, left: string, word: Value)
    requires left != []
    ensures Reads(Reading(stack, InWord(left, word)), left, Deliver(word, stack), Depth(stack))
  {
    var st := Reading(stack, InWord(left, word));
    assert left == [left[0]] + left[1..];
    if |left| > 1 { ReadsWord(stack, left[1..], word); }
  }

  lemma {:induction false} PhaseBadStays(a: string, b: string)
    requires PhaseAfter(a) == Bad
    ensures PhaseAfter(a + b) == Bad
  {
    if b == [] {
      assert a + b == a;
    } else {
      var n := |b| - 1;
      PhaseBadStays(a, b[..n]);
      assert (a + b)[..|a + b| - 1] == a + b[..n];
    }
  }

  lemma NumberStep(stack: Stack, a: string, c: char)
    requires PhaseAfter(a + [c]) != Bad
    ensures Step(Reading(stack, InNumber(a)), c) == Reading(stack, InNumber(a + [c]))
  {
  }

  lemma {:induction false} ReadsNumber(stack: Stack, a: string, b: string)
    requires PhaseAfter(a + b) != Bad
    ensures Reads(Reading(stack, InNumber(a)), b, Reading(stack, InNumber(a + b)), Depth(stack))
    decreases b
  {
    if b == [] {
      assert a + b == a;
    } else {
      assert a + [b[0]] + b[1..] == a + b;
      var a' := a + [b[0]];
      if PhaseAfter(a') == Bad { PhaseBadStays(a', b[1..]); }
      ReadsNumber(stack, a', b[1..]);
      NumberStep(stack, a, b[0]);
      ReadsStep(Reading(stack, InNumber(a)), b[0], b[1..], Reading(stack, InNumber(a' + b[1..])), Depth(stack));
      assert [b[0]] + b[1..] == b;
    }
  }

  lemma ReadsHexPair(stack: Stack, text: string, isKey: bool, n: nat)
    requires n < 32
    ensures Reads(Reading(stack, InHex(text, isKey, 0, 0)), "00" + [HexDigit(n / 16), HexDigit(n % 16)],
                  Reading(stack, InString(text + [n as char], isKey)), Depth(stack))
  {
    var d := Depth(stack);
    var hi, lo := HexDigit(n / 16), HexDigit(n % 16);
    var s1 := Reading(stack, InHex(text, isKey, 0, 1));
    var s2 := Reading(stack, InHex(text, isKey, 0, 2));
    var s3 := Reading(stack, InHex(text, isKey, n / 16, 3));
    var s4 := Reading(stack, InString(text + [n as char], isKey));
    assert HexValue(lo) == Some(n % 16);
    assert Step(s3, lo) == s4;
    ReadsStep(s3, lo, [], s4, d);
    assert HexValue(hi) == Some(n / 16);
    ReadsStep(s2, hi, [lo], s4, d);
    assert HexValue('0') == Some(0);
    ReadsStep(s1, '0', [hi] + [lo], s4, d);
    ReadsStep(Reading(stack, InHex(text, isKey, 0, 0)), '0', ['0'] + ([hi] + [lo]), s4, d);
    assert ['0'] + (['0'] + ([hi] + [lo])) == "00" + [hi, lo];
  }

  lemma ReadsEscapeChar(stack: Stack, text: string, isKey: bool, c: char)
    ensures Reads(Reading(stack, InString(text, isKey)), EscapeChar(c), Reading(stack, InString(text + [c], isKey)), Depth(stack))
  {
    var d := Depth(stack);
    var st := Reading(stack, InString(text, isKey));
    var esc := Reading(stack, InEscape(text, isKey));
    var st' := Reading(stack, InString(text + [c], isKey));
    var e := EscapeChar(c);
    if |e| == 1 {
      assert e == [c] + [];
      ReadsStep(st, c, [], st', d);
    } else if |e| == 2 {
      assert e == ['\\'] + ([e[1]] + []);
      assert Unescape(e[1]) == Some(c);
      ReadsStep(esc, e[1], [], st', d);
      ReadsStep(st, '\\', [e[1]] + [], st', d);
    } else {
      var n := c as int;
      var hex := "00" + [HexDigit(n / 16), HexDigit(n % 16)];
      ReadsHexPair(stack, text, isKey, n);
      ReadsStep(esc, 'u', hex, st', d);
      ReadsStep(st, '\\', ['u'] + hex, st', d);
      assert e == ['\\'] + (['u'] + hex);
    }
  }

  lemma {:induction false} ReadsEscaped(stack: Stack, text: string, isKey: bool, s: string)
    ensures Reads(Reading(stack, InString(text, isKey)), Escape(s), Reading(stack, InString(text + s, isKey)), Depth(stack))
    decreases s
  {
    if s == [] {
      assert text + s == text;
    } else {
      var mid := Reading(stack, InString(text + [s[0]], isKey));
      ReadsEscapeChar(stack, text, isKey, s[0]);
      ReadsEscaped(stack, text + [s[0]], isKey, s[1..]);
      assert text + [s[0]] + s[1..] == text + s;
      StaysAboveConcat(Reading(stack, InString(text, isKey)), EscapeChar(s[0]), mid, Escape(s[1..]), Depth(stack));
      RunConcat(Reading(stack, InString(text, isKey)), EscapeChar(s[0]), Escape(s[1..]));
    }
  }

  /** A quoted string read from its opening quote. */
  lemma ReadsQuoted(st: State, s: string, isKey: bool, st': State)
    requires st.Reading? && Step(st, '"') == Reading(st.stack, InString("", isKey))
    requires st' == EndString(st.stack, s, isKey) && st'.Reading? && Depth(st'.stack) >= Depth(st.stack)
    ensures Reads(st, Quote(s), st', Depth(st.stack))
  {
    var d := Depth(st.stack);
    var open, full := Reading(st.stack, InString("", isKey)), Reading(st.stack, InString(s, isKey));
    ReadsEscaped(st.stack, "", isKey, s);
    assert "" + s == s;
    ReadsStep(full, '"', [], st', d);
    StaysAboveConcat(open, Escape(s), full, ['"'] + [], d);
    RunConcat(open, Escape(s), ['"'] + []);
    ReadsStep(st, '"', Escape(s) + (['"'] + []), st', d);
    assert ['"'] + (Escape(s) + (['"'] + [])) == Quote(s);
  }

  /** What reading a printed value achieves: once settled, the value is delivered,
      and the enclosing containers are never left on the way. */
  ghost predicate ReadsValue(v: Value, stack: Stack, st: State) {
    exists r :: Reads(st, Print(v), r, Depth(stack)) && Settle(r) == Deliver(v, stack)
  }

  predicate AtValue(st: State, stack: Stack) {
    st == Reading(stack, WantValue) || st == Reading(stack, WantValueOrClose)
  }

  predicate Punctuation(c: char) { c == ',' || c == ']' || c == '}' }

  lemma StepSettled(st: State, c: char)
    requires Punctuation(c)
    ensures Step(st, c) == Step(Settle(st), c)
  {
  }

  lemma {:induction false} SetFieldFresh(fields: seq<Field>, key: string, value: Value)
    requires forall f | f in fields :: f.key != key
    ensures SetField(fields, key, value) == fields + [Field(key, value)]
  {
    if fields != [] {
      SetFieldFresh(fields[1..], key, value);
      assert fields == [fields[0]] + fields[1..];
    }
  }

  lemma {:induction false} DeliverDepth(v: Value, stack: Stack)
    ensures Deliver(v, stack).Reading? && Depth(Deliver(v, stack).stack) == Depth(stack)
    ensures Settle(Deliver(v, stack)) == Deliver(v, stack)
  {
  }

  lemma {:induction false} PrintReads(v: Value, stack: Stack, st: State)
    requires Valid(v) && AtValue(st, stack)
    ensures ReadsValue(v, stack, st)
    decreases v, 1
  {
    var d := Depth(stack);
    DeliverDepth(v, stack);
    match v {
      case Null =>
        PrintReadsWord(v, "null", stack, st);
      case Bool(b) =>
        PrintReadsWord(v, if b then "true" else "false", stack, st);
      case Number(literal) =>
        PrintReadsNumber(literal, stack, st);
      case String(text) =>
        ReadsQuoted(st, text, false, Deliver(v, stack));
        assert Reads(st, Print(v), Deliver(v, stack), d);
      case Array(items) =>
        PrintReadsArray(items, stack, st);
      case Object(fields) =>
        PrintReadsObject(fields, stack, st);
    }
  }

  /** From inside the opening bracket: the body, then the closing bracket. */
  lemma ReadsBracketed(st: State, open: State, body: string, full: State, v: Value, stack: Stack, l: char, r: char)
    requires AtValue(st, stack) && open.Reading? && Step(st, l) == open && !IsSpace(l)
    requires Depth(open.stack) >= Depth(stack) && Reads(open, body, full, Depth(stack) + 1)
    requires Punctuation(r) && Step(full, r) == Deliver(v, stack)
    requires Print(v) == [l] + (body + [r])
    ensures ReadsValue(v, stack, st)
  {
    var d := Depth(stack);
    DeliverDepth(v, stack);
    StaysAboveDeeper(open, body, d + 1, d);
    ReadsEndLive(open, body, full, d);
    ReadsStep(full, r, [], Deliver(v, stack), d);
    assert [r] + [] == [r];
    ReadsBoth(open, body, full, [r], Deliver(v, stack), d);
    ReadsStep(st, l, body + [r], Deliver(v, stack), d);
    assert Reads(st, Print(v), Deliver(v, stack), d);
  }

  lemma ReadsEndLive(st: State, s: string, st': State, d: nat)
    requires Reads(st, s, st', d)
    ensures st'.Reading? && Depth(st'.stack) >= d
  {
    StaysAbovePrefix(st, s, d, |s|);
    assert s[..|s|] == s;
  }

  lemma {:induction false} PrintReadsArray(items: seq<Value>, stack: Stack, st: State)
    requires Valid(Array(items)) && AtValue(st, stack)
    ensures ReadsValue(Array(items), stack, st)
    decreases items, 1
  {
    var open := Reading(Push(InArray([]), stack), WantValueOrClose);
    var r := ArrayBodyRead(items, stack, open);
    var body := ArrayBody(items);
    ArrayCloses(items, stack, open, r);
    Bracketed("[", body, "]");
    ReadsBracketed(st, open, body, r, Array(items), stack, '[', ']');
  }

  lemma ArrayCloses(items: seq<Value>, stack: Stack, open: State, r: State)
    requires open == Reading(Push(InArray([]), stack), WantValueOrClose)
    requires if items == [] then r == open else Settle(r) == Reading(Push(InArray(items), stack), AfterValue)
    ensures Step(r, ']') == Deliver(Array(items), stack)
  {
    if r != open { StepSettled(r, ']'); }
  }

  function ArrayBody(items: seq<Value>): string {
    if items == [] then "" else Print(items[0]) + PrintItems(items[1..])
  }

  /** The items of an array, read inside its brackets. */
  lemma {:induction false} ArrayBodyRead(items: seq<Value>, stack: Stack, open: State) returns (r: State)
    requires Valid(Array(items)) && open == Reading(Push(InArray([]), stack), WantValueOrClose)
    ensures Reads(open, ArrayBody(items), r, Depth(stack) + 1)
    ensures if items == [] then r == open else Settle(r) == Reading(Push(InArray(items), stack), AfterValue)
    decreases items, 0
  {
    r := open;
    if items != [] {
      var d := Depth(stack) + 1;
      PrintReads(items[0], open.stack, open);
      var r0 :| Reads(open, Print(items[0]), r0, d) && Settle(r0) == Deliver(items[0], open.stack);
      ReadsEndLive(open, Print(items[0]), r0, d);
      assert [] + [items[0]] == [items[0]];
      assert [items[0]] + items[1..] == items;
      r := ItemsRead([items[0]], items[1..], stack, r0);
      ReadsBoth(open, Print(items[0]), r0, PrintItems(items[1..]), r, d);
    }
  }

  lemma {:induction false} PrintReadsObject(fields: seq<Field>, stack: Stack, st: State)
    requires Valid(Object(fields)) && AtValue(st, stack)
    ensures ReadsValue(Object(fields), stack, st)
    decreases fields, 1
  {
    var open := Reading(Push(InObject([], ""), stack), WantKeyOrClose);
    var r := BodyRead(fields, stack, open);
    var body := ObjectBody(fields);
    ObjectCloses(fields, stack, open, r);
    Bracketed("{", body, "}");
    ReadsBracketed(st, open, body, r, Object(fields), stack, '{', '}');
  }

  lemma ObjectCloses(fields: seq<Field>, stack: Stack, open: State, r: State)
    requires open == Reading(Push(InObject([], ""), stack), WantKeyOrClose)
    requires if fields == [] then r == open else Settle(r) == Reading(Push(InObject(fields, ""), stack), AfterValue)
    ensures Step(r, '}') == Deliver(Object(fields), stack)
  {
    if r != open { StepSettled(r, '}'); }
  }

  lemma Bracketed(left: string, body: string, right: string)
    ensures left + body + right == left + (body + right)
  {
  }

  function ObjectBody(fields: seq<Field>): string {
    if fields == [] then "" else PrintField(fields[0]) + PrintFields(fields[1..])
  }

  /** The members of an object, read inside its braces. */
  lemma {:induction false} BodyRead(fields: seq<Field>, stack: Stack, open: State) returns (r: State)
    requires Valid(Object(fields)) && open == Reading(Push(InObject([], ""), stack), WantKeyOrClose)
    ensures Reads(open, ObjectBody(fields), r, Depth(stack) + 1)
    ensures if fields == [] then r == open else Settle(r) == Reading(Push(InObject(fields, ""), stack), AfterValue)
    decreases fields, 0
  {
    r := open;
    if fields != [] {
      var d := Depth(stack) + 1;
      var r0 := FieldRead([], fields[0], stack, open);
      ReadsEndLive(open, PrintField(fields[0]), r0, d);
      assert [] + [fields[0]] == [fields[0]];
      assert [fields[0]] + fields[1..] == fields;
      r := FieldsRead([fields[0]], fields[1..], stack, r0);
      ReadsBoth(open, PrintField(fields[0]), r0, PrintFields(fields[1..]), r, d);
    }
  }

  lemma PrintReadsWord(v: Value, text: string, stack: Stack, st: State)
    requires AtValue(st, stack)
    requires (v == Null && text == "null") || (v == Bool(true) && text == "true") || (v == Bool(false) && text == "false")
    ensures Print(v) == text && ReadsValue(v, stack, st)
  {
    var left := text[1..];
    assert left == if v == Null then "ull" else if v == Bool(true) then "rue" else "alse";
    ReadsWord(stack, left, v);
    assert Step(st, text[0]) == Reading(stack, InWord(left, v));
    ReadsStep(st, text[0], left, Deliver(v, stack), Depth(stack));
    assert [text[0]] + left == text;
    DeliverDepth(v, stack);
    assert Reads(st, Print(v), Deliver(v, stack), Depth(stack));
  }

  lemma NumberBegins(c: char, stack: Stack, st: State)
    requires PhaseAfter([c]) != Bad && AtValue(st, stack)
    ensures Step(st, c) == Reading(stack, InNumber([c]))
  {
  }

  lemma PrintReadsNumber(literal: string, stack: Stack, st: State)
    requires IsNumber(literal) && AtValue(st, stack)
    ensures ReadsValue(Number(literal), stack, st)
  {
    var first, rest := [literal[0]], literal[1..];
    assert first + rest == literal;
    if PhaseAfter(first) == Bad { PhaseBadStays(first, rest); }
    NumberBegins(literal[0], stack, st);
    ReadsNumber(stack, first, rest);
    var r := Reading(stack, InNumber(literal));
    ReadsStep(st, literal[0], rest, r, Depth(stack));
    assert Reads(st, Print(Number(literal)), r, Depth(stack));
    assert Settle(r) == Deliver(Number(literal), stack);
  }

  /** The remaining items of an array, read after `read` of them. */
  lemma {:induction false} ItemsRead(read: seq<Value>, items: seq<Value>, stack: Stack, st: State) returns (r: State)
    requires forall x | x in items :: Valid(x)
    requires st.Reading? && Depth(st.stack) >= Depth(stack) + 1
    requires Settle(st) == Reading(Push(InArray(read), stack), AfterValue)
    ensures Reads(st, PrintItems(items), r, Depth(stack) + 1)
    ensures Settle(r) == Reading(Push(InArray(read + items), stack), AfterValue)
    decreases items, 0
  {
    r := st;
    var d := Depth(stack) + 1;
    if items == [] {
      assert read + items == read;
    } else {
      var want := Reading(Push(InArray(read), stack), WantValue);
      StepSettled(st, ',');
      PrintReads(items[0], want.stack, want);
      var r0 :| Reads(want, Print(items[0]), r0, d) && Settle(r0) == Deliver(items[0], want.stack);
      ReadsEndLive(want, Print(items[0]), r0, d);
      r := ItemsRead(read + [items[0]], items[1..], stack, r0);
      assert read + [items[0]] + items[1..] == read + items;
      ReadsBoth(want, Print(items[0]), r0, PrintItems(items[1..]), r, d);
      ReadsStep(st, ',', Print(items[0]) + PrintItems(items[1..]), r, d);
    }
  }

  /** One `"key":value` member, read where a key is expected. */
  lemma {:induction false} FieldRead(read: seq<Field>, f: Field, stack: Stack, st: State) returns (r: State)
    requires Valid(f.value) && forall g | g in read :: g.key != f.key
    requires st == Reading(Push(InObject(read, ""), stack), WantKey) || st == Reading(Push(InObject(read, ""), stack), WantKeyOrClose)
    ensures Reads(st, PrintField(f), r, Depth(stack) + 1)
    ensures Settle(r) == Reading(Push(InObject(read + [f], ""), stack), AfterValue)
    decreases f, 0
  {
    var d := Depth(stack) + 1;
    var keyed := Push(InObject(read, f.key), stack);
    ReadsQuoted(st, f.key, true, Reading(keyed, WantColon));
    PrintReads(f.value, keyed, Reading(keyed, WantValue));
    r :| Reads(Reading(keyed, WantValue), Print(f.value), r, d) && Settle(r) == Deliver(f.value, keyed);
    SetFieldFresh(read, f.key, f.value);
    KeyThenValue(st, f, keyed, r, d);
  }

  lemma KeyThenValue(st: State, f: Field, keyed: Stack, r: State, d: nat)
    requires Reads(st, Quote(f.key), Reading(keyed, WantColon), d)
    requires Reads(Reading(keyed, WantValue), Print(f.value), r, d) && Depth(keyed) >= d
    ensures Reads(st, PrintField(f), r, d)
  {
    ReadsStep(Reading(keyed, WantColon), ':', Print(f.value), r, d);
    ReadsBoth(st, Quote(f.key), Reading(keyed, WantColon), [':'] + Print(f.value), r, d);
  }

  lemma ReadsBoth(st: State, a: string, mid: State, b: string, r: State, d: nat)
    requires Reads(st, a, mid, d) && Reads(mid, b, r, d)
    ensures Reads(st, a + b, r, d)
  {
    StaysAboveConcat(st, a, mid, b, d);
    RunConcat(st, a, b);
  }

  lemma {:induction false} FieldsRead(read: seq<Field>, fields: seq<Field>, stack: Stack, st: State) returns (r: State)
    requires DistinctKeys(read + fields) && forall f | f in fields :: Valid(f.value)
    requires st.Reading? && Depth(st.stack) >= Depth(stack) + 1
    requires Settle(st) == Reading(Push(InObject(read, ""), stack), AfterValue)
    ensures Reads(st, PrintFields(fields), r, Depth(stack) + 1)
    ensures Settle(r) == Reading(Push(InObject(read + fields, ""), stack), AfterValue)
    decreases fields, 0
  {
    r := st;
    var d := Depth(stack) + 1;
    if fields == [] {
      assert read + fields == read;
    } else {
      var f := fields[0];
      var want := Reading(Push(InObject(read, ""), stack), WantKey);
      StepSettled(st, ',');
      forall g | g in read ensures g.key != f.key {
        var i :| 0 <= i < |read| && read[i] == g;
        assert (read + fields)[i] == g && (read + fields)[|read|] == f;
      }
      var r0 := FieldRead(read, f, stack, want);
      ReadsEndLive(want, PrintField(f), r0, d);
      assert read + [f] + fields[1..] == read + fields;
      r := FieldsRead(read + [f], fields[1..], stack, r0);
      ReadsBoth(want, PrintField(f), r0, PrintFields(fields[1..]), r, d);
      ReadsStep(st, ',', PrintField(f) + PrintFields(fields[1..]), r, d);
    }
  }

  // ---------- main results ----------

  /** `JSON.parse(JSON.stringify(v))` is `v`. */
  lemma ParsePrint(v: Value)
    requires Valid(v)
    ensures Parse(Print(v)) == Some(v)
  {
    PrintReads(v, Base, Reading(Base, WantValue));
  }

  /** What a character after a backslash stands for (RFC 8259, section 7). */
  ghost predicate StandsFor(c: char, read: char) {
    || (c == '"' && read == '"') || (c == '\\' && read == '\\') || (c == '/' && read == '/')
    || (c == 'b' && read as int == 8) || (c == 'f' && read as int == 12) || (c == 'n' && read as int == 10)
    || (c == 'r' && read as int == 13) || (c == 't' && read as int == 9)
  }

  /** Each short escape is read as the character it stands for; a backslash before anything else but `u` is refused. */
  lemma ShortEscapes(stack: Stack, text: string, isKey: bool, c: char)
    requires c != 'u'
    ensures var r := Run(Reading(stack, InString(text, isKey)), ['\\', c]);
      && (forall read :: StandsFor(c, read) ==> r == Reading(stack, InString(text + [read], isKey)))
      && (r == Rejected <==> forall read :: !StandsFor(c, read))
  {
    var st := Reading(stack, InString(text, isKey));
    TwoRead(st, '\\', c);
    var codes := [8 as char, '\t', '\n', 12 as char, '\r'];
    assert c in ['"', '\\', '/'] ==> StandsFor(c, c);
    assert (c == 'b' ==> StandsFor(c, codes[0])) && (c == 't' ==> StandsFor(c, codes[1])) && (c == 'n' ==> StandsFor(c, codes[2]));
    assert (c == 'f' ==> StandsFor(c, codes[3])) && (c == 'r' ==> StandsFor(c, codes[4]));
  }

  /** The value of a hexadecimal digit in either case. */
  ghost predicate HexIs(c: char, value: int) {
    || ('0' <= c <= '9' && value == c as int - '0' as int)
    || ('a' <= c <= 'f' && value == c as int - 'a' as int + 10)
    || ('A' <= c <= 'F' && value == c as int - 'A' as int + 10)
  }

  /** After a backslash and `u`, four hexadecimal digits in either case add up to a code. The first three
      are only added; with the last the character is read, unless it is half of a surrogate pair. */
  lemma HexEscapes(stack: Stack, text: string, isKey: bool, code: nat, digits: nat, c: char, value: nat)
    requires HexIs(c, value) && digits < 4 && 16 * code + value < 0x10000
    ensures Run(Reading(stack, InString(text, isKey)), ['\\', 'u']) == Reading(stack, InHex(text, isKey, 0, 0))
    ensures var n, st := 16 * code + value, Step(Reading(stack, InHex(text, isKey, code, digits)), c);
      if digits < 3 then st == Reading(stack, InHex(text, isKey, n, digits + 1))
      else if 0xD800 <= n < 0xE000 then st == Rejected
      else st == Reading(stack, InString(text + [n as char], isKey))
  {
    TwoRead(Reading(stack, InString(text, isKey)), '\\', 'u');
  }

  lemma TwoRead(st: State, a: char, b: char)
    ensures Run(st, [a, b]) == Step(Step(st, a), b)
  {
    assert [a, b][1..] == [b] && [b][1..] == [];
    assert Run(Step(st, a), [b]) == Run(Step(Step(st, a), b), []);
  }

  ghost predicate Spaces(s: string) { forall i :: 0 <= i < |s| ==> s[i] in [' ', '\t', '\n', '\r'] }

  lemma {:induction false} SpacesStay(st: State, s: string)
    requires st.Reading? && (st.mode == WantValue || (st.stack.Base? && st.mode.Complete?)) && Spaces(s)
    ensures Run(st, s) == st
    decreases s
  {
    if s != [] {
      assert s[0] in [' ', '\t', '\n', '\r'] && forall i :: 0 <= i < |s[1..]| ==> s[1..][i] == s[i + 1];
      SpacesStay(st, s[1..]);
    }
  }

  lemma SpacesEnd(st: State, v: Value, s: string)
    requires Settle(st) == Reading(Base, Complete(v)) && Spaces(s)
    ensures Settle(Run(st, s)) == Reading(Base, Complete(v))
  {
    if s != [] {
      assert s[0] in [' ', '\t', '\n', '\r'] && forall i :: 0 <= i < |s[1..]| ==> s[1..][i] == s[i + 1];
      if st.mode.InNumber? { NoSpaceInNumber(st.mode.literal, s[0]); }
      SpacesStay(Reading(Base, Complete(v)), s[1..]);
    }
  }

  lemma NoSpaceInNumber(literal: string, c: char)
    requires c in [' ', '\t', '\n', '\r']
    ensures PhaseAfter(literal + [c]) == Bad
  {
    assert (literal + [c])[..|literal|] == literal;
  }

  /** White space around a printed value does not change what is parsed. */
  lemma ParsePadded(before: string, v: Value, after: string)
    requires Valid(v) && Spaces(before) && Spaces(after)
    ensures Parse(before + Print(v) + after) == Some(v)
  {
    var start := Reading(Base, WantValue);
    PrintReads(v, Base, start);
    RunConcat(start, before, Print(v));
    RunConcat(start, before + Print(v), after);
    SpacesStay(start, before);
    SpacesEnd(Run(start, Print(v)), v, after);
  }

  /** Printing is injective. */
  lemma PrintInjective(v: Value, w: Value)
    requires Valid(v) && Valid(w) && Print(v) == Print(w)
    ensures v == w
  {
    ParsePrint(v);
    ParsePrint(w);
  }

  /** Reading any proper, non-empty prefix of a printed object leaves the object open. */
  lemma PrefixStaysOpen(fields: seq<Field>, k: nat)
    requires Valid(Object(fields)) && 0 < k < |Print(Object(fields))|
    ensures var r := Run(Reading(Base, WantValue), Print(Object(fields))[..k]); r.Reading? && r.stack.Push?
  {
    var v, start := Object(fields), Reading(Base, WantValue);
    var open := Reading(Push(InObject([], ""), Base), WantKeyOrClose);
    var body := ObjectBody(fields);
    assert Print(v) == ['{'] + body + ['}'];
    var r := BodyRead(fields, Base, open);
    StaysAbovePrefix(open, body, 1, k - 1);
    assert Print(v)[..k] == ['{'] + body[..k - 1];
    assert (['{'] + body[..k - 1])[1..] == body[..k - 1];
  }

  /** No proper prefix of a printed object is JSON. */
  lemma NoProperPrefixParses(fields: seq<Field>, k: nat)
    requires Valid(Object(fields)) && k < |Print(Object(fields))|
    ensures Parse(Print(Object(fields))[..k]) == None
  {
    if k > 0 {
      PrefixStaysOpen(fields, k);
      var r := Run(Reading(Base, WantValue), Print(Object(fields))[..k]);
      if r.mode.InNumber? { DeliverDepth(Number(r.mode.literal), r.stack); }
    }
  }

  /** Text starting `{"x`, where `x` is no JSON punctuation, cannot continue an open object. */
  predicate OpensWithKey(fields: seq<Field>) {
    fields != [] && fields[0].key != [] && EscapeChar(fields[0].key[0]) == [fields[0].key[0]]
    && !IsSpace(fields[0].key[0]) && !Punctuation(fields[0].key[0]) && fields[0].key[0] != ':'
  }

  /** The keyword being read, if any, is made of letters. */
  ghost predicate Lettered(st: State) {
    st.Reading? && st.mode.InWord? ==> forall i :: 0 <= i < |st.mode.left| ==> 'a' <= st.mode.left[i] <= 'z'
  }

  lemma {:induction false} RunLettered(st: State, s: string)
    requires Lettered(st)
    ensures Lettered(Run(st, s))
    decreases s
  {
    if s != [] {
      StepLettered(st, s[0]);
      RunLettered(Step(st, s[0]), s[1..]);
    }
  }

  lemma StepLettered(st: State, c: char)
    requires Lettered(st)
    ensures Lettered(Step(st, c))
  {
  }

  /** How a printed object begins: a brace, a quote and the first character of its first key. */
  lemma PrintedObjectOpening(next: seq<Field>) returns (tail: string)
    requires OpensWithKey(next)
    ensures Print(Object(next)) == ['{', '"', next[0].key[0]] + tail
  {
    var key := next[0].key;
    var inner := Escape(key[1..]) + "\"";
    var value, more := ":" + Print(next[0].value), PrintFields(next[1..]);
    assert Quote(key) == ['"', key[0]] + inner by { assert Escape(key) == [key[0]] + Escape(key[1..]); }
    tail := Opened(['"', key[0]], inner, value, more);
  }

  lemma Opened(two: string, inner: string, value: string, more: string) returns (tail: string)
    ensures "{" + ((two + inner) + value + more) + "}" == ['{'] + two + tail
  {
    tail := inner + value + more + "}";
  }

  lemma NothingCompletesATear(r: State, next: seq<Field>)
    requires r.Reading? && (r.stack.Push? || r.mode.Complete?) && Lettered(r)
    requires Valid(Object(next)) && OpensWithKey(next)
    ensures var e := Settle(Run(r, Print(Object(next)))); !(e.Reading? && e.stack.Base?)
  {
    if AtValue(r, r.stack) {
      PrintReads(Object(next), r.stack, r);
      DeliverDepth(Object(next), r.stack);
    } else {
      var c := next[0].key[0];
      var tail := PrintedObjectOpening(next);
      RunConcat(r, ['{', '"', c], tail);
      RunThree(r, '{', '"', c);
      TearRejects(r, c);
      RunRejected(tail);
    }
  }

  lemma RunThree(st: State, a: char, b: char, c: char)
    ensures Run(st, [a, b, c]) == Step(Step(Step(st, a), b), c)
  {
    var s1 := Step(st, a);
    var s2 := Step(s1, b);
    assert [a, b, c][1..] == [b, c] && [b, c][1..] == [c] && [c][1..] == [];
    assert Run(st, [a, b, c]) == Run(s1, [b, c]);
    assert Run(s1, [b, c]) == Run(s2, [c]);
    assert Run(s2, [c]) == Run(Step(s2, c), []);
  }

  lemma TearRejects(r: State, c: char)
    requires r.Reading? && (r.stack.Push? || r.mode.Complete?) && !AtValue(r, r.stack) && Lettered(r)
    requires !IsSpace(c) && !Punctuation(c) && c != ':'
    ensures Step(Step(Step(r, '{'), '"'), c) == Rejected
  {
    if r.mode.InNumber? {
      var literal := r.mode.literal;
      assert (literal + ['{'])[..|literal + ['{']| - 1] == literal;
      assert PhaseAfter(literal + ['{']) == Bad;
      DeliverDepth(Number(literal), r.stack);
    } else if r.mode.InString? {
      var text := r.mode.text + ['{'];
      assert Step(r, '{') == Reading(r.stack, InString(text, r.mode.isKey));
      assert Step(Step(r, '{'), '"') == EndString(r.stack, text, r.mode.isKey);
    } else {
      BraceRejected(r);
    }
  }

  lemma BraceRejected(r: State)
    requires r.Reading? && (r.stack.Push? || r.mode.Complete?) && !AtValue(r, r.stack) && Lettered(r)
    requires !r.mode.InNumber? && !r.mode.InString?
    ensures Step(r, '{') == Rejected
  {
  }

  /** A torn line completed by a later writer's object is never JSON: neither a cut
      object nor a whole one becomes a value by appending another printed object. */
  lemma TornThenAppendedIsNotJson(fields: seq<Field>, k: nat, next: seq<Field>)
    requires Valid(Object(fields)) && 0 < k <= |Print(Object(fields))|
    requires Valid(Object(next)) && OpensWithKey(next)
    ensures Parse(Print(Object(fields))[..k] + Print(Object(next))) == None
  {
    var start := Reading(Base, WantValue);
    var p := Print(Object(fields))[..k];
    var r := Run(start, p);
    if k < |Print(Object(fields))| {
      PrefixStaysOpen(fields, k);
    } else {
      assert p == Print(Object(fields));
      PrintReads(Object(fields), Base, start);
    }
    RunConcat(start, p, Print(Object(next)));
    RunLettered(start, p);
    NothingCompletesATear(r, next);
  }
}
