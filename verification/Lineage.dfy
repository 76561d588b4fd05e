/** The canonical text behind a lineage id, and what it identifies. */
module Lineage {
  import opened Prelude
  import Text
  import opened Json

  // ---------- canonicalize ----------

  /** `parts.join(",")`. */
  function Commas(parts: seq<string>): string {
    if parts == [] then "" else if |parts| == 1 then parts[0] else parts[0] + "," + Commas(parts[1..])
  }

  /** Insertion by key, for `Object.keys(object).sort()`. */
  function InsertField(f: Field, sorted: seq<Field>): seq<Field> {
    if sorted == [] || Text.Less(f.key, sorted[0].key) then [f] + sorted
    else [sorted[0]] + InsertField(f, sorted[1..])
  }

  function SortFields(fields: seq<Field>): seq<Field> {
    if fields == [] then [] else InsertField(fields[0], SortFields(fields[1..]))
  }

  /** The values of an object, each replaced by its canonical text. */
  datatype Entry = Entry(key: string, text: string)

  function Canonicalize(v: Value): string
    decreases v
  {
    match v
    case Array(items) => "[" + Commas(CanonicalItems(items)) + "]"
    case Object(fields) => "{" + Commas(EntryTexts(SortEntries(CanonicalEntries(fields)))) + "}"
    case _ => Print(v)
  }

  function CanonicalItems(items: seq<Value>): (r: seq<string>)
    ensures |r| == |items|
    decreases items
  {
    if items == [] then [] else [Canonicalize(items[0])] + CanonicalItems(items[1..])
  }

  function CanonicalEntries(fields: seq<Field>): (r: seq<Entry>)
    ensures |r| == |fields|
    decreases fields
  {
    if fields == [] then [] else [Entry(fields[0].key, Canonicalize(fields[0].value))] + CanonicalEntries(fields[1..])
  }

  function InsertEntry(e: Entry, sorted: seq<Entry>): (r: seq<Entry>)
    ensures |r| == |sorted| + 1
  {
    if sorted == [] || Text.Less(e.key, sorted[0].key) then [e] + sorted
    else [sorted[0]] + InsertEntry(e, sorted[1..])
  }

  function SortEntries(entries: seq<Entry>): (r: seq<Entry>)
    ensures |r| == |entries|
  {
    if entries == [] then [] else InsertEntry(entries[0], SortEntries(entries[1..]))
  }

  function EntryTexts(entries: seq<Entry>): (r: seq<string>)
    ensures |r| == |entries|
  {
    if entries == [] then [] else [Quote(entries[0].key) + ":" + entries[0].text] + EntryTexts(entries[1..])
  }

  // ---------- the value whose ordinary print it is ----------

  /** The same value with every object's keys in order. */
  function Sorted(v: Value): Value
    decreases v
  {
    match v
    case Array(items) => Array(SortedItems(items))
    case Object(fields) => Object(SortFields(SortedValues(fields)))
    case _ => v
  }

  function SortedItems(items: seq<Value>): (r: seq<Value>)
    ensures |r| == |items|
    decreases items
  {
    if items == [] then [] else [Sorted(items[0])] + SortedItems(items[1..])
  }

  function SortedValues(fields: seq<Field>): (r: seq<Field>)
    ensures |r| == |fields|
    decreases fields
  {
    if fields == [] then [] else [Field(fields[0].key, Sorted(fields[0].value))] + SortedValues(fields[1..])
  }

  lemma {:induction false} CommasAreItems(items: seq<Value>, texts: seq<string>)
    requires |texts| == |items| && forall i :: 0 <= i < |items| ==> texts[i] == Print(items[i])
    ensures Commas(texts) == ArrayBody(items)
  {
    if |items| > 1 { CommasAreItems(items[1..], texts[1..]); }
  }

  lemma {:induction false} CommasAreFields(fields: seq<Field>, texts: seq<string>)
    requires |texts| == |fields| && forall i :: 0 <= i < |fields| ==> texts[i] == PrintField(fields[i])
    ensures Commas(texts) == ObjectBody(fields)
  {
    if |fields| > 1 { CommasAreFields(fields[1..], texts[1..]); }
  }

  /** An entry is a field with its value printed. */
  ghost predicate Prints(e: Entry, f: Field) { e.key == f.key && e.text == Print(f.value) }

  ghost predicate AllPrint(es: seq<Entry>, fs: seq<Field>) {
    |es| == |fs| && forall i :: 0 <= i < |es| ==> Prints(es[i], fs[i])
  }

  lemma {:induction false} InsertPrints(e: Entry, f: Field, es: seq<Entry>, fs: seq<Field>)
    requires Prints(e, f) && AllPrint(es, fs)
    ensures AllPrint(InsertEntry(e, es), InsertField(f, fs))
  {
    if es == [] || Text.Less(e.key, es[0].key) {
    } else {
      assert Prints(es[0], fs[0]);
      InsertPrints(e, f, es[1..], fs[1..]);
    }
  }

  lemma {:induction false} SortPrints(es: seq<Entry>, fs: seq<Field>)
    requires AllPrint(es, fs)
    ensures AllPrint(SortEntries(es), SortFields(fs))
  {
    if es != [] {
      SortPrints(es[1..], fs[1..]);
      assert Prints(es[0], fs[0]);
      InsertPrints(es[0], fs[0], SortEntries(es[1..]), SortFields(fs[1..]));
    }
  }

  lemma {:induction false} EntryTextsPrint(es: seq<Entry>, fs: seq<Field>)
    requires AllPrint(es, fs)
    ensures forall i :: 0 <= i < |fs| ==> EntryTexts(es)[i] == PrintField(fs[i])
  {
    if es != [] {
      EntryTextsPrint(es[1..], fs[1..]);
      assert Prints(es[0], fs[0]);
      assert Quote(es[0].key) + ":" + es[0].text == PrintField(fs[0]);
    }
  }

  /** The canonical text is the ordinary print of the sorted value. */
  lemma {:induction false} CanonicalIsPrint(v: Value)
    ensures Canonicalize(v) == Print(Sorted(v))
    decreases v, 1
  {
    match v {
      case Array(items) =>
        ItemsArePrints(items);
        CommasAreItems(SortedItems(items), CanonicalItems(items));
      case Object(fields) =>
        var es, fs := CanonicalEntries(fields), SortedValues(fields);
        EntriesArePrints(fields);
        SortPrints(es, fs);
        EntryTextsPrint(SortEntries(es), SortFields(fs));
        CommasAreFields(SortFields(fs), EntryTexts(SortEntries(es)));
      case _ =>
    }
  }

  lemma {:induction false} ItemsArePrints(items: seq<Value>)
    ensures forall i :: 0 <= i < |items| ==> CanonicalItems(items)[i] == Print(SortedItems(items)[i])
    decreases items, 0
  {
    if items != [] {
      CanonicalIsPrint(items[0]);
      ItemsArePrints(items[1..]);
    }
  }

  lemma {:induction false} EntriesArePrints(fields: seq<Field>)
    ensures AllPrint(CanonicalEntries(fields), SortedValues(fields))
    decreases fields, 0
  {
    if fields != [] {
      CanonicalIsPrint(fields[0].value);
      EntriesArePrints(fields[1..]);
    }
  }

  // ---------- sorting keys ----------

  ghost predicate StrictlySorted(fields: seq<Field>) {
    forall i, j :: 0 <= i < j < |fields| ==> Text.Less(fields[i].key, fields[j].key)
  }

  lemma {:induction false} InsertSorted(f: Field, fields: seq<Field>)
    requires StrictlySorted(fields) && forall g | g in fields :: g.key != f.key
    ensures StrictlySorted(InsertField(f, fields))
    ensures forall g :: g in InsertField(f, fields) <==> g == f || g in fields
  {
    if fields != [] {
      var first, rest := fields[0], fields[1..];
      if Text.Less(f.key, first.key) {
        forall i | 0 <= i < |fields| ensures Text.Less(f.key, fields[i].key) {
          if i > 0 { Text.LessTransitive(f.key, first.key, fields[i].key); }
        }
      } else {
        Text.LessTotal(f.key, first.key);
        InsertSorted(f, rest);
        forall g | g in InsertField(f, rest) ensures Text.Less(first.key, g.key) {
          if g != f {
            var k :| 0 <= k < |rest| && rest[k] == g;
            assert fields[k + 1] == g;
          }
        }
        assert forall g :: g in fields <==> g == first || g in rest;
      }
    }
  }

  lemma {:induction false} SortFieldsSorted(fields: seq<Field>)
    requires DistinctKeys(fields)
    ensures StrictlySorted(SortFields(fields))
    ensures forall g :: g in SortFields(fields) <==> g in fields
  {
    if fields != [] {
      SortFieldsSorted(fields[1..]);
      InsertSorted(fields[0], SortFields(fields[1..]));
    }
  }

  /** A strictly sorted field list is determined by its elements. */
  lemma {:induction false} SortedUnique(a: seq<Field>, b: seq<Field>)
    requires StrictlySorted(a) && StrictlySorted(b) && forall f :: f in a <==> f in b
    ensures a == b
  {
    if b != [] { assert b[0] in b; }
    if a != [] {
      assert a[0] in b;
      assert b != [] && b[0] in a;
      SmallestFirst(a, b[0]);
      SmallestFirst(b, a[0]);
      if a[0] != b[0] { Text.LessAsymmetric(a[0].key, b[0].key); }
      forall f | f in a[1..] ensures f in b[1..] { NotFirst(a, f); assert f in b; }
      forall f | f in b[1..] ensures f in a[1..] { NotFirst(b, f); assert f in a; }
      SortedUnique(a[1..], b[1..]);
      assert a == [a[0]] + a[1..] && b == [b[0]] + b[1..];
    }
  }

  lemma SmallestFirst(a: seq<Field>, f: Field)
    requires StrictlySorted(a) && f in a
    ensures f == a[0] || Text.Less(a[0].key, f.key)
  {
  }

  lemma NotFirst(a: seq<Field>, f: Field)
    requires a != [] && StrictlySorted(a) && f in a[1..]
    ensures f != a[0] && f in a
  {
    var k :| 0 <= k < |a[1..]| && a[1..][k] == f;
    assert a[k + 1] == f && Text.Less(a[0].key, a[k + 1].key);
    Text.LessIrreflexive(f.key);
  }

  lemma {:induction false} SortedValuesAt(fields: seq<Field>, i: nat)
    requires i < |fields|
    ensures SortedValues(fields)[i] == Field(fields[i].key, Sorted(fields[i].value))
  {
    if i > 0 { SortedValuesAt(fields[1..], i - 1); }
  }

  lemma {:induction false} SortedItemsAt(items: seq<Value>, i: nat)
    requires i < |items|
    ensures SortedItems(items)[i] == Sorted(items[i])
  {
    if i > 0 { SortedItemsAt(items[1..], i - 1); }
  }

  function SortedForm(f: Field): Field { Field(f.key, Sorted(f.value)) }

  ghost predicate IsFormOf(g: Field, fields: seq<Field>) { exists i :: 0 <= i < |fields| && g == SortedForm(fields[i]) }

  /** The members of a sorted object: strictly ordered, and the sorted forms of the original members. */
  lemma ValuesSorted(fields: seq<Field>)
    requires DistinctKeys(fields)
    ensures StrictlySorted(SortFields(SortedValues(fields)))
    ensures forall g :: g in SortFields(SortedValues(fields)) <==> IsFormOf(g, fields)
  {
    var vs := SortedValues(fields);
    forall i | 0 <= i < |fields| ensures vs[i] == SortedForm(fields[i]) { SortedValuesAt(fields, i); }
    assert DistinctKeys(vs);
    SortFieldsSorted(vs);
    forall g ensures g in vs <==> IsFormOf(g, fields) {
      if IsFormOf(g, fields) {
        var i :| 0 <= i < |fields| && g == SortedForm(fields[i]);
        assert vs[i] == g;
      }
    }
  }

  lemma {:induction false} SortedValid(v: Value)
    requires Valid(v)
    ensures Valid(Sorted(v))
    decreases v
  {
    match v {
      case Array(items) =>
        forall i | 0 <= i < |items| ensures Valid(SortedItems(items)[i]) {
          SortedItemsAt(items, i);
          SortedValid(items[i]);
        }
      case Object(fields) =>
        ValuesSorted(fields);
        var fs := SortFields(SortedValues(fields));
        forall f | f in fs ensures Valid(f.value) {
          var i :| 0 <= i < |fields| && f == SortedForm(fields[i]);
          SortedValid(fields[i].value);
        }
        forall i, j | 0 <= i < j < |fs| ensures fs[i].key != fs[j].key {
          Text.LessIrreflexive(fs[i].key);
        }
      case _ =>
    }
  }

  // ---------- equality up to key order ----------

  ghost predicate HasKey(fields: seq<Field>, key: string) { exists i :: 0 <= i < |fields| && fields[i].key == key }

  /** Equal as values of the host language: arrays item by item, objects key by key in any order. */
  ghost predicate Same(a: Value, b: Value)
    decreases a
  {
    match a
    case Array(items) =>
      b.Array? && |items| == |b.items| && forall i :: 0 <= i < |items| ==> Same(items[i], b.items[i])
    case Object(fields) =>
      && b.Object?
      && (forall i :: 0 <= i < |fields| ==> Matched(fields[i], b.fields))
      && (forall j :: 0 <= j < |b.fields| ==> HasKey(fields, b.fields[j].key))
    case _ => a == b
  }

  /** Some member of `fields` has the key of `f` and the same value. */
  ghost predicate Matched(f: Field, fields: seq<Field>)
    decreases f
  {
    exists j :: 0 <= j < |fields| && fields[j].key == f.key && Same(f.value, fields[j].value)
  }

  lemma {:induction false} SortedEqualIsSame(a: Value, b: Value)
    requires Valid(a) && Valid(b) && Sorted(a) == Sorted(b)
    ensures Same(a, b)
    decreases a, 1
  {
    match a {
      case Array(items) =>
        forall i | 0 <= i < |items| ensures Same(items[i], b.items[i]) {
          SortedItemsAt(items, i);
          SortedItemsAt(b.items, i);
          SortedEqualIsSame(items[i], b.items[i]);
        }
      case Object(fields) =>
        forall i | 0 <= i < |fields| ensures Matched(fields[i], b.fields) { FormMatches(fields, b.fields, i); }
        forall j | 0 <= j < |b.fields| ensures HasKey(fields, b.fields[j].key) { FormHasKey(fields, b.fields, j); }
      case _ =>
    }
  }

  lemma FormIn(fields: seq<Field>, i: nat)
    requires DistinctKeys(fields) && i < |fields|
    ensures SortedForm(fields[i]) in SortFields(SortedValues(fields))
  {
    ValuesSorted(fields);
    assert IsFormOf(SortedForm(fields[i]), fields);
  }

  lemma {:induction false} FormMatches(fa: seq<Field>, fb: seq<Field>, i: nat)
    requires Valid(Object(fa)) && Valid(Object(fb)) && i < |fa|
    requires SortFields(SortedValues(fa)) == SortFields(SortedValues(fb))
    ensures Matched(fa[i], fb)
    decreases fa, 0
  {
    FormIn(fa, i);
    ValuesSorted(fb);
    var j :| 0 <= j < |fb| && SortedForm(fa[i]) == SortedForm(fb[j]);
    SortedEqualIsSame(fa[i].value, fb[j].value);
  }

  lemma FormHasKey(fa: seq<Field>, fb: seq<Field>, j: nat)
    requires DistinctKeys(fa) && DistinctKeys(fb) && j < |fb|
    requires SortFields(SortedValues(fa)) == SortFields(SortedValues(fb))
    ensures HasKey(fa, fb[j].key)
  {
    FormIn(fb, j);
    ValuesSorted(fa);
    var i :| 0 <= i < |fa| && SortedForm(fb[j]) == SortedForm(fa[i]);
  }

  lemma {:induction false} SameIsSortedEqual(a: Value, b: Value)
    requires Valid(a) && Valid(b) && Same(a, b)
    ensures Sorted(a) == Sorted(b)
    decreases a, 1
  {
    match a {
      case Array(items) =>
        forall i | 0 <= i < |items| ensures SortedItems(items)[i] == SortedItems(b.items)[i] {
          SortedItemsAt(items, i);
          SortedItemsAt(b.items, i);
          SameIsSortedEqual(items[i], b.items[i]);
        }
      case Object(fields) =>
        SameObjects(fields, b.fields);
      case _ =>
    }
  }

  lemma {:induction false} MatchedForm(fa: seq<Field>, fb: seq<Field>, i: nat)
    requires Valid(Object(fa)) && Valid(Object(fb)) && i < |fa| && Matched(fa[i], fb)
    ensures IsFormOf(SortedForm(fa[i]), fb)
    decreases fa, 0
  {
    var j :| 0 <= j < |fb| && fb[j].key == fa[i].key && Same(fa[i].value, fb[j].value);
    SameIsSortedEqual(fa[i].value, fb[j].value);
    assert SortedForm(fa[i]) == SortedForm(fb[j]);
  }

  lemma {:induction false} SameObjects(fa: seq<Field>, fb: seq<Field>)
    requires Valid(Object(fa)) && Valid(Object(fb)) && Same(Object(fa), Object(fb))
    ensures SortFields(SortedValues(fa)) == SortFields(SortedValues(fb))
    decreases fa, 1
  {
    forall i | 0 <= i < |fa| ensures IsFormOf(SortedForm(fa[i]), fb) { MatchedForm(fa, fb, i); }
    KeysOnce(fa, fb);
    SameForms(fa, fb);
  }

  /** If every member of `fa` has its form in `fb`, and every key of `fb` is one of `fa`, then the converse holds. */
  lemma KeysOnce(fa: seq<Field>, fb: seq<Field>)
    requires DistinctKeys(fb) && forall i :: 0 <= i < |fa| ==> IsFormOf(SortedForm(fa[i]), fb)
    requires forall j :: 0 <= j < |fb| ==> HasKey(fa, fb[j].key)
    ensures forall j :: 0 <= j < |fb| ==> IsFormOf(SortedForm(fb[j]), fa)
  {
    forall j | 0 <= j < |fb| ensures IsFormOf(SortedForm(fb[j]), fa) {
      var i :| 0 <= i < |fa| && fa[i].key == fb[j].key;
      var k :| 0 <= k < |fb| && SortedForm(fa[i]) == SortedForm(fb[k]);
      assert k == j;
    }
  }

  lemma SameForms(fa: seq<Field>, fb: seq<Field>)
    requires DistinctKeys(fa) && DistinctKeys(fb)
    requires forall i :: 0 <= i < |fa| ==> IsFormOf(SortedForm(fa[i]), fb)
    requires forall j :: 0 <= j < |fb| ==> IsFormOf(SortedForm(fb[j]), fa)
    ensures SortFields(SortedValues(fa)) == SortFields(SortedValues(fb))
  {
    ValuesSorted(fa);
    ValuesSorted(fb);
    SortedUnique(SortFields(SortedValues(fa)), SortFields(SortedValues(fb)));
  }

  /** Two values have the same canonical text exactly when they are equal up to key order. */
  lemma CanonicalIff(a: Value, b: Value)
    requires Valid(a) && Valid(b)
    ensures Canonicalize(a) == Canonicalize(b) <==> Same(a, b)
  {
    CanonicalIsPrint(a);
    CanonicalIsPrint(b);
    SortedValid(a);
    SortedValid(b);
    if Canonicalize(a) == Canonicalize(b) {
      PrintInjective(Sorted(a), Sorted(b));
      SortedEqualIsSame(a, b);
    }
    if Same(a, b) { SameIsSortedEqual(a, b); }
  }

  /** In every object of the value, the keys stand in strictly ascending order. */
  ghost predicate KeysAscend(v: Value)
    decreases v
  {
    match v
    case Array(items) => forall x | x in items :: KeysAscend(x)
    case Object(fields) =>
      && (forall i, j :: 0 <= i < j < |fields| ==> Text.Less(fields[i].key, fields[j].key))
      && forall f | f in fields :: KeysAscend(f.value)
    case _ => true
  }

  lemma {:induction false} SortedAscends(v: Value)
    requires Valid(v)
    ensures KeysAscend(Sorted(v))
    decreases v
  {
    match v {
      case Array(items) =>
        forall i | 0 <= i < |items| ensures KeysAscend(SortedItems(items)[i]) {
          SortedItemsAt(items, i);
          SortedAscends(items[i]);
        }
      case Object(fields) =>
        ValuesSorted(fields);
        forall f | f in SortFields(SortedValues(fields)) ensures KeysAscend(f.value) {
          var i :| 0 <= i < |fields| && f == SortedForm(fields[i]);
          SortedAscends(fields[i].value);
        }
      case _ =>
    }
  }

  lemma {:induction false} SortedIsSame(v: Value)
    requires Valid(v)
    ensures Same(Sorted(v), v)
    decreases v
  {
    match v {
      case Array(items) =>
        forall i | 0 <= i < |items| ensures Same(SortedItems(items)[i], items[i]) {
          SortedItemsAt(items, i);
          SortedIsSame(items[i]);
        }
      case Object(fields) =>
        var fs := SortFields(SortedValues(fields));
        ValuesSorted(fields);
        forall k | 0 <= k < |fs| ensures Matched(fs[k], fields) {
          assert fs[k] in fs;
          var i :| 0 <= i < |fields| && fs[k] == SortedForm(fields[i]);
          SortedIsSame(fields[i].value);
        }
        forall j | 0 <= j < |fields| ensures HasKey(fs, fields[j].key) {
          FormIn(fields, j);
          var k :| 0 <= k < |fs| && fs[k] == SortedForm(fields[j]);
        }
      case _ =>
    }
  }

  /** A canonical text parses to a value equal to the original up to key order, whose keys ascend,
      and it is the ordinary print of that value. */
  lemma CanonicalParses(v: Value) returns (w: Value)
    requires Valid(v)
    ensures Parse(Canonicalize(v)) == Some(w) && Same(w, v) && KeysAscend(w) && Canonicalize(v) == Print(w)
  {
    w := Sorted(v);
    CanonicalIsPrint(v);
    SortedValid(v);
    ParsePrint(w);
    SortedIsSame(v);
    SortedAscends(v);
  }

  // ---------- computeLineageId ----------

  datatype Criterion = Criterion(id: string, statement: string, verification: string)

  function CriterionJson(c: Criterion): Value {
    Object([Field("id", String(c.id)), Field("statement", String(c.statement)), Field("verification", String(c.verification))])
  }

  function Subject(problem: string, criteria: seq<Criterion>): Value {
    Object([Field("problem", String(problem)),
            Field("acceptanceCriteria", Array(seq(|criteria|, i requires 0 <= i < |criteria| => CriterionJson(criteria[i]))))])
  }

  lemma CriterionValid(c: Criterion)
    ensures Valid(CriterionJson(c))
  {
  }

  lemma SubjectValid(problem: string, criteria: seq<Criterion>)
    ensures Valid(Subject(problem, criteria))
  {
    forall i | 0 <= i < |criteria| ensures Valid(CriterionJson(criteria[i])) { CriterionValid(criteria[i]); }
    var fs := Subject(problem, criteria).fields;
    assert |fs[0].key| == 7 && |fs[1].key| == 18;
  }

  /** Objects that list the same keys in the same order are the same only key by key. */
  lemma SameKeyed(fa: seq<Field>, fb: seq<Field>, i: nat)
    requires |fa| == |fb| && i < |fa| && DistinctKeys(fb) && forall k :: 0 <= k < |fa| ==> fa[k].key == fb[k].key
    requires Same(Object(fa), Object(fb))
    ensures Same(fa[i].value, fb[i].value)
  {
  }

  /** Objects of strings that list the same keys are the same only if equal. */
  lemma StringsSame(fa: seq<Field>, fb: seq<Field>)
    requires |fa| == |fb| && DistinctKeys(fb) && forall k :: 0 <= k < |fa| ==> fa[k].key == fb[k].key
    requires forall k :: 0 <= k < |fa| ==> fa[k].value.String?
    requires Same(Object(fa), Object(fb))
    ensures fa == fb
  {
    forall k | 0 <= k < |fa| ensures fa[k] == fb[k] { SameKeyed(fa, fb, k); }
  }

  lemma CriterionSame(a: Criterion, b: Criterion)
    requires Same(CriterionJson(a), CriterionJson(b))
    ensures a == b
  {
    var fa, fb := CriterionJson(a).fields, CriterionJson(b).fields;
    CriterionFields(a);
    CriterionFields(b);
    assert DistinctKeys(fb) by { CriterionValid(b); }
    assert fa == fb by { StringsSame(fa, fb); }
    assert fa[0].value == fb[0].value && fa[1].value == fb[1].value && fa[2].value == fb[2].value;
  }

  const CRITERION_KEYS := ["id", "statement", "verification"]

  lemma CriterionFields(c: Criterion)
    ensures var fs := CriterionJson(c).fields;
      && |fs| == 3
      && (forall k :: 0 <= k < 3 ==> fs[k].key == CRITERION_KEYS[k] && fs[k].value.String?)
      && fs[0].value == String(c.id) && fs[1].value == String(c.statement) && fs[2].value == String(c.verification)
  {
  }

  lemma {:induction false} SameReflexive(v: Value)
    ensures Same(v, v)
    decreases v
  {
    match v {
      case Array(items) =>
        forall i | 0 <= i < |items| ensures Same(items[i], items[i]) { SameReflexive(items[i]); }
      case Object(fields) =>
        forall i | 0 <= i < |fields| ensures Matched(fields[i], fields) && HasKey(fields, fields[i].key) {
          SameReflexive(fields[i].value);
        }
      case _ =>
    }
  }

  /** Two intents share the text that is hashed exactly when their problem and their
      ordered criteria (id, statement, verification) agree. */
  lemma LineageTextIff(p: string, cs: seq<Criterion>, q: string, ds: seq<Criterion>)
    ensures Canonicalize(Subject(p, cs)) == Canonicalize(Subject(q, ds)) <==> p == q && cs == ds
  {
    var a, b := Subject(p, cs), Subject(q, ds);
    SubjectValid(p, cs);
    SubjectValid(q, ds);
    CanonicalIff(a, b);
    if Same(a, b) {
      SameKeyed(a.fields, b.fields, 0);
      SameKeyed(a.fields, b.fields, 1);
      var ia, ib := a.fields[1].value.items, b.fields[1].value.items;
      forall i | 0 <= i < |cs| ensures cs[i] == ds[i] {
        assert Same(ia[i], ib[i]);
        CriterionSame(cs[i], ds[i]);
      }
    } else if p == q && cs == ds {
      SameReflexive(a);
    }
  }

  /** The hashed text parses to an object of the problem and the criteria in their order, and of
      each criterion its id, statement and verification, and nothing else. */
  lemma LineageTextMeaning(problem: string, criteria: seq<Criterion>) returns (w: Value, items: seq<Value>)
    ensures |items| == |criteria| && forall i :: 0 <= i < |criteria| ==> items[i] == Object([
        Field("id", String(criteria[i].id)), Field("statement", String(criteria[i].statement)),
        Field("verification", String(criteria[i].verification))])
    ensures Parse(Canonicalize(Subject(problem, criteria))) == Some(w) && KeysAscend(w)
    ensures Same(w, Object([Field("problem", String(problem)), Field("acceptanceCriteria", Array(items))]))
  {
    items := seq(|criteria|, i requires 0 <= i < |criteria| => CriterionJson(criteria[i]));
    SubjectValid(problem, criteria);
    w := CanonicalParses(Subject(problem, criteria));
  }
}
