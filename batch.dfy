/** `process_directory`: every supported file of a folder is read and
    searched, the values found are gathered per field in file order, the
    first value of each field is kept, and the fields still missing are
    asked for on the console before the document is generated. */
module Batch {
  import opened Wrappers
  import opened Seqs
  import opened Text
  import opened Search
  import opened Patterns
  import opened Extract
  import opened Paths
  import opened Readers

  /** One entry of `Path(input_dir).iterdir()`, in listing order: its name,
      whether it is a regular file, and what the document libraries give
      for it. */
  datatype Entry = Entry(name: string, isFile: bool, data: FileData)

  /** The entry is a file with a supported lower-cased suffix. */
  predicate Selected(cc: CharClasses, e: Entry) {
    e.isFile && Lower(cc, Suffix(e.name)) in SupportedExtensions
  }

  /** The maps `extract_data` returns for the selected entries, in listing
      order. */
  function Extractions(cc: CharClasses, engine: Engine, table: seq<Field>, entries: seq<Entry>): (r: seq<map<string, string>>)
    ensures |r| <= |entries|
    decreases |entries|
  {
    if entries == [] then []
    else
      var init := Extractions(cc, engine, table, entries[..|entries| - 1]);
      var e := entries[|entries| - 1];
      if Selected(cc, e) then init + [ExtractData(cc, engine, table, FileText(cc, e.name, e.data))] else init
  }

  /** Every extracted value is non-empty and every key is a table field. */
  lemma {:induction false} ExtractionsValues(cc: CharClasses, engine: Engine, table: seq<Field>, entries: seq<Entry>, j: nat, k: string)
    requires j < |Extractions(cc, engine, table, entries)| && k in Extractions(cc, engine, table, entries)[j]
    ensures Extractions(cc, engine, table, entries)[j][k] != [] && k in Names(table)
    decreases |entries|
  {
    var init := Extractions(cc, engine, table, entries[..|entries| - 1]);
    if j < |init| {
      ExtractionsValues(cc, engine, table, entries[..|entries| - 1], j, k);
    }
  }

  /** Only selected entries are read: an entry that is not a file, or whose
      suffix is unsupported, changes nothing. */
  lemma ExtractionsSkip(cc: CharClasses, engine: Engine, table: seq<Field>, entries: seq<Entry>, e: Entry)
    requires !Selected(cc, e)
    ensures Extractions(cc, engine, table, entries + [e]) == Extractions(cc, engine, table, entries)
  {
    assert (entries + [e])[..|entries|] == entries;
  }

  // ------------------------------------------------------ the dict of lists

  /** `all_data.setdefault(k, []).append(v)` for every pair `k, v` of one
      extracted map. */
  function Absorb<K, V>(all: map<K, seq<V>>, m: map<K, V>): (r: map<K, seq<V>>)
    ensures r.Keys == all.Keys + m.Keys
  {
    map k | k in all.Keys + m.Keys :: (if k in all then all[k] else []) + (if k in m then [m[k]] else [])
  }

  /** The dict of lists after a sequence of extracted maps. */
  function Gather<K, V>(ms: seq<map<K, V>>): (r: map<K, seq<V>>)
    ensures forall k | k in r :: r[k] != []
    decreases |ms|
  {
    if ms == [] then map[] else Absorb(Gather(ms[..|ms| - 1]), ms[|ms| - 1])
  }

  /** `{k: v[0] for k, v in all_data.items()}`. */
  function Resolve<K, V>(all: map<K, seq<V>>): (r: map<K, V>)
    requires forall k | k in all :: all[k] != []
    ensures r.Keys == all.Keys
  {
    map k | k in all :: all[k][0]
  }

  /** A field is gathered exactly when some file yielded it. */
  lemma {:induction false} GatherKeys<K, V>(ms: seq<map<K, V>>, k: K)
    ensures k in Gather(ms) <==> exists j | 0 <= j < |ms| :: k in ms[j]
    decreases |ms|
  {
    if ms != [] {
      var init := ms[..|ms| - 1];
      GatherKeys(init, k);
      if exists j | 0 <= j < |init| :: k in init[j] {
        var j :| 0 <= j < |init| && k in init[j];
        assert ms[j] == init[j];
      }
      if exists j | 0 <= j < |ms| :: k in ms[j] {
        var j :| 0 <= j < |ms| && k in ms[j];
        if j < |init| {
          assert init[j] == ms[j];
        }
      }
    }
  }

  /** First wins: the list of a field starts with the value of the first
      file that yielded it. */
  lemma {:induction false} GatherFirst<K, V>(ms: seq<map<K, V>>, k: K, i: nat)
    requires i < |ms| && k in ms[i]
    requires forall j | 0 <= j < i :: k !in ms[j]
    ensures k in Gather(ms) && Gather(ms)[k][0] == ms[i][k]
    decreases |ms|
  {
    var init := ms[..|ms| - 1];
    if i < |init| {
      forall j | 0 <= j < i ensures k !in init[j] {
        assert init[j] == ms[j];
      }
      assert init[i] == ms[i];
      GatherFirst(init, k, i);
    } else {
      forall j | 0 <= j < |init| ensures k !in init[j] {
        assert init[j] == ms[j];
      }
      GatherKeys(init, k);
    }
  }

  /** The first map holding `k`, at or before `j`. */
  lemma FirstWith<K, V>(ms: seq<map<K, V>>, k: K, j: nat) returns (i: nat)
    requires j < |ms| && k in ms[j]
    ensures i <= j && k in ms[i] && forall h | 0 <= h < i :: k !in ms[h]
    decreases j
  {
    if exists h | 0 <= h < j :: k in ms[h] {
      var h :| 0 <= h < j && k in ms[h];
      i := FirstWith(ms, k, h);
    } else {
      i := j;
    }
  }

  /** The resolved context holds exactly the fields some file yielded, each
      with the value of the first file that yielded it. */
  lemma ResolveFirst<K, V>(ms: seq<map<K, V>>, k: K)
    ensures var context := Resolve(Gather(ms));
            && (k in context <==> exists j | 0 <= j < |ms| :: k in ms[j])
            && (forall i | 0 <= i < |ms| && k in ms[i] && (forall j | 0 <= j < i :: k !in ms[j]) ::
                  k in context && context[k] == ms[i][k])
  {
    GatherKeys(ms, k);
    forall i | 0 <= i < |ms| && k in ms[i] && (forall j | 0 <= j < i :: k !in ms[j])
      ensures k in Resolve(Gather(ms)) && Resolve(Gather(ms))[k] == ms[i][k]
    {
      GatherFirst(ms, k, i);
    }
  }

  /** Every resolved value is a value some file yielded. */
  lemma ResolveFrom<K, V>(ms: seq<map<K, V>>, k: K) returns (i: nat)
    requires k in Resolve(Gather(ms))
    ensures i < |ms| && k in ms[i] && Resolve(Gather(ms))[k] == ms[i][k]
  {
    GatherKeys(ms, k);
    var j :| 0 <= j < |ms| && k in ms[j];
    i := FirstWith(ms, k, j);
    GatherFirst(ms, k, i);
  }

  /** The dict stays empty exactly when no file yields any field. */
  /** No map of `ms` has a key. */
  predicate AllEmpty<K, V>(ms: seq<map<K, V>>) {
    forall j | 0 <= j < |ms| :: ms[j] == map[]
  }

  lemma GatherEmpty<K, V>(ms: seq<map<K, V>>)
    ensures Gather(ms) == map[] <==> AllEmpty(ms)
  {
    if Gather(ms) == map[] {
      forall j | 0 <= j < |ms| ensures ms[j] == map[] {
        forall k | k in ms[j] ensures false {
          GatherKeys(ms, k);
        }
      }
    } else {
      var k :| k in Gather(ms);
      GatherKeys(ms, k);
    }
  }

  /** `m` restricted to the keys in `ks`. */
  function Restrict<K, V>(m: map<K, V>, ks: set<K>): (r: map<K, V>)
    ensures r.Keys == m.Keys * ks
    ensures forall k | k in r :: r[k] == m[k]
  {
    map k | k in m && k in ks :: m[k]
  }

  lemma AbsorbNone<K, V>(all: map<K, seq<V>>, m: map<K, V>)
    ensures Absorb(all, Restrict(m, {})) == all
  {
    var r := Absorb(all, Restrict(m, {}));
    assert r.Keys == all.Keys;
    forall k | k in r ensures r[k] == all[k] {
      assert all[k] + [] == all[k];
    }
  }

  /** Appending one more pair of `m` is absorbing one more key. */
  lemma AbsorbStep<K, V>(all: map<K, seq<V>>, m: map<K, V>, done: set<K>, k: K)
    requires k in m && k !in done
    ensures var a := Absorb(all, Restrict(m, done));
            Absorb(all, Restrict(m, done + {k})) == a[k := (if k in a then a[k] else []) + [m[k]]]
  {
    var a := Absorb(all, Restrict(m, done));
    var b := Absorb(all, Restrict(m, done + {k}));
    var c := a[k := (if k in a then a[k] else []) + [m[k]]];
    assert b.Keys == c.Keys;
    forall j | j in b ensures b[j] == c[j] {
      if j != k {
        assert j in Restrict(m, done + {k}) <==> j in Restrict(m, done);
      } else {
        assert k !in Restrict(m, done);
      }
    }
  }

  lemma GatherStep<K, V>(ms: seq<map<K, V>>, m: map<K, V>)
    ensures Gather(ms + [m]) == Absorb(Gather(ms), Restrict(m, m.Keys))
  {
    assert (ms + [m])[..|ms|] == ms;
    assert Restrict(m, m.Keys) == m;
  }

  lemma ExtractionsStep(cc: CharClasses, engine: Engine, table: seq<Field>, entries: seq<Entry>, i: nat)
    requires i < |entries|
    ensures var e := entries[i];
            Extractions(cc, engine, table, entries[..i + 1])
            == if Selected(cc, e)
               then Extractions(cc, engine, table, entries[..i]) + [ExtractData(cc, engine, table, FileText(cc, e.name, e.data))]
               else Extractions(cc, engine, table, entries[..i])
  {
    assert entries[..i + 1][..i] == entries[..i];
  }

  /** The loop of `process_directory` that fills `all_data`. */
  method Aggregate(cc: CharClasses, engine: Engine, table: seq<Field>, entries: seq<Entry>)
    returns (all: map<string, seq<string>>)
    ensures all == Gather(Extractions(cc, engine, table, entries))
  {
    all := map[];
    var i := 0;
    while i < |entries|
      invariant 0 <= i <= |entries|
      invariant all == Gather(Extractions(cc, engine, table, entries[..i]))
    {
      var e := entries[i];
      ExtractionsStep(cc, engine, table, entries, i);
      if e.isFile && Lower(cc, Suffix(e.name)) in SupportedExtensions {
        var text := ReadFile(cc, e.name, e.data);
        var extracted := ExtractData(cc, engine, table, text);
        GatherStep(Extractions(cc, engine, table, entries[..i]), extracted);
        all := AbsorbInto(all, extracted);
      }
      i := i + 1;
    }
    assert entries[..i] == entries;
  }

  /** The inner loop of `process_directory`: each pair of one file's data
      is appended to the list of its field. The keys of one map are
      distinct, so the order in which they are taken does not matter. */
  method AbsorbInto(all0: map<string, seq<string>>, extracted: map<string, string>)
    returns (all: map<string, seq<string>>)
    ensures all == Absorb(all0, Restrict(extracted, extracted.Keys))
  {
    all := all0;
    AbsorbNone(all0, extracted);
    SetMinus(extracted.Keys);
    var keys := extracted.Keys;
    while keys != {}
      invariant keys <= extracted.Keys
      invariant all == Absorb(all0, Restrict(extracted, extracted.Keys - keys))
      decreases |keys|
    {
      var k :| k in keys;
      AbsorbStep(all0, extracted, extracted.Keys - keys, k);
      TakeOne(extracted.Keys, keys, k);
      all := all[k := (if k in all then all[k] else []) + [extracted[k]]];
      keys := keys - {k};
    }
  }

  // ------------------------------------------------------- missing fields

  /** `field not in data or not data[field]`. */
  predicate Missing(data: map<string, string>, field: string) {
    field !in data || data[field] == []
  }

  /** The required fields, in their order, that are absent or empty. */
  function MissingFields(data: map<string, string>, required: seq<string>): (r: seq<string>)
    ensures forall f :: f in r <==> f in required && Missing(data, f)
    ensures |r| <= |required|
    decreases |required|
  {
    if required == [] then []
    else (if Missing(data, required[0]) then [required[0]] else []) + MissingFields(data, required[1..])
  }

  predicate Distinct(fields: seq<string>) {
    forall i, j | 0 <= i < j < |fields| :: fields[i] != fields[j]
  }

  /** The missing fields of one field: itself when it is missing, else none. */
  lemma MissingFieldsOne(data: map<string, string>, f: string)
    ensures MissingFields(data, [f]) == if Missing(data, f) then [f] else []
  {
    assert [f][1..] == [];
  }

  /** The missing fields keep the order of the required fields: those of a
      concatenation are those of its first part, then those of its second.
      With MissingFieldsOne this pins the list down as `required` filtered
      in order. */
  lemma {:induction false} MissingFieldsAppend(data: map<string, string>, a: seq<string>, b: seq<string>)
    ensures MissingFields(data, a + b) == MissingFields(data, a) + MissingFields(data, b)
    decreases |a|
  {
    if a == [] {
      assert a + b == b;
    } else {
      var ab := a + b;
      assert ab[0] == a[0] && ab[1..] == a[1..] + b;
      MissingFieldsAppend(data, a[1..], b);
      var head := if Missing(data, a[0]) then [a[0]] else [];
      Associate(head, MissingFields(data, a[1..]), MissingFields(data, b));
    }
  }

  /** Distinct required fields give distinct missing fields: no field is
      asked for twice. */
  lemma {:induction false} MissingFieldsDistinct(data: map<string, string>, required: seq<string>)
    requires Distinct(required)
    ensures Distinct(MissingFields(data, required))
    decreases |required|
  {
    if required != [] {
      DistinctTail(required);
      MissingFieldsDistinct(data, required[1..]);
      var rest := MissingFields(data, required[1..]);
      if Missing(data, required[0]) {
        DistinctCons(required[0], rest);
      }
    }
  }

  /** A field in front of distinct fields that do not hold it. */
  lemma DistinctCons(f: string, rest: seq<string>)
    requires Distinct(rest) && f !in rest
    ensures Distinct([f] + rest)
  {
    var fs := [f] + rest;
    forall i, j | 0 <= i < j < |fs| ensures fs[i] != fs[j] {
      assert fs[j] == rest[j - 1];
      if i > 0 {
        assert fs[i] == rest[i - 1];
      }
    }
  }

  /** `prompt_missing_fields` with the console answers given in order:
      every missing field takes the next answer, stripped, even when that
      is empty. None stands for the console running out of input, which
      `input()` reports by raising. */
  function FillMissing(cc: CharClasses, data: map<string, string>, required: seq<string>, answers: seq<string>)
    : Option<map<string, string>>
    decreases |required|
  {
    if required == [] then Some(data)
    else
      var f := required[0];
      if Missing(data, f) then
        if answers == [] then None
        else FillMissing(cc, data[f := Strip(cc, answers[0])], required[1..], answers[1..])
      else FillMissing(cc, data, required[1..], answers)
  }

  /** `prompt_missing_fields`: one loop over the required fields. */
  method PromptMissingFields(cc: CharClasses, data: map<string, string>, required: seq<string>, answers: seq<string>)
    returns (r: Option<map<string, string>>)
    ensures r == FillMissing(cc, data, required, answers)
  {
    var context := data;
    var used := 0;
    var i := 0;
    while i < |required|
      invariant 0 <= i <= |required| && 0 <= used <= |answers|
      invariant FillMissing(cc, data, required, answers)
                == FillMissing(cc, context, required[i..], answers[used..])
    {
      var field := required[i];
      assert required[i..][1..] == required[i + 1..];
      if field !in context || context[field] == [] {
        if used == |answers| {
          return None;
        }
        assert answers[used..][1..] == answers[used + 1..];
        context := context[field := Strip(cc, answers[used])];
        used := used + 1;
      }
      i := i + 1;
    }
    r := Some(context);
  }

  lemma MissingFieldsSame(a: map<string, string>, b: map<string, string>, required: seq<string>)
    requires forall f | f in required :: Missing(a, f) <==> Missing(b, f)
    ensures MissingFields(a, required) == MissingFields(b, required)
    decreases |required|
  {
    if required != [] {
      MissingFieldsSame(a, b, required[1..]);
    }
  }

  /** The tail of a list of distinct fields is distinct and does not hold
      the head. */
  lemma DistinctTail(fields: seq<string>)
    requires fields != [] && Distinct(fields)
    ensures Distinct(fields[1..]) && fields[0] !in fields[1..]
  {
    var rest := fields[1..];
    forall i, j | 0 <= i < j < |rest| ensures rest[i] != rest[j] {
      assert rest[i] == fields[i + 1] && rest[j] == fields[j + 1];
    }
    forall j | 0 <= j < |rest| ensures rest[j] != fields[0] {
      assert rest[j] == fields[j + 1];
    }
  }

  /** Prompting succeeds exactly when there are at least as many answers as
      missing fields. */
  lemma {:induction false} FillMissingSucceeds(cc: CharClasses, data: map<string, string>, required: seq<string>, answers: seq<string>)
    requires Distinct(required)
    ensures FillMissing(cc, data, required, answers).Some? <==> |MissingFields(data, required)| <= |answers|
    decreases |required|
  {
    if required != [] {
      var f := required[0];
      DistinctTail(required);
      if Missing(data, f) {
        if answers != [] {
          var data' := data[f := Strip(cc, answers[0])];
          MissingFieldsSame(data, data', required[1..]);
          FillMissingSucceeds(cc, data', required[1..], answers[1..]);
        }
      } else {
        FillMissingSucceeds(cc, data, required[1..], answers);
      }
    }
  }

  /** With distinct required fields and enough answers, the i-th missing
      field receives the i-th answer, stripped, even when that is empty. */
  lemma {:induction false} FillMissingAnswers(cc: CharClasses, data: map<string, string>, required: seq<string>, answers: seq<string>)
    requires Distinct(required)
    requires |MissingFields(data, required)| <= |answers|
    ensures var missing := MissingFields(data, required);
            var r := FillMissing(cc, data, required, answers);
            && r.Some?
            && forall i | 0 <= i < |missing| :: missing[i] in r.value && r.value[missing[i]] == Strip(cc, answers[i])
    decreases |required|, 1
  {
    FillMissingSucceeds(cc, data, required, answers);
    if required != [] {
      DistinctTail(required);
      if Missing(data, required[0]) {
        FillMissingAnswersMissing(cc, data, required, answers);
      } else {
        FillMissingAnswers(cc, data, required[1..], answers);
      }
    }
  }

  /** The step of FillMissingAnswers where the first field is missing. */
  lemma {:induction false} FillMissingAnswersMissing(cc: CharClasses, data: map<string, string>, required: seq<string>, answers: seq<string>)
    requires Distinct(required) && required != [] && Missing(data, required[0])
    requires |MissingFields(data, required)| <= |answers|
    ensures var missing := MissingFields(data, required);
            var r := FillMissing(cc, data, required, answers);
            && r.Some?
            && forall i | 0 <= i < |missing| :: missing[i] in r.value && r.value[missing[i]] == Strip(cc, answers[i])
    decreases |required|, 0
  {
    var f := required[0];
    DistinctTail(required);
    FillMissingSucceeds(cc, data, required, answers);
    var data' := data[f := Strip(cc, answers[0])];
    MissingFieldsSame(data, data', required[1..]);
    var tail := MissingFields(data, required[1..]);
    FillMissingAnswers(cc, data', required[1..], answers[1..]);
    FillMissingKeeps(cc, data', required[1..], answers[1..]);
    var r := FillMissing(cc, data', required[1..], answers[1..]).value;
    assert FillMissing(cc, data, required, answers) == Some(r);
    var missing := MissingFields(data, required);
    assert missing == [f] + tail;
    forall i | 0 <= i < |missing| ensures missing[i] in r && r[missing[i]] == Strip(cc, answers[i]) {
      if i == 0 {
        assert f in data' && f !in tail;
      } else {
        ConsIndex(f, tail, i);
        assert answers[1..][i - 1] == answers[i];
      }
    }
  }

  /** With distinct required fields, every field that was not missing keeps
      its value, and the only keys added are missing fields. */
  lemma {:induction false} FillMissingKeeps(cc: CharClasses, data: map<string, string>, required: seq<string>, answers: seq<string>)
    requires Distinct(required)
    requires FillMissing(cc, data, required, answers).Some?
    ensures var missing := MissingFields(data, required);
            var r := FillMissing(cc, data, required, answers).value;
            && (forall k | k in data && k !in missing :: k in r && r[k] == data[k])
            && (forall k | k in r :: k in data || k in missing)
    decreases |required|
  {
    if required != [] {
      var f := required[0];
      DistinctTail(required);
      if Missing(data, f) {
        var data' := data[f := Strip(cc, answers[0])];
        MissingFieldsSame(data, data', required[1..]);
        FillMissingKeeps(cc, data', required[1..], answers[1..]);
      } else {
        FillMissingKeeps(cc, data, required[1..], answers);
      }
    }
  }

  // ------------------------------------------------------- the whole run

  /** How a run of `process_directory` ends: no field found in any file
      (nothing is asked and nothing generated), the console ran out of
      answers, or the document was generated from `context`. */
  datatype CliOutcome = NoData | InputExhausted | Generated(context: map<string, string>)

  /** The outcome of `process_directory` over a folder listing. */
  function CliRun(cc: CharClasses, engine: Engine, table: seq<Field>, entries: seq<Entry>, answers: seq<string>): CliOutcome {
    var all := Gather(Extractions(cc, engine, table, entries));
    if all == map[] then NoData
    else match FillMissing(cc, Resolve(all), Names(table), answers)
      case None => InputExhausted
      case Some(context) => Generated(context)
  }

  /** `process_directory`. */
  method ProcessDirectory(cc: CharClasses, engine: Engine, table: seq<Field>, entries: seq<Entry>, answers: seq<string>)
    returns (outcome: CliOutcome)
    ensures outcome == CliRun(cc, engine, table, entries, answers)
  {
    var all := Aggregate(cc, engine, table, entries);
    if all == map[] {
      return NoData;
    }
    var context := Resolve(all);
    var filled := PromptMissingFields(cc, context, Names(table), answers);
    match filled
    case None => outcome := InputExhausted;
    case Some(c) => outcome := Generated(c);
  }

  /** Nothing is asked and nothing generated exactly when no selected file
      yields any field. */
  lemma CliNoData(cc: CharClasses, engine: Engine, table: seq<Field>, entries: seq<Entry>, answers: seq<string>)
    ensures CliRun(cc, engine, table, entries, answers) == NoData <==> AllEmpty(Extractions(cc, engine, table, entries))
  {
    var all := Gather(Extractions(cc, engine, table, entries));
    GatherEmpty(Extractions(cc, engine, table, entries));
    if all != map[] {
      var r := FillMissing(cc, Resolve(all), Names(table), answers);
      assert CliRun(cc, engine, table, entries, answers) == (if r.None? then InputExhausted else Generated(r.value));
    }
  }

  /** The resolved context has no missing field: every value in it is
      non-empty. */
  lemma ResolvedComplete(cc: CharClasses, engine: Engine, table: seq<Field>, entries: seq<Entry>)
    ensures var context := Resolve(Gather(Extractions(cc, engine, table, entries)));
            forall f | f in context :: !Missing(context, f)
  {
    var ms := Extractions(cc, engine, table, entries);
    forall f | f in Resolve(Gather(ms)) ensures Resolve(Gather(ms))[f] != [] {
      var i := ResolveFrom(ms, f);
      ExtractionsValues(cc, engine, table, entries, i, f);
    }
  }

  /** The generated context: a field some file yielded holds the value of
      the first such file. */
  lemma CliFirstValue(cc: CharClasses, engine: Engine, table: seq<Field>, entries: seq<Entry>, answers: seq<string>,
                      context: map<string, string>, k: string, i: nat)
    requires UniqueNames(table)
    requires CliRun(cc, engine, table, entries, answers) == Generated(context)
    requires var ms := Extractions(cc, engine, table, entries);
             i < |ms| && k in ms[i] && forall j | 0 <= j < i :: k !in ms[j]
    ensures k in context && context[k] == Extractions(cc, engine, table, entries)[i][k]
  {
    var ms := Extractions(cc, engine, table, entries);
    var resolved := Resolve(Gather(ms));
    ResolveFirst(ms, k);
    ResolvedComplete(cc, engine, table, entries);
    assert !Missing(resolved, k);
    FillMissingKeeps(cc, resolved, Names(table), answers);
  }

  /** The generated context: the i-th table field that no file yielded
      holds the i-th console answer, stripped. */
  lemma CliAnswers(cc: CharClasses, engine: Engine, table: seq<Field>, entries: seq<Entry>, answers: seq<string>,
                   context: map<string, string>)
    requires UniqueNames(table)
    requires CliRun(cc, engine, table, entries, answers) == Generated(context)
    ensures var missing := MissingFields(Resolve(Gather(Extractions(cc, engine, table, entries))), Names(table));
            && |missing| <= |answers|
            && forall i | 0 <= i < |missing| :: missing[i] in context && context[missing[i]] == Strip(cc, answers[i])
  {
    var resolved := Resolve(Gather(Extractions(cc, engine, table, entries)));
    FillMissingSucceeds(cc, resolved, Names(table), answers);
    FillMissingAnswers(cc, resolved, Names(table), answers);
  }

  /** The generated context holds exactly the table fields and the fields
      some file yielded. */
  lemma CliKeys(cc: CharClasses, engine: Engine, table: seq<Field>, entries: seq<Entry>, answers: seq<string>,
                context: map<string, string>, k: string)
    requires UniqueNames(table)
    requires CliRun(cc, engine, table, entries, answers) == Generated(context)
    ensures var ms := Extractions(cc, engine, table, entries);
            k in context <==> k in Names(table) || exists j | 0 <= j < |ms| :: k in ms[j]
  {
    var ms := Extractions(cc, engine, table, entries);
    var resolved := Resolve(Gather(ms));
    ResolveFirst(ms, k);
    FillMissingKeeps(cc, resolved, Names(table), answers);
    FillMissingSucceeds(cc, resolved, Names(table), answers);
    FillMissingAnswers(cc, resolved, Names(table), answers);
    var missing := MissingFields(resolved, Names(table));
    if k in missing {
      var i :| 0 <= i < |missing| && missing[i] == k;
    }
  }
}
