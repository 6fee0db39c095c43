/** `extract_data`: one search per field of the table. */
module Extract {
  import opened Wrappers
  import opened Text
  import opened Search
  import opened Patterns

  /** `extract_data(text)`: every field whose search yields a non-empty
      value, mapped to that value. The table is walked in order, so for a
      name listed twice the later non-empty value wins, as in the loop that
      assigns `data[field]`. */
  function ExtractData(cc: CharClasses, engine: Engine, table: seq<Field>, text: string): (data: map<string, string>)
    ensures forall k | k in data :: data[k] != []
    ensures forall k | k in data :: k in Names(table)
    decreases |table|
  {
    if table == [] then map[]
    else
      var earlier := table[..|table| - 1];
      var f := table[|table| - 1];
      var d := ExtractData(cc, engine, earlier, text);
      assert forall k | k in Names(earlier) :: k in Names(table) by {
        forall k | k in Names(earlier) ensures k in Names(table) {
          var i :| 0 <= i < |earlier| && Names(earlier)[i] == k;
          assert Names(table)[i] == k;
        }
      }
      assert f.name == Names(table)[|table| - 1];
      var v := SafeSearch(cc, engine, f.patterns, text);
      if v != [] then d[f.name := v] else d
  }

  /** A field is extracted exactly when its search yields a non-empty value,
      and then it carries that value. */
  lemma {:induction false} ExtractDataField(cc: CharClasses, engine: Engine, table: seq<Field>, text: string, i: nat)
    requires UniqueNames(table) && i < |table|
    ensures var data := ExtractData(cc, engine, table, text);
            var v := SafeSearch(cc, engine, table[i].patterns, text);
            (table[i].name in data <==> v != []) && (v != [] ==> data[table[i].name] == v)
    decreases |table|
  {
    var n := |table| - 1;
    if i < n {
      UniqueNamesPrefix(table, n);
      ExtractDataField(cc, engine, table[..n], text, i);
      ExtractDataEarlier(cc, engine, table, text, i);
    }
  }

  lemma UniqueNamesPrefix(table: seq<Field>, n: nat)
    requires UniqueNames(table) && n <= |table|
    ensures UniqueNames(table[..n])
  {
    forall a, b | 0 <= a < b < n ensures table[..n][a].name != table[..n][b].name {
      assert table[..n][a] == table[a] && table[..n][b] == table[b];
    }
  }

  /** The step of ExtractDataField for a field before the last one, which
      the last field, having another name, does not disturb. */
  lemma ExtractDataEarlier(cc: CharClasses, engine: Engine, table: seq<Field>, text: string, i: nat)
    requires UniqueNames(table) && i < |table| - 1
    requires var data := ExtractData(cc, engine, table[..|table| - 1], text);
             var v := SafeSearch(cc, engine, table[i].patterns, text);
             (table[i].name in data <==> v != []) && (v != [] ==> data[table[i].name] == v)
    ensures var data := ExtractData(cc, engine, table, text);
            var v := SafeSearch(cc, engine, table[i].patterns, text);
            (table[i].name in data <==> v != []) && (v != [] ==> data[table[i].name] == v)
  {
    assert table[i].name != table[|table| - 1].name;
  }

  /** The extracted map holds no key outside the table. */
  lemma ExtractDataKeys(cc: CharClasses, engine: Engine, table: seq<Field>, text: string, k: string)
    requires k !in Names(table)
    ensures k !in ExtractData(cc, engine, table, text)
  {
  }

  /** An engine that never matches more text than it is given. */
  ghost predicate Bounded(engine: Engine) {
    forall p, t | engine(p, t).Some? ::
      |engine(p, t).value.whole| <= |t| &&
      forall g | 0 <= g < |engine(p, t).value.groups| ::
        engine(p, t).value.groups[g].Some? ==> |engine(p, t).value.groups[g].value| <= |t|
  }

  /** Nothing is extracted from an empty text. */
  lemma {:induction false} ExtractDataEmptyText(cc: CharClasses, engine: Engine, table: seq<Field>)
    requires Bounded(engine)
    ensures ExtractData(cc, engine, table, []) == map[]
    decreases |table|
  {
    if table != [] {
      ExtractDataEmptyText(cc, engine, table[..|table| - 1]);
      var ps := table[|table| - 1].patterns;
      forall j | 0 <= j < |ps| ensures !Hit(cc, engine, ps[j], []) {
        match engine(ps[j], [])
        case None =>
        case Some(m) =>
          if |m.groups| > 0 && m.groups[0].Some? {
            assert |m.groups[0].value| <= 0;
            if |m.groups| > 1 && m.groups[1].Some? {
              assert |m.groups[1].value| <= 0;
            }
          }
      }
      SafeSearchNoHit(cc, engine, ps, []);
    }
  }
}
