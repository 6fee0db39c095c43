/** The completion dialog of the desktop front end: the CNP and CUI rules,
    the `submit` handler that checks the entries in order and writes the
    accepted ones into the context, and the dialog's rounds of Save
    presses. */
module Dialog {
  import opened Seqs
  import opened Text

  // ---------------------------------------------------------- validation

  /** `re.fullmatch(r"\d{13}", v)`. */
  predicate IsCnp(cc: CharClasses, v: string) {
    |v| == 13 && forall i | 0 <= i < |v| :: cc.isDigit(v[i])
  }

  /** `s.replace("RO", "")`: one pass from the left over non-overlapping
      occurrences. */
  function RemoveRO(s: string): (r: string)
    ensures |r| <= |s|
    decreases |s|
  {
    if |s| >= 2 && s[0] == 'R' && s[1] == 'O' then RemoveRO(s[2..])
    else if s == [] then []
    else [s[0]] + RemoveRO(s[1..])
  }

  /** `re.fullmatch(r"\d{2,10}", v.upper().replace("RO", ""))`. */
  predicate IsCui(cc: CharClasses, v: string) {
    var c := RemoveRO(Upper(cc, v));
    2 <= |c| <= 10 && forall i | 0 <= i < |c| :: cc.isDigit(c[i])
  }

  /** The checks of `submit` for one stripped entry: it must be non-empty,
      a CNP must be 13 digits and a CUI must pass the CUI rule. */
  predicate Accepts(cc: CharClasses, field: string, value: string) {
    value != [] && (field == "CNP" ==> IsCnp(cc, value)) && (field == "CUI" ==> IsCui(cc, value))
  }

  /** Every occurrence of "RO" is removed, wherever it stands, not only a
      leading one. */
  lemma {:induction false} RemoveROSplit(a: string, b: string)
    ensures RemoveRO(a + "RO" + b) == RemoveRO(a) + RemoveRO(b)
    decreases |a|
  {
    var s := a + "RO" + b;
    if a == [] {
      assert s[2..] == b;
    } else if |a| >= 2 && a[0] == 'R' && a[1] == 'O' {
      assert s[2..] == a[2..] + "RO" + b;
      RemoveROSplit(a[2..], b);
    } else {
      assert !(s[0] == 'R' && s[1] == 'O');
      assert s[1..] == a[1..] + "RO" + b;
      RemoveROSplit(a[1..], b);
      Associate([a[0]], RemoveRO(a[1..]), RemoveRO(b));
    }
  }

  /** Text without an 'R' is left as it is. */
  lemma {:induction false} RemoveRONoR(s: string)
    requires forall i | 0 <= i < |s| :: s[i] != 'R'
    ensures RemoveRO(s) == s
    decreases |s|
  {
    if s != [] {
      RemoveRONoR(s[1..]);
      SplitFirst(s);
    }
  }

  /** The removal is a single pass: removing "RO" from "RROO" leaves "RO". */
  lemma RemoveROSinglePass()
    ensures RemoveRO("RROO") == "RO"
  {
    var s := "RROO";
    assert s[1..] == "ROO" && s[1..][2..] == "O";
    assert RemoveRO("O") == "O" by {
      RemoveRONoR("O");
    }
  }

  lemma {:induction false} UpperAppend(cc: CharClasses, a: string, b: string)
    ensures Upper(cc, a + b) == Upper(cc, a) + Upper(cc, b)
    decreases |b|
  {
    if b != [] {
      var b' := b[..|b| - 1];
      DropLast(a, b);
      UpperAppend(cc, a, b');
      Associate(Upper(cc, a), Upper(cc, b'), cc.upper(b[|b| - 1]));
    } else {
      AppendEmpty(a, b);
      AppendEmpty(Upper(cc, a), Upper(cc, b));
    }
  }

  predicate AsciiDigits(s: string) {
    forall i | 0 <= i < |s| :: IsAsciiDigit(s[i])
  }

  /** `str.upper()` leaves ASCII digits and upper-case letters as they are. */
  lemma {:induction false} UpperFixed(cc: CharClasses, s: string)
    requires cc.Valid()
    requires forall i | 0 <= i < |s| :: IsAsciiDigit(s[i]) || IsAsciiUpper(s[i])
    ensures Upper(cc, s) == s
    decreases |s|
  {
    if s != [] {
      UpperFixed(cc, s[..|s| - 1]);
      assert cc.upper(s[|s| - 1]) == [s[|s| - 1]];
      SplitLast(s);
    }
  }

  lemma UpperRO(cc: CharClasses)
    requires cc.Valid()
    ensures Upper(cc, "RO") == "RO" && Upper(cc, "ro") == "RO"
  {
    var up, low := "RO", "ro";
    assert IsAsciiUpper(up[0]) && IsAsciiUpper(up[1]);
    UpperFixed(cc, up);
    assert IsAsciiLower(low[0]) && IsAsciiLower(low[1]);
    assert low[..1] == "r" && "r"[..0] == [];
    assert cc.upper('r') == "R" && cc.upper('o') == "O";
  }

  lemma AsciiDigitsCui(cc: CharClasses, s: string, c: string)
    requires cc.Valid() && AsciiDigits(c) && 2 <= |c| <= 10
    requires RemoveRO(Upper(cc, s)) == c
    ensures IsCui(cc, s)
  {
    forall i | 0 <= i < |c| ensures cc.isDigit(c[i]) {
      assert IsAsciiDigit(c[i]);
    }
  }

  /** A CUI with "RO" anywhere among 2 to 10 ASCII digits is accepted, in
      either case; so is the bare number. */
  lemma CuiAccepted(cc: CharClasses, a: string, b: string)
    requires cc.Valid() && AsciiDigits(a) && AsciiDigits(b) && 2 <= |a| + |b| <= 10
    ensures IsCui(cc, a + "RO" + b) && IsCui(cc, a + "ro" + b) && IsCui(cc, a + b)
  {
    assert AsciiDigits(a + b) by {
      forall i | 0 <= i < |a + b| ensures IsAsciiDigit((a + b)[i]) {
        if i >= |a| {
          assert (a + b)[i] == b[i - |a|];
        }
      }
    }
    UpperFixed(cc, a);
    UpperFixed(cc, b);
    UpperFixed(cc, a + b);
    UpperRO(cc);
    RemoveRONoR(a);
    RemoveRONoR(b);
    RemoveRONoR(a + b);
    AsciiDigitsCui(cc, a + b, a + b);
    forall ro | ro == "RO" || ro == "ro" ensures IsCui(cc, a + ro + b) {
      UpperAppend(cc, a, ro);
      UpperAppend(cc, a + ro, b);
      RemoveROSplit(a, b);
      AsciiDigitsCui(cc, a + ro + b, a + b);
    }
  }

  /** "RO" followed by a single digit is rejected. */
  lemma CuiRejectsOneDigit(cc: CharClasses)
    requires cc.Valid()
    ensures !IsCui(cc, "RO1")
  {
    var one := "1";
    assert IsAsciiDigit(one[0]);
    UpperFixed(cc, one);
    UpperRO(cc);
    UpperAppend(cc, "RO", one);
    assert "RO" + one == "RO1";
    RemoveROSplit([], one);
    RemoveRONoR(one);
  }

  // -------------------------------------------------------------- submit

  /** The entries as `submit` reads them: each entry's text, stripped. */
  function Stripped(cc: CharClasses, values: map<string, string>): (r: map<string, string>)
    ensures r.Keys == values.Keys
  {
    map f | f in values :: Strip(cc, values[f])
  }

  /** The position of the first field whose entry is rejected, or the number
      of fields when every entry is accepted. */
  function FirstRejected(cc: CharClasses, fields: seq<string>, entries: map<string, string>): (k: nat)
    requires forall f | f in fields :: f in entries
    ensures k <= |fields|
    ensures forall j | 0 <= j < k :: Accepts(cc, fields[j], entries[fields[j]])
    ensures k < |fields| ==> !Accepts(cc, fields[k], entries[fields[k]])
    decreases |fields|
  {
    if fields == [] then 0
    else if !Accepts(cc, fields[0], entries[fields[0]]) then 0
    else
      var k := FirstRejected(cc, fields[1..], entries);
      assert forall j | 1 <= j <= k && j < |fields| :: fields[j] == fields[1..][j - 1];
      k + 1
  }

  /** The context after `context[field] = entries[field]` for each field in
      turn. */
  function Written(context: map<string, string>, fields: seq<string>, entries: map<string, string>)
    : map<string, string>
    requires forall f | f in fields :: f in entries
    decreases |fields|
  {
    if fields == [] then context
    else
      var f := fields[|fields| - 1];
      Written(context, fields[..|fields| - 1], entries)[f := entries[f]]
  }

  /** Each written field holds its entry; every other key is left as it
      was. */
  lemma {:induction false} WrittenSpec(context: map<string, string>, fields: seq<string>,
                                       entries: map<string, string>, k: string)
    requires forall f | f in fields :: f in entries
    ensures var r := Written(context, fields, entries);
            && (k in fields ==> k in r && r[k] == entries[k])
            && (k !in fields ==> (k in r <==> k in context) && (k in context ==> r[k] == context[k]))
    decreases |fields|
  {
    if fields != [] {
      var init := fields[..|fields| - 1];
      assert forall f | f in init :: f in fields;
      WrittenSpec(context, init, entries, k);
      assert k in fields ==> k in init || k == fields[|fields| - 1];
    }
  }

  lemma WrittenStep(context: map<string, string>, fields: seq<string>, entries: map<string, string>, i: nat)
    requires forall f | f in fields :: f in entries
    requires i < |fields|
    ensures Written(context, fields[..i + 1], entries) == Written(context, fields[..i], entries)[fields[i] := entries[fields[i]]]
  {
    assert fields[..i + 1][..i] == fields[..i];
  }

  /** An accepted entry at or before the first rejected one lies before it. */
  lemma AcceptedBefore(cc: CharClasses, fields: seq<string>, entries: map<string, string>, i: nat)
    requires forall f | f in fields :: f in entries
    requires i < |fields| && i <= FirstRejected(cc, fields, entries)
    requires Accepts(cc, fields[i], entries[fields[i]])
    ensures i < FirstRejected(cc, fields, entries)
  {
  }

  /** A rejected entry at or before the first rejected one is that one. */
  lemma RejectedAt(cc: CharClasses, fields: seq<string>, entries: map<string, string>, i: nat)
    requires forall f | f in fields :: f in entries
    requires i < |fields| && i <= FirstRejected(cc, fields, entries)
    requires !Accepts(cc, fields[i], entries[fields[i]])
    ensures i == FirstRejected(cc, fields, entries)
  {
  }

  /** The checks `submit` makes on one stripped entry, in its order: an empty
      entry, then a CNP that is not 13 digits, then a CUI that is not 2 to
      10 digits once upper-cased and rid of "RO". */
  method Check(cc: CharClasses, field: string, value: string) returns (ok: bool)
    ensures ok == Accepts(cc, field, value)
  {
    if value == [] {
      return false;
    }
    if field == "CNP" && !IsCnp(cc, value) {
      return false;
    }
    if field == "CUI" {
      var cuiClean := RemoveRO(Upper(cc, value));
      if !(2 <= |cuiClean| <= 10 && forall j | 0 <= j < |cuiClean| :: cc.isDigit(cuiClean[j])) {
        return false;
      }
    }
    return true;
  }

  /** The completion dialog of `prompt_missing_fields_gui`: one entry per
      missing field, and the context it writes into. */
  class CompletionDialog {
    const fields: seq<string>
    var context: map<string, string>
    var open: bool

    constructor (context0: map<string, string>, fields0: seq<string>)
      ensures fields == fields0 && context == context0 && open
    {
      fields := fields0;
      context := context0;
      open := true;
    }

    /** `submit`: the stripped entries are checked in order; each accepted
        one is written to the context at once, the first rejected one stops
        the check, and the dialog closes only when every entry was
        accepted. */
    method Submit(cc: CharClasses, values: map<string, string>)
      requires open
      requires forall f | f in fields :: f in values
      modifies this
      ensures context == Written(old(context), fields[..FirstRejected(cc, fields, Stripped(cc, values))], Stripped(cc, values))
      ensures open <==> FirstRejected(cc, fields, Stripped(cc, values)) < |fields|
    {
      ghost var entries := Stripped(cc, values);
      ghost var k := FirstRejected(cc, fields, entries);
      var valid := true;
      var i := 0;
      while i < |fields|
        invariant 0 <= i <= k
        invariant open && valid
        invariant context == Written(old(context), fields[..i], entries)
      {
        var field := fields[i];
        var value := Strip(cc, values[field]);
        assert value == entries[field];
        var ok := Check(cc, field, value);
        if !ok {
          RejectedAt(cc, fields, entries, i);
          valid := false;
          break;
        }
        AcceptedBefore(cc, fields, entries, i);
        WrittenStep(old(context), fields, entries, i);
        context := context[field := value];
        i := i + 1;
      }
      assert i == k;
      if valid {
        open := false;
      }
    }
  }

  // ---------------------------------------------------- the dialog's rounds

  /** Whether each Save press gives an entry for every field. */
  predicate Complete(presses: seq<map<string, string>>, fields: seq<string>) {
    forall a, f | 0 <= a < |presses| && f in fields :: f in presses[a]
  }

  /** The Save presses with every entry stripped, as `submit` reads them. */
  function StrippedAll(cc: CharClasses, attempts: seq<map<string, string>>): (r: seq<map<string, string>>)
    ensures |r| == |attempts|
    ensures forall a | 0 <= a < |r| :: r[a].Keys == attempts[a].Keys
  {
    seq(|attempts|, a requires 0 <= a < |attempts| => Stripped(cc, attempts[a]))
  }

  /** The context after the Save presses `presses[i..]` (stripped entries),
      stopping at the first one that is accepted; the window may be closed
      after any of them. */
  function Rounds(cc: CharClasses, context: map<string, string>, fields: seq<string>,
                  presses: seq<map<string, string>>, i: nat): map<string, string>
    requires Complete(presses, fields) && i <= |presses|
    decreases |presses| - i
  {
    if i == |presses| then context
    else
      var k := FirstRejected(cc, fields, presses[i]);
      var c := Written(context, fields[..k], presses[i]);
      if k == |fields| then c else Rounds(cc, c, fields, presses, i + 1)
  }

  /** The dialog touches only the missing fields. */
  lemma {:induction false} RoundsFrame(cc: CharClasses, context: map<string, string>, fields: seq<string>,
                                       presses: seq<map<string, string>>, i: nat, k: string)
    requires Complete(presses, fields) && i <= |presses| && k !in fields
    ensures var r := Rounds(cc, context, fields, presses, i);
            (k in r <==> k in context) && (k in context ==> r[k] == context[k])
    decreases |presses| - i
  {
    if i < |presses| {
      var kk := FirstRejected(cc, fields, presses[i]);
      WrittenSpec(context, fields[..kk], presses[i], k);
      if kk < |fields| {
        RoundsFrame(cc, Written(context, fields[..kk], presses[i]), fields, presses, i + 1, k);
      }
    }
  }

  /** After a press whose entries are all accepted, each field holds its
      entry, which passes the checks. */
  lemma WrittenAccepted(cc: CharClasses, context: map<string, string>, fields: seq<string>,
                        entries: map<string, string>, f: string)
    requires forall g | g in fields :: g in entries
    requires FirstRejected(cc, fields, entries) == |fields| && f in fields
    ensures var r := Written(context, fields, entries);
            f in r && r[f] == entries[f] && Accepts(cc, f, r[f])
  {
    WrittenSpec(context, fields, entries, f);
    var i :| 0 <= i < |fields| && fields[i] == f;
  }

  /** When a Save press is accepted after rejected ones, every missing field
      holds that press's entry, which passes the checks. */
  lemma {:induction false} RoundsAccepted(cc: CharClasses, context: map<string, string>, fields: seq<string>,
                                          presses: seq<map<string, string>>, i: nat, j: nat, f: string)
    requires Complete(presses, fields) && i <= j < |presses| && f in fields
    requires FirstRejected(cc, fields, presses[j]) == |fields|
    requires forall h | i <= h < j :: FirstRejected(cc, fields, presses[h]) < |fields|
    ensures var r := Rounds(cc, context, fields, presses, i);
            f in r && r[f] == presses[j][f] && Accepts(cc, f, r[f])
    decreases j - i
  {
    var kk := FirstRejected(cc, fields, presses[i]);
    if i == j {
      assert fields[..kk] == fields;
      WrittenAccepted(cc, context, fields, presses[i], f);
    } else {
      RoundsAccepted(cc, Written(context, fields[..kk], presses[i]), fields, presses, i + 1, j, f);
    }
  }
}
