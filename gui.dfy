/** The desktop front end's handlers around the completion dialog:
    `prompt_missing_fields_gui`, which opens the dialog only when fields are
    missing, and `generate_procura_gui`, which runs the whole batch and
    names the output document. */
module Gui {
  import opened Wrappers
  import opened Seqs
  import opened Text
  import opened Search
  import opened Patterns
  import opened Paths
  import opened Readers
  import opened Batch
  import opened Dialog
  import opened Output

  // ------------------------------------------ prompt_missing_fields_gui

  /** Entries for the required fields are entries for the missing ones, and
      stay so once stripped. */
  lemma CompleteStripped(cc: CharClasses, attempts: seq<map<string, string>>, required: seq<string>,
                         missing: seq<string>)
    requires Complete(attempts, required)
    requires forall f | f in missing :: f in required
    ensures Complete(StrippedAll(cc, attempts), missing)
  {
  }

  /** `prompt_missing_fields_gui`: the context is returned unchanged when
      nothing is missing; otherwise the dialog runs over the Save presses. */
  function GuiFill(cc: CharClasses, context: map<string, string>, required: seq<string>, attempts: seq<map<string, string>>)
    : map<string, string>
    requires Complete(attempts, required)
  {
    var missing := MissingFields(context, required);
    CompleteStripped(cc, attempts, required, missing);
    if missing == [] then context else Rounds(cc, context, missing, StrippedAll(cc, attempts), 0)
  }

  /** `prompt_missing_fields_gui`, with the Save presses given in order. */
  method PromptMissingFieldsGui(cc: CharClasses, context: map<string, string>, required: seq<string>,
                                attempts: seq<map<string, string>>)
    returns (r: map<string, string>)
    requires Complete(attempts, required)
    ensures r == GuiFill(cc, context, required, attempts)
  {
    var missing := MissingFields(context, required);
    if missing == [] {
      return context;
    }
    ghost var presses := StrippedAll(cc, attempts);
    CompleteStripped(cc, attempts, required, missing);
    var dialog := new CompletionDialog(context, missing);
    var i := 0;
    while i < |attempts| && dialog.open
      invariant 0 <= i <= |attempts|
      invariant dialog.fields == missing
      invariant dialog.open ==> Rounds(cc, context, missing, presses, 0) == Rounds(cc, dialog.context, missing, presses, i)
      invariant !dialog.open ==> Rounds(cc, context, missing, presses, 0) == dialog.context
    {
      assert presses[i] == Stripped(cc, attempts[i]);
      dialog.Submit(cc, attempts[i]);
      i := i + 1;
    }
    r := dialog.context;
  }

  /** Fields that are not missing keep their value. */
  lemma GuiFillKeeps(cc: CharClasses, context: map<string, string>, required: seq<string>,
                     attempts: seq<map<string, string>>, k: string)
    requires Complete(attempts, required)
    requires !(k in required && Missing(context, k))
    ensures var r := GuiFill(cc, context, required, attempts);
            (k in r <==> k in context) && (k in context ==> r[k] == context[k])
  {
    var missing := MissingFields(context, required);
    if missing != [] {
      CompleteStripped(cc, attempts, required, missing);
      RoundsFrame(cc, context, missing, StrippedAll(cc, attempts), 0, k);
    }
  }

  /** When the `j`-th Save press is the first whose entries all pass, every
      missing field ends up holding that press's stripped entry, and the
      entry passes the checks. */
  lemma GuiFillAccepted(cc: CharClasses, context: map<string, string>, required: seq<string>,
                        attempts: seq<map<string, string>>, j: nat, f: string)
    requires Complete(attempts, required) && j < |attempts|
    requires f in required && Missing(context, f)
    requires var missing := MissingFields(context, required);
             && FirstRejected(cc, missing, Stripped(cc, attempts[j])) == |missing|
             && forall h | 0 <= h < j :: FirstRejected(cc, missing, Stripped(cc, attempts[h])) < |missing|
    ensures var r := GuiFill(cc, context, required, attempts);
            f in r && r[f] == Strip(cc, attempts[j][f]) && Accepts(cc, f, r[f])
  {
    var missing := MissingFields(context, required);
    var presses := StrippedAll(cc, attempts);
    CompleteStripped(cc, attempts, required, missing);
    assert presses[j] == Stripped(cc, attempts[j]);
    forall h | 0 <= h < j ensures FirstRejected(cc, missing, presses[h]) < |missing| {
      assert presses[h] == Stripped(cc, attempts[h]);
    }
    RoundsAccepted(cc, context, missing, presses, 0, j, f);
  }

  /** A name and a CNP that is not 13 characters long: the name is
      accepted, the CNP is the first rejected entry. */
  lemma NameThenShortCnp(cc: CharClasses, entries: map<string, string>)
    requires entries.Keys == {"nume_prenume", "CNP"}
    requires entries["nume_prenume"] != [] && |entries["CNP"]| != 13
    ensures FirstRejected(cc, ["nume_prenume", "CNP"], entries) == 1
  {
    var fields := ["nume_prenume", "CNP"];
    assert fields[0] != "CNP" && fields[0] != "CUI";
    assert !IsCnp(cc, entries[fields[1]]);
    assert fields[1..] == ["CNP"];
  }

  /** A single Save press that is rejected at position `k` writes the
      fields before it and leaves the rest as they were. */
  lemma OneRejectedPress(cc: CharClasses, context: map<string, string>, fields: seq<string>,
                         entries: map<string, string>)
    requires forall f | f in fields :: f in entries
    requires Complete([entries], fields)
    requires FirstRejected(cc, fields, entries) < |fields|
    ensures Rounds(cc, context, fields, [entries], 0)
            == Written(context, fields[..FirstRejected(cc, fields, entries)], entries)
  {
  }

  lemma WrittenOne(context: map<string, string>, f: string, entries: map<string, string>)
    requires f in entries
    ensures Written(context, [f], entries) == context[f := entries[f]]
  {
    assert [f][..0] == [];
  }

  lemma BothMissing(context: map<string, string>)
    requires "nume_prenume" !in context && "CNP" !in context
    ensures MissingFields(context, ["nume_prenume", "CNP"]) == ["nume_prenume", "CNP"]
  {
    var required := ["nume_prenume", "CNP"];
    assert required[1..] == ["CNP"] && required[1..][1..] == [];
  }

  /** One press with a name and a CNP that is not 13 characters long
      stores the name only. */
  lemma NameOnly(cc: CharClasses, context: map<string, string>, entries: map<string, string>)
    requires entries.Keys == {"nume_prenume", "CNP"}
    requires entries["nume_prenume"] != [] && |entries["CNP"]| != 13
    ensures Complete([entries], ["nume_prenume", "CNP"])
    ensures Rounds(cc, context, ["nume_prenume", "CNP"], [entries], 0)
            == context["nume_prenume" := entries["nume_prenume"]]
  {
    var required := ["nume_prenume", "CNP"];
    NameThenShortCnp(cc, entries);
    OneRejectedPress(cc, context, required, entries);
    assert required[..1] == ["nume_prenume"];
    WrittenOne(context, "nume_prenume", entries);
  }

  /** With fields missing, the result is that of the dialog's rounds. */
  lemma GuiFillRounds(cc: CharClasses, context: map<string, string>, required: seq<string>,
                      attempts: seq<map<string, string>>)
    requires Complete(attempts, required)
    requires MissingFields(context, required) != []
    ensures Complete(StrippedAll(cc, attempts), MissingFields(context, required))
    ensures GuiFill(cc, context, required, attempts)
            == Rounds(cc, context, MissingFields(context, required), StrippedAll(cc, attempts), 0)
  {
    CompleteStripped(cc, attempts, required, MissingFields(context, required));
  }

  // ----------------------------------------------- generate_procura_gui

  /** How the Generate button ends: a path field was left empty, the input
      folder could not be listed, no file yielded any field, or the
      document was generated at `path` from `context`. */
  datatype GuiOutcome = FieldsIncomplete | ListingFailed | NothingFound | Produced(path: string, context: map<string, string>)

  /** The outcome of `generate_procura_gui`. None as the listing stands for
      `iterdir` raising, which the handler reports. */
  function GuiRun(cc: CharClasses, engine: Engine, table: seq<Field>, inputDir: string, outputFolder: string,
                  listing: Option<seq<Entry>>, attempts: seq<map<string, string>>): GuiOutcome
    requires Complete(attempts, Names(table))
  {
    if inputDir == [] || TemplatePath == [] || outputFolder == [] then FieldsIncomplete
    else match listing
      case None => ListingFailed
      case Some(entries) =>
        var all := Gather(Extractions(cc, engine, table, entries));
        if all == map[] then NothingFound
        else Produced(OutputPath(outputFolder, inputDir), GuiFill(cc, Resolve(all), Names(table), attempts))
  }

  /** `generate_procura_gui`. */
  method GenerateProcuraGui(cc: CharClasses, engine: Engine, table: seq<Field>, inputDir: string, outputFolder: string,
                            listing: Option<seq<Entry>>, attempts: seq<map<string, string>>)
    returns (outcome: GuiOutcome)
    requires Complete(attempts, Names(table))
    ensures outcome == GuiRun(cc, engine, table, inputDir, outputFolder, listing, attempts)
  {
    if inputDir == [] || TemplatePath == [] || outputFolder == [] {
      return FieldsIncomplete;
    }
    var outputPath := OutputPath(outputFolder, inputDir);
    if listing.None? {
      return ListingFailed;
    }
    var all := Aggregate(cc, engine, table, listing.value);
    if all == map[] {
      return NothingFound;
    }
    var context := Resolve(all);
    context := PromptMissingFieldsGui(cc, context, Names(table), attempts);
    outcome := Produced(outputPath, context);
  }

  /** The generated context keeps, for each field some file yielded, the
      value of the first such file; the dialog does not touch it. */
  lemma GuiFirstValue(cc: CharClasses, engine: Engine, table: seq<Field>, inputDir: string, outputFolder: string,
                      entries: seq<Entry>, attempts: seq<map<string, string>>, k: string, i: nat)
    requires Complete(attempts, Names(table))
    requires GuiRun(cc, engine, table, inputDir, outputFolder, Some(entries), attempts).Produced?
    requires var ms := Extractions(cc, engine, table, entries);
             i < |ms| && k in ms[i] && forall j | 0 <= j < i :: k !in ms[j]
    ensures var out := GuiRun(cc, engine, table, inputDir, outputFolder, Some(entries), attempts);
            && out.path == OutputPath(outputFolder, inputDir)
            && k in out.context && out.context[k] == Extractions(cc, engine, table, entries)[i][k]
  {
    var ms := Extractions(cc, engine, table, entries);
    var resolved := Resolve(Gather(ms));
    ResolveFirst(ms, k);
    ResolvedComplete(cc, engine, table, entries);
    var missing := MissingFields(resolved, Names(table));
    assert k !in missing;
    if missing != [] {
      CompleteStripped(cc, attempts, Names(table), missing);
      RoundsFrame(cc, resolved, missing, StrippedAll(cc, attempts), 0, k);
    }
  }
}
