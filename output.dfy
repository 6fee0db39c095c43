/** Where `generate_procura_gui` puts the generated document: a name built
    from the last component of the input folder, joined to the output
    folder. */
module Output {
  import opened Seqs
  import opened Text
  import opened Paths
  import opened Readers

  /** `template_path`. */
  const TemplatePath: string := "IMPUTERNICIRE_model_ro_eng.docx"

  /** The name given to the generated document. */
  function OutputName(inputDir: string): string {
    "PROCURA_GENERATA_" + BaseName(inputDir) + ".docx"
  }

  /** `os.path.join(output_folder, f"PROCURA_GENERATA_{os.path.split(input_dir)[1]}.docx")`. */
  function OutputPath(outputFolder: string, inputDir: string): string {
    Join(outputFolder, OutputName(inputDir))
  }

  /** The document name has no separator. */
  lemma OutputNameNoSep(inputDir: string)
    ensures NoSep(OutputName(inputDir))
  {
    NoSepChars("PROCURA_GENERATA_");
    NoSepChars(".docx");
    NoSepConcat3("PROCURA_GENERATA_", BaseName(inputDir), ".docx");
  }

  /** A text of two or more characters that does not have ':' second keeps
      that property with anything appended. */
  lemma SecondChar(prefix: string, base: string, ext: string)
    requires |prefix| >= 2 && prefix[1] != ':'
    ensures |prefix + base + ext| >= 2 && (prefix + base + ext)[1] != ':'
  {
    PrefixIndex(prefix + base, ext, 1);
    PrefixIndex(prefix, base, 1);
  }

  /** The document name does not start with a drive. */
  lemma OutputNameNoDrive(inputDir: string)
    ensures |OutputName(inputDir)| >= 2 && OutputName(inputDir)[1] != ':'
  {
    var prefix := "PROCURA_GENERATA_";
    assert |prefix| >= 2 && prefix[1] != ':';
    SecondChar(prefix, BaseName(inputDir), ".docx");
  }

  /** The generated document is named after the last component of the
      input folder and lies in the output folder. */
  lemma OutputPathName(outputFolder: string, inputDir: string)
    ensures BaseName(OutputPath(outputFolder, inputDir)) == OutputName(inputDir)
    ensures OutputPath(outputFolder, inputDir)[..|outputFolder|] == outputFolder
  {
    var name := OutputName(inputDir);
    OutputNameNoSep(inputDir);
    OutputNameNoDrive(inputDir);
    BaseNameOfJoin(outputFolder, name);
    JoinPrefix(outputFolder, name);
  }

  /** An input folder given with a trailing separator has an empty last
      component, so the document is called "PROCURA_GENERATA_.docx". */
  lemma TrailingSeparator(inputDir: string)
    requires inputDir != [] && IsSep(inputDir[|inputDir| - 1])
    ensures OutputName(inputDir) == "PROCURA_GENERATA_.docx"
  {
    var rest := AfterDrive(inputDir);
    assert rest != [] && rest[|rest| - 1] == inputDir[|inputDir| - 1];
  }

  lemma {:induction false} LowerFixed(cc: CharClasses, s: string)
    requires cc.Valid()
    requires forall i | 0 <= i < |s| :: IsAsciiLower(s[i]) || s[i] == '.'
    ensures Lower(cc, s) == s
    decreases |s|
  {
    if s != [] {
      LowerFixed(cc, s[..|s| - 1]);
      assert cc.lower(s[|s| - 1]) == [s[|s| - 1]];
      SplitLast(s);
    }
  }

  lemma DocxIsExtension()
    ensures IsExtension(".docx")
  {
    var ext := ".docx";
    assert ext[1] != '.' && ext[2] != '.' && ext[3] != '.' && ext[4] != '.';
  }

  /** The document name ends in ".docx", which is its suffix. */
  lemma OutputSuffix(inputDir: string)
    ensures Suffix(OutputName(inputDir)) == ".docx"
  {
    DocxIsExtension();
    SuffixOf("PROCURA_GENERATA_" + BaseName(inputDir), ".docx");
  }

  lemma LowerDocx(cc: CharClasses)
    requires cc.Valid()
    ensures Lower(cc, ".docx") == ".docx"
  {
    var sfx := ".docx";
    forall i | 0 <= i < |sfx| ensures IsAsciiLower(sfx[i]) || sfx[i] == '.' {
      assert sfx[i] in sfx;
    }
    LowerFixed(cc, sfx);
  }

  /** The generated document has a supported suffix, so a later run over a
      folder that holds it reads it as input. */
  lemma OutputIsSupported(cc: CharClasses, outputFolder: string, inputDir: string)
    requires cc.Valid()
    ensures Lower(cc, Suffix(BaseName(OutputPath(outputFolder, inputDir)))) in SupportedExtensions
  {
    OutputPathName(outputFolder, inputDir);
    OutputSuffix(inputDir);
    LowerDocx(cc);
  }
}
