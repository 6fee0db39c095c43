# AutoConta document extractor, modelled in Dafny

AutoConta reads the identity and company documents in a folder and fills in
a power-of-attorney template from what it finds there. For each field of the
template (name, CNP, domicile, company name, CUI, registered office and so
on) it tries an ordered list of regular expressions against each document's
text. It cleans the first value it finds. Across files, the first file that
yields a field wins. The fields no file yields are asked for: on the console
(`prompt_missing_fields`) or in a dialog (`prompt_missing_fields_gui`). The
dialog checks that a CNP is 13 digits and that a CUI, once upper-cased and
stripped of every "RO", has 2 to 10 digits.

The model covers:

- the text primitives the extractor uses (`str.strip`, `str.split`,
  `re.sub(r"\s+", " ", …)`, `str.upper`/`str.lower`) over an abstract
  `CharClasses` that stands for Python's Unicode tables;
- the cleanup of extracted values;
- the ordered search over a field's patterns, with the regex engine left
  abstract;
- the field table, whose regular expressions are kept verbatim as data;
- the three readers and the dispatch on the lower-cased suffix, with the
  libraries' outputs given as data;
- the aggregation over a folder listing and the console prompt;
- the dialog as a class whose `Submit` updates the context in place;
- the Generate button's handler, including the output path built with
  Windows path rules.

Modules, in dependency order: `Seqs`, `Wrappers`, `Text`, `Cleanup`,
`Search`, `Patterns`/`PatternData`, `Extract`, `Paths`, `Readers`, `Batch`,
`Dialog`, `Output`, `Gui`.

## Model

| member | source | states |
|---|---|---|
| Text.TrimStart | generare_procuri.py:158 | the result is the suffix of the input left after a run of whitespace, and it does not start with whitespace |
| Text.TrimEnd | generare_procuri.py:158 | the result is the prefix of the input that precedes a run of whitespace, and it does not end with whitespace |
| Text.Strip | generare_procuri.py:158 | `str.strip()`: neither end of the result is whitespace, and the result is empty exactly when the input is blank |
| Text.TokensEmptyIffBlank | generare_procuri.py:157-158 | `split()` is empty exactly when the text is blank |
| Text.TokensAreTokens | generare_procuri.py:157-158 | every word of `split()` is non-empty and holds no whitespace |
| Text.StripCollapse | generare_procuri.py:157-158 | replacing whitespace runs by one space and then stripping gives `" ".join(s.split())` |
| Text.TokensOfJoin | generare_procuri.py:157-158 | round trip: splitting words that were joined by single spaces gives the words back |
| Text.TokensStrip | generare_procuri.py:157-158 | stripping first does not change the words |
| Text.JoinTokensNormal | generare_procuri.py:157-158 | words joined by single spaces have no whitespace at either end and no whitespace but single spaces between non-space characters |
| Text.CollapseShape | generare_procuri.py:157 | the whitespace collapse is the words joined by single spaces, with one optional space at each end |
| Cleanup.Mask | generare_procuri.py:156 | the first substitution keeps each allowed character in place and turns each other character into a space |
| Cleanup.CleanIsJoinedTokens | generare_procuri.py:153-158 | `_clean_extracted_text(s)` is the words of the masked text joined by single spaces |
| Cleanup.CleanAllowed | generare_procuri.py:153-158 | the cleaned text holds only characters of the allowed class `[\w\s.\-/,ĂÂÎȘȚăâîșț]` |
| Cleanup.CleanNormal | generare_procuri.py:153-158 | the cleaned text is in normal form: no whitespace at either end, and only single spaces |
| Cleanup.CleanIdempotent | generare_procuri.py:153-158 | cleaning twice is the same as cleaning once |
| Cleanup.CleanSeparates | generare_procuri.py:156-157 | a character outside the class splits words exactly as a space would |
| Cleanup.MaskAllowed | generare_procuri.py:156 | a text of allowed characters is left unchanged by the first substitution |
| Cleanup.CleanToken | generare_procuri.py:153-158 | a single word of allowed characters is cleaned to itself |
| Cleanup.CleanEmptyIff | generare_procuri.py:153-158 | the cleaned text is empty exactly when every input character is whitespace or outside the class |
| Search.SafeSearchFirstHit | generare_procuri.py:134-151 | first match wins: the result is the cleaned value of the first pattern that yields a non-empty raw value |
| Search.SafeSearchNoHit | generare_procuri.py:134-151 | when no pattern yields a non-empty value, the result is "" |
| Search.SafeSearchAppend | generare_procuri.py:138-151 | later patterns are consulted only when no earlier one yields a value |
| Search.SafeSearchClean | generare_procuri.py:134-158 | the result is already clean: it holds allowed characters only, it is in normal form, and cleaning it again changes nothing |
| Search.SafeSearchWhole | generare_procuri.py:143-148 | a pattern without groups offers its stripped whole match, and a blank one makes the search go on |
| Search.SafeSearchSkipsMissingGroup | generare_procuri.py:143-150 | a match whose group 1 did not take part (the AttributeError path) is skipped |
| Search.SafeSearchGroupOne | generare_procuri.py:143-148 | with one group, group 1 stripped is the value, and a blank group 1 makes the search go on |
| Search.SafeSearchConcatenates | generare_procuri.py:145-146 | when groups 1 and 2 are both non-empty, their unstripped concatenation is what gets cleaned |
| Search.SafeSearchStopsOnPunctuation | generare_procuri.py:147-148 | the search stops at a raw value that cleanup then empties, so a later pattern that would have matched is never tried |
| Search.AtSignsClean | generare_procuri.py:147-158 | a run of '@' survives stripping but is cleaned away |
| Search.LettersClean | generare_procuri.py:153-158 | a word of ASCII letters survives stripping and cleanup unchanged |
| Patterns.Names | generare_procuri.py:280-283 | the names of the table are its field names, in table order |
| Patterns.TableNames | generare_procuri.py:51-133 | the table holds the twelve fields in the order they are written, each named once |
| Patterns.FieldNamesDistinct | generare_procuri.py:51-133 | there are twelve field names and no two are equal |
| Extract.ExtractData | generare_procuri.py:274-284 | every extracted value is non-empty and every key is a table field |
| Extract.ExtractDataField | generare_procuri.py:274-284 | a field is in the result exactly when its search yields a non-empty value, and it then holds that value |
| Extract.ExtractDataKeys | generare_procuri.py:279-283 | no key outside the table is ever extracted |
| Extract.ExtractDataEmptyText | generare_procuri.py:274-284 | nothing is extracted from an empty text, for an engine that matches only text it is given |
| Paths.LastDot | generare_procuri.py:262 | the position of the last dot, with no dot after it |
| Paths.Suffix | generare_procuri.py:262 | `Path.suffix`: the end of the name from its last dot, at least a dot and one character, with no further dot; otherwise "" |
| Paths.SuffixOf | generare_procuri.py:262 | a non-empty stem followed by an extension has that extension as its suffix |
| Paths.SuffixEdgeCases | generare_procuri.py:262 | a name ending in a dot, or whose only dot is its first character, has no suffix |
| Paths.Tail | AutoConta.py:115 | the text after the last separator: a suffix of the path with no separator, preceded by one |
| Paths.BaseName | AutoConta.py:115 | `os.path.split(p)[1]` holds no separator |
| Paths.JoinPrefix | AutoConta.py:115 | the joined path starts with the folder |
| Paths.BaseNameOfJoin | AutoConta.py:115 | the last component of a folder joined with a plain name is that name |
| Readers.ReaderFor | generare_procuri.py:259-272 | some reader is chosen exactly when the lower-cased suffix is one of the supported extensions |
| Readers.ReadPdf | generare_procuri.py:180-214 | `read_pdf` returns the native page text, followed by the OCR text of the kept page images when the native text is blank |
| Readers.ReadNative | generare_procuri.py:182-190 | the first loop adds each page with non-empty text, followed by a newline, in page order |
| Readers.ReadScans | generare_procuri.py:195-212 | the OCR loop adds each non-blank page image text with a newline, and stops after the first page when deleting the still-open image fails |
| Readers.OcrPages | generare_procuri.py:196-212 | every page image is kept when deleting the open temporary file succeeds; otherwise (Windows) only the first is kept, because the error raised in `finally` escapes the per-page handler and ends the loop |
| Readers.PagesTextBlank | generare_procuri.py:185-193 | the page text is blank exactly when every page is missing or blank |
| Readers.PdfFallback | generare_procuri.py:192-212 | OCR text is appended exactly when every native page is missing or blank; otherwise the native text is the whole result |
| Readers.PagesTextEndsWithNewline | generare_procuri.py:185-206 | the non-empty text of a run of pages ends with a newline |
| Readers.PdfTextEndsWithNewline | generare_procuri.py:180-214 | non-empty text read from a PDF ends with a newline, whether native or from OCR |
| Readers.ReadDocx | generare_procuri.py:216-231 | `read_docx` (nested loops) returns the paragraphs joined by newlines, then a space and the text of each cell; "" when the document cannot be opened |
| Readers.TablesTextFlat | generare_procuri.py:223-226 | the table text is a space and the cell text for every cell, table by table and row by row |
| Readers.SplitJoinLines | generare_procuri.py:220 | paragraphs without newlines can be read back from their joined text |
| Readers.ImageTextWords | generare_procuri.py:233-257 | the image text is the words of the primary OCR text, or of the fallback text when the primary one is blank, joined by single spaces and in normal form; "" on an error |
| Readers.ImageFallbackUnused | generare_procuri.py:244-247 | the English-only fallback is irrelevant when the primary OCR text is not blank |
| Readers.ReadFile | generare_procuri.py:259-272 | `read_file` dispatches on the lower-cased suffix, and returns "" for an unsupported one |
| Readers.UpperSuffixIsPdf | generare_procuri.py:262-265 | a name ending in ".PDF" goes to the PDF reader |
| Batch.ExtractionsStep | generare_procuri.py:289-293 | in listing order, a selected entry adds the extraction of its text and any other entry adds nothing |
| Batch.ExtractionsValues | generare_procuri.py:289-296 | every value gathered from a file is non-empty and every key is a table field |
| Batch.ExtractionsSkip | generare_procuri.py:290 | an entry that is not a file, or whose suffix is not supported, is never read |
| Batch.Absorb | generare_procuri.py:295-296 | after the appends, the keys are the old keys plus the file's keys |
| Batch.Gather | generare_procuri.py:287-296 | every gathered list is non-empty |
| Batch.Resolve | generare_procuri.py:302 | taking the first value of each list keeps the same keys |
| Batch.GatherKeys | generare_procuri.py:287-296 | a field is gathered exactly when some file yielded it |
| Batch.GatherFirst | generare_procuri.py:295-302 | first wins: a field's list starts with the value from the first file that yielded it |
| Batch.ResolveFirst | generare_procuri.py:300-302 | the context holds exactly the fields some file yielded, each with the first file's value |
| Batch.ResolveFrom | generare_procuri.py:302 | every context value comes from some file |
| Batch.GatherEmpty | generare_procuri.py:300-310 | the dict stays empty exactly when no file yields any field |
| Batch.Aggregate | generare_procuri.py:287-296 | the aggregation loop computes the gathered dict of lists |
| Batch.AbsorbInto | generare_procuri.py:295-296 | the inner `setdefault(...).append` loop appends each of one file's values to its field's list |
| Batch.MissingFields | AutoConta.py:64 | a field is listed exactly when it is required and absent or empty |
| Batch.MissingFieldsOne | AutoConta.py:64 | a single field is listed exactly when it is absent or empty |
| Batch.MissingFieldsAppend | AutoConta.py:64 | order is kept: the missing fields of a concatenation are those of the first part followed by those of the second |
| Batch.MissingFieldsDistinct | generare_procuri.py:318-321 | distinct required fields give distinct missing fields, so no field is asked for twice |
| Batch.PromptMissingFields | generare_procuri.py:312-322 | the prompting loop computes the filled context, or fails when the answers run out |
| Batch.FillMissingSucceeds | generare_procuri.py:318-321 | prompting succeeds exactly when there are at least as many answers as missing fields |
| Batch.FillMissingAnswers | generare_procuri.py:318-321 | the i-th missing field receives the i-th answer, stripped |
| Batch.FillMissingKeeps | generare_procuri.py:318-321 | a field that was not missing keeps its value, and no other key appears |
| Batch.ProcessDirectory | generare_procuri.py:286-310 | `process_directory` ends in the outcome of the run: no data, input exhausted, or the context handed to the generator |
| Batch.CliNoData | generare_procuri.py:300-310 | the run finds no data exactly when no selected file yields any field |
| Batch.ResolvedComplete | generare_procuri.py:302-306 | every value of the context built from the files is non-empty, so none of its fields counts as missing |
| Batch.CliFirstValue | generare_procuri.py:300-308 | a field some file yielded holds the first such file's value in the generated context |
| Batch.CliAnswers | generare_procuri.py:305-321 | in the generated context, the i-th table field that no file yielded holds the i-th answer, stripped |
| Batch.CliKeys | generare_procuri.py:302-306 | the generated context holds exactly the table fields and the fields the files yielded |
| Dialog.RemoveRO | AutoConta.py:91 | removing "RO" never makes the text longer |
| Dialog.RemoveROSplit | AutoConta.py:91 | every "RO" is removed wherever it stands, not only a leading one |
| Dialog.RemoveRONoR | AutoConta.py:91 | text without an 'R' is left as it is |
| Dialog.RemoveROSinglePass | AutoConta.py:91 | the removal is a single pass: "RROO" becomes "RO" |
| Dialog.UpperAppend | AutoConta.py:91 | upper-casing works piecewise |
| Dialog.UpperFixed | AutoConta.py:91 | upper-casing leaves ASCII digits and upper-case letters as they are |
| Dialog.CuiAccepted | AutoConta.py:90-92 | 2 to 10 ASCII digits are accepted with "RO" or "ro" anywhere among them, or with neither |
| Dialog.CuiRejectsOneDigit | AutoConta.py:90-95 | "RO1" is rejected |
| Dialog.Stripped | AutoConta.py:81 | stripping the entries keeps the same fields |
| Dialog.FirstRejected | AutoConta.py:80-95 | every entry before the returned position passes the checks, and the entry at it, if any, fails |
| Dialog.WrittenSpec | AutoConta.py:80-96 | each written field holds its entry, and every other key is left as it was |
| Dialog.AcceptedBefore | AutoConta.py:80-96 | an accepted entry at or before the first rejected one lies before it |
| Dialog.RejectedAt | AutoConta.py:80-96 | a rejected entry at or before the first rejected one is that one |
| Dialog.Check | AutoConta.py:81-95 | the per-entry checks accept exactly: non-empty, a 13-digit CNP, a CUI of 2 to 10 digits once "RO" is removed |
| Dialog.CompletionDialog.constructor | AutoConta.py:68-76 | the dialog opens over the context and the missing fields |
| Dialog.CompletionDialog.Submit | AutoConta.py:78-98 | the entries before the first rejected one are written, each stripped, and the dialog closes exactly when none is rejected |
| Dialog.StrippedAll | AutoConta.py:81 | stripping every Save press keeps the number of presses and their fields |
| Dialog.RoundsFrame | AutoConta.py:96 | the dialog touches only the missing fields |
| Dialog.WrittenAccepted | AutoConta.py:96-98 | after a press with all entries accepted, each field holds its stripped entry |
| Dialog.RoundsAccepted | AutoConta.py:96-102 | when a press is accepted after rejected ones, every missing field holds its entry from the accepted press |
| Gui.CompleteStripped | AutoConta.py:72-81 | entries for every required field cover the missing fields after stripping |
| Gui.PromptMissingFieldsGui | AutoConta.py:59-103 | returns the context unchanged when nothing is missing, otherwise the context the dialog's Save presses leave |
| Gui.GuiFillKeeps | AutoConta.py:64-96 | a field that is not missing keeps its value |
| Gui.GuiFillAccepted | AutoConta.py:78-103 | when a Save press is the first accepted one, every missing field holds its stripped entry from it |
| Gui.NameThenShortCnp | AutoConta.py:82-89 | a name with a CNP that is not 13 characters is rejected at the CNP |
| Gui.OneRejectedPress | AutoConta.py:85-96 | a rejected press writes the entries before the rejected one and leaves the dialog open |
| Gui.BothMissing | AutoConta.py:64 | with neither field present, both are missing, in order |
| Gui.NameOnly | AutoConta.py:82-96 | a press with a name and a short CNP writes the name only |
| Gui.GuiFillRounds | AutoConta.py:64-103 | with fields missing, the result is the one the dialog's rounds leave |
| Gui.GenerateProcuraGui | AutoConta.py:105-144 | the handler's outcome: an empty path field, a listing that fails, no data, or the document path and context |
| Gui.GuiFirstValue | AutoConta.py:115-137 | the document goes to the output path, and each field some file yielded keeps the first file's value |
| Output.OutputNameNoSep | AutoConta.py:115 | the document name holds no separator |
| Output.OutputPathName | AutoConta.py:115 | the document is named after the last component of the input folder and lies in the output folder |
| Output.TrailingSeparator | AutoConta.py:115 | an input folder with a trailing separator gives the name "PROCURA_GENERATA_.docx" |
| Output.OutputSuffix | AutoConta.py:115 | the document's suffix is ".docx" |
| Output.OutputIsSupported | AutoConta.py:115-122 | the generated document has a supported suffix, so a later run over its folder reads it as input |

## Left out

- The regular-expression engine: it is a parameter from pattern and text to a match or nothing. The pattern table is kept verbatim but its regexes are not given a meaning. `Extract.ExtractDataEmptyText` assumes only that a match lies within the text.
- Python's Unicode tables (`\w`, `\s`, `\d`, `str.upper`, `str.lower`): a parameter. Only the ASCII facts the concrete lemmas need are fixed.
- The document libraries (pdfplumber, pdf2image, pytesseract, python-docx, OpenCV): their outputs are data given to the readers. An exception they raise is `None`.
- `preprocess_image` and `_configure_tesseract`: image processing and a search of the filesystem, not text logic.
- Temporary page images in `read_pdf`: their names and contents are not modelled. Only whether deleting an open file fails is modelled (`Pdf.openDeleteFails`), as this decides how many OCR pages are kept.
- `generate_procura` (DocxTemplate rendering and saving): the model ends with the context and path handed to it.
- `os.makedirs`, file-system listing and `is_file`: the folder listing is data, a list of entries with their kind and contents.
- Logging, message boxes, and widget layout.
- The Tk event loop: the dialog's Save presses are given as a sequence of entry maps. A dialog closed by the window manager before any accepted press leaves the context as the last press wrote it.
- `input()`: the console answers are a sequence, and running out of them (EOFError) ends the run as `InputExhausted`.
- UNC paths (`\\server\share`) in `os.path.split` and `os.path.join`: only drive letters are modelled.
- `main` and the hard-coded paths of the console entry point.
- build_executable.py is not part of this model.
- Dict iteration order: the field table is a sequence in the order the source writes it, and the missing fields keep that order.
