/** `read_file` and the three readers behind it. What the document
    libraries (pdfplumber, pdf2image with Tesseract, python-docx) return for
    a file is given as data; the readers' own logic is modelled: which
    reader a suffix selects, which pages are kept, when the OCR fallback
    runs, and how the pieces are joined. */
module Readers {
  import opened Wrappers
  import opened Seqs
  import opened Text
  import opened Paths

  /** `supported_extensions`. */
  const SupportedExtensions: set<string> :=
    {".pdf", ".docx", ".doc", ".png", ".jpg", ".jpeg", ".tiff", ".bmp"}

  datatype Reader = PdfReader | DocxReader | ImageReader | NoReader

  /** The branch of `read_file` taken for a lower-cased suffix. */
  function ReaderFor(ext: string): (r: Reader)
    ensures r != NoReader <==> ext in SupportedExtensions
  {
    if ext == ".pdf" then PdfReader
    else if ext in [".docx", ".doc"] then DocxReader
    else if ext in [".png", ".jpg", ".jpeg", ".tiff", ".bmp"] then ImageReader
    else NoReader
  }

  // ---------------------------------------------------------------- PDF

  /** What the PDF libraries give for one file: the text of each page as
      pdfplumber extracts it (None when a page has none), and the OCR text
      of each page image (None when OCR raised for that page). A library
      that raises part way stops the sequence at that page.
      `openDeleteFails` says whether the platform refuses to delete the
      temporary page image while it is still open, as Windows does. */
  datatype Pdf = Pdf(pages: seq<Option<string>>, scans: seq<Option<string>>, openDeleteFails: bool)

  /** The text one page adds: a native page is kept when its text is
      non-empty, a scanned page when its text is not blank; a kept page is
      followed by a newline. */
  function PageText(cc: CharClasses, page: Option<string>, scanned: bool): string {
    if page.Some? && (if scanned then !IsBlank(cc, page.value) else page.value != [])
    then page.value + "\n"
    else []
  }

  /** The text a sequence of pages adds, in page order. */
  function PagesText(cc: CharClasses, pages: seq<Option<string>>, scanned: bool): string
    decreases |pages|
  {
    if pages == [] then []
    else PagesText(cc, pages[..|pages| - 1], scanned) + PageText(cc, pages[|pages| - 1], scanned)
  }

  /** The page images whose OCR text `read_pdf` keeps. The temporary image
      is deleted in a `finally` while its file is still open; where that
      deletion fails, the error escapes the per-page handler, the outer
      handler catches it, and OCR ends after the first page. */
  function OcrPages(pdf: Pdf): (r: seq<Option<string>>)
    ensures !pdf.openDeleteFails ==> r == pdf.scans
    ensures pdf.openDeleteFails ==> |r| == (if pdf.scans == [] then 0 else 1) && r == pdf.scans[..|r|]
  {
    if pdf.openDeleteFails && |pdf.scans| > 1 then pdf.scans[..1] else pdf.scans
  }

  /** `read_pdf`: the native text, followed by the OCR text of the page
      images when the native text is blank. */
  function PdfText(cc: CharClasses, pdf: Pdf): string {
    var native := PagesText(cc, pdf.pages, false);
    if IsBlank(cc, native) then native + PagesText(cc, OcrPages(pdf), true) else native
  }

  /** `read_pdf`, with its two accumulating loops. */
  method ReadPdf(cc: CharClasses, pdf: Pdf) returns (text: string)
    ensures text == PdfText(cc, pdf)
  {
    text := ReadNative(cc, pdf.pages);
    if IsBlank(cc, text) {
      var ocr := ReadScans(cc, pdf);
      text := text + ocr;
    }
  }

  /** The first loop of `read_pdf`: the text pdfplumber finds, page by page. */
  method ReadNative(cc: CharClasses, pages: seq<Option<string>>) returns (text: string)
    ensures text == PagesText(cc, pages, false)
  {
    text := [];
    var i := 0;
    while i < |pages|
      invariant 0 <= i <= |pages|
      invariant text == PagesText(cc, pages[..i], false)
    {
      var page := pages[i];
      PagesTextStep(cc, pages, i, false, text);
      if page.Some? && page.value != [] {
        text := text + (page.value + "\n");
      }
      i := i + 1;
    }
    assert pages[..i] == pages;
  }

  /** The OCR loop of `read_pdf`: the text of each page image, which ends
      after the first page where deleting the open image fails. */
  method ReadScans(cc: CharClasses, pdf: Pdf) returns (text: string)
    ensures text == PagesText(cc, OcrPages(pdf), true)
  {
    text := [];
    var j := 0;
    var failed := false;
    while j < |pdf.scans| && !failed
      invariant 0 <= j <= |pdf.scans|
      invariant failed <==> pdf.openDeleteFails && j > 0
      invariant pdf.openDeleteFails ==> j <= 1
      invariant text == PagesText(cc, pdf.scans[..j], true)
    {
      text := ScanStep(cc, pdf.scans, j, text);
      j := j + 1;
      failed := pdf.openDeleteFails;
    }
    OcrPagesAt(pdf, j);
  }

  /** One page image of the OCR loop: its text is added when it is not blank. */
  method ScanStep(cc: CharClasses, scans: seq<Option<string>>, j: nat, text: string) returns (next: string)
    requires j < |scans| && text == PagesText(cc, scans[..j], true)
    ensures next == PagesText(cc, scans[..j + 1], true)
  {
    var page := scans[j];
    PagesTextStep(cc, scans, j, true, text);
    next := text;
    if page.Some? && !IsBlank(cc, page.value) {
      next := next + (page.value + "\n");
    }
  }

  /** Where the OCR loop stops, the pages it went through are OcrPages. */
  lemma OcrPagesAt(pdf: Pdf, j: nat)
    requires j <= |pdf.scans|
    requires pdf.openDeleteFails ==> j <= 1
    requires j == |pdf.scans| || (pdf.openDeleteFails && j == 1)
    ensures pdf.scans[..j] == OcrPages(pdf)
  {
    if j == |pdf.scans| {
      assert pdf.scans[..j] == pdf.scans;
    }
  }

  /** One more page appends its text. */
  lemma PagesTextStep(cc: CharClasses, pages: seq<Option<string>>, i: nat, scanned: bool, text: string)
    requires i < |pages| && text == PagesText(cc, pages[..i], scanned)
    ensures var page := pages[i];
            PagesText(cc, pages[..i + 1], scanned)
            == if page.Some? && (if scanned then !IsBlank(cc, page.value) else page.value != [])
               then text + (page.value + "\n") else text
  {
    assert pages[..i + 1][..i] == pages[..i];
  }

  /** The pages' text is blank exactly when every page is missing or blank;
      in particular the OCR fallback runs exactly when no native page has
      any text other than whitespace. */
  lemma {:induction false} PagesTextBlank(cc: CharClasses, pages: seq<Option<string>>, scanned: bool)
    requires cc.isSpace('\n')
    ensures IsBlank(cc, PagesText(cc, pages, scanned))
            <==> forall i | 0 <= i < |pages| :: pages[i].None? || IsBlank(cc, pages[i].value)
    decreases |pages|
  {
    if pages != [] {
      var init := pages[..|pages| - 1];
      var last := pages[|pages| - 1];
      PagesTextBlank(cc, init, scanned);
      BlankConcat(cc, PagesText(cc, init, scanned), PageText(cc, last, scanned));
      if last.Some? {
        BlankConcat(cc, last.value, "\n");
      }
      forall i | 0 <= i < |init| ensures init[i] == pages[i] {
      }
    }
  }

  /** The OCR fallback runs exactly when every native page is missing or
      blank, and otherwise the native text is the whole result. */
  lemma PdfFallback(cc: CharClasses, pdf: Pdf)
    requires cc.isSpace('\n')
    ensures var native := PagesText(cc, pdf.pages, false);
            && ((forall i | 0 <= i < |pdf.pages| :: pdf.pages[i].None? || IsBlank(cc, pdf.pages[i].value))
                ==> PdfText(cc, pdf) == native + PagesText(cc, OcrPages(pdf), true))
            && (!(forall i | 0 <= i < |pdf.pages| :: pdf.pages[i].None? || IsBlank(cc, pdf.pages[i].value))
                ==> PdfText(cc, pdf) == native)
  {
    PagesTextBlank(cc, pdf.pages, false);
  }

  /** Every kept page ends with a newline, so non-empty page text does too. */
  lemma {:induction false} PagesTextEndsWithNewline(cc: CharClasses, pages: seq<Option<string>>, scanned: bool)
    ensures var t := PagesText(cc, pages, scanned); t == [] || t[|t| - 1] == '\n'
    decreases |pages|
  {
    if pages != [] {
      PagesTextEndsWithNewline(cc, pages[..|pages| - 1], scanned);
    }
  }

  /** Non-empty text read from a PDF ends with a newline, whether it comes
      from the native pages or from OCR. */
  lemma PdfTextEndsWithNewline(cc: CharClasses, pdf: Pdf)
    ensures var t := PdfText(cc, pdf); t == [] || t[|t| - 1] == '\n'
  {
    var native := PagesText(cc, pdf.pages, false);
    var ocr := PagesText(cc, OcrPages(pdf), true);
    PagesTextEndsWithNewline(cc, pdf.pages, false);
    PagesTextEndsWithNewline(cc, OcrPages(pdf), true);
    if ocr == [] {
      AppendEmpty(native, ocr);
    }
  }

  // --------------------------------------------------------------- DOCX

  /** What python-docx gives for one file: the paragraph texts, and the
      tables as rows of cell texts. */
  datatype Docx = Docx(paragraphs: seq<string>, tables: seq<seq<seq<string>>>)

  /** `"\n".join(paragraphs)`. */
  function JoinLines(ps: seq<string>): string
    decreases |ps|
  {
    if ps == [] then []
    else if |ps| == 1 then ps[0]
    else ps[0] + "\n" + JoinLines(ps[1..])
  }

  /** Each cell adds a space and its text. */
  function CellsText(cells: seq<string>): string
    decreases |cells|
  {
    if cells == [] then [] else CellsText(cells[..|cells| - 1]) + " " + cells[|cells| - 1]
  }

  function RowsText(rows: seq<seq<string>>): string
    decreases |rows|
  {
    if rows == [] then [] else RowsText(rows[..|rows| - 1]) + CellsText(rows[|rows| - 1])
  }

  function TablesText(tables: seq<seq<seq<string>>>): string
    decreases |tables|
  {
    if tables == [] then [] else TablesText(tables[..|tables| - 1]) + RowsText(tables[|tables| - 1])
  }

  /** `read_docx`: None stands for a document python-docx could not open
      (or any other exception), which yields "". */
  function DocxText(doc: Option<Docx>): string {
    match doc
    case None => []
    case Some(d) => JoinLines(d.paragraphs) + TablesText(d.tables)
  }

  /** `read_docx`, with its nested loops over tables, rows and cells. */
  method ReadDocx(doc: Option<Docx>) returns (text: string)
    ensures text == DocxText(doc)
  {
    if doc.None? {
      return [];
    }
    var d := doc.value;
    text := JoinLines(d.paragraphs);
    var t := 0;
    while t < |d.tables|
      invariant 0 <= t <= |d.tables|
      invariant text == JoinLines(d.paragraphs) + TablesText(d.tables[..t])
    {
      var rows := d.tables[t];
      assert d.tables[..t + 1][..t] == d.tables[..t];
      ghost var before := text;
      var r := 0;
      while r < |rows|
        invariant 0 <= r <= |rows|
        invariant text == before + RowsText(rows[..r])
      {
        var cells := rows[r];
        assert rows[..r + 1][..r] == rows[..r];
        ghost var beforeRow := text;
        var c := 0;
        while c < |cells|
          invariant 0 <= c <= |cells|
          invariant text == beforeRow + CellsText(cells[..c])
        {
          assert cells[..c + 1][..c] == cells[..c];
          Associate(beforeRow, CellsText(cells[..c]), " " + cells[c]);
          text := text + (" " + cells[c]);
          c := c + 1;
        }
        assert cells[..c] == cells;
        Associate(before, RowsText(rows[..r]), CellsText(cells));
        r := r + 1;
      }
      assert rows[..r] == rows;
      Associate(JoinLines(d.paragraphs), TablesText(d.tables[..t]), RowsText(rows));
      t := t + 1;
    }
    assert d.tables[..t] == d.tables;
  }

  /** All cells of all tables, row by row. */
  function AllCells(tables: seq<seq<seq<string>>>): seq<string>
    decreases |tables|
  {
    if tables == [] then [] else AllCells(tables[..|tables| - 1]) + RowCells(tables[|tables| - 1])
  }

  function RowCells(rows: seq<seq<string>>): seq<string>
    decreases |rows|
  {
    if rows == [] then [] else RowCells(rows[..|rows| - 1]) + rows[|rows| - 1]
  }

  lemma {:induction false} CellsTextAppend(a: seq<string>, b: seq<string>)
    ensures CellsText(a + b) == CellsText(a) + CellsText(b)
    decreases |b|
  {
    if b == [] {
      assert a + b == a;
    } else {
      var b' := b[..|b| - 1];
      assert (a + b)[..|a + b| - 1] == a + b';
      CellsTextAppend(a, b');
    }
  }

  lemma {:induction false} RowsTextFlat(rows: seq<seq<string>>)
    ensures RowsText(rows) == CellsText(RowCells(rows))
    decreases |rows|
  {
    if rows != [] {
      RowsTextFlat(rows[..|rows| - 1]);
      CellsTextAppend(RowCells(rows[..|rows| - 1]), rows[|rows| - 1]);
    }
  }

  /** The tables add one space and the text of each cell, for all cells in
      table, row and cell order. */
  lemma {:induction false} TablesTextFlat(tables: seq<seq<seq<string>>>)
    ensures TablesText(tables) == CellsText(AllCells(tables))
    decreases |tables|
  {
    if tables != [] {
      TablesTextFlat(tables[..|tables| - 1]);
      RowsTextFlat(tables[|tables| - 1]);
      CellsTextAppend(AllCells(tables[..|tables| - 1]), RowCells(tables[|tables| - 1]));
    }
  }

  /** The position of the first newline, or |s|. */
  function FirstNewline(s: string): (i: nat)
    ensures i <= |s|
    ensures i < |s| ==> s[i] == '\n'
    ensures forall j | 0 <= j < i :: s[j] != '\n'
    decreases |s|
  {
    if s == [] || s[0] == '\n' then 0 else 1 + FirstNewline(s[1..])
  }

  /** `s.split("\n")`. */
  function SplitLines(s: string): (ps: seq<string>)
    ensures |ps| > 0
    decreases |s|
  {
    var i := FirstNewline(s);
    if i == |s| then [s] else [s[..i]] + SplitLines(s[i + 1..])
  }

  predicate NoNewline(s: string) {
    forall j | 0 <= j < |s| :: s[j] != '\n'
  }

  lemma FirstNewlineAt(a: string, b: string)
    requires NoNewline(a)
    ensures FirstNewline(a + "\n" + b) == |a|
  {
    var s := a + "\n" + b;
    var i := FirstNewline(s);
    assert s[|a|] == '\n';
    forall j | 0 <= j < |a| ensures s[j] != '\n' {
      assert s[j] == a[j];
    }
  }

  /** The paragraphs can be read back from their joined text when none of
      them holds a newline. */
  lemma {:induction false} SplitJoinLines(ps: seq<string>)
    requires |ps| > 0
    requires forall k | 0 <= k < |ps| :: NoNewline(ps[k])
    ensures SplitLines(JoinLines(ps)) == ps
    decreases |ps|
  {
    if |ps| == 1 {
      assert FirstNewline(ps[0]) == |ps[0]|;
    } else {
      var rest := JoinLines(ps[1..]);
      var s := ps[0] + "\n" + rest;
      FirstNewlineAt(ps[0], rest);
      assert s[..|ps[0]|] == ps[0] && s[|ps[0]| + 1..] == rest;
      SplitJoinLines(ps[1..]);
      SplitFirst(ps);
    }
  }

  // -------------------------------------------------------------- Image

  /** What Tesseract gives for one image: the text with the Romanian and
      English models, and the text with the English model alone. None
      stands for an exception (in preprocessing or OCR), after which the
      reader yields "". */
  datatype Ocr = Ocr(primary: Option<string>, fallback: Option<string>)

  /** `read_image_ocr`: the stripped primary text, or the stripped fallback
      text when that is empty, with whitespace runs collapsed and the ends
      stripped. */
  function ImageText(cc: CharClasses, ocr: Ocr): string {
    match ocr.primary
    case None => []
    case Some(p) =>
      var first := Strip(cc, p);
      if first != [] then Strip(cc, Collapse(cc, first))
      else match ocr.fallback
        case None => []
        case Some(f) => Strip(cc, Collapse(cc, Strip(cc, f)))
  }

  /** The text that was read: the primary text unless it is blank. */
  function Chosen(cc: CharClasses, ocr: Ocr): Option<string> {
    match ocr.primary
    case None => None
    case Some(p) => if !IsBlank(cc, p) then Some(p) else ocr.fallback
  }

  /** The image text is the words of the text that was read, joined by
      single spaces; it is in normal form; and the fallback is consulted
      only when the primary text is blank. */
  lemma ImageTextWords(cc: CharClasses, ocr: Ocr)
    requires cc.isSpace(' ')
    ensures var r := ImageText(cc, ocr);
            && (Chosen(cc, ocr).None? ==> r == [])
            && (Chosen(cc, ocr).Some? ==> r == JoinTokens(Tokens(cc, Chosen(cc, ocr).value)))
            && Normal(cc, r)
  {
    match Chosen(cc, ocr)
    case None =>
      JoinTokensNormal(cc, []);
    case Some(raw) =>
      var s := Strip(cc, raw);
      StripCollapse(cc, s);
      TokensStrip(cc, raw);
      TokensAreTokens(cc, raw);
      JoinTokensNormal(cc, Tokens(cc, raw));
  }

  lemma ImageFallbackUnused(cc: CharClasses, p: string, f1: Option<string>, f2: Option<string>)
    requires !IsBlank(cc, p)
    ensures ImageText(cc, Ocr(Some(p), f1)) == ImageText(cc, Ocr(Some(p), f2))
  {
  }

  // --------------------------------------------------------- read_file

  /** What the libraries give for one file, for whichever reader runs. */
  datatype FileData = FileData(pdf: Pdf, docx: Option<Docx>, image: Ocr)

  /** `read_file` of a file named `name`: the reader is chosen by the
      lower-cased suffix; an unsupported suffix yields "". */
  function FileText(cc: CharClasses, name: string, data: FileData): string {
    match ReaderFor(Lower(cc, Suffix(name)))
    case PdfReader => PdfText(cc, data.pdf)
    case DocxReader => DocxText(data.docx)
    case ImageReader => ImageText(cc, data.image)
    case NoReader => []
  }

  /** `read_file`. */
  method ReadFile(cc: CharClasses, name: string, data: FileData) returns (text: string)
    ensures text == FileText(cc, name, data)
    ensures Lower(cc, Suffix(name)) !in SupportedExtensions ==> text == []
  {
    var ext := Lower(cc, Suffix(name));
    var reader := ReaderFor(ext);
    match reader
    case PdfReader => text := ReadPdf(cc, data.pdf);
    case DocxReader => text := ReadDocx(data.docx);
    case ImageReader => text := ImageText(cc, data.image);
    case NoReader => text := [];
  }

  /** The suffix is compared after lower-casing: a file whose name ends in
      `.PDF` is read as a PDF. */
  lemma UpperSuffixIsPdf(cc: CharClasses, stem: string)
    requires cc.Valid() && stem != []
    ensures ReaderFor(Lower(cc, Suffix(stem + ".PDF"))) == PdfReader
  {
    var ext := ".PDF";
    assert IsExtension(ext) by {
      assert ext[1] != '.' && ext[2] != '.' && ext[3] != '.';
    }
    SuffixOf(stem, ext);
    LowerPdf(cc);
  }

  lemma LowerPdf(cc: CharClasses)
    requires cc.Valid()
    ensures Lower(cc, ".PDF") == ".pdf"
  {
    assert IsAsciiUpper('P') && IsAsciiUpper('D') && IsAsciiUpper('F');
    LowerFour(cc, '.', 'P', 'D', 'F');
  }

  lemma LowerFour(cc: CharClasses, w: char, x: char, y: char, z: char)
    ensures Lower(cc, [w, x, y, z]) == cc.lower(w) + cc.lower(x) + cc.lower(y) + cc.lower(z)
  {
    assert [w, x, y, z] == [w, x, y] + [z] && [w, x, y] == [w, x] + [y] && [w, x] == [w] + [x] && [w] == [] + [w];
    LowerSnoc(cc, [], w);
    LowerSnoc(cc, [w], x);
    LowerSnoc(cc, [w, x], y);
    LowerSnoc(cc, [w, x, y], z);
  }

  /** Lower works one character at a time. */
  lemma LowerSnoc(cc: CharClasses, s: string, c: char)
    ensures Lower(cc, s + [c]) == Lower(cc, s) + cc.lower(c)
  {
    assert (s + [c])[..|s|] == s;
  }
}
