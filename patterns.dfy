/** The field table: each template field with its patterns in priority
    order, kept as data. The list for `nume_prenume` ends with two patterns
    that capture a birth date, and each `CUI` pattern has a single capture
    group, so the concatenation of two groups in `safe_search` is never
    reached through this table. */
module Patterns {
  import PatternData

  /** One template field and the patterns tried for it, in order. */
  datatype Field = Field(name: string, patterns: seq<string>)

  /** The field names in table order: the template's required fields. */
  const FieldNames: seq<string> := [
    "nume_prenume", "data_nasterii", "domiciliu", "tip_act_identificare",
    "CNP", "nume_societate", "sediu_firma", "CUI", "data_inregistrarii",
    "id_unic_european", "numar_ordine", "sediu_societate"
  ]

  const Table: seq<Field> := Zip(FieldNames, PatternData.PatternLists)

  /** Pairs each name with the pattern list at the same position (a name
      without one gets no patterns). */
  function Zip(names: seq<string>, lists: seq<seq<string>>): seq<Field> {
    seq(|names|, i requires 0 <= i < |names| => Field(names[i], if i < |lists| then lists[i] else []))
  }

  lemma NamesOfZip(names: seq<string>, lists: seq<seq<string>>)
    ensures Names(Zip(names, lists)) == names
  {
  }

  /** The names of a table, in order. */
  function Names(table: seq<Field>): (names: seq<string>)
    ensures |names| == |table|
    ensures forall i | 0 <= i < |table| :: names[i] == table[i].name
  {
    seq(|table|, i requires 0 <= i < |table| => table[i].name)
  }

  /** No field name occurs twice. */
  predicate UniqueNames(table: seq<Field>) {
    forall i, j | 0 <= i < j < |table| :: table[i].name != table[j].name
  }

  /** The table has the twelve fields of FieldNames, in order, each named once. */
  lemma TableNames()
    ensures Names(Table) == FieldNames
    ensures UniqueNames(Table)
  {
    FieldNamesDistinct();
    ZipNames(FieldNames, PatternData.PatternLists);
  }

  /** Zipping keeps the names, so distinct names give a table with unique names. */
  lemma ZipNames(names: seq<string>, lists: seq<seq<string>>)
    requires forall i, j | 0 <= i < j < |names| :: names[i] != names[j]
    ensures Names(Zip(names, lists)) == names
    ensures UniqueNames(Zip(names, lists))
  {
    NamesOfZip(names, lists);
    UniqueByNames(Zip(names, lists));
  }

  /** No two of the twelve field names are equal. */
  lemma FieldNamesDistinct()
    ensures |FieldNames| == 12
    ensures forall i, j | 0 <= i < j < |FieldNames| :: FieldNames[i] != FieldNames[j]
  {
  }

  lemma UniqueByNames(table: seq<Field>)
    requires forall i, j | 0 <= i < j < |table| :: Names(table)[i] != Names(table)[j]
    ensures UniqueNames(table)
  {
    forall i, j | 0 <= i < j < |table| ensures table[i].name != table[j].name {
      assert Names(table)[i] != Names(table)[j];
    }
  }
}

/** The regular expressions of each field, as written, in priority order. */
module PatternData {
  /** The pattern lists, in the order of FieldNames. */
  const PatternLists: seq<seq<string>> := [
    NumePrenumePatterns,
    DataNasteriiPatterns,
    DomiciliuPatterns,
    TipActIdentificarePatterns,
    CnpPatterns,
    NumeSocietatePatterns,
    SediuFirmaPatterns,
    CuiPatterns,
    DataInregistrariiPatterns,
    IdUnicEuropeanPatterns,
    NumarOrdinePatterns,
    SediuSocietatePatterns
  ]

  const NumePrenumePatterns: seq<string> := [
    @"(?:Asociat(?:ul)?\s+unic\s*[:\-]?\s*)([A-ZĂÂÎÎȘȚ][A-ZĂÂÎÎȘȚa-zăâîîșț\s\-\']{3,60}?)(?=,\s*(?:cetatean|cetăţean|născut|nascut))",
    @"(?:Administrator(?:ul)?\s*[:\-]?\s*)([A-ZĂÂÎÎȘȚ][A-ZĂÂÎÎȘȚa-zăâîîșț\s\-\']{3,60}?)(?=,\s*(?:cetatean|cetăţean|născut|nascut))",
    @"(?:Beneficiarul\s+real\s+.*?este\s*[:\-]?\s*)([A-ZĂÂÎÎȘȚ][A-ZĂÂÎÎȘȚa-zăâîîșț\s\-\']{3,60}?)(?=,\s*(?:cetatean|cetăţean|născut|nascut))",
    @"(?:Administrarea\s+societății\s+se\s+face\s+de\s+către\s*[:\-]?\s*)([A-ZĂÂÎÎȘȚ][A-ZĂÂÎÎȘȚa-zăâîîșț\s\-\']{3,60}?)(?=,\s*(?:cetatean|cetăţean|născut|nascut))",
    @"(?:Controlul\s+.*?exercită.*?calitate\s+de\s+asociat\s+unic,?\s*)([A-ZĂÂÎÎȘȚ][A-ZĂÂÎÎȘȚa-zăâîîșț\s\-\']{3,60}?)(?=,\s*(?:cetatean|cetăţean|născut|nascut))",
    @"([A-ZĂÂÎÎȘȚ][A-ZĂÂÎÎȘȚa-zăâîîșț]{2,20}(?:\s+[A-ZĂÂÎÎȘȚ][A-ZĂÂÎÎȘȚa-zăâîîșț\-]{2,20}){1,3})(?=,\s*(?:cetatean|cetăţean|născut|nascut))",
    @"(?:n[ăa]scut[ăa]?\s+(?:la\s+data\s+de\s+|la\s+))(\d{1,2}\s+(?:ianuarie|februarie|martie|aprilie|mai|iunie|iulie|august|septembrie|octombrie|noiembrie|decembrie)\s+\d{4})",
    @"(?:Birth\s+date[:\s]*)(\d{1,2}\s+[A-Za-z]+\s+\d{4})"
  ]

  const DataNasteriiPatterns: seq<string> := [
    @"(?:n[ăa]scut[ăa]?\s+la\s+data\s+de\s+)(\d{1,2}\.\d{1,2}\.\d{4})",
    @"(?:născut[ăa]?\s+la\s+)(\d{1,2}\.\d{1,2}\.\d{4})",
    @"(?:Data\s+nașterii[:\s]*)(\d{1,2}[./-]\d{1,2}[./-]\d{2,4})",
    @"(\d{1,2}\.\d{1,2}\.\d{4})(?=,\s*(?:in|în)\s+(?:Mun|Com|Sat|Jud))",
    @"(?:Born\s+on[:\s]*)(\d{1,2}[./-]\d{1,2}[./-]\d{2,4})"
  ]

  const DomiciliuPatterns: seq<string> := [
    @"domiciliat[ăa]?\s+(?:în|in)\s+(.+?)(?=,\s*(?:identificat|având|posesor|CNP|cu\s+domiciliul))",
    @"domiciliată\s+(?:în|in)\s+(.+?)(?=,\s*(?:identificat|având|posesor|CNP))",
    @"(?:cu\s+domiciliul\s+(?:în|in|la)\s+)(.+?)(?=,\s*(?:identificat|având|posesor|CNP))",
    @"(?:Domiciliu[:\s]+)(.+?)(?=,\s*(?:identificat|având|posesor|CNP|telefon))",
    @"(?:Adres[ăa][:\s]+)(.+?)(?=,\s*(?:tel|CNP|identificat))",
    @"(?:Residence[:\s]+)(.+?)(?=,\s*(?:identified|CNP))"
  ]

  const TipActIdentificarePatterns: seq<string> := [
    @"(CI\s+seria\s+[A-Z]{1,3},?\s*nr\.?\s*\d{6,10})",
    @"(BI\s+seria\s+[A-Z]{1,3},?\s*nr\.?\s*\d{6,10})",
    @"(Carte\s+de\s+identitate\s+seria\s+[A-Z]{1,3},?\s*nr\.?\s*\d{6,10})",
    @"identificat[ăa]?\s+cu\s+(CI\s+seria\s+[A-Z]{1,3},?\s*nr\.?\s*\d{6,10})",
    @"(Pașaport\s+nr\.?\s*[\w\d]{6,15})",
    @"(ID\s+(?:card|nr\.?)\s*[\w\d]{3,15})",
    @"(Passport\s+(?:nr\.?|no\.?)\s*[\w\d]{3,15})"
  ]

  const CnpPatterns: seq<string> := [
    @"CNP\s*[:\-]?\s*([0-9]{13})",
    @"(?:Cod\s+numeric\s+personal[:\s]*)([0-9]{13})",
    @"(?:Personal\s+code[:\s]*)([0-9]{13})"
  ]

  const NumeSocietatePatterns: seq<string> := [
    @"(?:Denumirea\s+societ[ăa]ții\s+este\s*[:\-]?\s*)([A-Z0-9\s\.\-,ĂÂÎÎȘȚăâîîșț]+S\.R\.L\.)",
    @"(?:Societății\s+)([A-Z0-9\s\.\-,ĂÂÎÎȘȚăâîîșț]+S\.R\.L\.)",
    @"Societatea\s+([A-Z0-9\s\.\-,ĂÂÎÎȘȚăâîîșț]+S\.R\.L\.)",
    @"înființarea\s+Societății\s+([A-Z0-9\s\.\-,ĂÂÎÎȘȚăâîîșț]+S\.R\.L\.)",
    @"([A-Z0-9\s\.\-,ĂÂÎÎȘȚăâîîșț]+S\.R\.L\.)(?=\s*,?\s*conform)",
    @"(?:Firm[ăa][:\s]+)([A-Z0-9\s\.\-,ĂÂÎÎȘȚăâîîșț]+(?:S\.R\.L\.|SRL|S\.A\.|SA|S\.C\.|SC))",
    @"(?:Company\s+name[:\s]+)([A-Z0-9\s\.\-,ĂÂÎÎȘȚăâîîșț]+(?:S\.R\.L\.|SRL|S\.A\.|SA|S\.C\.|SC))"
  ]

  const SediuFirmaPatterns: seq<string> := [
    @"(?:Sediul\s+societ[ăa]ții\s+este\s+(?:în|in|la)\s+)(.+?)(?=\.|Art\.|CAPITOLUL|\n)",
    @"(?:Sediu\s+social\s*[:\-]?\s*)(.*?)(?=\n|,\s*(?:Telefon|Tel|Email|CUI|Cod))",
    @"(?:Sediul[:\s]+)(.*?)(?=\n|,\s*(?:Telefon|Tel|Email|CUI|Cod))",
    @"(?:Headquarters[:\s]+)(.*?)(?=\n|,\s*(?:Phone|Tel|Email|CUI|Code))",
    @"(?:cu\s+sediul\s+social\s+în\s+)(.+?)(?=,|\n|$)"
  ]

  const CuiPatterns: seq<string> := [
    @"(?:Cod\s+Unic\s+de\s+Înregistrare\s*[:\-]?\s*(?:RO)?\s*)(\d{2,10})",
    @"(?:CUI\s*[:\-]?\s*(?:RO)?\s*)(\d{2,10})",
    @"(?:C\.?U\.?I\.?[:\s]*)(\d{2,10})",
    @"(?:VAT\s+number[:\s]*)(\d{2,10})"
  ]

  const DataInregistrariiPatterns: seq<string> := [
    @"(?:din\s+data\s+de\s+)(\d{1,2}[./-]\d{1,2}[./-]\d{4})",
    @"(?:Din.)(\d{1,2}[./-]\d{1,2}[./-]\d{4})",
    @"(?:înregistrat[ăa]?\s+la\s+data\s+de\s+)(\d{1,2}[./-]\d{1,2}[./-]\d{4})",
    @"(?:Registration\s+date[:\s]+)(\d{1,2}[./-]\d{1,2}[./-]\d{4})"
  ]

  const IdUnicEuropeanPatterns: seq<string> := [
    @"\(EUID\)\s*[:\-]?\s*([A-Z0-9.\-]{10,30})",
    @"(?:EUID[:\s]+)([A-Z0-9.\-]{10,30})"
  ]

  const NumarOrdinePatterns: seq<string> := [
    @"(?:Nr\.?\s*(?:de)?\s*ordine\s*(?:în\s*registrul\s*comerțului)?\s*[:\-]?\s*)([A-Z0-9/]{1,20})",
    @"(?:Trade\s+register\s+number[:\s]+)([A-Z0-9/]{1,20})"
  ]

  const SediuSocietatePatterns: seq<string> := [
    @"(?:Sediul\s+societ[ăa]ții\s+este\s+(?:în|la)\s+)(.+?)(?=\.|Art\.|CAPITOLUL)",
    @"(?:Sediul\s+societății\s+este\s+în\s+)(.+?)(?=\n|\.)"
  ]

}
