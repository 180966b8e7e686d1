/** The normaliser: one raw row of an uploaded file becomes a FindingCreate
    record (api/app/data_ingestion/normalization.py). */
module Normalization {
  import opened Wrappers
  import opened Text
  import opened Schemas

  /** Vendor severity codes, upper-cased, to severity names. */
  const SeverityMap: map<string, string> := map[
    "CRITICAL" := Critical,
    "HIGH" := High,
    "MEDIUM" := Medium,
    "LOW" := Low,
    "INFO" := Low,
    "WARNING" := Medium]

  /** The columns the normaliser reads. */
  const SeverityColumn := "Vendor_Severity_Code"
  const AddressColumn := "Raw_IP_Address"
  const TitleColumn := "Raw_Vulnerability_Title"

  /** Defaults for a missing severity or title cell. */
  const DefaultSeverityCode := "INFO"
  const DefaultTitle := "Unknown Finding"

  /** Why a row cannot become a FindingCreate: without an address cell the
      asset name and address are None, which the `str` fields reject. */
  datatype NormalizeError = MissingAddress

  /** The severity name for a vendor code: the upper-cased code looked up in
      the table, `Low` when it is not there. */
  function NormalizeSeverity(code: string): (r: string)
    ensures IsLevel(r)
  {
    var key := Upper(code);
    if key in SeverityMap then SeverityMap[key] else Low
  }

  /** The cell in `column`, or `default` when the row has no such column. */
  function CellOr(raw: RawRow, column: string, default: string): (r: string)
    ensures column in raw ==> r == raw[column]
    ensures column !in raw ==> r == default
  {
    if column in raw then raw[column] else default
  }

  function NormalizeFinding(raw: RawRow, sourceName: string): (r: Result<FindingCreate, NormalizeError>)
    ensures r.Success? <==> AddressColumn in raw
    ensures r.Success? ==> r.value.assetName == raw[AddressColumn] && r.value.ipAddress == raw[AddressColumn]
    ensures r.Success? && TitleColumn in raw ==> r.value.normalizedTitle == raw[TitleColumn]
    ensures r.Success? && TitleColumn !in raw ==> r.value.normalizedTitle == DefaultTitle
    ensures r.Success? ==> r.value.sourceType == sourceName && r.value.rawEvidence == raw
    ensures r.Success? ==> IsLevel(r.value.normalizedSeverity)
  {
    var severity := NormalizeSeverity(CellOr(raw, SeverityColumn, DefaultSeverityCode));
    if AddressColumn !in raw then Failure(MissingAddress)
    else
      var address := raw[AddressColumn];
      Success(FindingCreate(
        assetName := address,
        ipAddress := address,
        normalizedTitle := CellOr(raw, TitleColumn, DefaultTitle),
        sourceType := sourceName,
        normalizedSeverity := severity,
        rawEvidence := raw))
  }

  /** Each of the six codes of the table, written as in the table, gets its
      table entry: CRITICAL, HIGH, MEDIUM, LOW, INFO, WARNING give Critical,
      High, Medium, Low, Low, Medium. */
  lemma CanonicalCode(code: string)
    requires code in SeverityMap
    ensures NormalizeSeverity(code) == SeverityMap[code]
  {
    assert forall i :: 0 <= i < |code| ==> 'A' <= code[i] <= 'Z';
    UpperFixed(code);
  }

  /** A code in any letter case gets the entry of its upper-case spelling,
      so "high" and "HIGH" both give High; a code whose upper-case spelling
      is not in the table gives Low. */
  lemma CodeInAnyCase(code: string)
    ensures Upper(code) in SeverityMap ==> NormalizeSeverity(code) == SeverityMap[Upper(code)]
    ensures Upper(code) in SeverityMap ==> NormalizeSeverity(code) == NormalizeSeverity(Upper(code))
    ensures Upper(code) !in SeverityMap ==> NormalizeSeverity(code) == Low
  {
    UpperIdempotent(code);
  }

  lemma LowerCaseHigh()
    ensures NormalizeSeverity("high") == NormalizeSeverity("HIGH") == High
  {
    assert Upper("high") == "HIGH";
    CanonicalCode("HIGH");
  }

  /** The lookup ignores letter case: codes equal up to case normalise alike. */
  lemma SeverityIgnoresCase(a: string, b: string)
    requires Upper(a) == Upper(b)
    ensures NormalizeSeverity(a) == NormalizeSeverity(b)
  {
  }

  /** A row without a severity cell is treated as `INFO` and normalises to `Low`. */
  lemma MissingSeverityIsLow(raw: RawRow, sourceName: string)
    requires AddressColumn in raw && SeverityColumn !in raw
    ensures NormalizeFinding(raw, sourceName).Success?
    ensures NormalizeFinding(raw, sourceName).value.normalizedSeverity == Low
  {
    assert Upper(DefaultSeverityCode) == "INFO";
  }

  /** The normalised severity is the table's image of the row's code. */
  lemma SeverityOfRow(raw: RawRow, sourceName: string)
    requires AddressColumn in raw && SeverityColumn in raw
    ensures NormalizeFinding(raw, sourceName).Success?
    ensures NormalizeFinding(raw, sourceName).value.normalizedSeverity == NormalizeSeverity(raw[SeverityColumn])
  {
  }
}
