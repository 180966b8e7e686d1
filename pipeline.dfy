/** Normalising a row and then scoring the result: the rating always
    reproduces the normalised severity. */
module Pipeline {
  import opened Wrappers
  import opened Text
  import opened Schemas
  import opened Normalization
  import opened RiskCalc

  /** For every row the normaliser accepts, the rating of the scored finding
      is the severity the normaliser chose. */
  lemma RatingOfNormalizedRow(raw: RawRow, sourceName: string)
    requires NormalizeFinding(raw, sourceName).Success?
    ensures CalculateRisk(NormalizeFinding(raw, sourceName).value).riskRating
      == NormalizeFinding(raw, sourceName).value.normalizedSeverity
  {
    RatingMatchesSeverity(NormalizeFinding(raw, sourceName).value);
  }

  /** A row whose severity code is HIGH, in any letter case, scores 16 and is rated High. */
  lemma HighRowScoresSixteen(raw: RawRow, sourceName: string)
    requires AddressColumn in raw && SeverityColumn in raw && Upper(raw[SeverityColumn]) == "HIGH"
    ensures NormalizeFinding(raw, sourceName).Success?
    ensures CalculateRisk(NormalizeFinding(raw, sourceName).value).inherentScore == 16
    ensures CalculateRisk(NormalizeFinding(raw, sourceName).value).riskRating == High
  {
    CodeInAnyCase(raw[SeverityColumn]);
  }
}
