/** The risk calculator: likelihood times impact, a rating from fixed
    thresholds, and the CIA scores (api/app/risk_engine/risk_calc.py).
    The score is the product of two integers, so it is an integer. */
module RiskCalc {
  import opened Schemas

  const LikelihoodMap: map<string, int> := map[Critical := 5, High := 4, Medium := 3, Low := 1]
  const ImpactMap: map<string, int> := map[Critical := 5, High := 4, Medium := 3, Low := 2]

  /** Defaults for a severity missing from the tables. */
  const DefaultLikelihood := 1
  const DefaultImpact := 2

  function Likelihood(severity: string): (r: int)
    ensures 1 <= r <= 5
  {
    if severity in LikelihoodMap then LikelihoodMap[severity] else DefaultLikelihood
  }

  function Impact(severity: string): (r: int)
    ensures 2 <= r <= 5
  {
    if severity in ImpactMap then ImpactMap[severity] else DefaultImpact
  }

  /** The rating band a score falls in: 21 and above Critical, 13 to 20 High,
      7 to 12 Medium, below 7 Low. */
  function RatingFor(score: int): (r: string)
    ensures IsLevel(r)
    ensures r == Critical <==> 21 <= score
    ensures r == High <==> 13 <= score < 21
    ensures r == Medium <==> 7 <= score < 13
    ensures r == Low <==> score < 7
  {
    if score >= 21 then Critical
    else if score >= 13 then High
    else if score >= 7 then Medium
    else Low
  }

  /** The position of a level in the order Low < Medium < High < Critical. */
  function Rank(level: string): (r: int)
    requires IsLevel(level)
    ensures 0 <= r <= 3
  {
    if level == Low then 0 else if level == Medium then 1 else if level == High then 2 else 3
  }

  function CalculateRisk(finding: FindingCreate): (r: RiskCreate)
    ensures 2 <= r.inherentScore <= 25
    ensures IsLevel(r.riskRating)
    ensures r.riskRating == RatingFor(r.inherentScore)
    ensures r.ciaConfidentiality == r.ciaIntegrity == r.ciaAvailability
  {
    var likelihood := Likelihood(finding.normalizedSeverity);
    var impact := Impact(finding.normalizedSeverity);
    var inherentScore := likelihood * impact;
    var ciaScore := impact;
    RiskCreate(
      inherentScore := inherentScore,
      riskRating := RatingFor(inherentScore),
      ciaConfidentiality := ciaScore,
      ciaIntegrity := ciaScore,
      ciaAvailability := ciaScore)
  }

  /** The finding with its severity replaced and every other field kept. */
  function WithSeverity(finding: FindingCreate, severity: string): FindingCreate
  {
    finding.(normalizedSeverity := severity)
  }

  /** Critical, High, Medium and Low score 25, 16, 9 and 2, and each is rated
      as its own severity. */
  lemma KnownSeverityScores(finding: FindingCreate)
    ensures CalculateRisk(WithSeverity(finding, Critical)) == RiskCreate(25, Critical, 5, 5, 5)
    ensures CalculateRisk(WithSeverity(finding, High)) == RiskCreate(16, High, 4, 4, 4)
    ensures CalculateRisk(WithSeverity(finding, Medium)) == RiskCreate(9, Medium, 3, 3, 3)
    ensures CalculateRisk(WithSeverity(finding, Low)) == RiskCreate(2, Low, 2, 2, 2)
  {
  }

  /** A severity name outside the tables is scored exactly as Low: score 2, rating Low. */
  lemma UnknownSeverityScoresAsLow(finding: FindingCreate)
    requires !IsLevel(finding.normalizedSeverity)
    ensures CalculateRisk(finding) == CalculateRisk(WithSeverity(finding, Low))
    ensures CalculateRisk(finding).inherentScore == 2 && CalculateRisk(finding).riskRating == Low
  {
  }

  /** For every finding whose severity is one of the four levels, the rating
      the calculator derives equals that severity. */
  lemma RatingMatchesSeverity(finding: FindingCreate)
    requires IsLevel(finding.normalizedSeverity)
    ensures CalculateRisk(finding).riskRating == finding.normalizedSeverity
  {
    KnownSeverityScores(finding);
    assert finding == WithSeverity(finding, finding.normalizedSeverity);
  }

  /** A higher score never gets a lower rating. */
  lemma RatingMonotone(lower: int, higher: int)
    requires lower <= higher
    ensures Rank(RatingFor(lower)) <= Rank(RatingFor(higher))
  {
  }

  /** The three CIA scores are the impact weight of the severity. */
  lemma CiaScoresAreImpact(finding: FindingCreate)
    ensures CalculateRisk(finding).ciaConfidentiality == Impact(finding.normalizedSeverity)
    ensures CalculateRisk(finding).ciaIntegrity == Impact(finding.normalizedSeverity)
    ensures CalculateRisk(finding).ciaAvailability == Impact(finding.normalizedSeverity)
  {
  }

  /** The score is likelihood times impact, and only four values occur: 2, 9, 16 and 25. */
  lemma ScoreIsProduct(finding: FindingCreate)
    ensures CalculateRisk(finding).inherentScore
      == Likelihood(finding.normalizedSeverity) * Impact(finding.normalizedSeverity)
    ensures CalculateRisk(finding).inherentScore in {2, 9, 16, 25}
  {
  }
}
