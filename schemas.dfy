/** The records the core passes around and stores: the normalised finding
    handed from ingestion to persistence and scoring, the risk record the
    calculator produces, and the rows of the asset, finding, control and
    framework tables. */
module Schemas {

  /** One row of an uploaded file: column name to cell text. */
  type RawRow = map<string, string>

  /** The four severity and rating names stored in `normalized_severity`
      and `risk_rating`. */
  const Low := "Low"
  const Medium := "Medium"
  const High := "High"
  const Critical := "Critical"

  predicate IsLevel(name: string)
  {
    name == Low || name == Medium || name == High || name == Critical
  }

  /** A normalised finding, ready to be stored and scored. */
  datatype FindingCreate = FindingCreate(
    assetName: string,
    ipAddress: string,
    normalizedTitle: string,
    sourceType: string,
    normalizedSeverity: string,
    rawEvidence: RawRow)

  /** The scoring result for one finding. */
  datatype RiskCreate = RiskCreate(
    inherentScore: int,
    riskRating: string,
    ciaConfidentiality: int,
    ciaIntegrity: int,
    ciaAvailability: int)

  /** A row of the asset table; `ipAddress` is a unique column. */
  datatype Asset = Asset(id: nat, assetName: string, ipAddress: string, assetType: string)

  /** A row of the finding table, with the ids of the controls it is linked to. */
  datatype Finding = Finding(
    id: nat,
    assetId: int,
    normalizedTitle: string,
    sourceType: string,
    normalizedSeverity: string,
    rawEvidence: RawRow,
    ingestionDate: int,
    controls: seq<nat>)

  /** A row of the control table, with the ids of the frameworks it is linked to. */
  datatype Control = Control(id: nat, controlName: string, ciaDomain: string, frameworks: seq<nat>)

  /** A row of the framework table. */
  datatype Framework = Framework(id: nat, name: string, version: string)

  /** A list of ids in which no id appears twice: a link collection is a set of pairs. */
  predicate NoDuplicates(ids: seq<nat>)
  {
    forall i, j :: 0 <= i < j < |ids| ==> ids[i] != ids[j]
  }

  /** Every id in `ids` names a row of a table with `n` rows numbered from 1. */
  predicate IdsWithin(ids: seq<nat>, n: nat)
  {
    forall i :: 0 <= i < |ids| ==> 1 <= ids[i] <= n
  }

  /** Table invariants: rows are numbered 1, 2, ... in insertion order
      without gaps (an abstraction of the database's id sequence, which can
      skip a value after a refused insert) and the unique
      columns hold no value twice. */
  predicate AssetsNumbered(assets: seq<Asset>)
  {
    forall i :: 0 <= i < |assets| ==> assets[i].id == i + 1
  }

  predicate FindingsNumbered(findings: seq<Finding>)
  {
    forall i :: 0 <= i < |findings| ==> findings[i].id == i + 1
  }

  predicate ControlsNumbered(controls: seq<Control>)
  {
    forall i :: 0 <= i < |controls| ==> controls[i].id == i + 1
  }

  predicate FrameworksNumbered(frameworks: seq<Framework>)
  {
    forall i :: 0 <= i < |frameworks| ==> frameworks[i].id == i + 1
  }

  predicate UniqueIps(assets: seq<Asset>)
  {
    forall i, j :: 0 <= i < j < |assets| ==> assets[i].ipAddress != assets[j].ipAddress
  }

  predicate UniqueControlNames(controls: seq<Control>)
  {
    forall i, j :: 0 <= i < j < |controls| ==> controls[i].controlName != controls[j].controlName
  }

  predicate UniqueFrameworkNames(frameworks: seq<Framework>)
  {
    forall i, j :: 0 <= i < j < |frameworks| ==> frameworks[i].name != frameworks[j].name
  }

  /** Ids within a bound stay within any larger one. */
  lemma IdsWithinWider(ids: seq<nat>, n: nat, m: nat)
    requires IdsWithin(ids, n) && n <= m
    ensures IdsWithin(ids, m)
  {
  }
}
