# GRC-MMAP finding core in Dafny

This project models the finding-processing core of the GRC-MMAP API:

- **Normaliser.** A raw audit row becomes a `FindingCreate` record. The severity code is upper-cased and looked up in the six-entry severity table. The address is copied to both the asset name and the address. A missing title or severity gets its default.
- **Risk calculator.** The inherent score is likelihood × impact, read from two asymmetric tables that have defaults. A threshold ladder turns the score into a rating. All three CIA scores are the impact.
- **Compliance mapper and seeder.**
  - Keyword rules over the lower-cased title select the patch control, the access control, both or neither, in a fixed order.
  - The selected controls are linked to a finding. A control already linked is not linked again, and a control name with no row is skipped.
  - Seeding inserts the seed frameworks and controls that are missing. It links each new control to the cited frameworks that exist.
- **Asset and finding store.**
  - `get_asset_by_ip` is a first-match lookup.
  - `create_asset_if_not_exists` is a get-or-create keyed by IP address. The address is unique, as the `unique=True` column of the asset table demands.
  - `create_finding` appends one row.

The files and modules:

- `wrappers.dfy` (`Wrappers`): `Option` and `Result`.
- `query.dfy` (`Query`): `query(T).filter(p).first()` as `First`.
- `text.dfy` (`Text`): `str.upper()`, `str.lower()` and the substring test `t in s`.
- `schemas.dfy` (`Schemas`): the record shapes (`FindingCreate`, `RiskCreate`, `Asset`, `Finding`, `Control`, `Framework`), the four severity levels and the table invariants.
- `normalization.dfy` (`Normalization`): `SEVERITY_MAP` and `normalize_finding`.
- `risk_calc.dfy` (`RiskCalc`): `LIKELIHOOD_MAP`, `IMPACT_MAP` and `calculate_risk`.
- `pipeline.dfy` (`Pipeline`): normalising a row and then scoring it.
- `compliance.dfy` (`Compliance`): the three seed tables, the keyword selection, and the link and seeding functions on table contents.
- `findings.dfy` (`Findings`): the asset and finding lookups and get-or-create on table contents.
- `store.dfy` (`Store`): the class `Database`.
  - It holds the four tables as sequence fields under the invariant `Valid()`. The invariant requires:
    - ids equal to position + 1;
    - unique addresses and names;
    - every finding on an existing asset;
    - link lists without repeats that name existing rows.
  - Its methods follow the crud functions loop by loop. Each one is specified by the pure functions of `Findings` and `Compliance`.

Several choices of representation follow from the source:

- **Ids.** Rows are numbered 1, 2, 3, … in insertion order, with no gaps. This abstracts the database's id sequence, which can skip values (see "## Left out"). A finding's controls and a control's frameworks are lists of ids.
- **Scores.** The score is an integer, because `float(likelihood * impact)` is always a whole number.
- **Missing address.** `normalize_finding` fails with `MissingAddress` when the row has no `Raw_IP_Address` cell. The source passes `None` into a `str` field of the `FindingCreate` schema, which that schema refuses.
- **Unknown asset.** `create_finding` fails with `UnknownAsset`, and the store is unchanged, when the asset id names no asset. The source relies on the foreign key of `findings.asset_id` to refuse it.

Two facts about the code shape the model:

- **No sanitisation.** `normalize_finding` passes the raw row through unchanged (`api/app/data_ingestion/normalization.py:30`), and so does `Normalization.NormalizeFinding`.
- **No persisting ingestion.** The upload route only normalises (`api/app/routers/findings.py:44`). No code stores a risk or runs the mapper after an upload. `Pipeline` therefore only composes the normaliser with the calculator, and the store has no risk table.

## Model

| member | source | states |
|---|---|---|
| Query.First | api/app/crud/crud_findings.py:9 | the index of the first row satisfying the filter, with no earlier row satisfying it; None exactly when no row does |
| Query.FirstOfExtended | api/app/crud/crud_findings.py:9 | appending rows after a row already found does not change which row `.first()` finds |
| Text.Upper | api/app/data_ingestion/normalization.py:18 | `upper()` keeps the length and upper-cases the character at every position |
| Text.Lower | api/app/crud/crud_compliance.py:69-73 | `lower()` keeps the length and lower-cases the character at every position |
| Text.UpperIdempotent | api/app/data_ingestion/normalization.py:18 | upper-casing twice equals upper-casing once |
| Text.LowerIdempotent | api/app/crud/crud_compliance.py:69-73 | lower-casing twice equals lower-casing once |
| Text.LowerIgnoresCase | api/app/crud/crud_compliance.py:69-73 | lower-casing an upper-cased string equals lower-casing the string itself |
| Text.Contains | api/app/crud/crud_compliance.py:69-73 | Python's `t in s`: true iff `t` occurs in `s` as a contiguous block; specified by ContainsIff and, for a missing letter, MissingCharNotContained |
| Text.ContainsIff | api/app/crud/crud_compliance.py:69-73 | the recursive substring test `t in s` holds iff `t` occurs at some position of `s` |
| Normalization.NormalizeSeverity | api/app/data_ingestion/normalization.py:18-19 | the normalised severity is always one of Low, Medium, High, Critical |
| Normalization.CellOr | api/app/data_ingestion/normalization.py:27 | `dict.get(column, default)`: the cell when present, the default otherwise |
| Normalization.NormalizeFinding | api/app/data_ingestion/normalization.py:13-31 | succeeds iff the address cell is present; asset name and address both equal that cell; the title is copied or defaults to "Unknown Finding"; the source type and raw evidence are copied unchanged; the severity is a level |
| Normalization.CanonicalCode | api/app/data_ingestion/normalization.py:4-11 | each of the six codes, as written in the table, normalises to its table entry |
| Normalization.CodeInAnyCase | api/app/data_ingestion/normalization.py:18-19 | a code normalises to the entry of its upper-case spelling; a code whose upper-case spelling is not in the table normalises to Low |
| Normalization.LowerCaseHigh | api/app/data_ingestion/normalization.py:18-19 | "high" and "HIGH" both normalise to High |
| Normalization.SeverityIgnoresCase | api/app/data_ingestion/normalization.py:18-19 | two codes equal up to letter case normalise alike |
| Normalization.MissingSeverityIsLow | api/app/data_ingestion/normalization.py:18-19 | a row without a severity cell is read as INFO and normalises to Low |
| Normalization.SeverityOfRow | api/app/data_ingestion/normalization.py:18-29 | the finding's severity is the table image of the row's severity cell |
| RiskCalc.Likelihood | api/app/risk_engine/risk_calc.py:26 | the likelihood of any severity, including the default 1, lies in [1, 5] |
| RiskCalc.Impact | api/app/risk_engine/risk_calc.py:29 | the impact of any severity, including the default 2, lies in [2, 5] |
| RiskCalc.RatingFor | api/app/risk_engine/risk_calc.py:35-42 | Critical iff score ≥ 21, High iff 13 ≤ score < 21, Medium iff 7 ≤ score < 13, Low iff score < 7 |
| RiskCalc.CalculateRisk | api/app/risk_engine/risk_calc.py:20-53 | the score lies in [2, 25], the rating is the threshold rating of the score, and the three CIA scores are equal |
| RiskCalc.KnownSeverityScores | api/app/risk_engine/risk_calc.py:26-53 | Critical, High, Medium and Low give the exact records with scores 25, 16, 9 and 2 and CIA scores 5, 4, 3 and 2 |
| RiskCalc.UnknownSeverityScoresAsLow | api/app/risk_engine/risk_calc.py:26-42 | an unknown severity scores exactly as Low: score 2, rating Low |
| RiskCalc.RatingMatchesSeverity | api/app/risk_engine/risk_calc.py:5-42 | for each of the four levels the computed rating equals the input severity |
| RiskCalc.RatingMonotone | api/app/risk_engine/risk_calc.py:35-42 | a higher score never gets a lower rating |
| RiskCalc.CiaScoresAreImpact | api/app/risk_engine/risk_calc.py:45-52 | confidentiality, integrity and availability all equal the impact of the severity |
| RiskCalc.ScoreIsProduct | api/app/risk_engine/risk_calc.py:26-32 | the score is likelihood × impact and is one of 2, 9, 16, 25 |
| Pipeline.RatingOfNormalizedRow | api/app/risk_engine/risk_calc.py:35-42 | for every row the normaliser accepts, the risk rating equals the normalised severity |
| Pipeline.HighRowScoresSixteen | api/app/data_ingestion/normalization.py:18-19 | a row whose code is HIGH in any letter case scores 16 and is rated High |
| Compliance.CitationsFor | api/app/crud/crud_compliance.py:49 | `CONTROL_FRAMEWORK_MAP.get(name, [])`: no citations for a name without an entry |
| Compliance.FrameworkIndex | api/app/crud/crud_compliance.py:34 | the first framework with that name, or None exactly when none has it |
| Compliance.ControlIndex | api/app/crud/crud_compliance.py:79-81 | the first control with that name, or None exactly when none has it |
| Compliance.FrameworkIndexOfUnique | api/app/crud/crud_compliance.py:50 | with unique names, the lookup of a framework's own name finds that framework |
| Compliance.ControlIndexOfUnique | api/app/crud/crud_compliance.py:79-81 | with unique names, the lookup of a control's own name finds that control |
| Compliance.MentionsPatching | api/app/crud/crud_compliance.py:69 | the patch rule: the lower-cased title contains "patch", "ssh" or "config"; specified through SelectControlNames (the patch control is selected iff it holds) and SshConfigHitsPatchRule |
| Compliance.MentionsAccess | api/app/crud/crud_compliance.py:72 | the access rule: the lower-cased title contains "access" or "privilege"; specified through SelectControlNames (the access control is selected iff it holds) |
| Compliance.SelectControlNames | api/app/crud/crud_compliance.py:65-73 | the patch control is selected iff the lower-cased title contains patch, ssh or config; the access control iff it contains access or privilege; nothing else is selected, and when both are selected the patch control comes first |
| Compliance.SelectionIgnoresCase | api/app/crud/crud_compliance.py:69-73 | upper- or lower-casing the title does not change the selection |
| Compliance.PatchOnlyTitle | api/app/crud/crud_compliance.py:69-73 | a title that hits the patch rule and has no letter a or p selects only the patch control |
| Compliance.SshConfigTitle | api/app/crud/crud_compliance.py:69-73 | "SSH config issue on server" selects exactly the patch control |
| Compliance.LinkControl | api/app/crud/crud_compliance.py:79-89 | one pass of the linking loop: look the control up by name and append its id unless it is missing or already linked; specified through the LinkControls lemmas |
| Compliance.LinkControls | api/app/crud/crud_compliance.py:77-89 | the linking loop over the selected names in order; specified by LinkControlsMembers, LinkControlsNoDuplicates, LinkControlsExtends, LinkControlsNoChange, MissingControlsSkipped, LinkControlsIdempotent and LinkControlsWithin |
| Compliance.MapControls | api/app/crud/crud_compliance.py:65-89 | a finding's control list after mapping with a title: the linking loop over SelectControlNames of the title; specified by MapControlsIdempotent and the LinkControls lemmas |
| Compliance.LinkControlsExtends | api/app/crud/crud_compliance.py:77-89 | the old link list is kept as a prefix of the new one |
| Compliance.LinkControlsMembers | api/app/crud/crud_compliance.py:77-89 | an id is in the new list iff it was linked before or is the id of a selected control found by name |
| Compliance.LinkControlsNoDuplicates | api/app/crud/crud_compliance.py:88-89 | a link list without repeats never gains one |
| Compliance.LinkControlsNoChange | api/app/crud/crud_compliance.py:77-89 | when every selected control is already linked, the list is unchanged |
| Compliance.MissingControlsSkipped | api/app/crud/crud_compliance.py:79-83 | selected names with no control row are skipped without changing the list |
| Compliance.LinkControlsIdempotent | api/app/crud/crud_compliance.py:77-89 | linking the same names a second time changes nothing |
| Compliance.MapControlsIdempotent | api/app/crud/crud_compliance.py:65-89 | mapping a finding a second time with the same title leaves its control list unchanged |
| Compliance.LinkControlsWithin | api/app/crud/crud_compliance.py:79-89 | every linked id names an existing control |
| Compliance.AddFramework | api/app/crud/crud_compliance.py:34-36 | one pass of the framework loop: insert the framework unless one with that name exists; specified through the SeedFrameworks lemmas |
| Compliance.SeedFrameworks | api/app/crud/crud_compliance.py:33-36 | the framework loop over the seed table in order; specified by SeedFrameworksExtends, SeedFrameworksKeepsRow, SeedFrameworksCovers, SeedFrameworksAddsOnlyAbsent, SeedFrameworksKeepsInvariant, SeedFrameworksNoChange, SeedFrameworksIdempotent and SeedEmptyFrameworks |
| Compliance.FrameworkLinks | api/app/crud/crud_compliance.py:49-53 | the framework ids a new control is linked to, one per citation whose framework exists, in citation order; specified by FrameworkLinksMembers, FrameworkLinksNoDuplicates, FrameworkLinksWithin and SeededLinks |
| Compliance.SeedFrameworksExtends | api/app/crud/crud_compliance.py:33-36 | framework seeding only appends: the old table is a prefix of the new one |
| Compliance.SeedFrameworksKeepsRow | api/app/crud/crud_compliance.py:33-36 | a framework present before seeding is found at the same row afterwards |
| Compliance.SeedFrameworksCovers | api/app/crud/crud_compliance.py:33-36 | after seeding, every seed framework name has a row |
| Compliance.SeedFrameworksAddsOnlyAbsent | api/app/crud/crud_compliance.py:33-36 | every added framework carries a seed name and version that had no row before |
| Compliance.SeedFrameworksKeepsInvariant | api/app/crud/crud_compliance.py:33-36 | seeding keeps the framework table numbered and its names unique |
| Compliance.SeedFrameworksNoChange | api/app/crud/crud_compliance.py:33-36 | when every seed name is present, seeding leaves the table unchanged |
| Compliance.SeedFrameworksIdempotent | api/app/crud/crud_compliance.py:33-36 | seeding the frameworks twice equals seeding them once |
| Compliance.FrameworkLinksMembers | api/app/crud/crud_compliance.py:49-53 | a new control is linked to a framework id iff some citation names that framework and the framework exists |
| Compliance.FrameworkLinksNoDuplicates | api/app/crud/crud_compliance.py:49-53 | citations of distinct frameworks give a link list without repeats |
| Compliance.FrameworkLinksWithin | api/app/crud/crud_compliance.py:49-53 | every framework link names an existing framework |
| Compliance.AddControl | api/app/crud/crud_compliance.py:41-54 | one pass of the control loop: insert the control unless one with that name exists, linked to FrameworkLinks of its citations; specified through the SeedControls lemmas |
| Compliance.SeedControls | api/app/crud/crud_compliance.py:40-54 | the control loop over the seed table in order; specified by SeedControlsExtends, SeedControlsKeepsRow, SeedControlsCovers, SeedControlsAddsOnlyAbsent, SeedControlsKeepsInvariant, SeedControlsNoChange and SeedControlsIdempotent |
| Compliance.Seed | api/app/crud/crud_compliance.py:30-54 | the framework and control tables after seeding: frameworks first, then controls linked against the seeded frameworks; specified by SeedIdempotent and SeedEmptyStore |
| Compliance.SeedControlsExtends | api/app/crud/crud_compliance.py:40-54 | control seeding only appends, so pre-existing controls and their links are untouched |
| Compliance.SeedControlsKeepsRow | api/app/crud/crud_compliance.py:40-41 | a control present before seeding is found at the same row afterwards |
| Compliance.SeedControlsCovers | api/app/crud/crud_compliance.py:40-44 | after seeding, every seed control name has a row |
| Compliance.SeedControlsAddsOnlyAbsent | api/app/crud/crud_compliance.py:40-54 | every added control had no row before, carries a seed name, and is linked to exactly the cited frameworks that exist |
| Compliance.SeedControlsKeepsInvariant | api/app/crud/crud_compliance.py:40-54 | seeding keeps the control table numbered, its names unique, and every control's links repeat-free and naming existing frameworks |
| Compliance.CitationsDistinct | api/app/crud/crud_compliance.py:19-28 | no control cites the same framework twice |
| Compliance.SeedControlsNoChange | api/app/crud/crud_compliance.py:40-41 | when every seed control is present, seeding leaves the table unchanged |
| Compliance.SeedControlsIdempotent | api/app/crud/crud_compliance.py:40-54 | seeding the controls twice equals seeding them once |
| Compliance.SeedIdempotent | api/app/crud/crud_compliance.py:30-54 | running the whole seeding twice leaves both tables as running it once does |
| Compliance.SeedEmptyFrameworks | api/app/crud/crud_compliance.py:6-9 | seeding an empty table gives NIST 800-53 Rev 5 as framework 1 and ISO 27001 2022 as framework 2 |
| Compliance.SeededLinks | api/app/crud/crud_compliance.py:19-28 | on the table seeding builds from empty (NIST 800-53 as id 1, ISO 27001 as id 2), each seed control's citations link frameworks 1 and 2, in that order |
| Compliance.SeedEmptyStore | api/app/crud/crud_compliance.py:30-54 | seeding an empty store gives both frameworks and both seed controls with their CIA domains, each control linked to both frameworks |
| Findings.AssetIndex | api/app/crud/crud_findings.py:9 | the first asset with that address, or None exactly when none has it |
| Findings.FindingIndex | api/app/crud/crud_compliance.py:61 | the first finding with that id, or None exactly when none has it |
| Findings.FindingIndexNumbered | api/app/crud/crud_compliance.py:61-63 | in a numbered table, id n is found at row n − 1 and an id outside 1..size is not found |
| Findings.NewFinding | api/app/crud/crud_findings.py:33-39 | the row create_finding inserts: the asset id and the finding's title, source, severity and evidence, the insertion time and no control links; specified through Store.Database.CreateFinding |
| Findings.GetOrCreateAsset | api/app/crud/crud_findings.py:11-26 | an existing asset with the address is returned with the table unchanged; otherwise exactly one asset with the finding's name and address and type "Server" is appended and returned |
| Findings.GetOrCreateKeepsInvariant | api/app/crud/crud_findings.py:11-26 | get-or-create keeps the asset table numbered and its addresses unique |
| Findings.GetOrCreateExactlyOne | api/app/crud/crud_findings.py:11-26 | afterwards the returned asset is in the table and is the only asset with that address |
| Findings.GetOrCreateIdempotent | api/app/crud/crud_findings.py:13-15 | a second call with the same address returns the same asset and leaves the table as the first call did |
| Store.Database.GetAssetByIp | api/app/crud/crud_findings.py:7-9 | the result is an asset of the table with that address, or None exactly when no asset has it |
| Store.Database.CreateAssetIfNotExists | api/app/crud/crud_findings.py:11-26 | the returned asset and new asset table are those of `GetOrCreateAsset`; the other tables are unchanged and `Valid()` is kept |
| Store.Database.CreateFinding | api/app/crud/crud_findings.py:30-43 | on an existing asset, exactly one finding is appended, carrying the next id, the asset id and the copied fields; on an unknown asset it fails with nothing changed; other tables are unchanged |
| Store.Database.LinkedFrameworkIds | api/app/crud/crud_compliance.py:49-53 | the loop collects exactly `FrameworkLinks` of the citations |
| Store.Database.SeedFrameworkTable | api/app/crud/crud_compliance.py:32-37 | the framework loop produces `SeedFrameworks` of the old table; nothing else changes |
| Store.Database.SeedControlTable | api/app/crud/crud_compliance.py:39-54 | the control loop produces `SeedControls` of the old table; nothing else changes |
| Store.Database.SeedInitialComplianceData | api/app/crud/crud_compliance.py:30-54 | the new framework and control tables are `Seed` of the old ones; assets and findings are unchanged; `Valid()` is kept |
| Store.Database.MapFindingToControls | api/app/crud/crud_compliance.py:56-97 | an unknown finding id gives [] and changes nothing; otherwise only that finding's control list changes, it becomes `MapControls` of the old list and is returned; `Valid()` is kept |

## Left out

- HTTP routers, application start-up, CSV parsing and file upload: FastAPI and pandas plumbing outside the core. The upload route only normalises rows and persists nothing.
- Analytics queries, report rendering, AI summaries and the UI: SQL aggregation, templating, a network call and a React component, none part of the core.
- ORM sessions, `merge`, `commit` and `refresh`: replaced by the in-memory `Store.Database`. Transaction boundaries and partial writes are not modelled.
- Concurrent creation of the same asset: no code coordinates it, and the model is sequential.
- The risk table: no core function persists a `RiskCreate`, so the store has no risk rows.
- The framework-specific control references ("CM-3", "A.12.6.1", …): the schema does not store them, so links carry only framework ids.
- Non-text cells of a raw row: a row is a `map<string, string>`. Numbers, NaN markers and nested values of the evidence map are not modelled.
- `ingestion_date`: the `datetime.utcnow` default is the parameter `now` of `CreateFinding`.
- Floating point: scores are exact integer products, so `float` is modelled as `int`.
- Text.Upper: only ASCII letters change case, and the length never changes. Python's `str.upper()` also maps non-ASCII letters and can change the length ("ß" becomes "SS"). So a code such as "hıgh", with a dotless i, upper-cases to "HIGH" in Python and normalises to High there; in the model it normalises to Low.
- Text.Lower: only ASCII letters change case. Python's `str.lower()` also maps non-ASCII letters, so a non-ASCII title can match a keyword in Python and not in the model.
- Store.Database.CreateFinding: a refused insert uses up no id here. The database's id sequence skips one, so after a refused insert the source gives the next finding id |findings| + 2 where the model gives |findings| + 1. The model numbers rows without gaps.
- Store.Database.CreateFinding: the refusal of an unknown asset id is the store's foreign-key check, reported as `UnknownAsset`. The source raises a database error at commit instead.
