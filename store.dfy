/** The persistence store the crud functions work on, as one object holding
    the asset, finding, control and framework tables. Each method updates the
    tables as the matching crud function does and is specified by the
    functions of Findings and Compliance. */
module Store {
  import opened Wrappers
  import opened Schemas
  import opened Findings
  import opened Compliance

  /** Why an insert is refused by the store. */
  datatype StoreError = UnknownAsset

  class Database {
    var assets: seq<Asset>
    var findings: seq<Finding>
    var controls: seq<Control>
    var frameworks: seq<Framework>

    /** The store's invariant: numbered rows, unique addresses and names,
        every finding on an existing asset, and link lists that name
        existing rows and hold no id twice. */
    ghost predicate Valid()
      reads this
    {
      && AssetsNumbered(assets) && UniqueIps(assets)
      && FindingsNumbered(findings)
      && ControlsNumbered(controls) && UniqueControlNames(controls)
      && FrameworksNumbered(frameworks) && UniqueFrameworkNames(frameworks)
      && (forall i :: 0 <= i < |findings| ==> 1 <= findings[i].assetId <= |assets|)
      && (forall i :: 0 <= i < |findings| ==>
            NoDuplicates(findings[i].controls) && IdsWithin(findings[i].controls, |controls|))
      && (forall i :: 0 <= i < |controls| ==>
            NoDuplicates(controls[i].frameworks) && IdsWithin(controls[i].frameworks, |frameworks|))
    }

    constructor ()
      ensures Valid()
      ensures assets == [] && findings == [] && controls == [] && frameworks == []
    {
      assets, findings, controls, frameworks := [], [], [], [];
    }

    /** `get_asset_by_ip`: the asset with this address, if there is one. */
    function GetAssetByIp(ip: string): (r: Option<Asset>)
      reads this
      ensures r.Some? ==> r.value in assets && r.value.ipAddress == ip
      ensures r.None? <==> forall i :: 0 <= i < |assets| ==> assets[i].ipAddress != ip
    {
      match AssetIndex(assets, ip)
      case Some(i) => Some(assets[i])
      case None => None
    }

    /** `create_asset_if_not_exists`: return the asset with the finding's
        address, adding one only when there is none. */
    method CreateAssetIfNotExists(finding: FindingCreate) returns (asset: Asset)
      requires Valid()
      modifies this
      ensures Valid()
      ensures (asset, assets) == GetOrCreateAsset(old(assets), finding)
      ensures findings == old(findings) && controls == old(controls) && frameworks == old(frameworks)
    {
      var existing := GetAssetByIp(finding.ipAddress);
      if existing.Some? {
        return existing.value;
      }
      asset := Asset(|assets| + 1, finding.assetName, finding.ipAddress, DefaultAssetType);
      assets := assets + [asset];
      GetOrCreateKeepsInvariant(old(assets), finding);
    }

    /** `create_finding`: add one finding on the given asset; the foreign key
        of the finding table refuses an id that names no asset. */
    method CreateFinding(finding: FindingCreate, assetId: int, now: int) returns (r: Result<Finding, StoreError>)
      requires Valid()
      modifies this
      ensures Valid()
      ensures 1 <= assetId <= |assets| ==>
        r == Success(NewFinding(|old(findings)| + 1, finding, assetId, now)) &&
        findings == old(findings) + [r.value]
      ensures !(1 <= assetId <= |assets|) ==> r == Failure(UnknownAsset) && findings == old(findings)
      ensures assets == old(assets) && controls == old(controls) && frameworks == old(frameworks)
    {
      if !(1 <= assetId <= |assets|) {
        return Failure(UnknownAsset);
      }
      var row := NewFinding(|findings| + 1, finding, assetId, now);
      findings := findings + [row];
      r := Success(row);
    }

    /** The inner loop of seeding: the ids of the cited frameworks the table holds. */
    method LinkedFrameworkIds(citations: seq<(string, string)>) returns (ids: seq<nat>)
      ensures ids == FrameworkLinks(frameworks, citations)
    {
      ids := [];
      var k := 0;
      while k < |citations|
        invariant 0 <= k <= |citations|
        invariant ids + FrameworkLinks(frameworks, citations[k..]) == FrameworkLinks(frameworks, citations)
      {
        var found := FrameworkIndex(frameworks, citations[k].0);
        var step := if found.Some? then [frameworks[found.value].id] else [];
        FrameworkLinksFirst(frameworks, citations[k..]);
        assert citations[k..][1..] == citations[k + 1..];
        ids := ids + step;
        k := k + 1;
      }
    }

    /** Step 1 of seeding: add the seed frameworks that are missing. */
    method SeedFrameworkTable()
      modifies this
      ensures frameworks == SeedFrameworks(old(frameworks), FrameworkData)
      ensures assets == old(assets) && findings == old(findings) && controls == old(controls)
    {
      var i := 0;
      while i < |FrameworkData|
        invariant 0 <= i <= |FrameworkData|
        invariant SeedFrameworks(frameworks, FrameworkData[i..]) == SeedFrameworks(old(frameworks), FrameworkData)
        invariant assets == old(assets) && findings == old(findings) && controls == old(controls)
      {
        var (name, version) := FrameworkData[i];
        assert FrameworkData[i..][1..] == FrameworkData[i + 1..];
        if FrameworkIndex(frameworks, name).None? {
          frameworks := frameworks + [Framework(|frameworks| + 1, name, version)];
        }
        i := i + 1;
      }
    }

    /** Step 2 of seeding: add the seed controls that are missing, each new
        one linked to the frameworks cited for it. */
    method SeedControlTable()
      modifies this
      ensures controls == SeedControls(old(controls), frameworks, ControlData)
      ensures assets == old(assets) && findings == old(findings) && frameworks == old(frameworks)
    {
      var j := 0;
      while j < |ControlData|
        invariant 0 <= j <= |ControlData|
        invariant SeedControls(controls, frameworks, ControlData[j..]) == SeedControls(old(controls), frameworks, ControlData)
        invariant assets == old(assets) && findings == old(findings) && frameworks == old(frameworks)
      {
        var item := ControlData[j];
        assert ControlData[j..][1..] == ControlData[j + 1..];
        if ControlIndex(controls, item.controlName).None? {
          var links := LinkedFrameworkIds(CitationsFor(item.controlName));
          controls := controls + [Control(|controls| + 1, item.controlName, item.ciaDomain, links)];
        }
        j := j + 1;
      }
    }

    /** `seed_initial_compliance_data`: add the seed frameworks and controls
        that are missing, linking each new control to its cited frameworks. */
    method SeedInitialComplianceData()
      requires Valid()
      modifies this
      ensures Valid()
      ensures (frameworks, controls) == Seed(old(frameworks), old(controls))
      ensures assets == old(assets) && findings == old(findings)
    {
      SeedFrameworkTable();
      SeedFrameworksKeepsInvariant(old(frameworks), FrameworkData);
      SeedFrameworksExtends(old(frameworks), FrameworkData);
      forall i | 0 <= i < |controls|
        ensures IdsWithin(controls[i].frameworks, |frameworks|)
      {
        IdsWithinWider(controls[i].frameworks, |old(frameworks)|, |frameworks|);
      }
      SeedControlsKeepsInvariant(controls, frameworks, ControlData);
      SeedControlsExtends(controls, frameworks, ControlData);
      SeedControlTable();
      forall i | 0 <= i < |findings|
        ensures IdsWithin(findings[i].controls, |controls|)
      {
        IdsWithinWider(findings[i].controls, |old(controls)|, |controls|);
      }
    }

    /** `map_finding_to_controls`: link the finding with this id to the
        controls its title selects, skipping controls that are missing or
        linked already, and return its control list; with no such finding,
        return nothing and change nothing. */
    method MapFindingToControls(findingId: int, title: string) returns (linked: seq<nat>)
      requires Valid()
      modifies this
      ensures Valid()
      ensures FindingIndex(old(findings), findingId).None? ==> linked == [] && findings == old(findings)
      ensures FindingIndex(old(findings), findingId).Some? ==>
        var i := FindingIndex(old(findings), findingId).value;
        && linked == MapControls(old(findings)[i].controls, controls, title)
        && findings == old(findings)[i := old(findings)[i].(controls := linked)]
      ensures assets == old(assets) && controls == old(controls) && frameworks == old(frameworks)
    {
      var found := FindingIndex(findings, findingId);
      if found.None? {
        return [];
      }
      var i := found.value;
      var names := SelectControlNames(title);
      linked := findings[i].controls;
      var k := 0;
      while k < |names|
        invariant 0 <= k <= |names|
        invariant LinkControls(linked, controls, names[k..]) == MapControls(findings[i].controls, controls, title)
      {
        var c := ControlIndex(controls, names[k]);
        assert names[k..][1..] == names[k + 1..];
        if c.Some? && controls[c.value].id !in linked {
          linked := linked + [controls[c.value].id];
        }
        k := k + 1;
      }
      LinkControlsNoDuplicates(findings[i].controls, controls, names);
      LinkControlsWithin(findings[i].controls, controls, names);
      findings := findings[i := findings[i].(controls := linked)];
    }
  }
}
