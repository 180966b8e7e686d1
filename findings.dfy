/** Asset and finding persistence as functions on table contents
    (api/app/crud/crud_findings.py): lookup by address, get-or-create of an
    asset, and the finding row `create_finding` inserts. */
module Findings {
  import opened Wrappers
  import opened Query
  import opened Schemas

  /** The type every asset created from a finding gets. */
  const DefaultAssetType := "Server"

  /** The first asset row with this address. */
  function AssetIndex(assets: seq<Asset>, ip: string): (r: Option<nat>)
    ensures r.Some? ==> r.value < |assets| && assets[r.value].ipAddress == ip
    ensures r.Some? ==> forall j :: 0 <= j < r.value ==> assets[j].ipAddress != ip
    ensures r.None? <==> forall j :: 0 <= j < |assets| ==> assets[j].ipAddress != ip
  {
    First(assets, (a: Asset) => a.ipAddress == ip)
  }

  /** The first finding row with this id. */
  function FindingIndex(findings: seq<Finding>, id: int): (r: Option<nat>)
    ensures r.Some? ==> r.value < |findings| && findings[r.value].id == id
    ensures r.None? <==> forall j :: 0 <= j < |findings| ==> findings[j].id != id
  {
    First(findings, (f: Finding) => f.id == id)
  }

  /** In a numbered finding table, id `n` is row `n - 1`, and ids outside
      1..|findings| find nothing. */
  lemma FindingIndexNumbered(findings: seq<Finding>, id: int)
    requires FindingsNumbered(findings)
    ensures 1 <= id <= |findings| ==> FindingIndex(findings, id) == Some(id - 1)
    ensures !(1 <= id <= |findings|) ==> FindingIndex(findings, id) == None
  {
    if 1 <= id <= |findings| {
      assert findings[id - 1].id == id;
    }
  }

  /** The asset `create_asset_if_not_exists` returns and the asset table after it:
      the existing asset with the finding's address and the table as it was,
      or else a new "Server" asset named after the finding, appended. */
  function GetOrCreateAsset(assets: seq<Asset>, finding: FindingCreate): (r: (Asset, seq<Asset>))
    ensures r.0.ipAddress == finding.ipAddress
    ensures AssetIndex(assets, finding.ipAddress).Some? ==>
      r.1 == assets && r.0 == assets[AssetIndex(assets, finding.ipAddress).value]
    ensures AssetIndex(assets, finding.ipAddress).None? ==>
      r.1 == assets + [r.0] &&
      r.0 == Asset(|assets| + 1, finding.assetName, finding.ipAddress, DefaultAssetType)
  {
    match AssetIndex(assets, finding.ipAddress)
    case Some(i) => (assets[i], assets)
    case None =>
      var asset := Asset(|assets| + 1, finding.assetName, finding.ipAddress, DefaultAssetType);
      (asset, assets + [asset])
  }

  /** Get-or-create keeps the asset table numbered and its addresses unique. */
  lemma GetOrCreateKeepsInvariant(assets: seq<Asset>, finding: FindingCreate)
    requires AssetsNumbered(assets) && UniqueIps(assets)
    ensures AssetsNumbered(GetOrCreateAsset(assets, finding).1)
    ensures UniqueIps(GetOrCreateAsset(assets, finding).1)
  {
  }

  /** Afterwards the returned asset is in the table and is the only asset
      with the finding's address. */
  lemma GetOrCreateExactlyOne(assets: seq<Asset>, finding: FindingCreate)
    requires UniqueIps(assets)
    ensures GetOrCreateAsset(assets, finding).0 in GetOrCreateAsset(assets, finding).1
    ensures forall i :: 0 <= i < |GetOrCreateAsset(assets, finding).1| &&
                        GetOrCreateAsset(assets, finding).1[i].ipAddress == finding.ipAddress
                        ==> GetOrCreateAsset(assets, finding).1[i] == GetOrCreateAsset(assets, finding).0
  {
    var (asset, table) := GetOrCreateAsset(assets, finding);
    if AssetIndex(assets, finding.ipAddress).None? {
      assert table[|assets|] == asset;
    }
  }

  /** A second get-or-create with the same address, whatever the rest of the
      finding says, returns the same asset and leaves the table alone. */
  lemma GetOrCreateIdempotent(assets: seq<Asset>, first: FindingCreate, second: FindingCreate)
    requires second.ipAddress == first.ipAddress
    ensures GetOrCreateAsset(GetOrCreateAsset(assets, first).1, second) == GetOrCreateAsset(assets, first)
  {
    var (asset, table) := GetOrCreateAsset(assets, first);
    if AssetIndex(assets, first.ipAddress).None? {
      assert table[|assets|] == asset;
      var k := AssetIndex(table, first.ipAddress).value;
      assert k == |assets|;
    }
  }

  /** The finding row `create_finding` inserts: the normalised fields of the
      finding, the given asset, the insertion time and no control links yet. */
  function NewFinding(id: nat, finding: FindingCreate, assetId: int, now: int): Finding
  {
    Finding(id, assetId, finding.normalizedTitle, finding.sourceType, finding.normalizedSeverity,
            finding.rawEvidence, now, [])
  }
}
