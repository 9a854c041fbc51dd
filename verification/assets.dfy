/** The asset vault: a flat, newest-first list of named links
    (src/App.jsx, `addAsset` and the vault's add button). */
module Assets {
  import opened Wrappers
  import opened Seqs

  /** A named link, identified by the clock reading at creation. */
  datatype Asset = Asset(id: int, name: string, url: string)

  /** The key an asset is identified by. */
  function AssetKey(a: Asset): int {
    a.id
  }

  /** `addAsset(name, url)` with the clock reading `id`: the new asset goes
      first and the old ones follow unchanged. */
  function AddAsset(assets: seq<Asset>, name: string, url: string, id: int): (r: seq<Asset>)
    ensures |r| == |assets| + 1
    ensures r[0].id == id && r[0].name == name && r[0].url == url
    ensures r[1..] == assets
  {
    [Asset(id, name, url)] + assets
  }

  /** The vault's add button with the two prompt answers (None when cancelled):
      the asset is added only when both answers are non-empty. */
  function AddAssetFromPrompts(assets: seq<Asset>, name: Option<string>, url: Option<string>, id: int): (r: seq<Asset>)
    ensures |r| == |assets| + 1 <==> name.Some? && name.value != "" && url.Some? && url.value != ""
    ensures |r| != |assets| + 1 ==> r == assets
    ensures |r| == |assets| + 1 ==> r[0] == Asset(id, name.value, url.value) && r[1..] == assets
  {
    if name.Some? && name.value != "" && url.Some? && url.value != "" then
      AddAsset(assets, name.value, url.value, id)
    else assets
  }

  /** An asset added under a fresh id keeps asset ids unique. */
  lemma AddAssetKeepsDistinct(assets: seq<Asset>, name: Option<string>, url: Option<string>, id: int)
    requires DistinctBy(assets, AssetKey)
    requires FreshKey(assets, AssetKey, id)
    ensures DistinctBy(AddAssetFromPrompts(assets, name, url, id), AssetKey)
  {
    var r := AddAssetFromPrompts(assets, name, url, id);
    if |r| == |assets| + 1 {
      PrependFresh(assets, AssetKey, r[0]);
      assert r == [r[0]] + assets;
    }
  }
}
