/** The asset service: create, look up, partially update, delete and list assets. */
module AssetService {
  import opened Results
  import opened Models

  /** Looks an asset up by id; fails with `AssetNotFound(id)` exactly when no row has that id. */
  function GetAsset(db: Store, id: int): (r: Result<Asset>)
    reads db`assets
    ensures r.Err? <==> forall k :: 0 <= k < |db.assets| ==> db.assets[k].id != id
    ensures r.Err? ==> r.error == AssetNotFound(id)
    ensures r.Ok? ==> r.value in db.assets && r.value.id == id
  {
    match AssetIndex(db.assets, id)
    case None => Err(AssetNotFound(id))
    case Some(k) => Ok(db.assets[k])
  }

  /** Every stored asset, in table order. */
  function GetAllAssets(db: Store): (r: seq<Asset>)
    reads db`assets
    ensures |r| == |db.assets|
    ensures forall a :: a in r <==> a in db.assets
  {
    db.assets
  }

  /**
   * Inserts an asset with the given name and price under the next autoincrement
   * id, which no stored asset has; a lookup of that id then returns it.
   */
  method CreateAsset(db: Store, name: string, price: real) returns (a: Asset)
    requires db.Valid()
    modifies db`assets, db`nextAssetId
    ensures db.Valid()
    ensures a.name == name && a.price == price
    ensures forall k :: 0 <= k < |old(db.assets)| ==> old(db.assets)[k].id != a.id
    ensures db.assets == old(db.assets) + [a]
    ensures GetAsset(db, a.id) == Ok(a)
  {
    a := Asset(db.nextAssetId, name, price);
    db.assets := db.assets + [a];
    db.nextAssetId := db.nextAssetId + 1;
    assert db.assets[|db.assets| - 1] == a;
  }

  /**
   * The asset after a partial update: a name replaces the old one only when it
   * is given and not empty, a price only when it is given and not zero (the
   * service tests both for truth, so "" and 0.0 count as omitted).
   */
  function Updated(a: Asset, name: Option<string>, price: Option<real>): (r: Asset)
    ensures r.id == a.id
    ensures r.name == (if name.Some? && name.value != "" then name.value else a.name)
    ensures r.price == (if price.Some? && price.value != 0.0 then price.value else a.price)
  {
    var a1 := if name.Some? && name.value != "" then a.(name := name.value) else a;
    if price.Some? && price.value != 0.0 then a1.(price := price.value) else a1
  }

  /**
   * Partially updates an asset in place. An absent id fails with
   * `AssetNotFound(id)` and changes nothing; otherwise only that row changes,
   * and it becomes `Updated` of its old value.
   */
  method UpdateAsset(db: Store, id: int, name: Option<string>, price: Option<real>) returns (r: Result<Asset>)
    requires db.Valid()
    modifies db`assets
    ensures db.Valid()
    ensures old(GetAsset(db, id)).Err? ==> r == Err(AssetNotFound(id)) && db.assets == old(db.assets)
    ensures old(GetAsset(db, id)).Ok? ==>
      && r == Ok(Updated(old(GetAsset(db, id)).value, name, price))
      && |db.assets| == |old(db.assets)|
      && (forall k :: 0 <= k < |db.assets| ==> db.assets[k] == if old(db.assets)[k].id == id then r.value else old(db.assets)[k])
      && GetAsset(db, id) == r
  {
    var found := AssetIndex(db.assets, id);
    if found.None? {
      return Err(AssetNotFound(id));
    }
    var k := found.value;
    var asset := db.assets[k];
    if name.Some? && name.value != "" {
      asset := asset.(name := name.value);
    }
    if price.Some? && price.value != 0.0 {
      asset := asset.(price := price.value);
    }
    db.assets := db.assets[k := asset];
    r := Ok(asset);
  }

  /**
   * Deletes an asset. An absent id fails with `AssetNotFound(id)` and changes
   * nothing; otherwise exactly that row is removed, so a later lookup fails.
   */
  method DeleteAsset(db: Store, id: int) returns (r: Result<()>)
    requires db.Valid()
    modifies db`assets
    ensures db.Valid()
    ensures old(GetAsset(db, id)).Err? ==> r == Err(AssetNotFound(id)) && db.assets == old(db.assets)
    ensures old(GetAsset(db, id)).Ok? ==>
      && r == Ok(())
      && |db.assets| == |old(db.assets)| - 1
      && (forall a :: a in db.assets <==> a in old(db.assets) && a.id != id)
      && GetAsset(db, id) == Err(AssetNotFound(id))
  {
    var found := AssetIndex(db.assets, id);
    if found.None? {
      return Err(AssetNotFound(id));
    }
    var k := found.value;
    DeleteRowKeepsOthers(db.assets, k);
    db.assets := db.assets[..k] + db.assets[k + 1..];
    r := Ok(());
  }

  /** Row `j` of the table without row `k` is row `j` or `j + 1` of the table. */
  lemma DeletedAssetIndex(assets: seq<Asset>, k: nat)
    requires k < |assets|
    ensures var r := assets[..k] + assets[k + 1..];
      && |r| == |assets| - 1
      && forall j :: 0 <= j < |r| ==> r[j] == if j < k then assets[j] else assets[j + 1]
  {
  }

  /** Deleting row `k` from a table with unique ids keeps the ids unique. */
  lemma DeleteKeepsUniqueIds(assets: seq<Asset>, k: nat)
    requires UniqueAssetIds(assets) && k < |assets|
    ensures UniqueAssetIds(assets[..k] + assets[k + 1..])
  {
    var r := assets[..k] + assets[k + 1..];
    DeletedAssetIndex(assets, k);
    forall i, j | 0 <= i < j < |r| ensures r[i].id != r[j].id {
      var i', j' := if i < k then i else i + 1, if j < k then j else j + 1;
      assert r[i] == assets[i'] && r[j] == assets[j'] && i' < j';
    }
  }

  /**
   * Deleting row `k` from a table with unique ids keeps the ids unique and
   * removes exactly the rows with that row's id.
   */
  lemma DeleteRowKeepsOthers(assets: seq<Asset>, k: nat)
    requires UniqueAssetIds(assets) && k < |assets|
    ensures var r := assets[..k] + assets[k + 1..];
      && |r| == |assets| - 1
      && UniqueAssetIds(r)
      && (forall a :: a in r <==> a in assets && a.id != assets[k].id)
  {
    var r := assets[..k] + assets[k + 1..];
    DeletedAssetIndex(assets, k);
    DeleteKeepsUniqueIds(assets, k);
    DeleteKeepsOtherAssets(assets, k);
    DeleteKeepsNoOtherAsset(assets, k);
  }

  lemma DeleteKeepsOtherAssets(assets: seq<Asset>, k: nat)
    requires k < |assets|
    ensures forall a :: a in assets && a.id != assets[k].id ==> a in assets[..k] + assets[k + 1..]
  {
    var r := assets[..k] + assets[k + 1..];
    DeletedAssetIndex(assets, k);
    forall a | a in assets && a.id != assets[k].id ensures a in r {
      var i :| 0 <= i < |assets| && assets[i] == a;
      if i < k { assert r[i] == a; } else { assert r[i - 1] == a; }
    }
  }

  lemma DeleteKeepsNoOtherAsset(assets: seq<Asset>, k: nat)
    requires UniqueAssetIds(assets) && k < |assets|
    ensures forall a :: a in assets[..k] + assets[k + 1..] ==> a in assets && a.id != assets[k].id
  {
    var r := assets[..k] + assets[k + 1..];
    DeletedAssetIndex(assets, k);
    forall a | a in r ensures a in assets && a.id != assets[k].id {
      var j :| 0 <= j < |r| && r[j] == a;
      if j < k { assert assets[j] == a; } else { assert assets[j + 1] == a; }
    }
  }
}
