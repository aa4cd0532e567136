/**
 * The portfolio service: a user's single portfolio, the holdings in it, and
 * its value at current asset prices.
 *
 * The changes to the holdings table are specified by the functions
 * `AddToHoldings` and `RemoveFromHoldings`; the service's methods are proved to
 * perform exactly those changes, and the lemmas at the end say what the changes
 * do to the holdings and to a portfolio's value.
 */
module PortfolioService {
  import opened Results
  import opened Models

  /** Looks up the portfolio of a user; fails with `PortfolioNotFound` exactly when the user has none. */
  function GetPortfolio(db: Store, userId: int): (r: Result<Portfolio>)
    reads db`portfolios
    ensures r.Err? <==> forall k :: 0 <= k < |db.portfolios| ==> db.portfolios[k].userId != userId
    ensures r.Err? ==> r.error == PortfolioNotFound
    ensures r.Ok? ==> r.value in db.portfolios && r.value.userId == userId
  {
    match PortfolioIndex(db.portfolios, userId)
    case None => Err(PortfolioNotFound)
    case Some(k) => Ok(db.portfolios[k])
  }

  /**
   * Creates the portfolio of a user. A user who already has one gets
   * `PortfolioExists` and nothing changes; otherwise one portfolio with a
   * fresh id is added, and looking up the user's portfolio then finds it.
   * Whether the user exists is not checked here.
   */
  method CreatePortfolio(db: Store, userId: int) returns (r: Result<Portfolio>)
    requires db.Valid()
    modifies db`portfolios, db`nextPortfolioId
    ensures db.Valid()
    ensures old(GetPortfolio(db, userId)).Ok? ==>
      r == Err(PortfolioExists) && db.portfolios == old(db.portfolios)
    ensures old(GetPortfolio(db, userId)).Err? ==>
      && r.Ok? && r.value.userId == userId
      && (forall k :: 0 <= k < |old(db.portfolios)| ==> old(db.portfolios)[k].id != r.value.id)
      && db.portfolios == old(db.portfolios) + [r.value]
      && GetPortfolio(db, userId) == r
  {
    if PortfolioIndex(db.portfolios, userId).Some? {
      return Err(PortfolioExists);
    }
    var portfolio := Portfolio(db.nextPortfolioId, userId);
    db.portfolios := db.portfolios + [portfolio];
    db.nextPortfolioId := db.nextPortfolioId + 1;
    assert db.portfolios[|db.portfolios| - 1] == portfolio;
    r := Ok(portfolio);
  }

  // ---------------------------------------------------------------------------
  // The holdings table

  /** The holding of asset `assetId` in portfolio `portfolioId`, if any. */
  function HoldingOf(holdings: seq<Holding>, portfolioId: int, assetId: int): (r: Option<Holding>)
    ensures r.Some? ==> r.value in holdings && r.value.portfolioId == portfolioId && r.value.assetId == assetId
    ensures r.None? <==> forall h :: h in holdings ==> !(h.portfolioId == portfolioId && h.assetId == assetId)
  {
    match HoldingIndex(holdings, portfolioId, assetId)
    case None => None
    case Some(k) => Some(holdings[k])
  }

  /** How many units of the asset the portfolio holds (0 when there is no holding). */
  function HeldQuantity(holdings: seq<Holding>, portfolioId: int, assetId: int): (q: int)
    ensures HoldingsValid(holdings) ==> (q > 0 <==> HoldingOf(holdings, portfolioId, assetId).Some?)
    ensures HoldingsValid(holdings) ==> q >= 0
  {
    match HoldingOf(holdings, portfolioId, assetId)
    case None => 0
    case Some(h) => h.quantity
  }

  predicate IsPair(h: Holding, portfolioId: int, assetId: int) {
    h.portfolioId == portfolioId && h.assetId == assetId
  }

  /** In a valid table, a stored row is the row of its pair. */
  lemma RowOfPair(holdings: seq<Holding>, k: nat)
    requires HoldingsValid(holdings) && k < |holdings|
    ensures HoldingIndex(holdings, holdings[k].portfolioId, holdings[k].assetId) == Some(k)
    ensures HoldingOf(holdings, holdings[k].portfolioId, holdings[k].assetId) == Some(holdings[k])
    ensures HeldQuantity(holdings, holdings[k].portfolioId, holdings[k].assetId) == holdings[k].quantity
  {
    var p, a := holdings[k].portfolioId, holdings[k].assetId;
    assert IsPair(holdings[k], p, a);
    var i := HoldingIndex(holdings, p, a).value;
    assert i == k;
  }

  /** Setting the quantity of row `k` keeps every other row. */
  lemma SetQuantityKeepsOtherRows(holdings: seq<Holding>, k: nat, quantity: int)
    requires k < |holdings|
    ensures var r := holdings[k := holdings[k].(quantity := quantity)];
      && (forall h :: h in holdings && !IsPair(h, holdings[k].portfolioId, holdings[k].assetId) ==> h in r)
      && (forall h :: h in r && !IsPair(h, holdings[k].portfolioId, holdings[k].assetId) ==> h in holdings)
  {
    var r := holdings[k := holdings[k].(quantity := quantity)];
    var p, a := holdings[k].portfolioId, holdings[k].assetId;
    forall h | h in holdings && !IsPair(h, p, a) ensures h in r {
      var j :| 0 <= j < |holdings| && holdings[j] == h;
      assert r[j] == h;
    }
    forall h | h in r && !IsPair(h, p, a) ensures h in holdings {
      var j :| 0 <= j < |r| && r[j] == h;
      assert holdings[j] == h;
    }
  }

  /** Setting the quantity of row `k` to a positive value keeps the table valid and every other row. */
  lemma SetQuantityKeepsRows(holdings: seq<Holding>, k: nat, quantity: int)
    requires HoldingsValid(holdings) && k < |holdings| && quantity > 0
    ensures var r := holdings[k := holdings[k].(quantity := quantity)];
      && HoldingsValid(r)
      && |r| == |holdings|
      && HoldingOf(r, holdings[k].portfolioId, holdings[k].assetId) == Some(r[k])
      && HeldQuantity(r, holdings[k].portfolioId, holdings[k].assetId) == quantity
      && (forall h :: h in holdings && !IsPair(h, holdings[k].portfolioId, holdings[k].assetId) ==> h in r)
      && (forall h :: h in r && !IsPair(h, holdings[k].portfolioId, holdings[k].assetId) ==> h in holdings)
  {
    var r := holdings[k := holdings[k].(quantity := quantity)];
    assert HoldingsValid(r) by {
      assert forall j :: 0 <= j < |r| ==> IsPair(r[j], holdings[j].portfolioId, holdings[j].assetId);
    }
    RowOfPair(r, k);
    SetQuantityKeepsOtherRows(holdings, k, quantity);
  }

  /** Row `j` of the table without row `k` is row `j` or `j + 1` of the table. */
  lemma DeletedRowIndex(holdings: seq<Holding>, k: nat)
    requires k < |holdings|
    ensures var r := holdings[..k] + holdings[k + 1..];
      && |r| == |holdings| - 1
      && forall j :: 0 <= j < |r| ==> r[j] == if j < k then holdings[j] else holdings[j + 1]
  {
  }

  /** Deleting row `k` keeps every other row and leaves none for its pair (by the uniqueness of pairs). */
  lemma DeleteKeepsOtherRows(holdings: seq<Holding>, k: nat)
    requires HoldingsValid(holdings) && k < |holdings|
    ensures var r := holdings[..k] + holdings[k + 1..];
      && (forall h :: h in holdings && !IsPair(h, holdings[k].portfolioId, holdings[k].assetId) ==> h in r)
      && (forall h :: h in r ==> h in holdings && !IsPair(h, holdings[k].portfolioId, holdings[k].assetId))
  {
    var r := holdings[..k] + holdings[k + 1..];
    var p, a := holdings[k].portfolioId, holdings[k].assetId;
    DeletedRowIndex(holdings, k);
    forall h | h in holdings && !IsPair(h, p, a) ensures h in r {
      var j :| 0 <= j < |holdings| && holdings[j] == h;
      if j < k { assert r[j] == h; } else { assert r[j - 1] == h; }
    }
    forall h | h in r ensures h in holdings && !IsPair(h, p, a) {
      var j :| 0 <= j < |r| && r[j] == h;
      if j < k { assert holdings[j] == h; } else { assert holdings[j + 1] == h; }
    }
  }

  /** Deleting row `k` keeps the table valid and leaves no row for its pair. */
  lemma DeleteKeepsRows(holdings: seq<Holding>, k: nat)
    requires HoldingsValid(holdings) && k < |holdings|
    ensures var r := holdings[..k] + holdings[k + 1..];
      && HoldingsValid(r)
      && |r| == |holdings| - 1
      && HoldingOf(r, holdings[k].portfolioId, holdings[k].assetId).None?
      && HeldQuantity(r, holdings[k].portfolioId, holdings[k].assetId) == 0
      && (forall h :: h in holdings && !IsPair(h, holdings[k].portfolioId, holdings[k].assetId) ==> h in r)
      && (forall h :: h in r && !IsPair(h, holdings[k].portfolioId, holdings[k].assetId) ==> h in holdings)
  {
    var r := holdings[..k] + holdings[k + 1..];
    DeletedRowIndex(holdings, k);
    DeleteKeepsOtherRows(holdings, k);
    forall i, j | 0 <= i < j < |r| ensures !IsPair(r[j], r[i].portfolioId, r[i].assetId) {
      var i', j' := if i < k then i else i + 1, if j < k then j else j + 1;
      assert r[i] == holdings[i'] && r[j] == holdings[j'] && i' < j';
    }
  }

  /** Appending a row for a pair that has none keeps the table valid and every other row. */
  lemma AppendKeepsRows(holdings: seq<Holding>, x: Holding)
    requires HoldingsValid(holdings) && x.quantity > 0 && HoldingOf(holdings, x.portfolioId, x.assetId).None?
    ensures var r := holdings + [x];
      && HoldingsValid(r)
      && |r| == |holdings| + 1
      && HoldingOf(r, x.portfolioId, x.assetId) == Some(x)
      && HeldQuantity(r, x.portfolioId, x.assetId) == x.quantity
      && (forall h :: h in holdings ==> h in r)
      && (forall h :: h in r && !IsPair(h, x.portfolioId, x.assetId) ==> h in holdings)
  {
    var r := holdings + [x];
    assert r[|holdings|] == x;
    assert forall j :: 0 <= j < |holdings| ==> r[j] == holdings[j];
    assert HoldingsValid(r) by {
      forall i, j | 0 <= i < j < |r| ensures !IsPair(r[j], r[i].portfolioId, r[i].assetId) {
        if j == |holdings| {
          assert r[i] in holdings;
        }
      }
    }
    RowOfPair(r, |holdings|);
  }

  /**
   * The holdings after adding `quantity` units of an asset bought at `price`:
   * the pair's row, if there is one, has its quantity increased; otherwise a
   * new row holds `quantity` at cost `price`.
   */
  function AddToHoldings(holdings: seq<Holding>, portfolioId: int, assetId: int, quantity: int, price: real): (r: seq<Holding>)
    requires HoldingsValid(holdings) && quantity > 0
    ensures HoldingsValid(r)
  {
    match HoldingIndex(holdings, portfolioId, assetId)
    case Some(k) =>
      SetQuantityKeepsRows(holdings, k, holdings[k].quantity + quantity);
      holdings[k := holdings[k].(quantity := holdings[k].quantity + quantity)]
    case None =>
      AppendKeepsRows(holdings, Holding(portfolioId, assetId, quantity, price));
      holdings + [Holding(portfolioId, assetId, quantity, price)]
  }

  /**
   * What adding to a holding does: the held quantity grows by exactly
   * `quantity`; an existing row keeps its cost and no second row for the pair
   * appears, while a new row has cost `price`; every other row stays as it was.
   */
  lemma AddToHoldingsEffect(holdings: seq<Holding>, portfolioId: int, assetId: int, quantity: int, price: real)
    requires HoldingsValid(holdings) && quantity > 0
    ensures var r := AddToHoldings(holdings, portfolioId, assetId, quantity, price);
      && HoldingOf(r, portfolioId, assetId).Some?
      && HeldQuantity(r, portfolioId, assetId) == HeldQuantity(holdings, portfolioId, assetId) + quantity
      && HoldingOf(r, portfolioId, assetId).value.avgCost ==
           (if HoldingOf(holdings, portfolioId, assetId).Some? then HoldingOf(holdings, portfolioId, assetId).value.avgCost else price)
      && (forall h :: h in holdings && !IsPair(h, portfolioId, assetId) ==> h in r)
      && (forall h :: h in r && !IsPair(h, portfolioId, assetId) ==> h in holdings)
      && |r| == |holdings| + (if HoldingOf(holdings, portfolioId, assetId).Some? then 0 else 1)
  {
    match HoldingIndex(holdings, portfolioId, assetId)
    case Some(k) =>
      RowOfPair(holdings, k);
      SetQuantityKeepsRows(holdings, k, holdings[k].quantity + quantity);
    case None =>
      AppendKeepsRows(holdings, Holding(portfolioId, assetId, quantity, price));
  }

  /**
   * The holdings after removing `quantity` units of an asset. No row for the
   * pair gives `NotInPortfolio`, more units than held give
   * `InsufficientQuantity`; otherwise the quantity drops in place, and the row
   * is deleted if that leaves zero.
   */
  function RemoveFromHoldings(holdings: seq<Holding>, portfolioId: int, assetId: int, quantity: int): (r: Result<seq<Holding>>)
    requires HoldingsValid(holdings) && quantity > 0
    ensures HoldingOf(holdings, portfolioId, assetId).None? ==> r == Err(NotInPortfolio(assetId))
    ensures HoldingOf(holdings, portfolioId, assetId).Some? && quantity > HeldQuantity(holdings, portfolioId, assetId) ==>
      r == Err(InsufficientQuantity(assetId, quantity, HeldQuantity(holdings, portfolioId, assetId)))
    ensures r.Ok? <==> quantity <= HeldQuantity(holdings, portfolioId, assetId)
    ensures r.Ok? ==> HoldingsValid(r.value)
  {
    match HoldingIndex(holdings, portfolioId, assetId)
    case None => Err(NotInPortfolio(assetId))
    case Some(k) =>
      var held := holdings[k].quantity;
      RowOfPair(holdings, k);
      if quantity > held then Err(InsufficientQuantity(assetId, quantity, held))
      else if held - quantity == 0 then
        DeleteKeepsRows(holdings, k);
        Ok(holdings[..k] + holdings[k + 1..])
      else
        SetQuantityKeepsRows(holdings, k, held - quantity);
        Ok(holdings[k := holdings[k].(quantity := held - quantity)])
  }

  /**
   * What a successful removal does: the held quantity drops by exactly
   * `quantity`; when nothing is left the row is deleted, otherwise it keeps its
   * cost; every other row stays as it was.
   */
  lemma RemoveFromHoldingsEffect(holdings: seq<Holding>, portfolioId: int, assetId: int, quantity: int)
    requires HoldingsValid(holdings) && quantity > 0
    requires RemoveFromHoldings(holdings, portfolioId, assetId, quantity).Ok?
    ensures var r := RemoveFromHoldings(holdings, portfolioId, assetId, quantity).value;
      && HeldQuantity(r, portfolioId, assetId) == HeldQuantity(holdings, portfolioId, assetId) - quantity
      && (quantity == HeldQuantity(holdings, portfolioId, assetId) ==>
            HoldingOf(r, portfolioId, assetId).None? && |r| == |holdings| - 1)
      && (quantity < HeldQuantity(holdings, portfolioId, assetId) ==>
            HoldingOf(r, portfolioId, assetId).value.avgCost == HoldingOf(holdings, portfolioId, assetId).value.avgCost
            && |r| == |holdings|)
      && (forall h :: h in holdings && !IsPair(h, portfolioId, assetId) ==> h in r)
      && (forall h :: h in r && !IsPair(h, portfolioId, assetId) ==> h in holdings)
  {
    var k := HoldingIndex(holdings, portfolioId, assetId).value;
    var held := holdings[k].quantity;
    RowOfPair(holdings, k);
    if held == quantity {
      DeleteKeepsRows(holdings, k);
    } else {
      SetQuantityKeepsRows(holdings, k, held - quantity);
    }
  }

  /**
   * Adding then removing the same quantity of the same asset gives back the
   * holdings table exactly: a new row is deleted again, an existing row gets
   * its old quantity back.
   */
  lemma {:induction false} AddThenRemoveRestores(holdings: seq<Holding>, portfolioId: int, assetId: int, quantity: int, price: real)
    requires HoldingsValid(holdings) && quantity > 0
    ensures RemoveFromHoldings(AddToHoldings(holdings, portfolioId, assetId, quantity, price), portfolioId, assetId, quantity) == Ok(holdings)
  {
    match HoldingIndex(holdings, portfolioId, assetId)
    case Some(k) => RaiseThenLowerRestores(holdings, k, quantity);
    case None => AppendThenDeleteRestores(holdings, Holding(portfolioId, assetId, quantity, price));
  }

  /** Raising the quantity of row `k` and lowering it by the same amount gives back the table. */
  lemma RaiseThenLowerRestores(holdings: seq<Holding>, k: nat, quantity: int)
    requires HoldingsValid(holdings) && k < |holdings| && quantity > 0
    ensures var added := holdings[k := holdings[k].(quantity := holdings[k].quantity + quantity)];
      HoldingsValid(added) && RemoveFromHoldings(added, holdings[k].portfolioId, holdings[k].assetId, quantity) == Ok(holdings)
  {
    var added := holdings[k := holdings[k].(quantity := holdings[k].quantity + quantity)];
    SetQuantityKeepsRows(holdings, k, added[k].quantity);
    RowOfPair(added, k);
    assert added[k].quantity - quantity == holdings[k].quantity > 0;
    assert added[k := added[k].(quantity := holdings[k].quantity)] == holdings;
  }

  /** Appending a row and then removing its whole quantity gives back the table. */
  lemma AppendThenDeleteRestores(holdings: seq<Holding>, x: Holding)
    requires HoldingsValid(holdings) && x.quantity > 0 && HoldingOf(holdings, x.portfolioId, x.assetId).None?
    ensures HoldingsValid(holdings + [x])
    ensures RemoveFromHoldings(holdings + [x], x.portfolioId, x.assetId, x.quantity) == Ok(holdings)
  {
    var added := holdings + [x];
    AppendKeepsRows(holdings, x);
    RowOfPair(added, |holdings|);
    assert added[..|holdings|] + added[|holdings| + 1..] == holdings;
  }

  // ---------------------------------------------------------------------------
  // Value and listing: joins of the holdings with the assets table

  /** What `quantity` units of an asset are worth at its current price; nothing if the asset row is gone. */
  function Worth(assets: seq<Asset>, assetId: int, quantity: int): real {
    match AssetIndex(assets, assetId)
    case None => 0.0
    case Some(k) => quantity as real * assets[k].price
  }

  /** What one holding row contributes to the value of portfolio `portfolioId`. */
  function RowValue(h: Holding, assets: seq<Asset>, portfolioId: int): real {
    if h.portfolioId == portfolioId then Worth(assets, h.assetId, h.quantity) else 0.0
  }

  /**
   * The sum, over the rows of the portfolio whose asset exists (an inner join),
   * of quantity times the asset's current price.
   */
  function PortfolioValue(holdings: seq<Holding>, assets: seq<Asset>, portfolioId: int): real
    decreases |holdings|
  {
    if holdings == [] then 0.0
    else PortfolioValue(holdings[..|holdings| - 1], assets, portfolioId) + RowValue(holdings[|holdings| - 1], assets, portfolioId)
  }

  /** With no negative quantities and no negative prices, a portfolio's value is not negative. */
  lemma {:induction false} PortfolioValueNotNegative(holdings: seq<Holding>, assets: seq<Asset>, portfolioId: int)
    requires forall h :: h in holdings ==> h.quantity >= 0
    requires forall a :: a in assets ==> a.price >= 0.0
    ensures PortfolioValue(holdings, assets, portfolioId) >= 0.0
    decreases |holdings|
  {
    if holdings != [] {
      var init := holdings[..|holdings| - 1];
      assert forall h :: h in init ==> h in holdings;
      PortfolioValueNotNegative(init, assets, portfolioId);
      var last := holdings[|holdings| - 1];
      if last.portfolioId == portfolioId && AssetIndex(assets, last.assetId).Some? {
        var price := assets[AssetIndex(assets, last.assetId).value].price;
        assert last.quantity as real >= 0.0 && price >= 0.0;
        assert last.quantity as real * price >= 0.0;
      }
    }
  }

  /** A portfolio without holdings is worth 0. */
  lemma {:induction false} EmptyPortfolioIsWorthZero(holdings: seq<Holding>, assets: seq<Asset>, portfolioId: int)
    requires forall h :: h in holdings ==> h.portfolioId != portfolioId
    ensures PortfolioValue(holdings, assets, portfolioId) == 0.0
    decreases |holdings|
  {
    if holdings != [] {
      var init := holdings[..|holdings| - 1];
      assert forall h :: h in init ==> h in holdings;
      EmptyPortfolioIsWorthZero(init, assets, portfolioId);
    }
  }

  lemma ValueOfAppend(holdings: seq<Holding>, x: Holding, assets: seq<Asset>, portfolioId: int)
    ensures PortfolioValue(holdings + [x], assets, portfolioId) == PortfolioValue(holdings, assets, portfolioId) + RowValue(x, assets, portfolioId)
  {
    assert (holdings + [x])[..|holdings|] == holdings;
  }

  lemma {:induction false} ValueOfSetRow(holdings: seq<Holding>, k: nat, x: Holding, assets: seq<Asset>, portfolioId: int)
    requires k < |holdings|
    ensures PortfolioValue(holdings[k := x], assets, portfolioId) ==
      PortfolioValue(holdings, assets, portfolioId) - RowValue(holdings[k], assets, portfolioId) + RowValue(x, assets, portfolioId)
    decreases |holdings|
  {
    var n := |holdings|;
    var r := holdings[k := x];
    if k < n - 1 {
      assert r[..n - 1] == holdings[..n - 1][k := x];
      ValueOfSetRow(holdings[..n - 1], k, x, assets, portfolioId);
    } else {
      assert r[..n - 1] == holdings[..n - 1];
    }
  }

  lemma {:induction false} ValueOfDeleteRow(holdings: seq<Holding>, k: nat, assets: seq<Asset>, portfolioId: int)
    requires k < |holdings|
    ensures PortfolioValue(holdings[..k] + holdings[k + 1..], assets, portfolioId) ==
      PortfolioValue(holdings, assets, portfolioId) - RowValue(holdings[k], assets, portfolioId)
    decreases |holdings|
  {
    var n := |holdings|;
    var r := holdings[..k] + holdings[k + 1..];
    if k < n - 1 {
      var init := holdings[..n - 1];
      assert r[..|r| - 1] == init[..k] + init[k + 1..];
      assert r[|r| - 1] == holdings[n - 1];
      ValueOfDeleteRow(init, k, assets, portfolioId);
    } else {
      assert r == holdings[..n - 1];
    }
  }

  /** The worth of two lots of the same asset is the sum of their worths. */
  lemma WorthOfSum(assets: seq<Asset>, assetId: int, a: int, b: int)
    ensures Worth(assets, assetId, a + b) == Worth(assets, assetId, a) + Worth(assets, assetId, b)
  {
    match AssetIndex(assets, assetId)
    case None =>
    case Some(i) =>
      var price := assets[i].price;
      assert (a + b) as real * price == a as real * price + b as real * price;
  }

  /** Raising the quantity of row `k` raises the value of its portfolio by the worth of the extra units. */
  lemma ValueOfRaisedRow(holdings: seq<Holding>, k: nat, quantity: int, assets: seq<Asset>, p: int)
    requires k < |holdings|
    ensures PortfolioValue(holdings[k := holdings[k].(quantity := holdings[k].quantity + quantity)], assets, p) ==
      PortfolioValue(holdings, assets, p) + if p == holdings[k].portfolioId then Worth(assets, holdings[k].assetId, quantity) else 0.0
  {
    var row := holdings[k].(quantity := holdings[k].quantity + quantity);
    ValueOfSetRow(holdings, k, row, assets, p);
    if p == holdings[k].portfolioId {
      WorthOfSum(assets, row.assetId, holdings[k].quantity, quantity);
      assert RowValue(row, assets, p) == RowValue(holdings[k], assets, p) + Worth(assets, row.assetId, quantity);
    }
  }

  /**
   * Adding `quantity` units of an asset raises the value of that portfolio by
   * what those units are worth at the asset's current price, whatever price
   * was paid, and leaves the value of every other portfolio unchanged.
   */
  lemma AddChangesValueByWorth(holdings: seq<Holding>, assets: seq<Asset>, portfolioId: int, assetId: int, quantity: int, price: real, p: int)
    requires HoldingsValid(holdings) && quantity > 0
    ensures PortfolioValue(AddToHoldings(holdings, portfolioId, assetId, quantity, price), assets, p) ==
      PortfolioValue(holdings, assets, p) + if p == portfolioId then Worth(assets, assetId, quantity) else 0.0
  {
    match HoldingIndex(holdings, portfolioId, assetId)
    case Some(k) =>
      assert AddToHoldings(holdings, portfolioId, assetId, quantity, price) ==
        holdings[k := holdings[k].(quantity := holdings[k].quantity + quantity)];
      ValueOfRaisedRow(holdings, k, quantity, assets, p);
    case None =>
      var row := Holding(portfolioId, assetId, quantity, price);
      assert AddToHoldings(holdings, portfolioId, assetId, quantity, price) == holdings + [row];
      ValueOfAppend(holdings, row, assets, p);
  }

  /**
   * A successful removal of `quantity` units lowers the value of that portfolio
   * by what those units are worth at the asset's current price, whether the row
   * shrinks or is deleted, and leaves every other portfolio's value unchanged.
   */
  lemma RemoveChangesValueByWorth(holdings: seq<Holding>, assets: seq<Asset>, portfolioId: int, assetId: int, quantity: int, p: int)
    requires HoldingsValid(holdings) && quantity > 0
    requires RemoveFromHoldings(holdings, portfolioId, assetId, quantity).Ok?
    ensures PortfolioValue(RemoveFromHoldings(holdings, portfolioId, assetId, quantity).value, assets, p) ==
      PortfolioValue(holdings, assets, p) - if p == portfolioId then Worth(assets, assetId, quantity) else 0.0
  {
    var k := HoldingIndex(holdings, portfolioId, assetId).value;
    var held := holdings[k].quantity;
    if held == quantity {
      assert RemoveFromHoldings(holdings, portfolioId, assetId, quantity).value == holdings[..k] + holdings[k + 1..];
      ValueOfDeleteRow(holdings, k, assets, p);
    } else {
      var row := holdings[k].(quantity := held - quantity);
      assert RemoveFromHoldings(holdings, portfolioId, assetId, quantity).value == holdings[k := row];
      ValueOfSetRow(holdings, k, row, assets, p);
      if p == portfolioId {
        WorthOfSum(assets, assetId, held - quantity, quantity);
        assert RowValue(holdings[k], assets, p) == RowValue(row, assets, p) + Worth(assets, assetId, quantity);
      } else {
        assert RowValue(row, assets, p) == RowValue(holdings[k], assets, p) == 0.0;
      }
    }
  }

  /** A holding row with its asset row joined in (the asset supplies the holding's name). */
  datatype Position = Position(holding: Holding, asset: Asset)

  /** The rows of the portfolio joined with their assets, in table order; rows whose asset is gone drop out. */
  function PortfolioRows(holdings: seq<Holding>, assets: seq<Asset>, portfolioId: int): (r: seq<Position>)
    ensures |r| <= |holdings|
    ensures forall x :: x in r ==>
      x.holding in holdings && x.holding.portfolioId == portfolioId && x.asset in assets && x.asset.id == x.holding.assetId
    ensures forall k :: 0 <= k < |holdings| && holdings[k].portfolioId == portfolioId && AssetIndex(assets, holdings[k].assetId).Some? ==>
      Position(holdings[k], assets[AssetIndex(assets, holdings[k].assetId).value]) in r
    decreases |holdings|
  {
    if holdings == [] then []
    else
      var n := |holdings|;
      var init := PortfolioRows(holdings[..n - 1], assets, portfolioId);
      var h := holdings[n - 1];
      assert forall k :: 0 <= k < n - 1 ==> holdings[..n - 1][k] == holdings[k];
      if h.portfolioId == portfolioId && AssetIndex(assets, h.assetId).Some? then
        init + [Position(h, assets[AssetIndex(assets, h.assetId).value])]
      else init
  }

  /**
   * Lists the holdings of a user's portfolio with their assets. No portfolio
   * gives `PortfolioNotFound`; a portfolio with nothing to list gives
   * `NoAssetsInPortfolio`.
   */
  function ListPortfolioAssets(db: Store, userId: int): (r: Result<seq<Position>>)
    reads db`portfolios, db`holdings, db`assets
    ensures GetPortfolio(db, userId).Err? ==> r == Err(PortfolioNotFound)
    ensures GetPortfolio(db, userId).Ok? ==>
      var portfolioId := GetPortfolio(db, userId).value.id;
      && (r.Err? <==> forall k :: 0 <= k < |db.holdings| && db.holdings[k].portfolioId == portfolioId ==>
                                    AssetIndex(db.assets, db.holdings[k].assetId).None?)
      && (r.Err? ==> r.error == NoAssetsInPortfolio(portfolioId))
      && (r.Ok? ==> r.value == PortfolioRows(db.holdings, db.assets, portfolioId))
  {
    match GetPortfolio(db, userId)
    case Err(e) => Err(e)
    case Ok(portfolio) =>
      var rows := PortfolioRows(db.holdings, db.assets, portfolio.id);
      if rows == [] then Err(NoAssetsInPortfolio(portfolio.id))
      else
        assert rows[0] in rows;
        Ok(rows)
  }

  /**
   * The value of a user's portfolio at current prices. A user without a
   * portfolio, and a portfolio without holdings, are worth 0 rather than an
   * error.
   */
  function CalculatePortfolioValue(db: Store, userId: int): (v: real)
    reads db`portfolios, db`holdings, db`assets
    ensures GetPortfolio(db, userId).Err? ==> v == 0.0
    ensures GetPortfolio(db, userId).Ok? ==> v == PortfolioValue(db.holdings, db.assets, GetPortfolio(db, userId).value.id)
  {
    match GetPortfolio(db, userId)
    case Err(_) => 0.0
    case Ok(portfolio) => PortfolioValue(db.holdings, db.assets, portfolio.id)
  }

  /** A user whose portfolio holds nothing has a portfolio value of 0. */
  lemma EmptyPortfolioValueIsZero(db: Store, userId: int)
    requires GetPortfolio(db, userId).Ok?
    requires forall h :: h in db.holdings ==> h.portfolioId != GetPortfolio(db, userId).value.id
    ensures CalculatePortfolioValue(db, userId) == 0.0
  {
    EmptyPortfolioIsWorthZero(db.holdings, db.assets, GetPortfolio(db, userId).value.id);
  }

  // ---------------------------------------------------------------------------
  // The service's mutating operations

  /**
   * Adds `quantity` units of an asset bought at `price` to a user's portfolio.
   * A user without a portfolio gets `PortfolioNotFound`, an asset id not in the
   * assets table gets `AssetDoesNotExist`, and in both cases the holdings stay
   * as they were. Otherwise the holdings become `AddToHoldings` of the old
   * ones, and the resulting row is returned.
   */
  method AddAssetToPortfolio(db: Store, userId: int, assetId: int, quantity: int, price: real) returns (r: Result<Holding>)
    requires db.Valid() && quantity > 0
    modifies db`holdings
    ensures db.Valid()
    ensures GetPortfolio(db, userId).Err? ==> r == Err(PortfolioNotFound) && db.holdings == old(db.holdings)
    ensures GetPortfolio(db, userId).Ok? && AssetIndex(db.assets, assetId).None? ==>
      r == Err(AssetDoesNotExist(assetId)) && db.holdings == old(db.holdings)
    ensures GetPortfolio(db, userId).Ok? && AssetIndex(db.assets, assetId).Some? ==>
      var portfolioId := GetPortfolio(db, userId).value.id;
      && db.holdings == AddToHoldings(old(db.holdings), portfolioId, assetId, quantity, price)
      && r.Ok? && HoldingOf(db.holdings, portfolioId, assetId) == Some(r.value)
  {
    var portfolio := GetPortfolio(db, userId);
    if portfolio.Err? {
      return Err(PortfolioNotFound);
    }
    var portfolioId := portfolio.value.id;
    if AssetIndex(db.assets, assetId).None? {
      return Err(AssetDoesNotExist(assetId));
    }
    var row := AddToPortfolio(db, portfolio.value, assetId, quantity, price);
    r := Ok(row);
  }

  /**
   * The update step of `AddAssetToPortfolio` once the portfolio and the asset
   * are known: raises the quantity of the existing row in place, or inserts a
   * new row, and returns the row.
   */
  method AddToPortfolio(db: Store, portfolio: Portfolio, assetId: int, quantity: int, price: real) returns (row: Holding)
    requires db.Valid() && portfolio in db.portfolios && quantity > 0
    modifies db`holdings
    ensures db.Valid()
    ensures db.holdings == AddToHoldings(old(db.holdings), portfolio.id, assetId, quantity, price)
    ensures HoldingOf(db.holdings, portfolio.id, assetId) == Some(row)
  {
    ghost var before := db.holdings;
    ghost var after := AddToHoldings(before, portfolio.id, assetId, quantity, price);
    var found := HoldingIndex(db.holdings, portfolio.id, assetId);
    if found.Some? {
      var k := found.value;
      row := db.holdings[k].(quantity := db.holdings[k].quantity + quantity);
      db.holdings := db.holdings[k := row];
      assert db.holdings == after;
    } else {
      row := Holding(portfolio.id, assetId, quantity, price);
      db.holdings := db.holdings + [row];
      assert db.holdings == after;
    }
    AddedRow(before, portfolio.id, assetId, quantity, price);
    ReferencesKept(before, after, db.portfolios, portfolio);
  }

  /** The pair's row after `AddToHoldings`: the old row with its quantity raised, or the new row. */
  lemma AddedRow(holdings: seq<Holding>, portfolioId: int, assetId: int, quantity: int, price: real)
    requires HoldingsValid(holdings) && quantity > 0
    ensures HoldingOf(AddToHoldings(holdings, portfolioId, assetId, quantity, price), portfolioId, assetId) ==
      match HoldingIndex(holdings, portfolioId, assetId)
      case Some(k) => Some(holdings[k].(quantity := holdings[k].quantity + quantity))
      case None => Some(Holding(portfolioId, assetId, quantity, price))
  {
    match HoldingIndex(holdings, portfolioId, assetId)
    case Some(k) =>
      SetQuantityKeepsRows(holdings, k, holdings[k].quantity + quantity);
    case None =>
      AppendKeepsRows(holdings, Holding(portfolioId, assetId, quantity, price));
  }

  /**
   * Removes `quantity` units of an asset from a user's portfolio. A user
   * without a portfolio gets `PortfolioNotFound`; otherwise the outcome is
   * `RemoveFromHoldings` of the old holdings: on a failure (no such holding,
   * or more units than held) the holdings stay as they were.
   */
  method RemoveAsset(db: Store, userId: int, assetId: int, quantity: int) returns (r: Result<()>)
    requires db.Valid() && quantity > 0
    modifies db`holdings
    ensures db.Valid()
    ensures GetPortfolio(db, userId).Err? ==> r == Err(PortfolioNotFound) && db.holdings == old(db.holdings)
    ensures GetPortfolio(db, userId).Ok? ==>
      match RemoveFromHoldings(old(db.holdings), GetPortfolio(db, userId).value.id, assetId, quantity)
      case Err(e) => r == Err(e) && db.holdings == old(db.holdings)
      case Ok(after) => r == Ok(()) && db.holdings == after
  {
    var portfolio := GetPortfolio(db, userId);
    if portfolio.Err? {
      return Err(PortfolioNotFound);
    }
    r := RemoveFromPortfolio(db, portfolio.value, assetId, quantity);
  }

  /**
   * The update step of `RemoveAsset` once the portfolio is known: checks the
   * holding and the quantity, then lowers the quantity in place or deletes
   * the row when nothing is left.
   */
  method RemoveFromPortfolio(db: Store, portfolio: Portfolio, assetId: int, quantity: int) returns (r: Result<()>)
    requires db.Valid() && portfolio in db.portfolios && quantity > 0
    modifies db`holdings
    ensures db.Valid()
    ensures match RemoveFromHoldings(old(db.holdings), portfolio.id, assetId, quantity)
      case Err(e) => r == Err(e) && db.holdings == old(db.holdings)
      case Ok(after) => r == Ok(()) && db.holdings == after
  {
    var found := HoldingIndex(db.holdings, portfolio.id, assetId);
    if found.None? {
      return Err(NotInPortfolio(assetId));
    }
    var k := found.value;
    var held := db.holdings[k].quantity;
    if quantity > held {
      return Err(InsufficientQuantity(assetId, quantity, held));
    }
    ghost var before := db.holdings;
    ghost var after := RemoveFromHoldings(before, portfolio.id, assetId, quantity).value;
    var row := db.holdings[k].(quantity := held - quantity);
    if row.quantity == 0 {
      db.holdings := db.holdings[..k] + db.holdings[k + 1..];
      assert db.holdings == after;
    } else {
      db.holdings := db.holdings[k := row];
      assert db.holdings == after;
    }
    ReferencesKept(before, after, db.portfolios, portfolio);
    r := Ok(());
  }

  // ---------------------------------------------------------------------------
  // Building a new holding row, as the service is written

  /**
   * The attributes of the holding row class (its columns, relationships and the
   * `name` property): the ORM's default constructor accepts no other keyword.
   */
  const HoldingAttributes: set<string> := {"id", "portfolio_id", "asset_id", "quantity", "avg_cost", "portfolio", "asset", "name"}

  /** The keywords the service passes when it creates a holding row. */
  const KeywordsAsWritten: seq<string> := ["portfolio_id", "asset_id", "quantity", "price"]

  /**
   * The ORM's default constructor: the first keyword that is not a mapped
   * attribute raises a TypeError; otherwise the row is built.
   */
  function ConstructHolding(keywords: seq<string>, portfolioId: int, assetId: int, quantity: int, cost: real): (r: Result<Holding>)
    ensures r.Err? <==> exists w :: w in keywords && w !in HoldingAttributes
    ensures r.Err? ==> r.error.InvalidKeyword? && r.error.keyword in keywords && r.error.keyword !in HoldingAttributes
    ensures r.Ok? ==> r.value == Holding(portfolioId, assetId, quantity, cost)
  {
    match FirstWhere(keywords, (w: string) => w !in HoldingAttributes)
    case Some(i) => Err(InvalidKeyword(keywords[i]))
    case None =>
      assert forall w :: w in keywords ==> w in HoldingAttributes;
      Ok(Holding(portfolioId, assetId, quantity, cost))
  }

  /** `AddToHoldings` as the service is written: a new row goes through the constructor with `KeywordsAsWritten`. */
  function AddToHoldingsAsWritten(holdings: seq<Holding>, portfolioId: int, assetId: int, quantity: int, price: real): (r: Result<seq<Holding>>)
    ensures r.Ok? <==> HoldingOf(holdings, portfolioId, assetId).Some?
    ensures r.Err? ==> r.error == InvalidKeyword("price")
  {
    match HoldingIndex(holdings, portfolioId, assetId)
    case Some(k) => Ok(holdings[k := holdings[k].(quantity := holdings[k].quantity + quantity)])
    case None =>
      assert KeywordsAsWritten[3] !in HoldingAttributes;
      assert forall i :: 0 <= i < 3 ==> KeywordsAsWritten[i] in HoldingAttributes;
      match ConstructHolding(KeywordsAsWritten, portfolioId, assetId, quantity, price)
      case Err(e) => Err(e)
      case Ok(row) => Ok(holdings + [row])
  }

  /**
   * As written, adding an asset the portfolio does not hold yet always fails
   * with a TypeError on the keyword `price`, so no holding row can ever be
   * created; `AddToHoldings` instead records the row with cost `price`.
   */
  lemma AsWrittenFirstAddFails(holdings: seq<Holding>, portfolioId: int, assetId: int, quantity: int, price: real)
    requires HoldingsValid(holdings) && quantity > 0
    requires HoldingOf(holdings, portfolioId, assetId).None?
    ensures AddToHoldingsAsWritten(holdings, portfolioId, assetId, quantity, price) == Err(InvalidKeyword("price"))
    ensures HoldingOf(AddToHoldings(holdings, portfolioId, assetId, quantity, price), portfolioId, assetId)
      == Some(Holding(portfolioId, assetId, quantity, price))
  {
    assert KeywordsAsWritten[0] in HoldingAttributes;
    assert KeywordsAsWritten[1] in HoldingAttributes;
    assert KeywordsAsWritten[2] in HoldingAttributes;
    assert KeywordsAsWritten[3] !in HoldingAttributes;
    var added := AddToHoldings(holdings, portfolioId, assetId, quantity, price);
    assert added[|holdings|] == Holding(portfolioId, assetId, quantity, price);
  }

  /** On a portfolio that already holds the asset, the code as written and `AddToHoldings` agree. */
  lemma AsWrittenAgreesOnHeldAsset(holdings: seq<Holding>, portfolioId: int, assetId: int, quantity: int, price: real)
    requires HoldingsValid(holdings) && quantity > 0
    requires HoldingOf(holdings, portfolioId, assetId).Some?
    ensures AddToHoldingsAsWritten(holdings, portfolioId, assetId, quantity, price) == Ok(AddToHoldings(holdings, portfolioId, assetId, quantity, price))
  {
  }
}
