/**
 * The four tables of the ledger (users, assets, portfolios, portfolio holdings)
 * and the database session that holds them.
 *
 * A table is the sequence of its rows in storage order; a query of the form
 * `filter(<column> == v).first()` is the first row that matches, found by the
 * finder functions below. Uniqueness constraints the database enforces
 * (primary keys, the unique `user_id` of a portfolio) and the ones the services
 * maintain themselves (one holding per portfolio and asset, positive quantities)
 * are the store's invariant `Store.Valid`.
 */
module Models {
  import opened Results

  /** A row of `users`; `rank` is nullable and unset until ranks are assigned. */
  datatype User = User(id: int, username: string, gemCount: int, rank: Option<int>, tradeCount: int)

  /** A row of `assets`. */
  datatype Asset = Asset(id: int, name: string, price: real)

  /** A row of `portfolios`: the portfolio of one user. */
  datatype Portfolio = Portfolio(id: int, userId: int)

  /** A row of `portfolio_assets`: how many units of one asset one portfolio holds, and at what cost. */
  datatype Holding = Holding(portfolioId: int, assetId: int, quantity: int, avgCost: real)

  /** The index of the first element of `s` that satisfies `p`. */
  function FirstWhere<T>(s: seq<T>, p: T -> bool): (r: Option<nat>)
    ensures r.Some? ==> r.value < |s| && p(s[r.value])
    ensures r.Some? ==> forall k :: 0 <= k < r.value ==> !p(s[k])
    ensures r.None? <==> forall k :: 0 <= k < |s| ==> !p(s[k])
  {
    if s == [] then None
    else if p(s[0]) then Some(0)
    else match FirstWhere(s[1..], p)
      case None => None
      case Some(k) => Some(k + 1)
  }

  /** `query(User).filter(User.id == id).first()`, as an index into the table. */
  function UserIndex(users: seq<User>, id: int): (r: Option<nat>)
    ensures r.Some? ==> r.value < |users| && users[r.value].id == id
    ensures r.None? <==> forall k :: 0 <= k < |users| ==> users[k].id != id
  {
    FirstWhere(users, (u: User) => u.id == id)
  }

  /** `query(Asset).filter(Asset.id == id).first()`, as an index into the table. */
  function AssetIndex(assets: seq<Asset>, id: int): (r: Option<nat>)
    ensures r.Some? ==> r.value < |assets| && assets[r.value].id == id
    ensures r.None? <==> forall k :: 0 <= k < |assets| ==> assets[k].id != id
  {
    FirstWhere(assets, (a: Asset) => a.id == id)
  }

  /** `query(Portfolio).filter(Portfolio.user_id == userId).first()`, as an index into the table. */
  function PortfolioIndex(portfolios: seq<Portfolio>, userId: int): (r: Option<nat>)
    ensures r.Some? ==> r.value < |portfolios| && portfolios[r.value].userId == userId
    ensures r.None? <==> forall k :: 0 <= k < |portfolios| ==> portfolios[k].userId != userId
  {
    FirstWhere(portfolios, (p: Portfolio) => p.userId == userId)
  }

  /** The holding row of asset `assetId` in portfolio `portfolioId`, as an index into the table. */
  function HoldingIndex(holdings: seq<Holding>, portfolioId: int, assetId: int): (r: Option<nat>)
    ensures r.Some? ==> r.value < |holdings| && holdings[r.value].portfolioId == portfolioId && holdings[r.value].assetId == assetId
    ensures r.None? <==> forall k :: 0 <= k < |holdings| ==> !(holdings[k].portfolioId == portfolioId && holdings[k].assetId == assetId)
  {
    FirstWhere(holdings, (h: Holding) => h.portfolioId == portfolioId && h.assetId == assetId)
  }

  predicate UniqueUserIds(users: seq<User>) {
    forall i, j :: 0 <= i < j < |users| ==> users[i].id != users[j].id
  }

  predicate UniqueAssetIds(assets: seq<Asset>) {
    forall i, j :: 0 <= i < j < |assets| ==> assets[i].id != assets[j].id
  }

  /** Portfolio ids are a primary key and `user_id` is a unique column. */
  predicate PortfoliosValid(portfolios: seq<Portfolio>) {
    forall i, j :: 0 <= i < j < |portfolios| ==>
      portfolios[i].id != portfolios[j].id && portfolios[i].userId != portfolios[j].userId
  }

  /**
   * What the portfolio service keeps true of the holdings table: every row holds
   * a positive quantity, and no two rows are for the same portfolio and asset.
   */
  predicate HoldingsValid(holdings: seq<Holding>) {
    && (forall k :: 0 <= k < |holdings| ==> holdings[k].quantity > 0)
    && (forall i, j :: 0 <= i < j < |holdings| ==>
          !(holdings[i].portfolioId == holdings[j].portfolioId && holdings[i].assetId == holdings[j].assetId))
  }

  /** The ids of the stored portfolios. */
  function PortfolioIds(portfolios: seq<Portfolio>): set<int> {
    set p | p in portfolios :: p.id
  }

  /** A portfolio exists before any holding refers to it. */
  predicate HoldingsReferToPortfolios(holdings: seq<Holding>, portfolios: seq<Portfolio>) {
    forall h :: h in holdings ==> h.portfolioId in PortfolioIds(portfolios)
  }

  /** Rows taken from a table that refers to existing portfolios, or rows of an existing portfolio, refer to existing portfolios. */
  lemma ReferencesKept(before: seq<Holding>, after: seq<Holding>, portfolios: seq<Portfolio>, portfolio: Portfolio)
    requires HoldingsReferToPortfolios(before, portfolios) && portfolio in portfolios
    requires forall h :: h in after ==> h in before || h.portfolioId == portfolio.id
    ensures HoldingsReferToPortfolios(after, portfolios)
  {
  }

  /** The database session shared by all services. */
  class Store {
    var users: seq<User>
    var assets: seq<Asset>
    var portfolios: seq<Portfolio>
    var holdings: seq<Holding>
    /** The next value of the autoincrement key of `assets`. */
    var nextAssetId: int
    /** The next value of the autoincrement key of `portfolios`. */
    var nextPortfolioId: int

    ghost predicate Valid()
      reads this
    {
      && UniqueUserIds(users)
      && UniqueAssetIds(assets)
      && (forall k :: 0 <= k < |assets| ==> assets[k].id < nextAssetId)
      && PortfoliosValid(portfolios)
      && (forall k :: 0 <= k < |portfolios| ==> portfolios[k].id < nextPortfolioId)
      && HoldingsValid(holdings)
      && HoldingsReferToPortfolios(holdings, portfolios)
    }

    /** An empty database. */
    constructor ()
      ensures Valid()
      ensures users == [] && assets == [] && portfolios == [] && holdings == []
    {
      users, assets, portfolios, holdings := [], [], [], [];
      nextAssetId, nextPortfolioId := 1, 1;
    }
  }
}
