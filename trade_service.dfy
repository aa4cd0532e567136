/**
 * The trade service: a buy or a sell changes the user's holdings through the
 * portfolio service and then records the trade on the user, which earns gems.
 * The two steps are sequential; a failure in the first leaves the user's
 * counters as they were. No cash balance is involved.
 */
module TradeService {
  import opened Results
  import opened Models
  import UserService
  import PortfolioService

  /** The extra gems for the trade that brings the trade count to exactly 5 or exactly 10. */
  function MilestoneBonus(tradeCount: int): (b: int)
    ensures b > 0 <==> tradeCount == 5 || tradeCount == 10
    ensures b == 0 || b == tradeCount
  {
    if tradeCount == 5 then 5 else if tradeCount == 10 then 10 else 0
  }

  /**
   * A user after one recorded trade: one more trade, one gem for it, and the
   * milestone bonus on top when the new trade count is exactly 5 or 10. So the
   * gain is always 1, 6 or 11 gems, and nothing but the two counters changes.
   */
  function Traded(u: User): (v: User)
    ensures v.tradeCount == u.tradeCount + 1
    ensures v.gemCount - u.gemCount in {1, 6, 11}
    ensures v.gemCount - u.gemCount == 6 <==> v.tradeCount == 5
    ensures v.gemCount - u.gemCount == 11 <==> v.tradeCount == 10
    ensures v.id == u.id && v.username == u.username && v.rank == u.rank
  {
    var count := u.tradeCount + 1;
    u.(tradeCount := count, gemCount := u.gemCount + 1 + MilestoneBonus(count))
  }

  /** The user after `n` recorded trades. */
  function TradedTimes(u: User, n: nat): User {
    if n == 0 then u else Traded(TradedTimes(u, n - 1))
  }

  /**
   * Over `n` trades a user earns one gem per trade plus each bonus once, and
   * only if its milestone count is passed: 5 gems if the count goes from below
   * 5 to at least 5, 10 gems if it goes from below 10 to at least 10.
   */
  lemma {:induction false} GemsAfterTrades(u: User, n: nat)
    ensures TradedTimes(u, n).tradeCount == u.tradeCount + n
    ensures TradedTimes(u, n).gemCount == u.gemCount + n
      + (if u.tradeCount < 5 <= u.tradeCount + n then 5 else 0)
      + (if u.tradeCount < 10 <= u.tradeCount + n then 10 else 0)
  {
    if n > 0 {
      GemsAfterTrades(u, n - 1);
    }
  }

  /** A new user who has made `n` trades holds `n` gems, plus 5 from the 5th trade on, plus 10 from the 10th on. */
  lemma NewUserGems(id: int, username: string, n: nat)
    ensures TradedTimes(UserService.NewUser(id, username), n).gemCount ==
      n + (if n >= 5 then 5 else 0) + (if n >= 10 then 10 else 0)
  {
    GemsAfterTrades(UserService.NewUser(id, username), n);
  }

  /** `after` is `before` with the trade of user `userId` recorded, and no other row changed. */
  ghost predicate TradeRecorded(before: seq<User>, after: seq<User>, userId: int) {
    && UserIndex(before, userId).Some?
    && after == before[UserIndex(before, userId).value := Traded(before[UserIndex(before, userId).value])]
  }

  /** Records one trade on an existing user, updating the user's row in place. */
  method RecordTrade(db: Store, userId: int)
    requires db.Valid() && UserIndex(db.users, userId).Some?
    modifies db`users
    ensures db.Valid()
    ensures TradeRecorded(old(db.users), db.users, userId)
  {
    var k := UserIndex(db.users, userId).value;
    var user := db.users[k];
    user := user.(tradeCount := user.tradeCount + 1);
    user := user.(gemCount := user.gemCount + 1);
    if user.tradeCount == 5 {
      user := user.(gemCount := user.gemCount + 5);
    } else if user.tradeCount == 10 {
      user := user.(gemCount := user.gemCount + 10);
    }
    db.users := db.users[k := user];
  }

  /**
   * Buys `quantity` units of an asset for a user. An unknown user gets
   * `UserNotFound`; a failure to add the asset to the portfolio is passed on;
   * in either case neither the holdings nor any user changes. On success the
   * holdings become `AddToHoldings` of the old ones and the trade is recorded.
   */
  method BuyAsset(db: Store, userId: int, assetId: int, quantity: int, price: real) returns (r: Result<()>)
    requires db.Valid() && quantity > 0
    modifies db`users, db`holdings
    ensures db.Valid()
    ensures old(UserService.GetUser(db, userId)).Err? ==>
      r == Err(UserNotFound) && db.users == old(db.users) && db.holdings == old(db.holdings)
    ensures old(UserService.GetUser(db, userId)).Ok? && old(PortfolioService.GetPortfolio(db, userId)).Err? ==>
      r == Err(PortfolioNotFound) && db.users == old(db.users) && db.holdings == old(db.holdings)
    ensures old(UserService.GetUser(db, userId)).Ok? && old(PortfolioService.GetPortfolio(db, userId)).Ok? && AssetIndex(old(db.assets), assetId).None? ==>
      r == Err(AssetDoesNotExist(assetId)) && db.users == old(db.users) && db.holdings == old(db.holdings)
    ensures old(UserService.GetUser(db, userId)).Ok? && old(PortfolioService.GetPortfolio(db, userId)).Ok? && AssetIndex(old(db.assets), assetId).Some? ==>
      && r == Ok(())
      && db.holdings == PortfolioService.AddToHoldings(old(db.holdings), old(PortfolioService.GetPortfolio(db, userId)).value.id, assetId, quantity, price)
      && TradeRecorded(old(db.users), db.users, userId)
  {
    var user := UserService.GetUser(db, userId);
    if user.Err? {
      return Err(UserNotFound);
    }
    var added := PortfolioService.AddAssetToPortfolio(db, userId, assetId, quantity, price);
    if added.Err? {
      return Err(added.error);
    }
    RecordTrade(db, userId);
    r := Ok(());
  }

  /**
   * Sells `quantity` units of an asset for a user. An unknown user gets
   * `UserNotFound`, a user without a portfolio `PortfolioNotFound`; otherwise
   * the outcome is `RemoveFromHoldings` of the old holdings, and a failure there
   * (no such holding, or more units than held) is passed on with nothing
   * changed. On success the trade is recorded.
   */
  method SellAsset(db: Store, userId: int, assetId: int, quantity: int) returns (r: Result<()>)
    requires db.Valid() && quantity > 0
    modifies db`users, db`holdings
    ensures db.Valid()
    ensures old(UserService.GetUser(db, userId)).Err? ==>
      r == Err(UserNotFound) && db.users == old(db.users) && db.holdings == old(db.holdings)
    ensures old(UserService.GetUser(db, userId)).Ok? && old(PortfolioService.GetPortfolio(db, userId)).Err? ==>
      r == Err(PortfolioNotFound) && db.users == old(db.users) && db.holdings == old(db.holdings)
    ensures old(UserService.GetUser(db, userId)).Ok? && old(PortfolioService.GetPortfolio(db, userId)).Ok? ==>
      match PortfolioService.RemoveFromHoldings(old(db.holdings), old(PortfolioService.GetPortfolio(db, userId)).value.id, assetId, quantity)
      case Err(e) => r == Err(e) && db.users == old(db.users) && db.holdings == old(db.holdings)
      case Ok(after) => r == Ok(()) && db.holdings == after && TradeRecorded(old(db.users), db.users, userId)
  {
    var user := UserService.GetUser(db, userId);
    if user.Err? {
      return Err(UserNotFound);
    }
    var removed := PortfolioService.RemoveAsset(db, userId, assetId, quantity);
    if removed.Err? {
      return Err(removed.error);
    }
    RecordTrade(db, userId);
    r := Ok(());
  }
}
