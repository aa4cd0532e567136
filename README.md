# Gamified trading system: the service layer in Dafny

This project models the service layer of a small gamified trading back end.
The ledger has four tables:

- users, each with a gem count, a nullable rank and a trade count;
- assets, each with a name and a current price;
- portfolios, at most one per user;
- portfolio holdings: a quantity of one asset in one portfolio, with a cost field.

Five services act on these tables:

- **User service**: create a user under a caller-chosen id, look a user up, list all users.
- **Asset service**: create an asset under an autoincrement id, look it up, partially update it, delete it, list all assets.
- **Portfolio service**: create a user's single portfolio and look it up.
  It adds to a holding, either as a new row or by raising the quantity in place.
  It removes from a holding: the quantity drops, and the row is deleted at zero.
  It lists the holdings joined with their assets and values a portfolio at current prices.
- **Trade service**: a buy or a sell goes through the portfolio service and then records the trade on the user.
  Every trade earns one gem; the 5th and the 10th trade earn a bonus of 5 and 10 gems.
- **Ranking service**: set a user's gem count and assign competition ranks by gems.
  Ties share a rank, and the next distinct count ranks at its 1-based position.
  It also answers the top-N leaderboard query.

The database session is the class `Models.Store`, whose fields are the four tables (as sequences of rows in storage order) and the two autoincrement counters.
A query `filter(...).first()` is the first matching row (`Models.FirstWhere`).
`Store.Valid` states the keys and constraints:

- unique user, asset and portfolio ids;
- one portfolio per user;
- positive quantities and one holding per (portfolio, asset) pair;
- every holding belongs to an existing portfolio;
- autoincrement counters above every id used so far.

Every state-changing operation keeps `Valid`.
A `ValueError` raised by a service is an `Err` of `Results.Result`, with one `Results.Error` case per message.

The changes to the holdings table are specified by two functions, `PortfolioService.AddToHoldings` and `PortfolioService.RemoveFromHoldings`.
The service methods are proved to make exactly those changes.
What each change does to the table is stated by `AddToHoldingsEffect` and `RemoveFromHoldingsEffect`.
Further lemmas relate the two functions to each other and to the portfolio value.

Ranking is specified by `RankingService.Ranked`: each user's rank is 1 plus the number of users with strictly more gems.
The one-pass loop of `assign_ranks` is proved to produce exactly that table, for any order the query gives to users with equal gem counts.

## Model

| member | source | states |
|---|---|---|
| Models.UserIndex | app/services/user_service.py:30 | the first user row with the id; none exactly when no row has it |
| Models.AssetIndex | app/services/asset_service.py:28 | the first asset row with the id; none exactly when no row has it |
| Models.PortfolioIndex | app/services/portfolio_service.py:32 | the first portfolio row of the user; none exactly when the user has no portfolio |
| Models.HoldingIndex | app/services/portfolio_service.py:52-55 | the first holding row for the (portfolio, asset) pair; none exactly when no row is for the pair |
| UserService.NewUser | app/models/user.py:10-14 | a new user row has the given id and username, 0 gems, 0 trades and no rank |
| UserService.GetUser | app/services/user_service.py:26-33 | fails with "User not found." exactly when no row has the id; otherwise returns a stored row with that id |
| UserService.ListUsers | app/services/user_service.py:35-39 | returns every stored user and nothing else, one entry per row |
| UserService.CreateUser | app/services/user_service.py:10-24 | a taken id fails with "User ID already exists." and leaves the table unchanged; otherwise exactly one new row (id, username, 0 gems, 0 trades) is appended and `GetUser` then returns it |
| AssetService.GetAsset | app/services/asset_service.py:24-31 | fails with "Asset with ID {id} not found." exactly when no row has the id; otherwise returns the stored row with that id |
| AssetService.GetAllAssets | app/services/asset_service.py:63-67 | returns every stored asset and nothing else |
| AssetService.CreateAsset | app/services/asset_service.py:10-22 | appends one asset with the given name and price under an id no stored asset has; `GetAsset` on that id then returns it |
| AssetService.Updated | app/services/asset_service.py:39-42 | the id is kept; the name is replaced only by a given non-empty name and the price only by a given non-zero price, so omitted or falsy fields keep their old values |
| AssetService.UpdateAsset | app/services/asset_service.py:33-49 | an absent id fails and changes nothing; otherwise only the rows with that id change, each becoming `Updated` of its old value, and the result is what `GetAsset` then returns |
| AssetService.DeleteAsset | app/services/asset_service.py:51-61 | an absent id fails and changes nothing; otherwise exactly the asset with that id is removed and a later `GetAsset` fails |
| PortfolioService.GetPortfolio | app/services/portfolio_service.py:28-35 | fails with "Portfolio not found." exactly when no portfolio has the user id; otherwise returns that user's portfolio |
| PortfolioService.CreatePortfolio | app/services/portfolio_service.py:10-26 | a user who has a portfolio gets "Portfolio already exists." and nothing changes; otherwise one portfolio for the user with a fresh id is appended and `GetPortfolio` then finds it |
| PortfolioService.HoldingOf | app/services/portfolio_service.py:52-55 | the row for a (portfolio, asset) pair, found exactly when one is stored |
| PortfolioService.HeldQuantity | app/services/portfolio_service.py:52-58 | the quantity held of an asset, positive exactly when a row for the pair exists |
| PortfolioService.AddToHoldings | app/services/portfolio_service.py:51-63 | adding a positive quantity keeps the holdings table valid: positive quantities and at most one row per (portfolio, asset) pair |
| PortfolioService.AddToHoldingsEffect | app/services/portfolio_service.py:51-63 | the held quantity grows by exactly `quantity`; an existing row keeps its cost and no second row for the pair appears; a new row has the given price as cost; every other row is untouched |
| PortfolioService.AddedRow | app/services/portfolio_service.py:57-63 | the pair's row afterwards is the old row with its quantity raised, or else the new row |
| PortfolioService.RemoveFromHoldings | app/services/portfolio_service.py:82-101 | fails with "not found in portfolio" when no row exists and with "Cannot remove {quantity} units of asset {asset_id}. Only {held} available." exactly when `quantity` exceeds the held amount; a successful removal keeps the table valid |
| PortfolioService.RemoveFromHoldingsEffect | app/services/portfolio_service.py:92-101 | a successful removal lowers the held quantity by exactly `quantity`; the row is deleted when it reaches zero, a partial removal keeps the cost, and every other row is untouched |
| PortfolioService.AddThenRemoveRestores | app/services/portfolio_service.py:51-101 | adding and then removing the same quantity of an asset gives back the holdings table exactly |
| PortfolioService.AddAssetToPortfolio | app/services/portfolio_service.py:38-69 | no portfolio, or an asset id that is not in the asset table, fails and leaves all holdings unchanged; otherwise the holdings become `AddToHoldings` of the old ones and the updated row is returned |
| PortfolioService.AddToPortfolio | app/services/portfolio_service.py:51-63 | raising the existing row in place or inserting a new one leaves the holdings equal to `AddToHoldings` of the old ones, keeps the store valid, and returns the pair's row |
| PortfolioService.RemoveAsset | app/services/portfolio_service.py:73-106 | no portfolio fails with "Portfolio not found."; otherwise the outcome is `RemoveFromHoldings` of the old holdings, and a failure leaves the holdings unchanged |
| PortfolioService.RemoveFromPortfolio | app/services/portfolio_service.py:82-101 | the check-then-update step leaves the holdings equal to `RemoveFromHoldings` of the old ones, or unchanged with its error, and keeps the store valid |
| PortfolioService.PortfolioValue | app/services/portfolio_service.py:145-153 | the definition of the value: the sum over the portfolio's rows whose asset exists of quantity × current price; its properties are the lemmas of the next rows |
| PortfolioService.PortfolioValueNotNegative | app/services/portfolio_service.py:145-153 | with no negative quantities and no negative prices, a portfolio's value is not negative |
| PortfolioService.EmptyPortfolioIsWorthZero | app/services/portfolio_service.py:145-153 | a portfolio without holdings is worth 0 |
| PortfolioService.AddChangesValueByWorth | app/services/portfolio_service.py:145-153 | adding `quantity` units raises that portfolio's value by the units' worth at the current asset price, whatever price was paid, and leaves other portfolios' values unchanged |
| PortfolioService.RemoveChangesValueByWorth | app/services/portfolio_service.py:145-153 | a successful removal lowers that portfolio's value by the removed units' worth at the current price and leaves other portfolios' values unchanged |
| PortfolioService.PortfolioRows | app/services/portfolio_service.py:118-124 | the inner join lists exactly the portfolio's holdings whose asset exists, each with its asset row, and nothing else |
| PortfolioService.ListPortfolioAssets | app/services/portfolio_service.py:109-131 | no portfolio fails with "Portfolio not found."; it fails with "No assets found for portfolio with ID {id}." exactly when none of the portfolio's holdings has an existing asset; otherwise returns the joined rows |
| PortfolioService.CalculatePortfolioValue | app/services/portfolio_service.py:134-161 | the sum over the portfolio's joined holdings of quantity × current price; and 0 rather than an error for a user without a portfolio |
| PortfolioService.EmptyPortfolioValueIsZero | app/services/portfolio_service.py:145-153 | a user whose portfolio holds nothing has a portfolio value of 0 |
| PortfolioService.ConstructHolding | app/services/portfolio_service.py:60-62 | the ORM constructor fails exactly when some keyword is not an attribute of the holding row; otherwise it builds the row from the given fields |
| PortfolioService.AddToHoldingsAsWritten | app/services/portfolio_service.py:57-63 | as written, the add succeeds exactly when the pair already has a row; otherwise it fails with the TypeError on the keyword `price` |
| PortfolioService.AsWrittenFirstAddFails | app/services/portfolio_service.py:59-63 | as written, the first add of an asset not yet held fails on the keyword `price`; the corrected `AddToHoldings` creates the row with the price as cost |
| PortfolioService.AsWrittenAgreesOnHeldAsset | app/services/portfolio_service.py:57-58 | for an asset already held, the code as written and `AddToHoldings` agree |
| TradeService.MilestoneBonus | app/services/trade_service.py:59-62 | a bonus is paid exactly when the new trade count is 5 or 10, and it equals that count |
| TradeService.Traded | app/services/trade_service.py:49-64 | one recorded trade adds exactly 1 to the trade count and 1, 6 or 11 gems; 6 exactly when the new count is 5, 11 exactly when it is 10; nothing else about the user changes |
| TradeService.GemsAfterTrades | app/services/trade_service.py:55-62 | over n trades a user earns n gems, plus 5 once if the count passes 5 and 10 once if it passes 10 |
| TradeService.NewUserGems | app/services/trade_service.py:55-62 | a new user with n trades holds n gems, plus 5 from the 5th trade and 10 more from the 10th |
| TradeService.RecordTrade | app/services/trade_service.py:49-64 | only the trading user's row changes, and it becomes `Traded` of its old value |
| TradeService.BuyAsset | app/services/trade_service.py:19-32 | an unknown user, a missing portfolio and an unknown asset each fail with users and holdings unchanged; otherwise the holdings become `AddToHoldings` of the old ones and exactly the buyer's trade is recorded |
| TradeService.SellAsset | app/services/trade_service.py:34-47 | an unknown user or a missing portfolio fails with nothing changed; a failed removal (no holding, oversell) is passed on with users and holdings unchanged; otherwise the holdings become `RemoveFromHoldings` of the old ones and exactly the seller's trade is recorded |
| RankingService.UpdateUserGemCount | app/services/ranking_service.py:11-19 | an absent id fails with "User not found." and changes nothing; otherwise only that user's gem count is set, and every other user is unchanged |
| RankingService.Ranked | app/services/ranking_service.py:30-35 | the ranked table has one row per user, each with a rank of at least 1: one plus the number of users with strictly more gems |
| RankingService.RankedChangesOnlyRanks | app/services/ranking_service.py:30-35 | ranking sets every user's rank and changes nothing else |
| RankingService.TopGemCountRanksFirst | app/services/ranking_service.py:26-35 | every user with the maximum gem count has rank 1 |
| RankingService.TiesShareRank | app/services/ranking_service.py:31-34 | users with equal gem counts get equal ranks |
| RankingService.MoreGemsRankHigher | app/services/ranking_service.py:30-35 | a strictly higher gem count gets a strictly smaller rank |
| RankingService.RankWithinBounds | app/services/ranking_service.py:30-35 | every rank lies between 1 and the number of users |
| RankingService.RankingIsIdempotent | app/services/ranking_service.py:21-37 | ranking an already ranked table changes nothing |
| RankingService.RankingExample | app/services/ranking_service.py:30-35 | gem counts 200, 150, 100, 100, 14, 4 get ranks 1, 2, 3, 3, 5, 6 |
| RankingService.RankAtNewGemCount | app/services/ranking_service.py:32-33 | in gem order, a position that starts a new gem count has competition rank equal to its 1-based position |
| RankingService.AssignRanks | app/services/ranking_service.py:21-37 | the loop leaves the table equal to `Ranked` of the old one, each user's rank being 1 + the number of users with more gems, whatever order the query gives to tied users |
| RankingService.Insert | app/services/ranking_service.py:46 | inserting a user into a leaderboard-sorted list keeps it sorted and adds exactly that user |
| RankingService.LeaderboardOrder | app/services/ranking_service.py:44-48 | all users, each once, sorted by gem count descending and then by id ascending |
| RankingService.GetTopNUsers | app/services/ranking_service.py:39-50 | returns min(n, number of users) users, sorted by gems descending then id ascending, and every user left out ranks below every user returned |

## Left out

- HTTP routes, response schemas, the engine and session set-up and dependency injection are not part of this model.
- Commits, rollbacks and the `SQLAlchemyError` branches are not modelled. A database error is not a state here.
- BuyAsset: a buy is two separate commits, one for the holding and one for the trade record. The model composes them in sequence and claims no atomicity.
- SellAsset: a sell is also two separate commits; the same applies.
- Prices, costs and portfolio values are Python floats; they are modelled as exact `real` numbers, without rounding.
- There is no cash balance, deposit or withdrawal: neither the user table nor the services have one, and a trade moves no money.
- AddToHoldings: a repeated purchase keeps the cost of the first one; no weighted average cost is computed, because the service computes none.
- AddAssetToPortfolio: `quantity > 0` is a precondition. The service does not check the quantity; a non-positive quantity would leave a zero or negative holding.
- RemoveAsset: `quantity > 0` is a precondition. A negative removal would increase the holding.
- BuyAsset and SellAsset carry the same `quantity > 0` precondition.
- The database's uniqueness of usernames and asset names is not modelled; the services never check it.
- Foreign keys are not enforced: `CreatePortfolio` does not check that the user exists, just as the service does not.
- DeleteAsset: deletes an asset even while a holding still refers to it. A database that enforces the holding's foreign key on the asset id (app/models/portfolio_assets.py:13) would refuse that delete, and the service would then report "Error deleting asset.". The model keeps the orphaned holding; `PortfolioRows` and `Worth` leave it out of the join.
- The autoincrement keys of assets and portfolios are counters that start at 1. The contracts promise only that a new id differs from every stored id; whether the database reuses the id of a deleted last row is not modelled.
- AssignRanks: the order in which the database returns users with equal gem counts is a parameter `order`, constrained only to list every user once in non-increasing gem order.
- GetTopNUsers: `n` is a natural number. A negative limit passed to the database is not modelled.
- The relationships of the ORM classes are not modelled. The holding's `name` property is represented by the asset row in `PortfolioService.Position`.
- `ListUsers` and `GetAllAssets` return rows in storage order. The database gives no order, so only the set of rows is promised.
- ConstructHolding: only the attribute names of the holding row class are modelled, not the inherited attributes of the ORM base class; none of those is `price`.

## Findings

| source | as written | input that shows it | evidently intended | confidence | as-written member | corrected member |
|---|---|---|---|---|---|---|
| app/services/portfolio_service.py:60-62 | a new holding row is built with the keyword `price=`, but the holding row's cost column is `avg_cost` (app/models/portfolio_assets.py:15). The ORM's default constructor rejects an unknown keyword with a TypeError, so no holding row can ever be created | the first `add_asset_to_portfolio` of an asset the portfolio does not hold yet, for example any asset into an empty portfolio | the new row records the purchase price as its cost (`avg_cost=price`) | not executed | PortfolioService.AddToHoldingsAsWritten, PortfolioService.AsWrittenFirstAddFails | PortfolioService.AddToHoldingsEffect |
