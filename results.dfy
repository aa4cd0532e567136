/** Optional values, the service layer's failures, and results that carry either. */
module Results {

  datatype Option<+T> = None | Some(value: T)

  /** One case per failure the services raise; the comment gives the message. */
  datatype Error =
    | UserIdExists                                   // "User ID already exists."
    | UserNotFound                                   // "User not found."
    | AssetNotFound(assetId: int)                    // "Asset with ID {id} not found."
    | AssetDoesNotExist(assetId: int)                // "Asset with ID {id} does not exist."
    | PortfolioExists                                // "Portfolio already exists."
    | PortfolioNotFound                              // "Portfolio not found."
    | NotInPortfolio(assetId: int)                   // "Asset with ID {id} not found in portfolio."
    | InsufficientQuantity(assetId: int, requested: int, available: int)
      // "Cannot remove {quantity} units of asset {id}. Only {held} available."
    | NoAssetsInPortfolio(portfolioId: int)          // "No assets found for portfolio with ID {id}."
    | InvalidKeyword(keyword: string)                // the ORM constructor's TypeError

  datatype Result<+T> = Ok(value: T) | Err(error: Error)
}
