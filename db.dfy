/** The relational store the routes read and write, one field per table.
    Each route is modelled as one atomic step on this object. */
module Db {
  import opened Util
  import opened Market

  /** A row of `portfolios`; its key, the serial `pid`, is the map key. */
  datatype Portfolio = Portfolio(owner: string, name: string, money: real)

  /** A row of the append-only `holdings` log: a signed share delta. */
  datatype Holding = Holding(pid: int, stock: string, shares: int)

  /** A row of the append-only `cashtransactions` log. */
  datatype CashRow = CashRow(pid: int, amount: real, source: string, destination: string)

  datatype Visibility = Private | Shared | Public

  /** A row of `stocklists`; its key, the serial `lid`, is the map key. */
  datatype StockList = StockList(owner: string, name: string, visibility: Visibility)

  /** A row of `friends`, keyed by (sender, receiver); `date` in milliseconds. */
  datatype FriendRow = FriendRow(status: string, date: int)

  /** The error responses of the modelled routes. */
  datatype Error =
    | PortfolioNotFound       // 404 'Portfolio not found'
    | DepositFailed           // 500 'Failed to deposit cash'
    | InsufficientFunds       // withdraw: 'Insufficient funds to withdraw.'; buy: 400
    | TransferFailed          // 500 'Failed to transfer funds'
    | StockDoesNotExist       // 400 'Stock does not exist'
    | StockPriceNotFound      // 404 'Stock price not found'
    | StockNotInPortfolio     // 400 'Stock not found in portfolio'
    | NotEnoughShares         // 400 'Not enough shares to sell'
    | ListNotFound            // 404 'Stock list not found or unauthorized'
    | NotAFriend              // 400 'The user is not your friend.'
    | AlreadyShared           // 400 'It may already be shared with this user.'
    | InvalidVisibility       // 400 'Invalid visibility value.'
    | PendingRequest          // 400 'There is already a pending request'
    | AlreadyFriends          // 400 'You are already friends'
    | TooQuickly              // 400 'You are sending requests too quickly'

  datatype Result<T> = Ok(value: T) | Err(error: Error)

  /** The portfolio tables: pids below the serial counter, and every
      holdings and cash row referring to an existing portfolio. */
  ghost predicate PortfolioTablesValid(portfolios: map<int, Portfolio>, nextPid: int, holdings: seq<Holding>, cash: seq<CashRow>)
  {
    && (forall pid :: pid in portfolios ==> pid < nextPid)
    && (forall h :: h in holdings ==> h.pid in portfolios)
    && (forall c :: c in cash ==> c.pid in portfolios)
  }

  /** The stock list tables: lids below the serial counter, and every item
      and share referring to an existing list. */
  ghost predicate ListTablesValid(lists: map<int, StockList>, nextLid: int, items: map<(int, string), int>, sharedWith: set<(int, string)>)
  {
    && (forall lid :: lid in lists ==> lid < nextLid)
    && (forall k :: k in items ==> k.0 in lists)
    && (forall e :: e in sharedWith ==> e.0 in lists)
  }

  class Database {
    var portfolios: map<int, Portfolio>
    var nextPid: int
    var holdings: seq<Holding>
    var cash: seq<CashRow>
    var stocks: set<string>
    var stockdata: seq<Bar>
    var lists: map<int, StockList>
    var nextLid: int
    var items: map<(int, string), int>
    var sharedWith: set<(int, string)>
    var friends: map<(string, string), FriendRow>

    /** The keys and foreign keys of the tables: serial identifiers are
        below their counters, every log row and list row names an existing
        portfolio or list, and price bars are keyed by (stock, date). */
    ghost predicate Valid()
      reads this
    {
      && PortfolioTablesValid(portfolios, nextPid, holdings, cash)
      && KeysUnique(stockdata)
      && ListTablesValid(lists, nextLid, items, sharedWith)
    }

    /** A store holding only the stock master table and its price history. */
    constructor (stocks: set<string>, stockdata: seq<Bar>)
      requires KeysUnique(stockdata)
      ensures Valid()
      ensures this.stocks == stocks && this.stockdata == stockdata
      ensures portfolios == map[] && nextPid == 1 && holdings == [] && cash == []
      ensures lists == map[] && nextLid == 1 && items == map[] && sharedWith == {} && friends == map[]
    {
      this.stocks := stocks;
      this.stockdata := stockdata;
      portfolios, nextPid, holdings, cash := map[], 1, [], [];
      lists, nextLid, items, sharedWith, friends := map[], 1, map[], {}, map[];
    }
  }
}
