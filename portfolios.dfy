/** The portfolio routes: cash operations on `portfolios.money` with their
    `cashtransactions` rows, buy and sell against the latest close with their
    `holdings` rows, deletion, and the read-only views (all portfolios of a
    user, one portfolio with its holdings fold, statistics merge and
    correlation pairs, and the transaction history). */
module Portfolios {
  import opened Util
  import opened Market
  import opened Db

  /** The label a cash row carries for money entering or leaving the system. */
  const External: string := "external"

  // ---------------------------------------------------------------------
  // The holdings fold

  /** The summed share deltas of (pid, stock); 0 when there are none. */
  function Position(holdings: seq<Holding>, pid: int, stock: string): int
  {
    if holdings == [] then 0
    else
      var h := holdings[|holdings| - 1];
      Position(holdings[..|holdings| - 1], pid, stock) + (if h.pid == pid && h.stock == stock then h.shares else 0)
  }

  /** Some holdings row exists for (pid, stock), i.e. `SUM(shares)` is not NULL. */
  predicate HasRows(holdings: seq<Holding>, pid: int, stock: string)
  {
    exists k :: 0 <= k < |holdings| && holdings[k].pid == pid && holdings[k].stock == stock
  }

  /** Every symbol ever recorded for the portfolio, whatever its current sum:
      `SELECT stock FROM holdings WHERE pid = $1`. */
  function EverHeld(holdings: seq<Holding>, pid: int): (r: set<string>)
    ensures forall s :: s in r <==> HasRows(holdings, pid, s)
  {
    set k | 0 <= k < |holdings| && holdings[k].pid == pid :: holdings[k].stock
  }

  lemma HasRowsSplit(holdings: seq<Holding>, pid: int, stock: string)
    requires holdings != []
    ensures var last := holdings[|holdings| - 1];
      HasRows(holdings, pid, stock) <==> HasRows(holdings[..|holdings| - 1], pid, stock) || (last.pid == pid && last.stock == stock)
  {
    var init := holdings[..|holdings| - 1];
    if HasRows(holdings, pid, stock) {
      var k :| 0 <= k < |holdings| && holdings[k].pid == pid && holdings[k].stock == stock;
      if k < |init| {
        assert init[k] == holdings[k];
      }
    }
    if HasRows(init, pid, stock) {
      var k :| 0 <= k < |init| && init[k].pid == pid && init[k].stock == stock;
      assert holdings[k] == init[k];
    }
  }

  /** With no row for (pid, stock) the position is zero. */
  lemma {:induction false} PositionWithoutRows(holdings: seq<Holding>, pid: int, stock: string)
    requires !HasRows(holdings, pid, stock)
    ensures Position(holdings, pid, stock) == 0
  {
    if holdings != [] {
      HasRowsSplit(holdings, pid, stock);
      PositionWithoutRows(holdings[..|holdings| - 1], pid, stock);
    }
  }

  /** Appending a row changes only the position of its own (pid, stock). */
  lemma PositionAppend(holdings: seq<Holding>, h: Holding, pid: int, stock: string)
    ensures Position(holdings + [h], pid, stock)
         == Position(holdings, pid, stock) + (if h.pid == pid && h.stock == stock then h.shares else 0)
  {
    assert (holdings + [h])[..|holdings|] == holdings;
  }

  /** Under the foreign key of `holdings`, a portfolio with rows exists. */
  lemma RowsReferToPortfolio(holdings: seq<Holding>, portfolios: map<int, Portfolio>, pid: int, stock: string)
    requires forall h :: h in holdings ==> h.pid in portfolios
    requires HasRows(holdings, pid, stock)
    ensures pid in portfolios
  {
    var k :| 0 <= k < |holdings| && holdings[k].pid == pid && holdings[k].stock == stock;
    assert holdings[k] in holdings;
  }

  /** Every (pid, stock) that has rows has a non-negative summed position. */
  ghost predicate NoShort(holdings: seq<Holding>)
  {
    forall h :: h in holdings ==> Position(holdings, h.pid, h.stock) >= 0
  }

  lemma PositionNonNegative(holdings: seq<Holding>, pid: int, stock: string)
    requires NoShort(holdings)
    ensures Position(holdings, pid, stock) >= 0
  {
    if HasRows(holdings, pid, stock) {
      var k :| 0 <= k < |holdings| && holdings[k].pid == pid && holdings[k].stock == stock;
      assert holdings[k] in holdings;
    } else {
      PositionWithoutRows(holdings, pid, stock);
    }
  }

  lemma AppendKeepsNoShort(holdings: seq<Holding>, h: Holding)
    requires NoShort(holdings)
    requires Position(holdings, h.pid, h.stock) + h.shares >= 0
    ensures NoShort(holdings + [h])
  {
    var nh := holdings + [h];
    forall g | g in nh
      ensures Position(nh, g.pid, g.stock) >= 0
    {
      PositionAppend(holdings, h, g.pid, g.stock);
      if g !in holdings {
        assert g == h;
      }
    }
  }

  /** The rows of every portfolio but `pid`. */
  function HoldingNotOf(pid: int): Holding -> bool
  {
    (h: Holding) => h.pid != pid
  }

  function CashNotOf(pid: int): CashRow -> bool
  {
    (c: CashRow) => c.pid != pid
  }

  /** The holdings log after the cascade of deleting portfolio `pid`. */
  function HoldingsWithout(holdings: seq<Holding>, pid: int): (r: seq<Holding>)
    ensures forall h :: h in r <==> h in holdings && h.pid != pid
  {
    Filter(holdings, HoldingNotOf(pid))
  }

  /** The cash log after the cascade of deleting portfolio `pid`. */
  function CashWithout(cash: seq<CashRow>, pid: int): (r: seq<CashRow>)
    ensures forall c :: c in r <==> c in cash && c.pid != pid
  {
    Filter(cash, CashNotOf(pid))
  }

  /** The cascade of a deletion keeps every remaining position non-negative. */
  lemma WithoutKeepsNoShort(holdings: seq<Holding>, pid: int)
    ensures NoShort(holdings) ==> NoShort(HoldingsWithout(holdings, pid))
  {
    var rest := HoldingsWithout(holdings, pid);
    if NoShort(holdings) {
      forall g | g in rest
        ensures Position(rest, g.pid, g.stock) >= 0
      {
        assert g in holdings && g.pid != pid;
        PositionOfOthers(holdings, pid, g.pid, g.stock);
      }
    }
  }

  /** Deleting one portfolio leaves the transaction history of every other
      portfolio as it was, rows, multiplicity and order. */
  lemma DeleteKeepsOtherHistories(holdings: seq<Holding>, cash: seq<CashRow>, p: int, q: int)
    requires q != p
    ensures NewestFirst(CashWithout(cash, p), CashOf(q)) == NewestFirst(cash, CashOf(q))
    ensures NewestFirst(HoldingsWithout(holdings, p), HoldingOf(q)) == NewestFirst(holdings, HoldingOf(q))
  {
    FilterOfFilter(cash, CashNotOf(p), CashOf(q));
    FilterOfFilter(holdings, HoldingNotOf(p), HoldingOf(q));
  }

  /** Removing one portfolio's rows leaves the positions of every other
      portfolio as they were. */
  lemma {:induction false} PositionOfOthers(holdings: seq<Holding>, p: int, q: int, stock: string)
    requires q != p
    ensures Position(HoldingsWithout(holdings, p), q, stock) == Position(holdings, q, stock)
  {
    if holdings != [] {
      var init := holdings[..|holdings| - 1];
      var last := holdings[|holdings| - 1];
      PositionOfOthers(init, p, q, stock);
      var fi := HoldingsWithout(init, p);
      assert HoldingsWithout(holdings, p) == fi + (if HoldingNotOf(p)(last) then [last] else []);
      if last.pid != p {
        PositionAppend(fi, last, q, stock);
      } else {
        assert fi + [] == fi;
      }
    }
  }

  // ---------------------------------------------------------------------
  // Cash invariant

  /** No portfolio has a negative balance. */
  ghost predicate Solvent(portfolios: map<int, Portfolio>)
  {
    forall pid :: pid in portfolios ==> portfolios[pid].money >= 0.0
  }

  /** No price bar has a negative close. */
  ghost predicate NonNegativePrices(bars: seq<Bar>)
  {
    forall b :: b in bars ==> b.close >= 0.0
  }

  /** The price of a trade, the close times the shares, computed exactly. */
  function Cost(price: real, shares: int): real
  {
    price * (shares as real)
  }

  lemma CostNonNegative(price: real, shares: int)
    requires price >= 0.0 && shares >= 0
    ensures Cost(price, shares) >= 0.0
  {
    assert price * (shares as real) >= 0.0 * (shares as real);
  }

  // ---------------------------------------------------------------------
  // Cash routes

  /** POST /new: a fresh serial pid owned by the caller, with no cash. */
  method Create(db: Database, owner: string, name: string) returns (pid: int, row: Portfolio)
    requires db.Valid()
    modifies db`portfolios, db`nextPid
    ensures db.Valid()
    ensures pid == old(db.nextPid) && pid !in old(db.portfolios)
    ensures row == Portfolio(owner, name, 0.0)
    ensures db.portfolios == old(db.portfolios)[pid := row] && db.nextPid == pid + 1
    ensures Solvent(old(db.portfolios)) ==> Solvent(db.portfolios)
  {
    pid := db.nextPid;
    row := Portfolio(owner, name, 0.0);
    db.portfolios := db.portfolios[pid := row];
    db.nextPid := pid + 1;
  }

  /** POST /:pid/deposit: the balance rises by `amount` and one row
      (pid, amount, 'external', name) is logged; for a missing portfolio the
      log insert violates its foreign key and everything is rolled back. */
  method Deposit(db: Database, pid: int, amount: real) returns (r: Result<()>)
    requires db.Valid()
    modifies db`portfolios, db`cash
    ensures db.Valid()
    ensures r.Ok? <==> pid in old(db.portfolios)
    ensures r.Err? ==> r.error == DepositFailed && db.portfolios == old(db.portfolios) && db.cash == old(db.cash)
    ensures r.Ok? ==>
      pid in old(db.portfolios) &&
      var p := old(db.portfolios)[pid];
      && db.portfolios == old(db.portfolios)[pid := p.(money := p.money + amount)]
      && db.cash == old(db.cash) + [CashRow(pid, amount, External, p.name)]
    ensures Solvent(old(db.portfolios)) && amount >= 0.0 ==> Solvent(db.portfolios)
  {
    if pid !in db.portfolios {
      return Err(DepositFailed);
    }
    var p := db.portfolios[pid];
    db.portfolios := db.portfolios[pid := p.(money := p.money + amount)];
    db.cash := db.cash + [CashRow(pid, amount, External, p.name)];
    r := Ok(());
  }

  /** POST /:pid/withdraw: the guarded update `money >= amount`; on success
      the balance drops by `amount` and (pid, -amount, name, 'external') is
      logged; otherwise 'Insufficient funds' and nothing changes. */
  method Withdraw(db: Database, pid: int, amount: real) returns (r: Result<()>)
    requires db.Valid()
    modifies db`portfolios, db`cash
    ensures db.Valid()
    ensures r.Ok? <==> pid in old(db.portfolios) && old(db.portfolios)[pid].money >= amount
    ensures r.Err? ==> r.error == InsufficientFunds && db.portfolios == old(db.portfolios) && db.cash == old(db.cash)
    ensures r.Ok? ==>
      pid in old(db.portfolios) &&
      var p := old(db.portfolios)[pid];
      && db.portfolios == old(db.portfolios)[pid := p.(money := p.money - amount)]
      && db.cash == old(db.cash) + [CashRow(pid, -amount, p.name, External)]
    ensures r.Ok? ==> db.portfolios[pid].money >= 0.0
    ensures Solvent(old(db.portfolios)) ==> Solvent(db.portfolios)
  {
    if pid !in db.portfolios || db.portfolios[pid].money < amount {
      return Err(InsufficientFunds);
    }
    var p := db.portfolios[pid];
    db.portfolios := db.portfolios[pid := p.(money := p.money - amount)];
    db.cash := db.cash + [CashRow(pid, -amount, p.name, External)];
    r := Ok(());
  }

  /** POST /transfer: guarded decrement of `fromPid`, increment of `toPid`,
      one log row per leg, all or nothing. There is no same-account check;
      a missing `toPid` makes its log insert violate the foreign key. */
  method Transfer(db: Database, fromPid: int, toPid: int, amount: real) returns (r: Result<()>)
    requires db.Valid()
    modifies db`portfolios, db`cash
    ensures db.Valid()
    ensures r.Ok? <==> fromPid in old(db.portfolios) && toPid in old(db.portfolios) && old(db.portfolios)[fromPid].money >= amount
    ensures r.Err? ==> r.error == TransferFailed && db.portfolios == old(db.portfolios) && db.cash == old(db.cash)
    ensures r.Ok? ==>
      fromPid in old(db.portfolios) && toPid in old(db.portfolios) &&
      var f, t := old(db.portfolios)[fromPid], old(db.portfolios)[toPid];
      var debited := old(db.portfolios)[fromPid := f.(money := f.money - amount)];
      && db.portfolios == debited[toPid := debited[toPid].(money := debited[toPid].money + amount)]
      && db.cash == old(db.cash) + [CashRow(fromPid, -amount, f.name, t.name), CashRow(toPid, amount, f.name, t.name)]
    ensures r.Ok? ==> db.portfolios.Keys == old(db.portfolios.Keys)
    ensures r.Ok? ==>
      db.portfolios[fromPid].money + db.portfolios[toPid].money
      == old(db.portfolios)[fromPid].money + old(db.portfolios)[toPid].money
    ensures r.Ok? && fromPid != toPid ==> db.portfolios[fromPid].money >= 0.0
    ensures Solvent(old(db.portfolios)) && amount >= 0.0 ==> Solvent(db.portfolios)
  {
    if fromPid !in db.portfolios || db.portfolios[fromPid].money < amount || toPid !in db.portfolios {
      return Err(TransferFailed);
    }
    var f, t := db.portfolios[fromPid], db.portfolios[toPid];
    var debited := db.portfolios[fromPid := f.(money := f.money - amount)];
    db.portfolios := debited[toPid := debited[toPid].(money := debited[toPid].money + amount)];
    db.cash := db.cash + [CashRow(fromPid, -amount, f.name, t.name), CashRow(toPid, amount, f.name, t.name)];
    r := Ok(());
  }

  // ---------------------------------------------------------------------
  // Trading routes

  /** The checks of POST /:pid/buy, in the source's order: the symbol is
      registered, the portfolio exists, the symbol has a price, and the cost
      close * shares at the latest close is covered by the balance. The
      value on success is that cost. */
  function BuyCheck(stocks: set<string>, portfolios: map<int, Portfolio>, bars: seq<Bar>, pid: int, stock: string, shares: int): (r: Result<real>)
    ensures stock !in stocks ==> r == Err(StockDoesNotExist)
    ensures stock in stocks && pid !in portfolios ==> r == Err(PortfolioNotFound)
    ensures stock in stocks && pid in portfolios && LatestBar(bars, stock).None? ==>
      r == Err(StockPriceNotFound)
    ensures (stock in stocks && pid in portfolios && LatestBar(bars, stock).Some? &&
             Cost(LatestBar(bars, stock).value.close, shares) > portfolios[pid].money) ==>
      r == Err(InsufficientFunds)
    ensures r.Ok? <==>
      && stock in stocks && pid in portfolios && LatestBar(bars, stock).Some?
      && Cost(LatestBar(bars, stock).value.close, shares) <= portfolios[pid].money
    ensures r.Ok? ==> LatestBar(bars, stock).Some? && r.value == Cost(LatestBar(bars, stock).value.close, shares)
  {
    if stock !in stocks then Err(StockDoesNotExist)
    else if pid !in portfolios then Err(PortfolioNotFound)
    else
      var latest := LatestBar(bars, stock);
      if latest.None? then Err(StockPriceNotFound)
      else
        var cost := Cost(latest.value.close, shares);
        if cost > portfolios[pid].money then Err(InsufficientFunds) else Ok(cost)
  }

  /** POST /:pid/buy: on success one +shares row is logged and the balance
      drops by the cost; otherwise nothing changes. */
  method Buy(db: Database, pid: int, stock: string, shares: int) returns (r: Result<()>)
    requires db.Valid()
    modifies db`portfolios, db`holdings
    ensures db.Valid()
    ensures var check := BuyCheck(db.stocks, old(db.portfolios), db.stockdata, pid, stock, shares);
      && (r.Ok? <==> check.Ok?)
      && (r.Err? ==> r.error == check.error && db.portfolios == old(db.portfolios) && db.holdings == old(db.holdings))
      && (r.Ok? ==>
            pid in old(db.portfolios) &&
            var p := old(db.portfolios)[pid];
            && db.holdings == old(db.holdings) + [Holding(pid, stock, shares)]
            && db.portfolios == old(db.portfolios)[pid := p.(money := p.money - check.value)])
    ensures r.Ok? ==> Position(db.holdings, pid, stock) == Position(old(db.holdings), pid, stock) + shares
    ensures r.Ok? ==> db.portfolios[pid].money >= 0.0
    ensures Solvent(old(db.portfolios)) ==> Solvent(db.portfolios)
    ensures NoShort(old(db.holdings)) && shares >= 0 ==> NoShort(db.holdings)
  {
    var check := BuyCheck(db.stocks, db.portfolios, db.stockdata, pid, stock, shares);
    if check.Err? {
      return Err(check.error);
    }
    var p := db.portfolios[pid];
    var h := Holding(pid, stock, shares);
    PositionAppend(db.holdings, h, pid, stock);
    if NoShort(db.holdings) && shares >= 0 {
      PositionNonNegative(db.holdings, pid, stock);
      AppendKeepsNoShort(db.holdings, h);
    }
    db.portfolios, db.holdings := db.portfolios[pid := p.(money := p.money - check.value)], db.holdings + [h];
    r := Ok(());
  }

  /** The checks of POST /:pid/sell, in the source's order: some row exists
      for (pid, stock), the shares do not exceed the summed position, and the
      symbol has a price. The value on success is the proceeds close * shares. */
  function SellCheck(holdings: seq<Holding>, bars: seq<Bar>, pid: int, stock: string, shares: int): (r: Result<real>)
    ensures !HasRows(holdings, pid, stock) ==> r == Err(StockNotInPortfolio)
    ensures HasRows(holdings, pid, stock) && shares > Position(holdings, pid, stock) ==>
      r == Err(NotEnoughShares)
    ensures (HasRows(holdings, pid, stock) && shares <= Position(holdings, pid, stock) &&
             LatestBar(bars, stock).None?) ==>
      r == Err(StockPriceNotFound)
    ensures r.Ok? <==>
      HasRows(holdings, pid, stock) && shares <= Position(holdings, pid, stock) && LatestBar(bars, stock).Some?
    ensures r.Ok? ==> LatestBar(bars, stock).Some? && r.value == Cost(LatestBar(bars, stock).value.close, shares)
  {
    if !HasRows(holdings, pid, stock) then Err(StockNotInPortfolio)
    else if shares > Position(holdings, pid, stock) then Err(NotEnoughShares)
    else
      var latest := LatestBar(bars, stock);
      if latest.None? then Err(StockPriceNotFound)
      else Ok(Cost(latest.value.close, shares))
  }

  /** POST /:pid/sell: on success one -shares row is logged, the balance
      rises by the proceeds and they are returned as `cashAdded`; otherwise
      nothing changes. */
  method Sell(db: Database, pid: int, stock: string, shares: int) returns (r: Result<real>)
    requires db.Valid()
    modifies db`portfolios, db`holdings
    ensures db.Valid()
    ensures r == SellCheck(old(db.holdings), db.stockdata, pid, stock, shares)
    ensures r.Err? ==> db.portfolios == old(db.portfolios) && db.holdings == old(db.holdings)
    ensures r.Ok? ==>
      pid in old(db.portfolios) &&
      var p := old(db.portfolios)[pid];
      && db.holdings == old(db.holdings) + [Holding(pid, stock, -shares)]
      && db.portfolios == old(db.portfolios)[pid := p.(money := p.money + r.value)]
    ensures r.Ok? ==> Position(db.holdings, pid, stock) == Position(old(db.holdings), pid, stock) - shares >= 0
    ensures NoShort(old(db.holdings)) ==> NoShort(db.holdings)
    ensures Solvent(old(db.portfolios)) && shares >= 0 && NonNegativePrices(db.stockdata) ==> Solvent(db.portfolios)
  {
    r := SellCheck(db.holdings, db.stockdata, pid, stock, shares);
    if r.Err? {
      return;
    }
    RowsReferToPortfolio(db.holdings, db.portfolios, pid, stock);
    var p := db.portfolios[pid];
    var h := Holding(pid, stock, -shares);
    SellKeepsNoShort(db.holdings, db.stockdata, pid, stock, shares);
    if shares >= 0 && NonNegativePrices(db.stockdata) {
      ProceedsNonNegative(db.holdings, db.stockdata, pid, stock, shares);
    }
    db.portfolios, db.holdings := db.portfolios[pid := p.(money := p.money + r.value)], db.holdings + [h];
  }

  /** A sale that passes its checks leaves a non-negative position behind,
      and keeps every position non-negative if all were. */
  lemma SellKeepsNoShort(holdings: seq<Holding>, bars: seq<Bar>, pid: int, stock: string, shares: int)
    requires SellCheck(holdings, bars, pid, stock, shares).Ok?
    ensures var after := holdings + [Holding(pid, stock, -shares)];
      && Position(after, pid, stock) == Position(holdings, pid, stock) - shares >= 0
      && (NoShort(holdings) ==> NoShort(after))
  {
    var h := Holding(pid, stock, -shares);
    PositionAppend(holdings, h, pid, stock);
    if NoShort(holdings) {
      AppendKeepsNoShort(holdings, h);
    }
  }

  /** With non-negative prices, selling a non-negative number of shares
      yields non-negative proceeds. */
  lemma ProceedsNonNegative(holdings: seq<Holding>, bars: seq<Bar>, pid: int, stock: string, shares: int)
    requires SellCheck(holdings, bars, pid, stock, shares).Ok?
    requires shares >= 0 && NonNegativePrices(bars)
    ensures SellCheck(holdings, bars, pid, stock, shares).value >= 0.0
  {
    var latest := LatestBar(bars, stock);
    assert latest.value in bars;
    CostNonNegative(latest.value.close, shares);
  }

  /** Selling shares and buying the same number back at an unchanged price
      goes through, costs exactly the proceeds, and restores both the
      position and the balance. */
  lemma SellThenBuyBack(stocks: set<string>, portfolios: map<int, Portfolio>, holdings: seq<Holding>, bars: seq<Bar>,
                        pid: int, stock: string, shares: int)
    requires SellCheck(holdings, bars, pid, stock, shares).Ok?
    requires stock in stocks && pid in portfolios && portfolios[pid].money >= 0.0
    ensures var proceeds := SellCheck(holdings, bars, pid, stock, shares).value;
      var p := portfolios[pid];
      var sold := portfolios[pid := p.(money := p.money + proceeds)];
      && BuyCheck(stocks, sold, bars, pid, stock, shares) == Ok(proceeds)
      && sold[pid := sold[pid].(money := sold[pid].money - proceeds)] == portfolios
      && Position(holdings + [Holding(pid, stock, -shares)] + [Holding(pid, stock, shares)], pid, stock)
         == Position(holdings, pid, stock)
  {
    var proceeds := SellCheck(holdings, bars, pid, stock, shares).value;
    var p := portfolios[pid];
    var sold := portfolios[pid := p.(money := p.money + proceeds)];
    assert sold[pid := sold[pid].(money := sold[pid].money - proceeds)] == portfolios;
    PositionAppend(holdings, Holding(pid, stock, -shares), pid, stock);
    PositionAppend(holdings + [Holding(pid, stock, -shares)], Holding(pid, stock, shares), pid, stock);
  }

  /** DELETE /:pid: removes the portfolio and, by cascade, its log rows.
      No ownership check is made, and the remaining cash is not paid out. */
  method Delete(db: Database, pid: int) returns (r: Result<()>)
    requires db.Valid()
    modifies db`portfolios, db`holdings, db`cash
    ensures db.Valid()
    ensures r.Ok? <==> pid in old(db.portfolios)
    ensures r.Err? ==>
      r.error == PortfolioNotFound && db.portfolios == old(db.portfolios) &&
      db.holdings == old(db.holdings) && db.cash == old(db.cash)
    ensures r.Ok? ==>
      db.portfolios == old(db.portfolios) - {pid} &&
      db.holdings == HoldingsWithout(old(db.holdings), pid) &&
      db.cash == CashWithout(old(db.cash), pid)
    ensures Solvent(old(db.portfolios)) ==> Solvent(db.portfolios)
    ensures NoShort(old(db.holdings)) ==> NoShort(db.holdings)
  {
    if pid !in db.portfolios {
      return Err(PortfolioNotFound);
    }
    WithoutKeepsNoShort(db.holdings, pid);
    var ps, hs, cs := db.portfolios - {pid}, HoldingsWithout(db.holdings, pid), CashWithout(db.cash, pid);
    assert forall h :: h in hs ==> h.pid in ps;
    assert forall c :: c in cs ==> c.pid in ps;
    db.portfolios, db.holdings, db.cash := ps, hs, cs;
    r := Ok(());
  }

  // ---------------------------------------------------------------------
  // GET /: every portfolio of the user with its raw rows priced

  datatype HeldRow = HeldRow(stock: string, shares: int, close: real)
  datatype Summary = Summary(pid: int, name: string, money: real, holdings: seq<HeldRow>)

  /** The holdings rows of `pid` joined with the latest bar of their symbol;
      rows whose symbol has no bar drop out of the inner join. Rows are not
      summed: one output row per holdings row. */
  function PricedRows(holdings: seq<Holding>, bars: seq<Bar>, pid: int): (r: seq<HeldRow>)
    ensures var kept := Filter(holdings, PricedOf(bars, pid));
      && |r| == |kept|
      && forall i :: 0 <= i < |r| ==>
           && r[i].stock == kept[i].stock && r[i].shares == kept[i].shares
           && LatestBar(bars, kept[i].stock).Some? && r[i].close == LatestBar(bars, kept[i].stock).value.close
  {
    if holdings == [] then []
    else
      var init := holdings[..|holdings| - 1];
      var h := holdings[|holdings| - 1];
      var latest := LatestBar(bars, h.stock);
      var rest := PricedRows(init, bars, pid);
      assert forall k :: 0 <= k < |init| ==> init[k] == holdings[k];
      var kept := Filter(holdings, PricedOf(bars, pid));
      var keptInit := Filter(init, PricedOf(bars, pid));
      assert kept == keptInit + (if PricedOf(bars, pid)(h) then [h] else []);
      var r := rest + (if h.pid == pid && latest.Some? then [HeldRow(h.stock, h.shares, latest.value.close)] else []);
      assert forall i :: 0 <= i < |rest| ==> r[i] == rest[i] && kept[i] == keptInit[i];
      r
  }

  /** A row is in the priced rows exactly when some holdings row of `pid`
      whose symbol has a bar carries its stock and shares, with that
      symbol's latest close. */
  lemma PricedRowsMembers(holdings: seq<Holding>, bars: seq<Bar>, pid: int)
    ensures forall row :: row in PricedRows(holdings, bars, pid) <==>
      exists k :: 0 <= k < |holdings| && holdings[k].pid == pid && LatestBar(bars, holdings[k].stock).Some?
        && row == HeldRow(holdings[k].stock, holdings[k].shares, LatestBar(bars, holdings[k].stock).value.close)
  {
    var r := PricedRows(holdings, bars, pid);
    var kept := Filter(holdings, PricedOf(bars, pid));
    forall row | row in r
      ensures exists k :: (0 <= k < |holdings| && holdings[k].pid == pid && LatestBar(bars, holdings[k].stock).Some?
                           && row == HeldRow(holdings[k].stock, holdings[k].shares, LatestBar(bars, holdings[k].stock).value.close))
    {
      var i :| 0 <= i < |r| && r[i] == row;
      assert kept[i] in kept;
      var k :| 0 <= k < |holdings| && holdings[k] == kept[i];
    }
    forall k | 0 <= k < |holdings| && holdings[k].pid == pid && LatestBar(bars, holdings[k].stock).Some?
      ensures HeldRow(holdings[k].stock, holdings[k].shares, LatestBar(bars, holdings[k].stock).value.close) in r
    {
      assert holdings[k] in holdings;
      var i :| 0 <= i < |kept| && kept[i] == holdings[k];
      assert r[i] == HeldRow(holdings[k].stock, holdings[k].shares, LatestBar(bars, holdings[k].stock).value.close);
    }
  }

  /** The holdings rows of `pid` that the inner join with the latest bars keeps. */
  function PricedOf(bars: seq<Bar>, pid: int): Holding -> bool
  {
    (h: Holding) => h.pid == pid && LatestBar(bars, h.stock).Some?
  }

  /** A set of identifiers is empty or has an element. */
  lemma EmptyOrInhabited(s: set<int>)
    ensures s == {} || exists x :: x in s
  {
    if !exists x :: x in s {
      assert s == {};
    }
  }

  /** `s` is the GET / entry of portfolio `s.pid`, owned by `email`. */
  ghost predicate Summarizes(portfolios: map<int, Portfolio>, holdings: seq<Holding>, bars: seq<Bar>, email: string, s: Summary)
  {
    && s.pid in portfolios
    && portfolios[s.pid].owner == email
    && s.name == portfolios[s.pid].name
    && s.money == portfolios[s.pid].money
    && s.holdings == PricedRows(holdings, bars, s.pid)
  }

  /** GET /: one summary per portfolio the user owns, each exactly once. */
  method ListPortfolios(db: Database, email: string) returns (r: seq<Summary>)
    requires KeysUnique(db.stockdata)
    ensures forall s :: s in r ==> Summarizes(db.portfolios, db.holdings, db.stockdata, email, s)
    ensures forall pid :: pid in db.portfolios && db.portfolios[pid].owner == email ==>
      exists s :: s in r && s.pid == pid
    ensures forall i, j :: 0 <= i < j < |r| ==> r[i].pid != r[j].pid
  {
    var portfolios, holdings, bars := db.portfolios, db.holdings, db.stockdata;
    var todo := set pid | pid in portfolios && portfolios[pid].owner == email;
    ghost var owned := todo;
    ghost var at: map<int, nat> := map[];
    r := [];
    while todo != {}
      invariant todo <= owned
      invariant forall i :: 0 <= i < |r| ==> Summarizes(portfolios, holdings, bars, email, r[i]) && r[i].pid !in todo
      invariant forall q :: q in owned && q !in todo ==> q in at && at[q] < |r| && r[at[q]].pid == q
      invariant forall i, j :: 0 <= i < j < |r| ==> r[i].pid != r[j].pid
      decreases |todo|
    {
      EmptyOrInhabited(todo);
      var q :| q in todo;
      var p := portfolios[q];
      at := at[q := |r|];
      r := r + [Summary(q, p.name, p.money, PricedRows(holdings, bars, q))];
      todo := todo - {q};
    }
    forall pid | pid in portfolios && portfolios[pid].owner == email
      ensures exists s :: s in r && s.pid == pid
    {
      assert pid in owned;
      assert r[at[pid]] in r;
    }
  }

  // ---------------------------------------------------------------------
  // GET /:pid: the holdings fold, market value, statistics and pairs

  /** A row of the statistics query; its values are floating-point
      aggregates computed by the database and are left abstract. */
  datatype StatRow = StatRow(stock: string, cv: Option<real>, beta: Option<real>)

  datatype ViewRow = ViewRow(stock: string, shares: int, close: real, cv: Option<real>, beta: Option<real>)

  datatype PortfolioView = PortfolioView(
    pid: int, name: string, money: real,
    holdings: seq<ViewRow>, totalStockValue: real,
    correlationMatrix: set<(string, string)>)

  /** The portfolio's symbols, in the order in which each first appears in the log. */
  function StockColumn(holdings: seq<Holding>, pid: int): (r: seq<string>)
    ensures forall s :: s in r <==> HasRows(holdings, pid, s)
  {
    if holdings == [] then []
    else
      var h := holdings[|holdings| - 1];
      assert forall s :: HasRows(holdings, pid, s) <==> HasRows(holdings[..|holdings| - 1], pid, s) || (h.pid == pid && h.stock == s) by {
        forall s ensures HasRows(holdings, pid, s) <==> HasRows(holdings[..|holdings| - 1], pid, s) || (h.pid == pid && h.stock == s) {
          HasRowsSplit(holdings, pid, s);
        }
      }
      StockColumn(holdings[..|holdings| - 1], pid) + (if h.pid == pid then [h.stock] else [])
  }

  /** `row` is the group of its symbol in the portfolio view: its summed
      position, strictly positive, and the symbol's latest close. */
  predicate GroupedRow(holdings: seq<Holding>, bars: seq<Bar>, pid: int, stock: string, shares: int, close: real)
  {
    && shares == Position(holdings, pid, stock) && shares > 0
    && LatestBar(bars, stock).Some? && close == LatestBar(bars, stock).value.close
  }

  /** The grouped rows for the symbols `syms`, keeping those that have a
      price and a strictly positive sum (`HAVING SUM(h.shares) > 0`). */
  function HeldAmong(syms: seq<string>, holdings: seq<Holding>, bars: seq<Bar>, pid: int): (r: seq<HeldRow>)
    requires NoDup(syms)
    ensures forall i :: 0 <= i < |r| ==> r[i].stock in syms && GroupedRow(holdings, bars, pid, r[i].stock, r[i].shares, r[i].close)
    ensures forall s :: s in syms && Position(holdings, pid, s) > 0 && LatestBar(bars, s).Some? ==>
      exists i :: 0 <= i < |r| && r[i].stock == s
    ensures forall i, j :: 0 <= i < j < |r| ==> r[i].stock != r[j].stock
  {
    if syms == [] then []
    else
      var init := syms[..|syms| - 1];
      var s := syms[|syms| - 1];
      var latest := LatestBar(bars, s);
      NoDupInit(syms);
      var rest := HeldAmong(init, holdings, bars, pid);
      assert forall x :: x in syms <==> x == s || x in init by {
        assert syms == init + [s];
      }
      if Position(holdings, pid, s) > 0 && latest.Some? then
        var r := rest + [HeldRow(s, Position(holdings, pid, s), latest.value.close)];
        assert forall i :: 0 <= i < |rest| ==> r[i] == rest[i];
        assert r[|rest|].stock == s;
        r
      else rest
  }

  /** The grouped holdings of the portfolio view: exactly the symbols with a
      price whose summed deltas are strictly positive, each once, with that
      sum and the latest close. */
  function HeldRows(holdings: seq<Holding>, bars: seq<Bar>, pid: int): (r: seq<HeldRow>)
    ensures forall i :: 0 <= i < |r| ==> GroupedRow(holdings, bars, pid, r[i].stock, r[i].shares, r[i].close)
    ensures forall s :: (exists i :: 0 <= i < |r| && r[i].stock == s) <==> Position(holdings, pid, s) > 0 && LatestBar(bars, s).Some?
    ensures forall i, j :: 0 <= i < j < |r| ==> r[i].stock != r[j].stock
  {
    var syms := Distinct(StockColumn(holdings, pid));
    forall s | Position(holdings, pid, s) > 0
      ensures s in syms
    {
      if !HasRows(holdings, pid, s) {
        PositionWithoutRows(holdings, pid, s);
      }
    }
    HeldAmong(syms, holdings, bars, pid)
  }

  /** The market value of one grouped row. */
  function RowValue(row: HeldRow): real
  {
    Cost(row.close, row.shares)
  }

  /** The market value of grouped rows: the sum of shares times close over
      all of them, starting from zero (the `reduce` of the view). */
  function TotalStockValue(rows: seq<HeldRow>): real
  {
    if rows == [] then 0.0
    else TotalStockValue(rows[..|rows| - 1]) + RowValue(rows[|rows| - 1])
  }

  lemma {:induction false} TotalConcat(a: seq<HeldRow>, b: seq<HeldRow>)
    ensures TotalStockValue(a + b) == TotalStockValue(a) + TotalStockValue(b)
    decreases |b|
  {
    if b == [] {
      assert a + b == a;
    } else {
      var b' := b[..|b| - 1];
      TotalConcat(a, b');
      assert (a + b)[..|a + b| - 1] == a + b';
    }
  }

  /** Taking one row out of the sum subtracts its value. */
  lemma {:induction false} TotalRemove(b: seq<HeldRow>, k: nat)
    requires k < |b|
    ensures TotalStockValue(b) == TotalStockValue(b[..k] + b[k + 1..]) + RowValue(b[k])
    decreases |b|
  {
    var init := b[..|b| - 1];
    if k == |b| - 1 {
      assert b[..k] + b[k + 1..] == init;
    } else {
      var rest := init[..k] + init[k + 1..];
      TotalRemove(init, k);
      assert b[..k] + b[k + 1..] == rest + [b[|b| - 1]];
      assert (rest + [b[|b| - 1]])[..|rest|] == rest;
    }
  }

  /** The market value does not depend on the order of the grouped rows,
      which SQL leaves unspecified. */
  lemma {:induction false} TotalOrderIrrelevant(a: seq<HeldRow>, b: seq<HeldRow>)
    requires multiset(a) == multiset(b)
    ensures TotalStockValue(a) == TotalStockValue(b)
    decreases |a|
  {
    if a == [] {
      assert |multiset(b)| == 0;
    } else {
      var x := a[|a| - 1];
      var a' := a[..|a| - 1];
      MultisetRemove(a, |a| - 1);
      assert a[..|a| - 1] + a[|a|..] == a';
      assert x in multiset(b);
      var k :| 0 <= k < |b| && b[k] == x;
      MultisetRemove(b, k);
      TotalOrderIrrelevant(a', b[..k] + b[k + 1..]);
      TotalRemove(b, k);
      TotalRemove(a, |a| - 1);
    }
  }

  /** Taking out the element at `k` takes one occurrence of it out of the multiset. */
  lemma MultisetRemove<T>(s: seq<T>, k: nat)
    requires k < |s|
    ensures multiset(s[..k] + s[k + 1..]) == multiset(s) - multiset{s[k]}
  {
    assert s == s[..k] + [s[k]] + s[k + 1..];
  }

  /** With non-negative closes, the market value of the grouped rows is not negative. */
  lemma {:induction false} TotalNonNegative(rows: seq<HeldRow>)
    requires forall row :: row in rows ==> row.shares >= 0 && row.close >= 0.0
    ensures TotalStockValue(rows) >= 0.0
  {
    if rows != [] {
      var last := rows[|rows| - 1];
      assert forall row :: row in rows[..|rows| - 1] ==> row in rows;
      TotalNonNegative(rows[..|rows| - 1]);
      CostNonNegative(last.close, last.shares);
    }
  }

  /** With non-negative closes, the market value of the grouped holdings is not negative. */
  lemma HeldValueNonNegative(holdings: seq<Holding>, bars: seq<Bar>, pid: int)
    ensures NonNegativePrices(bars) ==> TotalStockValue(HeldRows(holdings, bars, pid)) >= 0.0
  {
    var held := HeldRows(holdings, bars, pid);
    if NonNegativePrices(bars) {
      forall row | row in held
        ensures row.shares >= 0 && row.close >= 0.0
      {
        var i :| 0 <= i < |held| && held[i] == row;
        assert LatestBar(bars, row.stock).value in bars;
      }
      TotalNonNegative(held);
    }
  }

  /** The first statistics row of the symbol, if any (the `find` of the merge). */
  function FindStat(stats: seq<StatRow>, stock: string): (r: Option<StatRow>)
    ensures r.None? <==> forall k :: 0 <= k < |stats| ==> stats[k].stock != stock
    ensures r.Some? ==>
      exists k :: 0 <= k < |stats| && stats[k] == r.value && r.value.stock == stock &&
        forall j :: 0 <= j < k ==> stats[j].stock != stock
  {
    if stats == [] then None
    else if stats[0].stock == stock then Some(stats[0])
    else
      var r := FindStat(stats[1..], stock);
      assert forall k :: 0 <= k < |stats[1..]| ==> stats[1..][k] == stats[k + 1];
      if r.Some? then
        var k :| 0 <= k < |stats[1..]| && stats[1..][k] == r.value && r.value.stock == stock
          && forall j :: 0 <= j < k ==> stats[1..][j].stock != stock;
        assert stats[k + 1] == r.value && forall j :: 0 <= j < k + 1 ==> stats[j].stock != stock;
        r
      else r
  }

  /** The statistics attached to one grouped row, null when no row matches. */
  function Attach(row: HeldRow, stat: Option<StatRow>): ViewRow
  {
    match stat
    case None => ViewRow(row.stock, row.shares, row.close, None, None)
    case Some(st) => ViewRow(row.stock, row.shares, row.close, st.cv, st.beta)
  }

  /** `holdings.map(...)`: same length and order; each row keeps its stock,
      shares and close; coefficient and beta come from the first statistics
      row of its symbol, or are null when there is none. */
  function MergeStats(rows: seq<HeldRow>, stats: seq<StatRow>): (r: seq<ViewRow>)
    ensures |r| == |rows|
    ensures forall i :: 0 <= i < |rows| ==>
      r[i].stock == rows[i].stock && r[i].shares == rows[i].shares && r[i].close == rows[i].close
    ensures forall i :: 0 <= i < |rows| && (forall k :: 0 <= k < |stats| ==> stats[k].stock != rows[i].stock) ==>
      r[i].cv.None? && r[i].beta.None?
    ensures forall i :: 0 <= i < |rows| && (exists k :: 0 <= k < |stats| && stats[k].stock == rows[i].stock) ==>
      exists k :: 0 <= k < |stats| && stats[k].stock == rows[i].stock && r[i].cv == stats[k].cv && r[i].beta == stats[k].beta &&
        forall j :: 0 <= j < k ==> stats[j].stock != rows[i].stock
  {
    seq(|rows|, i requires 0 <= i < |rows| => Attach(rows[i], FindStat(stats, rows[i].stock)))
  }

  /** The statistics query returns one row per symbol ever held that has at
      least one date in common with the benchmark, and no other rows: its
      join keeps only co-dated bars and it groups by symbol. */
  ghost predicate StatsShaped(stats: seq<StatRow>, bars: seq<Bar>, syms: set<string>)
  {
    && (forall j, k :: 0 <= j < k < |stats| ==> stats[j].stock != stats[k].stock)
    && (forall k :: 0 <= k < |stats| ==> stats[k].stock in syms && CommonDate(bars, stats[k].stock, Benchmark))
    && (forall s :: s in syms && CommonDate(bars, s, Benchmark) ==> exists k :: 0 <= k < |stats| && stats[k].stock == s)
  }

  /** The holdings column of the portfolio view: the grouped rows with
      their statistics attached, each held symbol with a price exactly once. */
  function ViewRows(holdings: seq<Holding>, bars: seq<Bar>, pid: int, stats: seq<StatRow>): (r: seq<ViewRow>)
    ensures forall i :: 0 <= i < |r| ==> GroupedRow(holdings, bars, pid, r[i].stock, r[i].shares, r[i].close)
    ensures forall s :: (exists i :: 0 <= i < |r| && r[i].stock == s) <==> Position(holdings, pid, s) > 0 && LatestBar(bars, s).Some?
    ensures forall i, j :: 0 <= i < j < |r| ==> r[i].stock != r[j].stock
    ensures forall i :: 0 <= i < |r| && (forall k :: 0 <= k < |stats| ==> stats[k].stock != r[i].stock) ==>
      r[i].cv.None? && r[i].beta.None?
    ensures forall i :: 0 <= i < |r| && (exists k :: 0 <= k < |stats| && stats[k].stock == r[i].stock) ==>
      exists k :: 0 <= k < |stats| && stats[k].stock == r[i].stock && r[i].cv == stats[k].cv && r[i].beta == stats[k].beta &&
        forall j :: 0 <= j < k ==> stats[j].stock != r[i].stock
  {
    MergeStats(HeldRows(holdings, bars, pid), stats)
  }

  /** GET /:pid: not found for an absent portfolio; otherwise its row, the
      grouped holdings with statistics attached, their market value and the
      correlation pairs over every symbol ever held. */
  function View(db: Database, pid: int, stats: seq<StatRow>): (r: Result<PortfolioView>)
    requires KeysUnique(db.stockdata)
    reads db
    ensures r.Ok? <==> pid in db.portfolios
    ensures r.Err? ==> r.error == PortfolioNotFound
    ensures r.Ok? ==>
      pid in db.portfolios && r.value.pid == pid &&
      r.value.name == db.portfolios[pid].name && r.value.money == db.portfolios[pid].money
    ensures r.Ok? ==> r.value.holdings == ViewRows(db.holdings, db.stockdata, pid, stats)
    ensures r.Ok? ==> forall i :: 0 <= i < |r.value.holdings| ==>
      GroupedRow(db.holdings, db.stockdata, pid, r.value.holdings[i].stock, r.value.holdings[i].shares, r.value.holdings[i].close)
    ensures r.Ok? ==> forall s :: (exists i :: 0 <= i < |r.value.holdings| && r.value.holdings[i].stock == s) <==>
      Position(db.holdings, pid, s) > 0 && LatestBar(db.stockdata, s).Some?
    ensures r.Ok? ==> forall i, j :: 0 <= i < j < |r.value.holdings| ==> r.value.holdings[i].stock != r.value.holdings[j].stock
    ensures r.Ok? ==> r.value.totalStockValue == TotalStockValue(HeldRows(db.holdings, db.stockdata, pid))
    ensures r.Ok? && NonNegativePrices(db.stockdata) ==> r.value.totalStockValue >= 0.0
    ensures r.Ok? ==> forall p :: p in r.value.correlationMatrix <==>
      HasRows(db.holdings, pid, p.0) && HasRows(db.holdings, pid, p.1) && LexLess(p.0, p.1) && CommonDate(db.stockdata, p.0, p.1)
  {
    if pid !in db.portfolios then Err(PortfolioNotFound)
    else
      var p := db.portfolios[pid];
      var held := HeldRows(db.holdings, db.stockdata, pid);
      HeldValueNonNegative(db.holdings, db.stockdata, pid);
      Ok(PortfolioView(pid, p.name, p.money, ViewRows(db.holdings, db.stockdata, pid, stats), TotalStockValue(held),
                       CorrelationPairs(db.stockdata, EverHeld(db.holdings, pid))))
  }

  /** A row of the holdings column whose symbol shares no date with the
      benchmark has null coefficient and beta; one whose symbol does
      carries the values of its first statistics row. */
  lemma ViewRowsStats(holdings: seq<Holding>, bars: seq<Bar>, pid: int, stats: seq<StatRow>)
    requires StatsShaped(stats, bars, EverHeld(holdings, pid))
    ensures var rows := ViewRows(holdings, bars, pid, stats);
      forall i :: 0 <= i < |rows| ==>
        && (!CommonDate(bars, rows[i].stock, Benchmark) ==> rows[i].cv.None? && rows[i].beta.None?)
        && (CommonDate(bars, rows[i].stock, Benchmark) ==>
              exists k :: 0 <= k < |stats| && stats[k].stock == rows[i].stock &&
                rows[i].cv == stats[k].cv && rows[i].beta == stats[k].beta &&
                forall j :: 0 <= j < k ==> stats[j].stock != rows[i].stock)
  {
    var rows := ViewRows(holdings, bars, pid, stats);
    forall i | 0 <= i < |rows|
      ensures rows[i].stock in EverHeld(holdings, pid)
    {
      assert HasRows(holdings, pid, rows[i].stock);
    }
  }

  /** In the portfolio view a held symbol that shares no date with the
      benchmark has null coefficient and beta; one that does carries the
      values of its first statistics row. */
  lemma StatsFromBenchmarkOverlap(db: Database, pid: int, stats: seq<StatRow>)
    requires KeysUnique(db.stockdata)
    requires StatsShaped(stats, db.stockdata, EverHeld(db.holdings, pid))
    ensures View(db, pid, stats).Ok? ==>
      var rows := View(db, pid, stats).value.holdings;
      forall i :: 0 <= i < |rows| ==>
        && (!CommonDate(db.stockdata, rows[i].stock, Benchmark) ==> rows[i].cv.None? && rows[i].beta.None?)
        && (CommonDate(db.stockdata, rows[i].stock, Benchmark) ==>
              exists k :: 0 <= k < |stats| && stats[k].stock == rows[i].stock &&
                rows[i].cv == stats[k].cv && rows[i].beta == stats[k].beta &&
                forall j :: 0 <= j < k ==> stats[j].stock != rows[i].stock)
  {
    ViewRowsStats(db.holdings, db.stockdata, pid, stats);
  }

  /** Every statistics row carries both values. A query that returns at
      all does: on non-null closes the two quotients are defined, and a zero
      divisor aborts the query instead of yielding a row. */
  ghost predicate StatsPresent(stats: seq<StatRow>)
  {
    forall k :: 0 <= k < |stats| ==> stats[k].cv.Some? && stats[k].beta.Some?
  }

  /** With statistics as a successful query returns them, a held symbol in
      the portfolio view has a coefficient and a beta exactly when it
      shares a date with the benchmark. */
  lemma StatsPresentIffBenchmarkOverlap(db: Database, pid: int, stats: seq<StatRow>)
    requires KeysUnique(db.stockdata)
    requires StatsShaped(stats, db.stockdata, EverHeld(db.holdings, pid))
    requires StatsPresent(stats)
    ensures View(db, pid, stats).Ok? ==>
      var rows := View(db, pid, stats).value.holdings;
      forall i :: 0 <= i < |rows| ==>
        (rows[i].cv.Some? && rows[i].beta.Some? <==> CommonDate(db.stockdata, rows[i].stock, Benchmark))
  {
    ViewRowsStats(db.holdings, db.stockdata, pid, stats);
  }

  // ---------------------------------------------------------------------
  // GET /:pid/transactions

  datatype History = History(cashTransactions: seq<CashRow>, stockTransactions: seq<Holding>)

  function CashOf(pid: int): CashRow -> bool
  {
    (c: CashRow) => c.pid == pid
  }

  function HoldingOf(pid: int): Holding -> bool
  {
    (h: Holding) => h.pid == pid
  }

  /** `ORDER BY tid DESC` over each log restricted to `pid`: exactly the
      portfolio's rows, the most recently appended first. */
  function Transactions(db: Database, pid: int): (r: History)
    reads db
    ensures forall c :: c in r.cashTransactions <==> c in db.cash && c.pid == pid
    ensures forall h :: h in r.stockTransactions <==> h in db.holdings && h.pid == pid
    ensures Reverse(r.cashTransactions) == Filter(db.cash, CashOf(pid))
    ensures Reverse(r.stockTransactions) == Filter(db.holdings, HoldingOf(pid))
  {
    var cashRows := NewestFirst(db.cash, CashOf(pid));
    var stockRows := NewestFirst(db.holdings, HoldingOf(pid));
    History(cashRows, stockRows)
  }
}
