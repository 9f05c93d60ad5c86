/** Worked examples over a fresh store, following the routes step by step. */
module Scenarios {
  import opened Util
  import opened Market
  import opened Db
  import opened Portfolios

  const Acme: string := "ACME"
  const AcmeBars: seq<Bar> := [Bar(Acme, 1, 50.0)]

  /** With 1000 in cash, 10 ACME at a close of 50 cost 500. */
  lemma BuyTenPasses(portfolios: map<int, Portfolio>, pid: int)
    requires pid in portfolios && portfolios[pid].money == 1000.0
    ensures BuyCheck({Acme}, portfolios, AcmeBars, pid, Acme, 10) == Ok(500.0)
  {
    assert LatestBar(AcmeBars, Acme) == Some(Bar(Acme, 1, 50.0));
  }

  /** Holding 10 ACME, selling 4 at a close of 50 yields 200 and leaves 6. */
  lemma SellFourPasses(pid: int)
    ensures SellCheck([Holding(pid, Acme, 10)], AcmeBars, pid, Acme, 4) == Ok(200.0)
    ensures Position([Holding(pid, Acme, 10)] + [Holding(pid, Acme, -4)], pid, Acme) == 6
  {
    var bought := [Holding(pid, Acme, 10)];
    assert bought[..0] == [];
    assert bought[0].pid == pid && bought[0].stock == Acme;
    assert LatestBar(AcmeBars, Acme) == Some(Bar(Acme, 1, 50.0));
    PositionAppend(bought, Holding(pid, Acme, -4), pid, Acme);
  }

  /** A fresh store with ACME priced at 50 and one new portfolio that has
      received a deposit of 1000. */
  method Funded() returns (db: Database, pid: int)
    ensures fresh(db) && db.Valid()
    ensures db.stocks == {Acme} && db.stockdata == AcmeBars && db.holdings == []
    ensures pid in db.portfolios && db.portfolios[pid].money == 1000.0
  {
    db := new Database({Acme}, AcmeBars);
    var row;
    pid, row := Create(db, "ann@example.com", "growth");
    var deposited := Deposit(db, pid, 1000.0);
  }

  /** A new portfolio receives 1000 in cash, buys 10 ACME at a close of 50
      and sells 4 of them: the sale adds 200, leaving 700 in cash and a
      position of 6. */
  method DepositBuySell() returns (cashAdded: real, money: real, position: int)
    ensures cashAdded == 200.0 && money == 700.0 && position == 6
  {
    var db, pid := Funded();
    BuyTenPasses(db.portfolios, pid);
    var bought := Buy(db, pid, Acme, 10);
    SellFourPasses(pid);
    var sold := Sell(db, pid, Acme, 4);
    cashAdded, money, position := sold.value, db.portfolios[pid].money, Position(db.holdings, pid, Acme);
  }
}
