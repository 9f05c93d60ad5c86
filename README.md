# Portfolio, stock-list and friend routes of a stock-portfolio tracker

This Dafny project models the server routes of a multi-user stock-portfolio
tracker. It covers three route files:

- **Portfolios:** creating portfolios, the cash ledger (deposit, withdraw,
  transfer), buying and selling at the latest close, deletion, and the
  read-only views. The portfolio view folds the holdings log into positions,
  computes the market value, attaches per-symbol statistics and lists the
  correlation pairs.
- **Stock lists:** creation, owner-guarded additions and deletion, the
  three-way listing, the detail view, sharing with a friend, and the
  visibility state machine.
- **Friends:** the friend-request state machine, with its five-minute rate
  limit, accept or reject, and unfriending.

The relational store is one class, `Db.Database`, with one field per table:

| field | table |
|---|---|
| `portfolios` | portfolios, as a map keyed by serial pid |
| `holdings` | append-only log of signed share deltas |
| `cash` | append-only log of cash transactions |
| `stocks` | stock master table |
| `stockdata` | price bars |
| `lists`, `items`, `sharedWith` | the three stock-list tables |
| `friends` | friends, as a map keyed by (sender, receiver) |

Each route is one atomic step on this store: a method that either commits
every effect or returns an `Err` and changes nothing.

- Five routes have their guard chain as a pure function: `BuyCheck`,
  `SellCheck`, `RequestCheck`, `ShareCheck` and `VisibilityCheck`. Each
  states which error arises under which condition, in the source's order,
  and the route's `ensures` ties its result and new state to it.
- The other state-changing routes (`Portfolios.Create`, `Deposit`,
  `Withdraw`, `Transfer` and `Delete`; `StockLists.CreateList`, `Add` and
  `Delete`) have no guard function. Each states its guard inline in its
  `ensures`: which result arises exactly when, and the new state in each
  case. `Create` and `CreateList` always succeed.
- `Friends.Manage` and `Friends.Unfriend` cannot fail. Their `ensures` tie
  the new table to the pure functions `ManageStep` and `UnfriendStep`.
- Invariants are stated as predicates and proved preserved by the routes that
  touch them:
  - `Solvent`: no negative balance.
  - `NoShort`: no negative summed position.
  - `SharedOnlyWhenShared`: share rows only while a list is `shared`.
  - `Database.Valid`: serial counters, foreign keys and the (stock, date)
    key of the price table.
- The read-only views are functions whose contracts say what they contain.
  The one exception is `Portfolios.ListPortfolios` (GET /): a method with a
  loop over the caller's portfolios, whose `ensures` says which summaries it
  returns.

Inputs from outside the store are explicit parameters:

- the caller's identity (`owner`, `caller`, `email`, `me`);
- the current time (`now`, in milliseconds);
- the rows of the statistics query (`stats`).

Money and prices are exact `real`s and shares are unbounded `int`s.

## Model

| member | source | states |
|---|---|---|
| Market.LatestBar | server/routes/portfolios.js:261-268 | the latest-dated bar of a symbol: None exactly when the symbol has no bar; otherwise a bar of that symbol whose date is at least every other date of that symbol |
| Market.CommonDate | server/routes/portfolios.js:105 | two symbols have a bar on the same trading date (the date join of the statistics and correlation queries) |
| Market.LexLess | server/routes/portfolios.js:108 | SQL `<` on symbols, as code-point order: a strict prefix, or a smaller code point at the first difference |
| Market.CommonDateSymmetric | server/routes/portfolios.js:105 | the date join of two symbols is non-empty in both orders |
| Market.LexIrreflexive | server/routes/portfolios.js:108 | no symbol is `<` itself |
| Market.LexAsymmetric | server/routes/portfolios.js:108 | `a < b` excludes `b < a` |
| Market.LexTotal | server/routes/portfolios.js:108 | of two distinct symbols one is `<` the other |
| Market.CorrelationPairs | server/routes/portfolios.js:101-111 | a pair is reported iff both symbols are in the set, the first is `<` the second, and they share a trading date |
| Market.PairsOrientedOnce | server/routes/portfolios.js:108-109 | no pair joins a symbol with itself, and no pair appears in both orientations |
| Market.PairsCoverCoDated | server/routes/portfolios.js:101-111 | any two distinct co-dated symbols of the set are reported in one orientation |
| Market.PairsOfSingleton | server/routes/portfolios.js:101-111 | a set of at most one symbol has no pairs |
| Util.FilterOfFilter | server/routes/portfolios.js:379-394 | filtering by a looser test first and then by a stricter one keeps exactly the rows the stricter test keeps, in the same order, newest first as well |
| Db.Database.Valid | server/routes/portfolios.js:127-129 | the store's keys and foreign keys: every pid and lid below its serial counter, every holdings and cash row naming an existing portfolio, every list item and share naming an existing list, and price bars keyed by (stock, date) |
| Util.NewestFirst | server/routes/portfolios.js:379-394 | the kept rows of a log, exactly those, and read backwards they are the log's kept rows in insertion order |
| Portfolios.Position | server/routes/portfolios.js:303 | the summed shares of the portfolio's rows for the symbol, 0 when there are none |
| Portfolios.HasRows | server/routes/portfolios.js:307 | the portfolio has at least one holdings row for the symbol (the SUM is not null) |
| Portfolios.EverHeld | server/routes/portfolios.js:85 | the symbols with at least one holdings row for the portfolio, whatever their sum |
| Portfolios.PositionWithoutRows | server/routes/portfolios.js:302-309 | with no holdings row for (pid, stock) the summed position is zero |
| Portfolios.PositionAppend | server/routes/portfolios.js:277-281 | appending a delta changes only the position of its own (pid, stock), by its shares |
| Portfolios.PositionNonNegative | server/routes/portfolios.js:302-316 | under `NoShort`, every (pid, stock) position is non-negative, rows or not |
| Portfolios.AppendKeepsNoShort | server/routes/portfolios.js:277-281 | a delta that keeps its own position non-negative keeps `NoShort` |
| Portfolios.HoldingsWithout | server/routes/portfolios.js:361 | holdings after the delete cascade: exactly the rows of other portfolios |
| Portfolios.CashWithout | server/routes/portfolios.js:361 | cash rows after the delete cascade: exactly the rows of other portfolios |
| Portfolios.PositionOfOthers | server/routes/portfolios.js:361 | deleting one portfolio's rows leaves every other portfolio's positions unchanged |
| Portfolios.DeleteKeepsOtherHistories | server/routes/portfolios.js:356-394 | after the delete cascade, every other portfolio's cash and stock histories, newest first, are what they were |
| Portfolios.WithoutKeepsNoShort | server/routes/portfolios.js:361 | the delete cascade preserves `NoShort` |
| Portfolios.Create | server/routes/portfolios.js:122-136 | a fresh pid owned by the caller with money 0; no other portfolio changes; validity and solvency are kept |
| Portfolios.Deposit | server/routes/portfolios.js:138-165 | succeeds iff the portfolio exists; then money rises by `amount` and exactly one row (pid, amount, 'external', name) is appended; on failure nothing changes |
| Portfolios.Withdraw | server/routes/portfolios.js:167-198 | succeeds iff the portfolio exists and money ≥ amount; then money drops by `amount` and exactly one row (pid, -amount, name, 'external') is appended; otherwise insufficient funds and nothing changes; the new balance is non-negative |
| Portfolios.Transfer | server/routes/portfolios.js:200-241 | succeeds iff both portfolios exist and the source has money ≥ amount; then the debit, the credit and the two rows -amount and +amount; otherwise nothing changes; money(from) + money(to) is conserved and the set of portfolios is unchanged; the source stays non-negative when distinct from the destination |
| Portfolios.BuyCheck | server/routes/portfolios.js:249-274 | the errors in source order (unknown symbol, portfolio not found, no price, cost above money); passes iff none applies, a cost equal to money included; the value is latest close × shares |
| Portfolios.Buy | server/routes/portfolios.js:243-294 | the result follows `BuyCheck`; on success one (pid, stock, +shares) row is appended and money drops by the cost; on failure nothing changes; the position grows by `shares`, money stays ≥ 0, solvency is kept, and `NoShort` is kept for non-negative shares |
| Portfolios.SellCheck | server/routes/portfolios.js:302-328 | the errors in source order (no rows for the symbol, shares above the summed position, no price); passes iff none applies; the proceeds are latest close × shares |
| Portfolios.Sell | server/routes/portfolios.js:296-354 | the result is `SellCheck`; on success one (pid, stock, -shares) row is appended, money rises by the proceeds and `cashAdded` is returned; on failure nothing changes; the position left is non-negative; `NoShort` is kept; solvency is kept for non-negative shares and prices |
| Portfolios.SellKeepsNoShort | server/routes/portfolios.js:311-338 | a sale that passes its checks leaves the position minus shares, which is ≥ 0, and preserves `NoShort` |
| Portfolios.ProceedsNonNegative | server/routes/portfolios.js:327-328 | with non-negative prices and shares the proceeds are non-negative |
| Portfolios.SellThenBuyBack | server/routes/portfolios.js:249-348 | selling and buying back the same shares at an unchanged price passes, costs the proceeds, and restores both balance and position |
| Portfolios.Delete | server/routes/portfolios.js:356-372 | succeeds iff the portfolio exists; removes it and, by cascade, its log rows; otherwise not found and nothing changes; keeps validity, solvency and `NoShort` |
| Portfolios.PricedRows | server/routes/portfolios.js:21-27 | exactly one row per holdings row of the portfolio whose symbol has a bar, in log order, carrying that row's stock and delta and the symbol's latest close |
| Portfolios.PricedRowsMembers | server/routes/portfolios.js:21-27 | every priced row comes from a holdings row of the portfolio with that stock and delta, at the latest close; every holdings row of the portfolio with a priced symbol yields one |
| Portfolios.ListPortfolios | server/routes/portfolios.js:7-36 | every summary is of a portfolio of the caller, with its name, money and priced rows; every such portfolio appears, and none twice |
| Portfolios.StockColumn | server/routes/portfolios.js:56-63 | the symbols with holdings rows for the portfolio |
| Portfolios.HeldAmong | server/routes/portfolios.js:56-66 | among the given distinct symbols, exactly those with a price and a positive sum, each once, with that sum and the latest close |
| Portfolios.HeldRows | server/routes/portfolios.js:56-66 | the grouped holdings: a symbol appears iff it has a price and a positive summed position; each appears once, with that sum and the latest close |
| Portfolios.TotalStockValue | server/routes/portfolios.js:71-73 | the sum of shares × close over the grouped rows, starting from 0 |
| Portfolios.TotalConcat | server/routes/portfolios.js:71-73 | the market value of two row sequences put together is the sum of their values |
| Portfolios.TotalRemove | server/routes/portfolios.js:71-73 | removing one row subtracts exactly its shares × close |
| Portfolios.TotalOrderIrrelevant | server/routes/portfolios.js:63-73 | two orderings of the same rows have the same market value |
| Portfolios.TotalNonNegative | server/routes/portfolios.js:71-73 | rows with non-negative shares and closes have a non-negative value |
| Portfolios.HeldValueNonNegative | server/routes/portfolios.js:56-75 | with non-negative prices the grouped holdings have a non-negative market value |
| Portfolios.FindStat | server/routes/portfolios.js:92 | None iff no statistics row has the symbol; otherwise the first row that has it |
| Portfolios.Attach | server/routes/portfolios.js:93-97 | a grouped row with the found statistics row's coefficient and beta, or null for both when none was found |
| Portfolios.MergeStats | server/routes/portfolios.js:91-98 | same length and order; each row keeps its stock, shares and close; coefficient and beta are null when no statistics row matches, and otherwise come from the first matching row |
| Portfolios.ViewRows | server/routes/portfolios.js:56-98 | the holdings column: each row is a symbol's group with positive sum and latest close; a symbol appears iff it has a price and positive position; no symbol twice; coefficient and beta are null when no statistics row has the symbol, and otherwise those of the first one that has it |
| Portfolios.ViewRowsStats | server/routes/portfolios.js:78-98 | for statistics rows shaped as the query returns them, a listed symbol's coefficient and beta are null when it shares no date with SPY, and otherwise those of the symbol's first statistics row |
| Portfolios.StatsFromBenchmarkOverlap | server/routes/portfolios.js:78-98 | the same about the holdings column of the view: null when no date with SPY is shared; otherwise the values of the symbol's first statistics row |
| Portfolios.StatsPresentIffBenchmarkOverlap | server/routes/portfolios.js:78-98 | when every statistics row has both values, as a query that returns does, a held symbol in the view has a coefficient and a beta exactly when it shares a date with SPY |
| Portfolios.View | server/routes/portfolios.js:39-120 | for a price table keyed by (stock, date): not found iff the pid is absent; otherwise the portfolio's name and money, and the holdings column is `ViewRows`; each row is a symbol's group with positive sum and latest close; a symbol appears iff it has a price and a positive position; no symbol twice; the value is the sum of shares × close over the grouped rows and is non-negative under non-negative prices; a pair is in the matrix iff both symbols were ever held, the first is `<` the second, and they share a date |
| Portfolios.Transactions | server/routes/portfolios.js:374-404 | exactly the portfolio's cash and stock rows, each list newest first, the reverse of insertion order |
| Friends.AreFriends | server/routes/stocklists.js:177-182 | an accepted row exists in one direction or the other |
| Friends.AreFriendsSymmetric | server/routes/stocklists.js:177-182 | friendship by an accepted row in either direction is symmetric |
| Friends.RequestCheck | server/routes/friends.js:11-31 | passes iff there is no sender→receiver row, or its status is neither pending nor accepted and at least 5·60000 ms have passed since its date; pending and accepted rows give their own errors; too-quickly iff the remaining case |
| Friends.RequestStep | server/routes/friends.js:33-41 | on success the sender→receiver row is pending and dated now, inserted or updated; otherwise the table is unchanged |
| Friends.Request | server/routes/friends.js:5-48 | the result is `RequestCheck` and the new table is `RequestStep`; validity is kept |
| Friends.RequestIgnoresReverse | server/routes/friends.js:11-14 | the receiver→sender row has no effect on the decision |
| Friends.RequestTouchesOneRow | server/routes/friends.js:33-41 | only the sender→receiver row is added or changed |
| Friends.RepeatIsPending | server/routes/friends.js:20-23 | right after a successful request, a repeat is refused as pending |
| Friends.RequestKeepsFriendships | server/routes/friends.js:5-48 | a request neither creates nor ends any friendship |
| Friends.ManageStep | server/routes/friends.js:50-59 | the (sender, caller) row, if present, gets status action + "ed" with its date kept; no key is added or removed; every other row is unchanged |
| Friends.Manage | server/routes/friends.js:50-65 | the new table is `ManageStep`; validity is kept |
| Friends.AcceptBefriends | server/routes/friends.js:53-59 | accepting an existing request makes the two friends in both directions |
| Friends.RejectedRetryTooQuick | server/routes/friends.js:28-31 | a request rejected by the receiver cannot be renewed within 5·60000 ms of being sent |
| Friends.UnfriendStep | server/routes/friends.js:72-75 | exactly the rows in both directions between the two users are removed; others are untouched |
| Friends.Unfriend | server/routes/friends.js:67-81 | the new table is `UnfriendStep`; validity is kept |
| Friends.UnfriendResets | server/routes/friends.js:72-75 | afterwards the two are not friends and a request in either direction passes its checks |
| StockLists.Owns | server/routes/stocklists.js:30-35 | the list exists and its owner is the caller |
| StockLists.SharedWith | server/routes/stocklists.js:189-195 | the emails a list is shared with |
| StockLists.CreateList | server/routes/stocklists.js:6-20 | a fresh lid owned by the caller with the default visibility; no other list changes; validity is kept |
| StockLists.Upsert | server/routes/stocklists.js:40-46 | the (lid, stock) item holds its old shares plus the new ones, or just the new ones if absent; no other item changes |
| StockLists.UpsertAccumulates | server/routes/stocklists.js:40-46 | two additions of one symbol equal one addition of their sum |
| StockLists.Add | server/routes/stocklists.js:23-53 | succeeds iff the caller owns the list; then the items are the upsert; otherwise not found and nothing changes |
| StockLists.GetLists | server/routes/stocklists.js:56-83 | private: the caller's private lists; shared: the caller's shared lists; public: every public list, whoever owns it |
| StockLists.ListingPartitionsOwnLists | server/routes/stocklists.js:60-72 | the caller's private and shared groups are disjoint and, with the caller's public lists, are exactly the caller's lists |
| StockLists.ItemSymbols | server/routes/stocklists.js:113-114 | the symbols of the list's items |
| StockLists.ListDetail | server/routes/stocklists.js:86-132 | a (symbol, shares) row iff the list has that item and the symbol shares a date with SPY; a pair iff both symbols are items, the first is `<` the second, and they share a date |
| StockLists.DetailSymbolsUnique | server/routes/stocklists.js:92-99 | each symbol appears in the detail with one share count only |
| StockLists.ItemsWithout | server/routes/stocklists.js:151 | the items of other lists, unchanged |
| StockLists.SharesWithout | server/routes/stocklists.js:238-244 | the shares of other lists |
| StockLists.Delete | server/routes/stocklists.js:135-157 | succeeds iff the caller owns the list; removes it, its items and its shares; otherwise not found and nothing changes; keeps validity and `SharedOnlyWhenShared` |
| StockLists.ShareCheck | server/routes/stocklists.js:166-199 | the errors in source order (not owner, not an accepted friend either way, already shared); passes iff none applies |
| StockLists.ShareAfterAccept | server/routes/stocklists.js:177-199 | after a request from the owner is accepted, sharing an unshared owned list with that friend passes |
| StockLists.Share | server/routes/stocklists.js:160-212 | the result is `ShareCheck`; on success the email is among the list's shares and its visibility is `shared`, nothing else changing; on failure nothing changes; keeps `SharedOnlyWhenShared` |
| StockLists.ParseVisibility | server/routes/stocklists.js:221 | only 'public' and 'private' are accepted, each to its value |
| StockLists.VisibilityCheck | server/routes/stocklists.js:220-234 | an invalid value is refused before ownership is checked; passes iff the value is valid and the caller owns the list; the new visibility is never `shared` |
| StockLists.SetVisibility | server/routes/stocklists.js:215-261 | the result follows `VisibilityCheck`; on success the visibility is the requested one and, if it was `shared`, the list's shares are removed; on failure nothing changes; keeps `SharedOnlyWhenShared`, after which the list is shared with nobody |
| Scenarios.BuyTenPasses | server/routes/portfolios.js:249-274 | with 1000 in cash, buying 10 ACME at a close of 50 passes its checks at a cost of 500 |
| Scenarios.SellFourPasses | server/routes/portfolios.js:302-328 | holding 10 ACME, selling 4 at a close of 50 passes with proceeds of 200 and leaves a position of 6 |
| Scenarios.Funded | server/routes/portfolios.js:122-165 | a fresh valid store with ACME priced at 50 and a new portfolio holding 1000 in cash and no shares |
| Scenarios.DepositBuySell | server/routes/portfolios.js:138-354 | a new portfolio deposits 1000, buys 10 at a close of 50 and sells 4: cashAdded is 200, money 700, position 6 |

## Left out

These parts of the route files, or of their behaviour, are not modelled:

- **Statistical aggregates:** STDDEV/AVG, COVAR_POP/VAR_POP and CORR are floating-point values the database computes (server/routes/portfolios.js:78-88 and 101-111, server/routes/stocklists.js:91-118). The portfolio view takes the statistics rows as a parameter. Only their shape is modelled (`Portfolios.StatsShaped`): exactly one row per ever-held symbol sharing a date with SPY, and the null fallback for the others. A query that returns rows gives both values in each of them (`Portfolios.StatsPresent`): on non-null closes both quotients are defined, and a zero divisor aborts the query with a 500 (see the storage failures below). The correlation value and the list detail's coefficient and beta are not represented.
- **Concurrency:** interleaving of requests and partial failure are not modelled. Every route is one atomic step. Buy is not wrapped in a transaction in the source and is still modelled as atomic.
- **Storage failures:** the 500 responses for connection or query failures are not modelled. The one exception is the foreign-key violation that rolls back a deposit to, or a transfer to, a missing portfolio. Among the unmodelled failures is the statistics query's own division by zero: when the SPY closes on the shared dates have zero variance (for instance, only one shared date), `VAR_POP` is 0 and the route answers 500, while `Portfolios.View` returns `Ok`. The list detail computes the same quotient (server/routes/stocklists.js:94): a list item that shares exactly one date with SPY makes GET /:lid answer 500, while `StockLists.ListDetail` returns a detail.
- **JavaScript arithmetic:** the string-to-number coercion of `SUM(shares)` and floating-point `close * shares` are replaced by exact arithmetic.
- **Other route files:** server/routes/predictions.js (a constant stub), auth.js (hashing and tokens), stocks.js, reviews.js and the UI scripts are not part of this model.
- **Caller identity and time:** the JWT middleware in server/app.js is not part of this model; the caller's identity is a parameter. The `"GMT"` date parsing of friends.js becomes integer milliseconds: `now` is a parameter and each row has an integer `date`.
- **Schema:** the schema is not part of this model. The model assumes:
  - holdings, cashtransactions, stocklistitems and stocklistsharedwith reference their parent row with ON DELETE CASCADE;
  - stockdata is keyed by (stock, date);
  - friends is keyed by (sender, receiver), and its `date` defaults to the insertion time;
  - a new stock list's visibility defaults to `private` (`StockLists.DefaultVisibility`);
  - cashtransactions and holdings carry a serial `tid` assigned in insertion order. So `ORDER BY tid DESC` (server/routes/portfolios.js:383 and 392) is reverse insertion order, which `Portfolios.Transactions` and `Util.NewestFirst` rely on.
- **Response bodies:** the JSON response rows are not modelled; each route returns its result value or error.
- **String order:** SQL `<` on symbols is modelled as code-point order, i.e. a byte-wise collation.
- **Row order:** SQL leaves row order unspecified without ORDER BY.
  - Grouped holdings are modelled in order of first appearance in the log, and `TotalOrderIrrelevant` shows their value does not depend on it.
  - `Portfolios.PricedRows`: the listing's holdings rows are modelled in log order.
  - Set-valued results (listings, pairs, list detail) are modelled as sets.
  - `Portfolios.ListPortfolios`: states which summaries appear, not their order.
- **Unreachable branch:** the 400 "Failed to update stock list visibility" branch of server/routes/stocklists.js:252-254 can only occur if the list changes between the ownership check and the update. Under atomic steps that cannot happen.
- **No route validates its inputs:**
  - No route checks the sign of `amount` or `shares`, so `Solvent` and `NoShort` are proved only under explicit sign conditions.
  - `Portfolios.Transfer` has no same-account check: with equal pids the balance is unchanged and two rows are still logged.
  - No portfolio route and no `GET /:lid` checks ownership.
  - Deleting a portfolio does not pay out its cash.
- `Portfolios.Sell`: solvency after a sale is stated only for non-negative shares and prices, because the source does not validate either.
- `Portfolios.Transfer`: a non-negative source balance is stated only when source and destination differ. With equal pids the balance is whatever it was before.
