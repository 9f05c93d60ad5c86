/** The stock-list routes: creation, the owner-guarded upsert of items, the
    three-way listing, the detail view, the owner-guarded delete, sharing
    with an accepted friend and the change of visibility, over the tables
    `stocklists`, `stocklistitems` and `stocklistsharedwith`. */
module StockLists {
  import opened Util
  import opened Market
  import opened Db
  import opened Friends

  /** The visibility of a list inserted without one; the column default is
      not part of the modelled source and is taken to be private. */
  const DefaultVisibility: Visibility := Private

  /** The ownership check of the list routes: the list exists and the
      caller is its owner. */
  predicate Owns(lists: map<int, StockList>, caller: string, lid: int)
  {
    lid in lists && lists[lid].owner == caller
  }

  /** The emails a list is shared with. */
  function SharedWith(sharedWith: set<(int, string)>, lid: int): (r: set<string>)
    ensures forall e :: e in r <==> (lid, e) in sharedWith
  {
    set e | e in sharedWith && e.0 == lid :: e.1
  }

  /** A list is shared with somebody only while its visibility is `shared`. */
  ghost predicate SharedOnlyWhenShared(lists: map<int, StockList>, sharedWith: set<(int, string)>)
  {
    forall e :: e in sharedWith ==> e.0 in lists && lists[e.0].visibility == Shared
  }

  // ---------------------------------------------------------------------
  // POST /new

  method CreateList(db: Database, owner: string, name: string) returns (lid: int, row: StockList)
    requires db.Valid()
    modifies db`lists, db`nextLid
    ensures db.Valid()
    ensures lid == old(db.nextLid) && lid !in old(db.lists)
    ensures row == StockList(owner, name, DefaultVisibility)
    ensures db.lists == old(db.lists)[lid := row] && db.nextLid == lid + 1
    ensures SharedOnlyWhenShared(old(db.lists), db.sharedWith) ==> SharedOnlyWhenShared(db.lists, db.sharedWith)
  {
    lid := db.nextLid;
    row := StockList(owner, name, DefaultVisibility);
    db.lists, db.nextLid := db.lists[lid := row], lid + 1;
  }

  // ---------------------------------------------------------------------
  // POST /:lid/add

  /** Adding shares of a symbol to a list, an insert that adds onto the
      existing row on conflict: the item gains `shares` onto what it had,
      or is inserted with them; every other item is untouched. */
  function Upsert(items: map<(int, string), int>, lid: int, stock: string, shares: int): (r: map<(int, string), int>)
    ensures r.Keys == items.Keys + {(lid, stock)}
    ensures r[(lid, stock)] == (if (lid, stock) in items then items[(lid, stock)] else 0) + shares
    ensures forall k :: k in items && k != (lid, stock) ==> r[k] == items[k]
  {
    if (lid, stock) in items then items[(lid, stock) := items[(lid, stock)] + shares]
    else items[(lid, stock) := shares]
  }

  /** Two additions of the same symbol add up to one addition of the sum. */
  lemma UpsertAccumulates(items: map<(int, string), int>, lid: int, stock: string, a: int, b: int)
    ensures Upsert(Upsert(items, lid, stock, a), lid, stock, b) == Upsert(items, lid, stock, a + b)
  {
  }

  method Add(db: Database, caller: string, lid: int, stock: string, shares: int) returns (r: Result<()>)
    requires db.Valid()
    modifies db`items
    ensures db.Valid()
    ensures r.Ok? <==> Owns(db.lists, caller, lid)
    ensures r.Err? ==> r.error == ListNotFound && db.items == old(db.items)
    ensures r.Ok? ==> db.items == Upsert(old(db.items), lid, stock, shares)
  {
    if !Owns(db.lists, caller, lid) {
      return Err(ListNotFound);
    }
    db.items := Upsert(db.items, lid, stock, shares);
    r := Ok(());
  }

  // ---------------------------------------------------------------------
  // GET /

  datatype Listing = Listing(privateLists: set<int>, sharedLists: set<int>, publicLists: set<int>)

  /** The three selections of the listing route, as sets of lids. */
  function GetLists(lists: map<int, StockList>, caller: string): (r: Listing)
    ensures forall lid :: lid in r.privateLists <==> Owns(lists, caller, lid) && lists[lid].visibility == Private
    ensures forall lid :: lid in r.sharedLists <==> Owns(lists, caller, lid) && lists[lid].visibility == Shared
    ensures forall lid :: lid in r.publicLists <==> lid in lists && lists[lid].visibility == Public
  {
    Listing(
      set lid | lid in lists && lists[lid].owner == caller && lists[lid].visibility == Private,
      set lid | lid in lists && lists[lid].owner == caller && lists[lid].visibility == Shared,
      set lid | lid in lists && lists[lid].visibility == Public)
  }

  /** The caller's private and shared groups are disjoint, and together
      with the caller's public lists they are exactly the caller's lists. */
  lemma ListingPartitionsOwnLists(lists: map<int, StockList>, caller: string)
    ensures var r := GetLists(lists, caller);
      && r.privateLists * r.sharedLists == {}
      && forall lid :: Owns(lists, caller, lid) <==>
           lid in r.privateLists || lid in r.sharedLists || (lid in r.publicLists && lists[lid].owner == caller)
  {
    var r := GetLists(lists, caller);
    if lid :| lid in r.privateLists * r.sharedLists {
      assert false;
    }
  }

  // ---------------------------------------------------------------------
  // GET /:lid

  /** The symbols of a list, `SELECT stock FROM stocklistitems WHERE lid = $1`. */
  function ItemSymbols(items: map<(int, string), int>, lid: int): (r: set<string>)
    ensures forall s :: s in r <==> (lid, s) in items
  {
    set k | k in items && k.0 == lid :: k.1
  }

  datatype Detail = Detail(stocks: set<(string, int)>, correlationMatrix: set<(string, string)>)

  /** GET /:lid, with the statistics values left out: a (symbol, shares)
      row for every item whose symbol has a date in common with the
      benchmark (the inner join with its bars drops the others), and the
      correlation pairs over the list's symbols. No ownership is checked. */
  function ListDetail(items: map<(int, string), int>, bars: seq<Bar>, lid: int): (r: Detail)
    ensures forall s, n :: (s, n) in r.stocks <==> (lid, s) in items && items[(lid, s)] == n && CommonDate(bars, s, Benchmark)
    ensures forall p :: p in r.correlationMatrix <==>
      (lid, p.0) in items && (lid, p.1) in items && LexLess(p.0, p.1) && CommonDate(bars, p.0, p.1)
  {
    Detail(
      set k | k in items && k.0 == lid && CommonDate(bars, k.1, Benchmark) :: (k.1, items[k]),
      CorrelationPairs(bars, ItemSymbols(items, lid)))
  }

  /** Each symbol of the list appears in the detail at most once. */
  lemma DetailSymbolsUnique(items: map<(int, string), int>, bars: seq<Bar>, lid: int, s: string, m: int, n: int)
    requires (s, m) in ListDetail(items, bars, lid).stocks && (s, n) in ListDetail(items, bars, lid).stocks
    ensures m == n
  {
  }

  // ---------------------------------------------------------------------
  // DELETE /:lid

  /** The items left after the cascade of deleting list `lid`. */
  function ItemsWithout(items: map<(int, string), int>, lid: int): (r: map<(int, string), int>)
    ensures forall k :: k in r <==> k in items && k.0 != lid
    ensures forall k :: k in r ==> r[k] == items[k]
  {
    map k | k in items && k.0 != lid :: items[k]
  }

  /** The shares left after removing every share of list `lid`. */
  function SharesWithout(sharedWith: set<(int, string)>, lid: int): (r: set<(int, string)>)
    ensures forall e :: e in r <==> e in sharedWith && e.0 != lid
  {
    set e | e in sharedWith && e.0 != lid
  }

  method Delete(db: Database, caller: string, lid: int) returns (r: Result<()>)
    requires db.Valid()
    modifies db`lists, db`items, db`sharedWith
    ensures db.Valid()
    ensures r.Ok? <==> Owns(old(db.lists), caller, lid)
    ensures r.Err? ==>
      r.error == ListNotFound && db.lists == old(db.lists) && db.items == old(db.items) && db.sharedWith == old(db.sharedWith)
    ensures r.Ok? ==>
      && db.lists == old(db.lists) - {lid}
      && db.items == ItemsWithout(old(db.items), lid)
      && db.sharedWith == SharesWithout(old(db.sharedWith), lid)
    ensures SharedOnlyWhenShared(old(db.lists), old(db.sharedWith)) ==> SharedOnlyWhenShared(db.lists, db.sharedWith)
  {
    if !Owns(db.lists, caller, lid) {
      return Err(ListNotFound);
    }
    db.lists, db.items, db.sharedWith := db.lists - {lid}, ItemsWithout(db.items, lid), SharesWithout(db.sharedWith, lid);
    r := Ok(());
  }

  // ---------------------------------------------------------------------
  // POST /:lid/share

  /** The checks of sharing, in the source's order: the caller owns the
      list, the recipient is an accepted friend in either direction, and the
      list is not already shared with the recipient. */
  function ShareCheck(lists: map<int, StockList>, friends: Friendships, sharedWith: set<(int, string)>,
                      caller: string, lid: int, email: string): (r: Result<()>)
    ensures r.Ok? <==> Owns(lists, caller, lid) && AreFriends(friends, caller, email) && (lid, email) !in sharedWith
    ensures !Owns(lists, caller, lid) ==> r == Err(ListNotFound)
    ensures Owns(lists, caller, lid) && !AreFriends(friends, caller, email) ==> r == Err(NotAFriend)
    ensures Owns(lists, caller, lid) && AreFriends(friends, caller, email) && (lid, email) in sharedWith ==>
      r == Err(AlreadyShared)
  {
    if !Owns(lists, caller, lid) then Err(ListNotFound)
    else if !AreFriends(friends, caller, email) then Err(NotAFriend)
    else if (lid, email) in sharedWith then Err(AlreadyShared)
    else Ok(())
  }

  /** Once a request is accepted, the sender may share an owned list with
      the new friend. */
  lemma ShareAfterAccept(lists: map<int, StockList>, friends: Friendships, sharedWith: set<(int, string)>,
                         owner: string, lid: int, friend: string, now: int)
    requires Owns(lists, owner, lid) && (lid, friend) !in sharedWith
    requires RequestCheck(friends, owner, friend, now).Ok?
    ensures var answered := ManageStep(RequestStep(friends, owner, friend, now), friend, owner, "accept");
      ShareCheck(lists, answered, sharedWith, owner, lid, friend) == Ok(())
  {
    AcceptBefriends(RequestStep(friends, owner, friend, now), friend, owner);
  }

  method Share(db: Database, caller: string, lid: int, email: string) returns (r: Result<()>)
    requires db.Valid()
    modifies db`lists, db`sharedWith
    ensures db.Valid()
    ensures r == ShareCheck(old(db.lists), db.friends, old(db.sharedWith), caller, lid, email)
    ensures r.Err? ==> db.lists == old(db.lists) && db.sharedWith == old(db.sharedWith)
    ensures r.Ok? ==>
      && lid in old(db.lists)
      && db.sharedWith == old(db.sharedWith) + {(lid, email)}
      && db.lists == old(db.lists)[lid := old(db.lists)[lid].(visibility := Shared)]
    ensures r.Ok? ==> email in SharedWith(db.sharedWith, lid) && db.lists[lid].visibility == Shared
    ensures SharedOnlyWhenShared(old(db.lists), old(db.sharedWith)) ==> SharedOnlyWhenShared(db.lists, db.sharedWith)
  {
    r := ShareCheck(db.lists, db.friends, db.sharedWith, caller, lid, email);
    if r.Err? {
      return;
    }
    var l := db.lists[lid];
    db.lists, db.sharedWith := db.lists[lid := l.(visibility := Shared)], db.sharedWith + {(lid, email)};
  }

  // ---------------------------------------------------------------------
  // PUT /:lid/visibility

  /** Only the two values `public` and `private` are accepted. */
  function ParseVisibility(s: string): (r: Option<Visibility>)
    ensures s == "public" <==> r == Some(Public)
    ensures s == "private" <==> r == Some(Private)
    ensures r.None? <==> s != "public" && s != "private"
  {
    if s == "public" then Some(Public)
    else if s == "private" then Some(Private)
    else None
  }

  /** The checks of a change of visibility: the value is validated before
      the store is consulted, then ownership. The value on success is the
      parsed visibility. */
  function VisibilityCheck(lists: map<int, StockList>, caller: string, lid: int, visibility: string): (r: Result<Visibility>)
    ensures ParseVisibility(visibility).None? ==> r == Err(InvalidVisibility)
    ensures ParseVisibility(visibility).Some? && !Owns(lists, caller, lid) ==> r == Err(ListNotFound)
    ensures r.Ok? <==> ParseVisibility(visibility).Some? && Owns(lists, caller, lid)
    ensures r.Ok? ==> r.value != Shared && Some(r.value) == ParseVisibility(visibility)
  {
    var v := ParseVisibility(visibility);
    if v.None? then Err(InvalidVisibility)
    else if !Owns(lists, caller, lid) then Err(ListNotFound)
    else Ok(v.value)
  }

  method SetVisibility(db: Database, caller: string, lid: int, visibility: string) returns (r: Result<()>)
    requires db.Valid()
    modifies db`lists, db`sharedWith
    ensures db.Valid()
    ensures var check := VisibilityCheck(old(db.lists), caller, lid, visibility);
      && (r.Ok? <==> check.Ok?)
      && (r.Err? ==> r.error == check.error && db.lists == old(db.lists) && db.sharedWith == old(db.sharedWith))
      && (r.Ok? ==>
            && lid in old(db.lists)
            && db.lists == old(db.lists)[lid := old(db.lists)[lid].(visibility := check.value)]
            && db.sharedWith == (if old(db.lists)[lid].visibility == Shared
                                 then SharesWithout(old(db.sharedWith), lid) else old(db.sharedWith)))
    ensures SharedOnlyWhenShared(old(db.lists), old(db.sharedWith)) ==> SharedOnlyWhenShared(db.lists, db.sharedWith)
    ensures SharedOnlyWhenShared(old(db.lists), old(db.sharedWith)) && r.Ok? ==> SharedWith(db.sharedWith, lid) == {}
  {
    var check := VisibilityCheck(db.lists, caller, lid, visibility);
    if check.Err? {
      return Err(check.error);
    }
    var l := db.lists[lid];
    if l.visibility == Shared {
      db.sharedWith := SharesWithout(db.sharedWith, lid);
    }
    db.lists := db.lists[lid := l.(visibility := check.value)];
    r := Ok(());
  }
}
