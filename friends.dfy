/** The friend routes over the `friends` table, keyed by (sender, receiver):
    a request opens or re-opens the sender's row as pending, subject to a
    five-minute rate limit; the receiver answers by writing `action + "ed"`
    as the status; unfriending removes the rows in both directions. */
module Friends {
  import opened Db

  const Pending: string := "pending"
  const Accepted: string := "accepted"

  /** The minimum gap, in milliseconds, between two requests of one sender
      to one receiver once an earlier one has been answered. */
  const RateLimitMs: int := 5 * 60000

  type Friendships = map<(string, string), FriendRow>

  /** What the share check of the stock lists asks: an accepted row in
      either direction. */
  predicate AreFriends(friends: Friendships, a: string, b: string)
  {
    || ((a, b) in friends && friends[(a, b)].status == Accepted)
    || ((b, a) in friends && friends[(b, a)].status == Accepted)
  }

  lemma AreFriendsSymmetric(friends: Friendships, a: string, b: string)
    ensures AreFriends(friends, a, b) <==> AreFriends(friends, b, a)
  {
  }

  // ---------------------------------------------------------------------
  // POST /request

  /** The guard chain of a request, which looks at the sender's own row
      only: none lets it through; a pending or accepted row refuses it; any
      other status refuses it while less than the rate limit has passed
      since the row's date. */
  function RequestCheck(friends: Friendships, sender: string, receiver: string, now: int): (r: Result<()>)
    ensures r.Ok? <==>
      || (sender, receiver) !in friends
      || (&& friends[(sender, receiver)].status != Pending
          && friends[(sender, receiver)].status != Accepted
          && now - friends[(sender, receiver)].date >= RateLimitMs)
    ensures (sender, receiver) in friends && friends[(sender, receiver)].status == Pending ==>
      r == Err(PendingRequest)
    ensures (sender, receiver) in friends && friends[(sender, receiver)].status == Accepted ==>
      r == Err(AlreadyFriends)
    ensures r.Err? && r.error == TooQuickly <==>
      && (sender, receiver) in friends
      && friends[(sender, receiver)].status != Pending
      && friends[(sender, receiver)].status != Accepted
      && now - friends[(sender, receiver)].date < RateLimitMs
  {
    if (sender, receiver) !in friends then Ok(())
    else
      var row := friends[(sender, receiver)];
      if row.status == Pending then Err(PendingRequest)
      else if row.status == Accepted then Err(AlreadyFriends)
      else if now - row.date < RateLimitMs then Err(TooQuickly)
      else Ok(())
  }

  /** The table after a request: on success the sender's row, inserted or
      updated, is pending and dated now; otherwise the table is unchanged. */
  function RequestStep(friends: Friendships, sender: string, receiver: string, now: int): (r: Friendships)
    ensures RequestCheck(friends, sender, receiver, now).Ok? ==>
      r == friends[(sender, receiver) := FriendRow(Pending, now)]
    ensures RequestCheck(friends, sender, receiver, now).Err? ==> r == friends
  {
    if RequestCheck(friends, sender, receiver, now).Ok? then friends[(sender, receiver) := FriendRow(Pending, now)]
    else friends
  }

  method Request(db: Database, sender: string, receiver: string, now: int) returns (r: Result<()>)
    requires db.Valid()
    modifies db`friends
    ensures db.Valid()
    ensures r == RequestCheck(old(db.friends), sender, receiver, now)
    ensures db.friends == RequestStep(old(db.friends), sender, receiver, now)
  {
    if (sender, receiver) in db.friends {
      var row := db.friends[(sender, receiver)];
      if row.status == Pending {
        return Err(PendingRequest);
      }
      if row.status == Accepted {
        return Err(AlreadyFriends);
      }
      if now - row.date < RateLimitMs {
        return Err(TooQuickly);
      }
      db.friends := db.friends[(sender, receiver) := row.(status := Pending, date := now)];
    } else {
      db.friends := db.friends[(sender, receiver) := FriendRow(Pending, now)];
    }
    r := Ok(());
  }

  /** The reverse row (receiver, sender) plays no part in the decision. */
  lemma RequestIgnoresReverse(friends: Friendships, sender: string, receiver: string, now: int, row: FriendRow)
    requires sender != receiver
    ensures RequestCheck(friends[(receiver, sender) := row], sender, receiver, now)
         == RequestCheck(friends, sender, receiver, now)
  {
  }

  /** A request changes no row but the sender's own, so in particular not the reverse one. */
  lemma RequestTouchesOneRow(friends: Friendships, sender: string, receiver: string, now: int)
    ensures var after := RequestStep(friends, sender, receiver, now);
      && after.Keys == friends.Keys + {(sender, receiver)}
      && forall k :: k in friends && k != (sender, receiver) ==> after[k] == friends[k]
  {
  }

  /** Right after a successful request, repeating it is refused as pending,
      whenever it comes. */
  lemma RepeatIsPending(friends: Friendships, sender: string, receiver: string, now: int, later: int)
    requires RequestCheck(friends, sender, receiver, now).Ok?
    ensures RequestCheck(RequestStep(friends, sender, receiver, now), sender, receiver, later) == Err(PendingRequest)
  {
  }

  /** A request neither makes nor breaks a friendship between any two users. */
  lemma RequestKeepsFriendships(friends: Friendships, sender: string, receiver: string, now: int, a: string, b: string)
    ensures AreFriends(RequestStep(friends, sender, receiver, now), a, b) <==> AreFriends(friends, a, b)
  {
    var after := RequestStep(friends, sender, receiver, now);
    if RequestCheck(friends, sender, receiver, now).Ok? {
      assert (sender, receiver) in friends ==> friends[(sender, receiver)].status != Accepted;
      assert after[(sender, receiver)].status == Pending;
    }
  }

  // ---------------------------------------------------------------------
  // POST /manage

  /** The answer of `me` to a request from `sender`: the row from `sender`
      to `me`, if there is one, takes the status `action + "ed"`; no other
      row changes. */
  function ManageStep(friends: Friendships, me: string, sender: string, action: string): (r: Friendships)
    ensures r.Keys == friends.Keys
    ensures (sender, me) in friends ==>
      r[(sender, me)] == FriendRow(action + "ed", friends[(sender, me)].date)
    ensures forall k :: k in friends && k != (sender, me) ==> r[k] == friends[k]
  {
    if (sender, me) in friends then friends[(sender, me) := friends[(sender, me)].(status := action + "ed")]
    else friends
  }

  method Manage(db: Database, me: string, sender: string, action: string)
    requires db.Valid()
    modifies db`friends
    ensures db.Valid()
    ensures db.friends == ManageStep(old(db.friends), me, sender, action)
  {
    if (sender, me) in db.friends {
      var row := db.friends[(sender, me)];
      db.friends := db.friends[(sender, me) := row.(status := action + "ed")];
    }
  }

  /** Accepting a request that exists makes the two users friends, in
      both directions. */
  lemma AcceptBefriends(friends: Friendships, me: string, sender: string)
    requires (sender, me) in friends
    ensures AreFriends(ManageStep(friends, me, sender, "accept"), me, sender)
    ensures AreFriends(ManageStep(friends, me, sender, "accept"), sender, me)
  {
    assert "accept" + "ed" == Accepted;
  }

  /** A request that is answered by rejection cannot be renewed within the
      rate limit, counted from the moment it was sent. */
  lemma RejectedRetryTooQuick(friends: Friendships, sender: string, receiver: string, sent: int, retry: int)
    requires RequestCheck(friends, sender, receiver, sent).Ok?
    requires retry - sent < RateLimitMs
    ensures var answered := ManageStep(RequestStep(friends, sender, receiver, sent), receiver, sender, "reject");
      RequestCheck(answered, sender, receiver, retry) == Err(TooQuickly)
  {
    var answered := ManageStep(RequestStep(friends, sender, receiver, sent), receiver, sender, "reject");
    assert answered[(sender, receiver)] == FriendRow("reject" + "ed", sent);
    assert ("reject" + "ed")[0] == 'r' && Pending[0] == 'p' && Accepted[0] == 'a';
  }

  // ---------------------------------------------------------------------
  // DELETE /

  /** Unfriending removes the rows between the two users in both
      directions and leaves every other row as it was. */
  function UnfriendStep(friends: Friendships, me: string, friend: string): (r: Friendships)
    ensures r.Keys == friends.Keys - {(me, friend), (friend, me)}
    ensures forall k :: k in r ==> r[k] == friends[k]
  {
    friends - {(me, friend), (friend, me)}
  }

  method Unfriend(db: Database, me: string, friend: string)
    requires db.Valid()
    modifies db`friends
    ensures db.Valid()
    ensures db.friends == UnfriendStep(old(db.friends), me, friend)
  {
    db.friends := db.friends - {(me, friend), (friend, me)};
  }

  /** After unfriending, the two are not friends, and a new request in
      either direction goes through at once. */
  lemma UnfriendResets(friends: Friendships, me: string, friend: string, now: int)
    ensures !AreFriends(UnfriendStep(friends, me, friend), me, friend)
    ensures RequestCheck(UnfriendStep(friends, me, friend), me, friend, now).Ok?
    ensures RequestCheck(UnfriendStep(friends, me, friend), friend, me, now).Ok?
  {
  }
}
