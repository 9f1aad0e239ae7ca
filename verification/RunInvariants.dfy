/** What handler-at-a-time runs keep: strictly increasing bids, their order in time, ENDs
    that never change, indexes that agree with the data, passwords that keep working. */
module RunInvariants {
  import opened Text
  import opened Names
  import opened Store
  import opened Handlers
  import opened Runs

  /* ---------- one auction ---------- */

  /** No bid below `v` was made after it. */
  ghost predicate LowerEarlier(bids: map<nat, BidFile>, v: nat)
    requires v in bids
  {
    forall w :: w in bids && w <= v ==> bids[w].offset <= bids[v].offset
  }

  ghost predicate Above(bids: map<nat, BidFile>, v: nat) { forall w :: w in bids ==> w < v }

  /** Bids fall inside the auction's time and rise with it; the END lies at or after every
      bid and at or before the deadline. */
  ghost predicate Timely(a: Auction, now: int)
  {
    && a.start.Some? && 0 < a.start.value.time <= now && a.start.value.ta <= 99999
    && (forall v :: v in a.bids ==>
          && a.bids[v].at == a.start.value.time + a.bids[v].offset <= now
          && 0 <= a.bids[v].offset < a.start.value.ta)
    && (forall v :: v in a.bids ==> LowerEarlier(a.bids, v))
    && (a.end.Some? ==>
          && a.end.value.at == a.start.value.time + a.end.value.duration <= now
          && 0 <= a.end.value.duration <= a.start.value.ta
          && forall v :: v in a.bids ==> a.bids[v].offset <= a.end.value.duration)
  }

  /** `b` is a later state of `a`: START and a written END never change, recorded bids stay,
      a later bid is above every earlier one, and none comes after the END. */
  ghost predicate Later(a: Auction, b: Auction)
  {
    && b.start == a.start && b.asset == a.asset
    && (forall v :: v in a.bids ==> v in b.bids && b.bids[v] == a.bids[v])
    && (forall v :: v in b.bids && v !in a.bids ==> Above(a.bids, v))
    && (a.end.Some? ==> b == a)
  }

  lemma LaterTransitive(a: Auction, b: Auction, c: Auction)
    requires Later(a, b) && Later(b, c)
    ensures Later(a, c)
  {
  }

  ghost predicate MovedOn(m: map<nat, Auction>, n: map<nat, Auction>)
  {
    forall i :: i in m ==> i in n && Later(m[i], n[i])
  }

  /** In handler-at-a-time runs the BIDDED index holds nothing but auctions bid on. */
  ghost predicate BiddedExact(db: Db)
  {
    forall u :: u in db.bidded ==> db.bidded[u] == BidOnBy(db.auctions, u)
  }

  /** While this holds `update_database` reads every opening time as it is. */
  ghost predicate AllInClock(m: map<nat, Auction>) { forall i :: i in m ==> InClock(m[i]) }

  ghost predicate AllTimely(m: map<nat, Auction>, now: int)
  {
    forall i :: i in m && InClock(m[i]) ==> Timely(m[i], now)
  }

  /* ---------- update ---------- */

  lemma ExpireTimely(a: Auction, before: int, now: int)
    requires Timely(a, before) && InClock(a) && before <= now
    ensures Timely(Expire(a, now), now)
    ensures Expire(a, now).end.None? && Sound(a.start.value) ==> now < a.start.value.time + a.start.value.ta
  {
    assert Int32(a.start.value.time) == a.start.value.time;
  }

  lemma UpdateTimely(db: Db, before: int, now: int)
    requires AllTimely(db.auctions, before) && before <= now
    ensures AllTimely(Update(db, now).auctions, now)
  {
    forall i | i in db.auctions && InClock(db.auctions[i]) ensures Timely(Expire(db.auctions[i], now), now) {
      ExpireTimely(db.auctions[i], before, now);
    }
  }

  lemma UpdateMovesOn(db: Db, now: int)
    ensures MovedOn(db.auctions, Update(db, now).auctions)
  {
  }

  /** Handlers that change nothing but ENDs keep the exact index. */
  lemma EndsBidded(db: Db, d: Db)
    requires BiddedExact(db) && d.bidded == db.bidded && d.auctions.Keys == db.auctions.Keys
    requires forall i :: i in d.auctions ==>
               d.auctions[i].start == db.auctions[i].start && d.auctions[i].bids == db.auctions[i].bids
    ensures BiddedExact(d)
  {
    SameIndexes(db.auctions, d.auctions);
  }

  /* ---------- bids ---------- */

  /** A bid above every recorded one, on an auction still running, keeps the order. */
  lemma BidTimely(a: Auction, uid: Uid, value: nat, now: int)
    requires Timely(a, now) && a.end.None? && now < a.start.value.time + a.start.value.ta
    requires Above(a.bids, value)
    ensures Timely(WithBid(a, uid, value, now), now)
  {
  }

  /** `Offer` refuses, or records a value above the start value and every recorded one. */
  lemma OfferShape(d: Db, now: int, id: nat, uid: Uid, value: nat)
    requires id in d.auctions && uid in d.bidded && AuctionOk(d.auctions[id])
    ensures var a := d.auctions[id];
            var r := Offer(d, now, id, uid, value, a.start.value);
            || r in {Outcome(d, Msg("RBD REF\n")), Outcome(d, BadArgs), Outcome(d, Crash)}
            || (&& Sound(a.start.value) && r == Outcome(d.(auctions := d.auctions[id := WithBid(a, uid, value, now)],
                                   bidded := d.bidded[uid := d.bidded[uid] + {id}]), Msg("RBD ACC\n"))
                && a.start.value.sv < value && Above(a.bids, value))
  {
    var a := d.auctions[id];
    if a.bids.Keys == {} {
      assert forall v :: v in a.bids ==> v in a.bids.Keys;
    } else {
      assert Max(a.bids.Keys) in a.bids;
      assert forall v :: v in a.bids ==> v in a.bids.Keys && v <= Max(a.bids.Keys);
    }
  }

  lemma BidderAdded(d: Db, e: Db, id: nat, uid: Uid, value: nat, now: int)
    requires BiddedExact(d) && id in d.auctions && uid in d.bidded
    requires d.auctions[id].start.Some? && value !in d.auctions[id].bids
    requires e.auctions == d.auctions[id := WithBid(d.auctions[id], uid, value, now)]
    requires e.bidded == d.bidded[uid := d.bidded[uid] + {id}]
    ensures BiddedExact(e)
  {
    forall u | u in e.bidded ensures e.bidded[u] == BidOnBy(e.auctions, u) {
      NewBidder(d.auctions, id, uid, value, now, u);
    }
  }

  lemma OneTimely(m: map<nat, Auction>, id: nat, a: Auction, now: int)
    requires AllTimely(m, now) && (InClock(a) ==> Timely(a, now))
    ensures AllTimely(m[id := a], now)
  {
  }

  /** An auction that is not finished after the update has time left. */
  lemma RunningHasTime(db: Db, before: int, now: int, id: nat)
    requires AllTimely(db.auctions, before) && before <= now
    requires id in db.auctions && !Finished(Update(db, now), id) && db.auctions[id].start.Some?
    requires Sound(db.auctions[id].start.value) && InClock(db.auctions[id])
    ensures now < db.auctions[id].start.value.time + db.auctions[id].start.value.ta
  {
    ExpireTimely(db.auctions[id], before, now);
  }

  /** The accepted branch of a bid request, on the updated database. */
  lemma OfferTimely(d: Db, now: int, id: nat, uid: Uid, value: nat)
    requires AllTimely(d.auctions, now) && id in d.auctions && uid in d.bidded && AuctionOk(d.auctions[id])
    requires d.auctions[id].end.None?
    requires Sound(d.auctions[id].start.value) && InClock(d.auctions[id]) ==>
               now < d.auctions[id].start.value.time + d.auctions[id].start.value.ta
    ensures AllTimely(Offer(d, now, id, uid, value, d.auctions[id].start.value).db.auctions, now)
  {
    var a := d.auctions[id];
    OfferShape(d, now, id, uid, value);
    if Sound(a.start.value) && InClock(a) && Above(a.bids, value) { BidTimely(a, uid, value, now); }
    if Sound(a.start.value) && Above(a.bids, value) { OneTimely(d.auctions, id, WithBid(a, uid, value, now), now); }
  }

  lemma BidOutcomeTimely(db: Db, before: int, now: int, id: nat, uid: Uid, value: nat, e: Db)
    requires AllTimely(db.auctions, before) && before <= now
    requires id in db.auctions && uid in db.bidded && AuctionOk(db.auctions[id])
    requires var d := Update(db, now);
             !Finished(d, id) && e == Offer(d, now, id, uid, value, d.auctions[id].start.value).db
    ensures AllTimely(e.auctions, now)
  {
    UpdateTimely(db, before, now);
    if Sound(db.auctions[id].start.value) && InClock(db.auctions[id]) { RunningHasTime(db, before, now, id); }
    OfferTimely(Update(db, now), now, id, uid, value);
  }

  lemma TimelyLater(m: map<nat, Auction>, before: int, now: int)
    requires AllTimely(m, before) && before <= now
    ensures AllTimely(m, now)
  {
  }

  lemma BidKeepsTimely(db: Db, before: int, now: int, req: Request)
    requires AllTimely(db.auctions, before) && before <= now && req.Bid?
    requires IdsOk(db) && UsersOk(db) && AuctionsOk(db.auctions)
    ensures AllTimely(Handle(db, now, req, true).db.auctions, now)
  {
    var d, id, e := Update(db, now), Atoi(req.aid), Handle(db, now, req, true).db;
    BidWrites(db, now, req.uid, req.passwd, req.aid, req.value, true);
    if e == db {
      TimelyLater(db.auctions, before, now);
    } else if e == d {
      UpdateTimely(db, before, now);
    } else {
      assert AuctionOk(db.auctions[id]);
      BidOutcomeTimely(db, before, now, id, req.uid, req.value, e);
    }
  }

  lemma CloseKeepsTimely(db: Db, before: int, now: int, uid: string, pw: string, aid: string)
    requires AllTimely(db.auctions, before) && before <= now
    ensures AllTimely(HandleClose(db, now, uid, pw, aid, true).db.auctions, now)
  {
    CloseWrites(db, now, uid, pw, aid, true);
    CloseStateTimely(db, before, now, Atoi(aid), HandleClose(db, now, uid, pw, aid, true).db);
  }

  /** The three databases a close request can leave. */
  lemma CloseStateTimely(db: Db, before: int, now: int, id: nat, e: Db)
    requires AllTimely(db.auctions, before) && before <= now
    requires var d := Update(db, now);
             || e in {db, d}
             || (&& Info(d, id).Some? && !Finished(d, id) && Sound(Info(d, id).value)
                 && var a := d.auctions[id];
                    e == d.(auctions := d.auctions[id := a.(end := Some(EndFile(now, now - a.start.value.time)))]))
    ensures AllTimely(e.auctions, now)
  {
    if e == db {
      TimelyLater(db.auctions, before, now);
    } else if e == Update(db, now) {
      UpdateTimely(db, before, now);
    } else {
      CloseOutcomeTimely(db, before, now, id);
    }
  }

  lemma CloseOutcomeTimely(db: Db, before: int, now: int, id: nat)
    requires AllTimely(db.auctions, before) && before <= now
    requires id in db.auctions && !Finished(Update(db, now), id) && db.auctions[id].start.Some?
    requires Sound(db.auctions[id].start.value)
    ensures var a := Update(db, now).auctions[id];
            AllTimely(Update(db, now).auctions[id := a.(end := Some(EndFile(now, now - a.start.value.time)))], now)
  {
    var d := Update(db, now);
    var a := d.auctions[id];
    UpdateTimely(db, before, now);
    if InClock(a) {
      RunningHasTime(db, before, now, id);
      CloseTimely(a, now);
    }
    OneTimely(d.auctions, id, a.(end := Some(EndFile(now, now - a.start.value.time))), now);
  }

  /** Closing early: the END lies at or after every bid and before the deadline. */
  lemma CloseTimely(a: Auction, now: int)
    requires Timely(a, now) && a.end.None? && now < a.start.value.time + a.start.value.ta
    ensures Timely(a.(end := Some(EndFile(now, now - a.start.value.time))), now)
  {
  }

  lemma OpenKeepsTimely(db: Db, before: int, now: int, req: Request)
    requires AllTimely(db.auctions, before) && 0 < now && before <= now && req.Open?
    ensures AllTimely(Handle(db, now, req, true).db.auctions, now)
  {
    TimelyLater(db.auctions, before, now);
    OpenWrites(db, now, req.uid, req.passwd, req.args, req.content);
  }

  /** One handler keeps every auction in order. */
  lemma HandleKeepsTimely(db: Db, before: int, now: int, req: Request)
    requires AllTimely(db.auctions, before) && 0 < now && before <= now
    requires IdsOk(db) && UsersOk(db) && AuctionsOk(db.auctions)
    ensures AllTimely(Handle(db, now, req, true).db.auctions, now)
  {
    TimelyLater(db.auctions, before, now);
    UpdateTimely(db, before, now);
    match req
    case Open(_, _, _, _) => OpenKeepsTimely(db, before, now, req);
    case Close(uid, pw, aid) => CloseKeepsTimely(db, before, now, uid, pw, aid);
    case Bid(_, _, _, _) => BidKeepsTimely(db, before, now, req);
    case Login(_, _) => UserWrites(db, now, req, true);
    case Logout(_, _) => UserWrites(db, now, req, true);
    case Unreg(_, _) => UserWrites(db, now, req, true);
    case _ => ReadersOnlyRefresh(db, now, req, true);
  }

  /* ---------- past the clock limit ---------- */

  /** An auction opened past the limit is closed by the first update, and every bid and close
      begins with one: it has no bids, and its END counts the whole time. */
  ghost predicate ShutAtOnce(a: Auction, now: int)
  {
    a.start.Some? ==>
      && 0 < a.start.value.time <= now && a.start.value.ta <= 99999
      && (!InClock(a) ==> a.bids == map[] && (a.end.Some? ==> a.end.value.duration == a.start.value.ta))
  }

  ghost predicate AllShut(m: map<nat, Auction>, now: int) { forall i :: i in m ==> ShutAtOnce(m[i], now) }

  /** Past the limit `update_database` closes at once what it can read back. */
  lemma ExpiresAtOnce(a: Auction, now: int)
    requires a.start.Some? && Sound(a.start.value) && a.start.value.ta <= 99999
    requires CLOCK_LIMIT <= a.start.value.time <= now
    ensures Expire(a, now).end.Some?
  {
    var t := a.start.value.time;
    var q := (t + 0x8000_0000) / 0x1_0000_0000;
    assert q >= 1 && Int32(t) == t - q * 0x1_0000_0000;
    assert Int32(t) <= t - 0x1_0000_0000;
  }

  lemma UpdateShut(db: Db, before: int, now: int)
    requires AllShut(db.auctions, before) && before <= now
    ensures AllShut(Update(db, now).auctions, now)
  {
  }

  /** After an update whatever CLS and BID can write to was opened before the limit. */
  lemma OpenIsInClock(db: Db, before: int, now: int, id: nat)
    requires AllShut(db.auctions, before) && before <= now
    requires id in db.auctions && !Finished(Update(db, now), id) && db.auctions[id].start.Some?
    requires Sound(db.auctions[id].start.value)
    ensures InClock(db.auctions[id])
  {
    assert ShutAtOnce(db.auctions[id], before);
    if !InClock(db.auctions[id]) { ExpiresAtOnce(db.auctions[id], now); }
  }

  lemma ShutLater(m: map<nat, Auction>, before: int, now: int)
    requires AllShut(m, before) && before <= now
    ensures AllShut(m, now)
  {
  }

  lemma OneShut(m: map<nat, Auction>, id: nat, a: Auction, now: int)
    requires AllShut(m, now) && ShutAtOnce(a, now)
    ensures AllShut(m[id := a], now)
  {
  }

  lemma OfferShut(d: Db, now: int, id: nat, uid: Uid, value: nat)
    requires AllShut(d.auctions, now) && id in d.auctions && uid in d.bidded && AuctionOk(d.auctions[id])
    requires Sound(d.auctions[id].start.value) ==> InClock(d.auctions[id])
    ensures AllShut(Offer(d, now, id, uid, value, d.auctions[id].start.value).db.auctions, now)
  {
    OfferShape(d, now, id, uid, value);
    if Sound(d.auctions[id].start.value) { OneShut(d.auctions, id, WithBid(d.auctions[id], uid, value, now), now); }
  }

  lemma BidShut(db: Db, before: int, now: int, req: Request)
    requires AllShut(db.auctions, before) && before <= now && req.Bid?
    requires IdsOk(db) && UsersOk(db) && AuctionsOk(db.auctions)
    ensures AllShut(Handle(db, now, req, true).db.auctions, now)
  {
    var d, id, e := Update(db, now), Atoi(req.aid), Handle(db, now, req, true).db;
    BidWrites(db, now, req.uid, req.passwd, req.aid, req.value, true);
    ShutLater(db.auctions, before, now);
    UpdateShut(db, before, now);
    if e != db && e != d {
      assert AuctionOk(db.auctions[id]);
      if Sound(db.auctions[id].start.value) { OpenIsInClock(db, before, now, id); }
      OfferShut(d, now, id, req.uid, req.value);
    }
  }

  lemma CloseShut(db: Db, before: int, now: int, req: Request)
    requires AllShut(db.auctions, before) && before <= now && req.Close?
    ensures AllShut(Handle(db, now, req, true).db.auctions, now)
  {
    var d, id, e := Update(db, now), Atoi(req.aid), Handle(db, now, req, true).db;
    CloseWrites(db, now, req.uid, req.passwd, req.aid, true);
    ShutLater(db.auctions, before, now);
    UpdateShut(db, before, now);
    if e != db && e != d {
      OpenIsInClock(db, before, now, id);
      OneShut(d.auctions, id, e.auctions[id], now);
    }
  }

  lemma OpenShut(db: Db, before: int, now: int, req: Request)
    requires AllShut(db.auctions, before) && 0 < now && before <= now && req.Open?
    ensures AllShut(Handle(db, now, req, true).db.auctions, now)
  {
    ShutLater(db.auctions, before, now);
    OpenWrites(db, now, req.uid, req.passwd, req.args, req.content);
  }

  lemma HandleShut(db: Db, before: int, now: int, req: Request)
    requires AllShut(db.auctions, before) && 0 < now && before <= now
    requires IdsOk(db) && UsersOk(db) && AuctionsOk(db.auctions)
    ensures AllShut(Handle(db, now, req, true).db.auctions, now)
  {
    ShutLater(db.auctions, before, now);
    UpdateShut(db, before, now);
    match req
    case Open(_, _, _, _) => OpenShut(db, before, now, req);
    case Close(_, _, _) => CloseShut(db, before, now, req);
    case Bid(_, _, _, _) => BidShut(db, before, now, req);
    case Login(_, _) => UserWrites(db, now, req, true);
    case Logout(_, _) => UserWrites(db, now, req, true);
    case Unreg(_, _) => UserWrites(db, now, req, true);
    case _ => ReadersOnlyRefresh(db, now, req, true);
  }

  /* ---------- forward ---------- */

  lemma MovedOnTransitive(m: map<nat, Auction>, n: map<nat, Auction>, o: map<nat, Auction>)
    requires MovedOn(m, n) && MovedOn(n, o)
    ensures MovedOn(m, o)
  {
    forall i | i in m ensures i in o && Later(m[i], o[i]) {
      LaterTransitive(m[i], n[i], o[i]);
    }
  }

  lemma StaysPut(m: map<nat, Auction>)
    ensures MovedOn(m, m)
  {
  }

  lemma OneMovesOn(m: map<nat, Auction>, id: nat, a: Auction)
    requires id in m ==> Later(m[id], a)
    ensures MovedOn(m, m[id := a])
  {
  }

  lemma OfferMovesOn(d: Db, now: int, id: nat, uid: Uid, value: nat)
    requires id in d.auctions && uid in d.bidded && AuctionOk(d.auctions[id]) && d.auctions[id].end.None?
    ensures MovedOn(d.auctions, Offer(d, now, id, uid, value, d.auctions[id].start.value).db.auctions)
  {
    var a := d.auctions[id];
    OfferShape(d, now, id, uid, value);
    StaysPut(d.auctions);
    if Above(a.bids, value) { OneMovesOn(d.auctions, id, WithBid(a, uid, value, now)); }
  }

  lemma BidMovesOn(db: Db, now: int, req: Request)
    requires IdsOk(db) && UsersOk(db) && AuctionsOk(db.auctions) && req.Bid?
    ensures MovedOn(db.auctions, Handle(db, now, req, true).db.auctions)
  {
    var d, id, e := Update(db, now), Atoi(req.aid), Handle(db, now, req, true).db;
    BidWrites(db, now, req.uid, req.passwd, req.aid, req.value, true);
    UpdateMovesOn(db, now);
    StaysPut(db.auctions);
    if e != db && e != d {
      assert AuctionOk(db.auctions[id]);
      OfferMovesOn(d, now, id, req.uid, req.value);
      MovedOnTransitive(db.auctions, d.auctions, e.auctions);
    }
  }

  lemma CloseMovesOn(db: Db, now: int, req: Request)
    requires req.Close?
    ensures MovedOn(db.auctions, Handle(db, now, req, true).db.auctions)
  {
    var d, id, e := Update(db, now), Atoi(req.aid), Handle(db, now, req, true).db;
    CloseWrites(db, now, req.uid, req.passwd, req.aid, true);
    UpdateMovesOn(db, now);
    if e != db && e != d {
      OneMovesOn(d.auctions, id, e.auctions[id]);
      MovedOnTransitive(db.auctions, d.auctions, e.auctions);
    }
  }

  lemma OpenMovesOn(db: Db, now: int, req: Request)
    requires IdsOk(db) && req.Open?
    ensures MovedOn(db.auctions, Handle(db, now, req, true).db.auctions)
  {
    OpenWrites(db, now, req.uid, req.passwd, req.args, req.content);
    StaysPut(db.auctions);
  }

  lemma UserMovesOn(db: Db, now: int, req: Request)
    requires req.Login? || req.Logout? || req.Unreg?
    ensures MovedOn(db.auctions, Handle(db, now, req, true).db.auctions)
  {
    UserWrites(db, now, req, true);
    StaysPut(db.auctions);
  }

  lemma ReadMovesOn(db: Db, now: int, req: Request)
    requires req.List? || req.MyAuctions? || req.MyBids? || req.ShowRecord? || req.ShowAsset?
    ensures MovedOn(db.auctions, Handle(db, now, req, true).db.auctions)
  {
    ReadersOnlyRefresh(db, now, req, true);
    UpdateMovesOn(db, now);
    StaysPut(db.auctions);
  }

  /** One handler moves every auction only forward. */
  lemma HandleMovesOn(db: Db, now: int, req: Request)
    requires IdsOk(db) && UsersOk(db) && AuctionsOk(db.auctions)
    ensures MovedOn(db.auctions, Handle(db, now, req, true).db.auctions)
  {
    match req
    case Open(_, _, _, _) => OpenMovesOn(db, now, req);
    case Close(_, _, _) => CloseMovesOn(db, now, req);
    case Bid(_, _, _, _) => BidMovesOn(db, now, req);
    case Login(_, _) => UserMovesOn(db, now, req);
    case Logout(_, _) => UserMovesOn(db, now, req);
    case Unreg(_, _) => UserMovesOn(db, now, req);
    case _ => ReadMovesOn(db, now, req);
  }

  /** Only an open adds an auction. */
  lemma HandleKeys(db: Db, now: int, req: Request)
    requires !req.Open?
    ensures Handle(db, now, req, true).db.auctions.Keys == db.auctions.Keys
  {
    match req
    case Close(uid, pw, aid) => CloseWrites(db, now, uid, pw, aid, true);
    case Bid(_, _, _, _) => BidKeys(db, now, req);
    case Login(_, _) => UserWrites(db, now, req, true);
    case Logout(_, _) => UserWrites(db, now, req, true);
    case Unreg(_, _) => UserWrites(db, now, req, true);
    case _ => ReadersOnlyRefresh(db, now, req, true);
  }

  lemma BidKeys(db: Db, now: int, req: Request)
    requires req.Bid?
    ensures Handle(db, now, req, true).db.auctions.Keys == db.auctions.Keys
  {
    BidWrites(db, now, req.uid, req.passwd, req.aid, req.value, true);
  }

  /* ---------- the BIDDED index ---------- */

  lemma BidBidded(db: Db, now: int, req: Request)
    requires BiddedExact(db) && req.Bid? && IdsOk(db) && UsersOk(db) && AuctionsOk(db.auctions)
    ensures BiddedExact(Handle(db, now, req, true).db)
  {
    var d, id, e := Update(db, now), Atoi(req.aid), Handle(db, now, req, true).db;
    EndsBidded(db, d);
    BidWrites(db, now, req.uid, req.passwd, req.aid, req.value, true);
    if e != db && e != d {
      assert AuctionOk(db.auctions[id]);
      OfferShape(d, now, id, req.uid, req.value);
      BidderAdded(d, e, id, req.uid, req.value, now);
    }
  }

  lemma CreateBidded(db: Db, st: Start, content: Option<string>)
    requires BiddedExact(db) && IdsOk(db)
    ensures BiddedExact(Create(db, st, content).0)
  {
    var e := Create(db, st, content).0;
    if e != db {
      forall u ensures BidOnBy(e.auctions, u) == BidOnBy(db.auctions, u) {
        NewOwner(db.auctions, e.count, e.auctions[e.count], u);
      }
    }
  }

  lemma UserBidded(db: Db, now: int, req: Request)
    requires BiddedExact(db) && BiddedCovers(db) && (req.Login? || req.Logout? || req.Unreg?)
    ensures BiddedExact(Handle(db, now, req, true).db)
  {
    var e := Handle(db, now, req, true).db;
    UserWrites(db, now, req, true);
    forall u | u in e.bidded ensures e.bidded[u] == BidOnBy(db.auctions, u) {
      if u !in db.bidded {
        forall i | i in db.auctions ensures !HasBidBy(db.auctions[i], u) {
          assert BiddersIn(db.auctions[i], db.bidded.Keys);
        }
      }
    }
  }

  lemma CloseBidded(db: Db, now: int, req: Request)
    requires BiddedExact(db) && req.Close?
    ensures BiddedExact(Handle(db, now, req, true).db)
  {
    var d, e := Update(db, now), Handle(db, now, req, true).db;
    EndsBidded(db, d);
    CloseWrites(db, now, req.uid, req.passwd, req.aid, true);
    if e != db && e != d { EndsBidded(d, e); }
  }

  lemma OpenBidded(db: Db, now: int, req: Request)
    requires BiddedExact(db) && IdsOk(db) && req.Open?
    ensures BiddedExact(Handle(db, now, req, true).db)
  {
    OpenWrites(db, now, req.uid, req.passwd, req.args, req.content);
    CreateBidded(db, OpenStart(req.uid, req.args, now), req.content);
  }

  lemma ReadBidded(db: Db, now: int, req: Request)
    requires BiddedExact(db)
    requires req.List? || req.MyAuctions? || req.MyBids? || req.ShowRecord? || req.ShowAsset?
    ensures BiddedExact(Handle(db, now, req, true).db)
  {
    EndsBidded(db, Update(db, now));
    ReadersOnlyRefresh(db, now, req, true);
  }

  lemma HandleBidded(db: Db, now: int, req: Request)
    requires BiddedExact(db) && BiddedCovers(db) && IdsOk(db) && UsersOk(db) && AuctionsOk(db.auctions)
    ensures BiddedExact(Handle(db, now, req, true).db)
  {
    match req
    case Login(_, _) => UserBidded(db, now, req);
    case Logout(_, _) => UserBidded(db, now, req);
    case Unreg(_, _) => UserBidded(db, now, req);
    case Open(_, _, _, _) => OpenBidded(db, now, req);
    case Bid(_, _, _, _) => BidBidded(db, now, req);
    case Close(_, _, _) => CloseBidded(db, now, req);
    case _ => ReadBidded(db, now, req);
  }

  /* ---------- runs ---------- */

  /** In every reachable database: auctions are exactly 1..count, HOSTED is exact, BIDDED
      covers, a login implies a password, bids are legal. */
  lemma {:induction false} RunKeepsCore(evs: seq<Event>)
    requires ClockOk(evs)
    ensures Core(After(evs))
  {
    if evs != [] {
      var n := |evs| - 1;
      ClockPrefix(evs, n);
      RunKeepsCore(evs[..n]);
      HandleCore(After(evs[..n]), evs[n].now, evs[n].req, true);
    } else {
      FreshCore();
    }
  }

  lemma RunFacts(evs: seq<Event>)
    requires ClockOk(evs)
    ensures IdsOk(After(evs)) && UsersOk(After(evs)) && AuctionsOk(After(evs).auctions)
    ensures BiddedCovers(After(evs)) && HostedExact(After(evs))
  {
    RunKeepsCore(evs);
  }

  /** Every auction opened before the clock limit is in order in every reachable database, at
      any clock. */
  lemma {:induction false} RunKeepsTimely(evs: seq<Event>)
    requires ClockOk(evs)
    ensures AllTimely(After(evs).auctions, Clock(evs))
  {
    if evs != [] {
      var n := |evs| - 1;
      ClockPrefix(evs, n);
      RunKeepsTimely(evs[..n]);
      RunFacts(evs[..n]);
      assert Clock(evs[..n]) <= evs[n].now;
      HandleKeepsTimely(After(evs[..n]), Clock(evs[..n]), evs[n].now, evs[n].req);
    }
  }

  /** BIDDED(u) is exactly the set of auctions with a recorded bid by `u`. */
  lemma {:induction false} RunKeepsBidded(evs: seq<Event>)
    requires ClockOk(evs)
    ensures BiddedExact(After(evs))
  {
    if evs != [] {
      var n := |evs| - 1;
      ClockPrefix(evs, n);
      RunKeepsBidded(evs[..n]);
      RunFacts(evs[..n]);
      HandleBidded(After(evs[..n]), evs[n].now, evs[n].req);
    }
  }

  lemma EventMovesOn(evs: seq<Event>, i: nat)
    requires ClockOk(evs) && i < |evs|
    ensures MovedOn(After(evs[..i]).auctions, After(evs[..i + 1]).auctions)
  {
    ClockPrefix(evs, i);
    RunFacts(evs[..i]);
    assert evs[..i + 1][..i] == evs[..i];
    HandleMovesOn(After(evs[..i]), evs[i].now, evs[i].req);
  }

  /** Between any two points of a run STARTs and written ENDs do not change, no recorded bid
      is lost or overwritten, none comes after the END, and every later bid is above every
      earlier one. */
  lemma {:induction false} RunMovesForward(evs: seq<Event>, i: nat, j: nat)
    requires ClockOk(evs) && i <= j <= |evs|
    ensures MovedOn(After(evs[..i]).auctions, After(evs[..j]).auctions)
    decreases j
  {
    if i < j {
      RunMovesForward(evs, i, j - 1);
      EventMovesOn(evs, j - 1);
      MovedOnTransitive(After(evs[..i]).auctions, After(evs[..j - 1]).auctions, After(evs[..j]).auctions);
    } else {
      StaysPut(After(evs[..i]).auctions);
    }
  }

  /** An auction opened past the limit stays; so before it there was none if there is none. */
  lemma InClockBefore(evs: seq<Event>, i: nat, j: nat)
    requires ClockOk(evs) && i <= j <= |evs| && AllInClock(After(evs[..j]).auctions)
    ensures AllInClock(After(evs[..i]).auctions)
  {
    RunMovesForward(evs, i, j);
  }

  /** No auction opened past the limit is ever bid on. */
  lemma {:induction false} RunKeepsShut(evs: seq<Event>)
    requires ClockOk(evs)
    ensures AllShut(After(evs).auctions, Clock(evs))
  {
    if evs != [] {
      var n := |evs| - 1;
      ClockPrefix(evs, n);
      RunKeepsShut(evs[..n]);
      RunFacts(evs[..n]);
      assert Clock(evs[..n]) <= evs[n].now;
      HandleShut(After(evs[..n]), Clock(evs[..n]), evs[n].now, evs[n].req);
    }
  }

  /** What every handler can rely on at clock `now`, and keeps. */
  ghost predicate Sane(db: Db, now: int)
  {
    Core(db) && AllTimely(db.auctions, now) && AllShut(db.auctions, now) && 0 < now
  }

  /** And what the lines of the files have room for. */
  ghost predicate Ready(db: Db, now: int) { Sane(db, now) && now < TIME_LIMIT }

  lemma HandleKeepsReady(db: Db, now: int, req: Request)
    requires Ready(db, now) && RequestOk(req)
    ensures Ready(Handle(db, now, req, true).db, now)
  {
    HandleCore(db, now, req, true);
    HandleKeepsTimely(db, now, now, req);
    HandleShut(db, now, now, req);
  }

  lemma UpdateKeepsSane(db: Db, now: int)
    requires Sane(db, now)
    ensures Sane(Update(db, now), now)
  {
    UpdateCore(db, now);
    UpdateTimely(db, now, now);
    UpdateShut(db, now, now);
  }

  /** Every database a run reaches is sane at whatever time comes next. */
  lemma RunIsSane(evs: seq<Event>, now: int)
    requires ClockOk(evs) && 0 < now && Clock(evs) <= now
    ensures Sane(After(evs), now)
  {
    RunKeepsCore(evs);
    RunKeepsTimely(evs);
    TimelyLater(After(evs).auctions, Clock(evs), now);
    RunKeepsShut(evs);
    ShutLater(After(evs).auctions, Clock(evs), now);
  }

  /* ---------- what clients see ---------- */

  ghost predicate Accepted(evs: seq<Event>, i: nat)
    requires i < |evs|
  {
    evs[i].req.Bid? && ReplyAt(evs, i) == Msg("RBD ACC\n")
  }

  /** An accepted bid is recorded above the start value and above everything recorded
      before it, and is from then on what `get_last_bid` returns. */
  lemma AcceptedIsNewMaximum(evs: seq<Event>, i: nat)
    requires ClockOk(evs) && i < |evs| && Accepted(evs, i)
    ensures var d, e, id, v := After(evs[..i]), After(evs[..i + 1]), Atoi(evs[i].req.aid), evs[i].req.value;
            && id in d.auctions && id in e.auctions && v in e.auctions[id].bids
            && e.auctions[id].bids[v].bidder == evs[i].req.uid
            && e.auctions[id].start.Some? && e.auctions[id].start.value.sv < v
            && Above(d.auctions[id].bids, v)
            && LastBid(e, id) == Some(v)
  {
    var s, req, now := After(evs[..i]), evs[i].req, evs[i].now;
    var d, id := Update(s, now), Atoi(req.aid);
    ClockPrefix(evs, i);
    RunFacts(evs[..i]);
    assert evs[..i + 1][..i] == evs[..i];
    AcceptedOffers(s, now, req);
    assert AuctionOk(s.auctions[id]);
    AcceptedOffer(d, now, id, req.uid, req.value);
  }

  lemma AcceptedOffer(d: Db, now: int, id: nat, uid: Uid, v: nat)
    requires id in d.auctions && uid in d.bidded && AuctionOk(d.auctions[id])
    requires Offer(d, now, id, uid, v, d.auctions[id].start.value).reply == Msg("RBD ACC\n")
    ensures var e := Offer(d, now, id, uid, v, d.auctions[id].start.value).db;
            && id in e.auctions && v in e.auctions[id].bids && e.auctions[id].bids[v].bidder == uid
            && e.auctions[id].start == d.auctions[id].start && d.auctions[id].start.value.sv < v
            && Above(d.auctions[id].bids, v) && LastBid(e, id) == Some(v)
  {
    var e := Offer(d, now, id, uid, v, d.auctions[id].start.value).db;
    OfferShape(d, now, id, uid, v);
    assert Msg("RBD ACC\n").text[4] == 'A' && Msg("RBD REF\n").text[4] == 'R';
    assert v in e.auctions[id].bids.Keys;
  }

  lemma AcceptedOffers(s: Db, now: int, req: Request)
    requires req.Bid? && Handle(s, now, req, true).reply == Msg("RBD ACC\n")
    ensures var d, id := Update(s, now), Atoi(req.aid);
            && ExistsUser(d, req.uid) && ExistsAuction(d, id) && Info(d, id).Some?
            && Info(d, id).value.owner != req.uid
            && Handle(s, now, req, true) == Offer(d, now, id, req.uid, req.value, Info(d, id).value)
  {
    assert Msg("RBD ACC\n").text[4] == 'A' && Msg("RBD NOK\n").text[4] == 'N';
    assert Msg("RBD NLG\n").text[4] == 'N' && Msg("RBD ERR\n").text[4] == 'E' && Msg("RBD ILG\n").text[4] == 'I';
  }

  /** Accepted bids of an auction strictly increase over the run. */
  lemma AcceptedBidsIncrease(evs: seq<Event>, i: nat, j: nat)
    requires ClockOk(evs) && i < j < |evs| && Accepted(evs, i) && Accepted(evs, j)
    requires Atoi(evs[i].req.aid) == Atoi(evs[j].req.aid)
    ensures evs[i].req.value < evs[j].req.value
  {
    AcceptedIsNewMaximum(evs, i);
    AcceptedIsNewMaximum(evs, j);
    RunMovesForward(evs, i + 1, j);
  }

  /** The 0 that stands for "no bids yet" is never a recorded value. */
  lemma ZeroMeansNoBids(evs: seq<Event>, id: nat)
    requires ClockOk(evs) && id in After(evs).auctions
    ensures LastBid(After(evs), id) == Some(0) <==> After(evs).auctions[id].bids == map[]
  {
    RunFacts(evs);
    var a := After(evs).auctions[id];
    assert AuctionOk(a);
    if a.bids.Keys != {} { assert Max(a.bids.Keys) in a.bids; }
    assert a.bids.Keys == {} <==> a.bids == map[];
  }

  /** A restart after any run finds the counter it had. */
  lemma RestartRecovers(evs: seq<Event>, id: nat)
    requires ClockOk(evs)
    ensures Restart(After(evs)) == After(evs)
    ensures ExistsAuction(After(evs), id) <==> id in After(evs).auctions
  {
    RunFacts(evs);
    CounterDecides(After(evs), id);
  }

  /* ---------- auctions that cannot be read back ---------- */

  /** Opened under an empty name, or with a line feed in the file name, an auction is never
      closed and never bid on. */
  ghost predicate Stuck(a: Auction)
  {
    a.start.Some? && !Sound(a.start.value) ==> a.end.None? && a.bids == map[]
  }

  ghost predicate AllStuck(m: map<nat, Auction>) { forall i :: i in m ==> Stuck(m[i]) }

  lemma UpdateStuck(db: Db, now: int)
    requires AllStuck(db.auctions)
    ensures AllStuck(Update(db, now).auctions)
  {
    forall i | i in db.auctions ensures Stuck(Expire(db.auctions[i], now)) { assert Stuck(db.auctions[i]); }
  }

  lemma OfferStuck(d: Db, now: int, id: nat, uid: Uid, value: nat)
    requires AllStuck(d.auctions) && id in d.auctions && uid in d.bidded && AuctionOk(d.auctions[id])
    ensures AllStuck(Offer(d, now, id, uid, value, d.auctions[id].start.value).db.auctions)
  {
    OfferShape(d, now, id, uid, value);
  }

  lemma WritersStuck(db: Db, now: int, req: Request)
    requires AllStuck(db.auctions) && IdsOk(db) && UsersOk(db) && AuctionsOk(db.auctions) && (req.Close? || req.Bid?)
    ensures AllStuck(Handle(db, now, req, true).db.auctions)
  {
    var d, id, e := Update(db, now), Atoi(req.aid), Handle(db, now, req, true).db;
    UpdateStuck(db, now);
    if req.Close? {
      CloseWrites(db, now, req.uid, req.passwd, req.aid, true);
    } else {
      BidWrites(db, now, req.uid, req.passwd, req.aid, req.value, true);
      if e != db && e != d {
        assert AuctionOk(db.auctions[id]);
        OfferStuck(d, now, id, req.uid, req.value);
      }
    }
  }

  lemma HandleStuck(db: Db, now: int, req: Request)
    requires AllStuck(db.auctions) && IdsOk(db) && UsersOk(db) && AuctionsOk(db.auctions)
    ensures AllStuck(Handle(db, now, req, true).db.auctions)
  {
    match req
    case Close(_, _, _) => WritersStuck(db, now, req);
    case Bid(_, _, _, _) => WritersStuck(db, now, req);
    case Open(uid, pw, args, content) => OpenWrites(db, now, uid, pw, args, content);
    case Login(_, _) => UserWrites(db, now, req, true);
    case Logout(_, _) => UserWrites(db, now, req, true);
    case Unreg(_, _) => UserWrites(db, now, req, true);
    case _ =>
      ReadersOnlyRefresh(db, now, req, true);
      UpdateStuck(db, now);
  }

  /** Over every run, whatever is asked and however late: no END and no bid. */
  lemma {:induction false} UnsoundStaysOpen(evs: seq<Event>)
    requires ClockOk(evs)
    ensures AllStuck(After(evs).auctions)
  {
    if evs != [] {
      var n := |evs| - 1;
      ClockPrefix(evs, n);
      UnsoundStaysOpen(evs[..n]);
      RunFacts(evs[..n]);
      HandleStuck(After(evs[..n]), evs[n].now, evs[n].req);
    }
  }
}
