/** Nothing closes an expired auction until some handler happens to call `update_database`.
    This module compares the lazy server with one that closes each auction at the very second
    its time runs out, and proves exactly which replies differ: none, but for auctions opened
    under an empty name or with a line feed in the file name, which the lazy server never
    closes, as long as auctions are opened before the clock outgrows an `int`. */
module LazyExpiry {
  import opened Text
  import opened Names
  import opened Store
  import opened Handlers
  import opened Runs
  import opened RunInvariants

  /* ---------- the eager server ---------- */

  /** The second `t` of an auction's life: it is closed when this is its last. */
  function Due(a: Auction, t: int): Auction
  {
    if a.end.None? && a.start.Some? && a.start.value.time + a.start.value.ta == t
    then a.(end := Some(EndFile(t, a.start.value.ta))) else a
  }

  function TickAll(auctions: map<nat, Auction>, t: int): map<nat, Auction>
  {
    map i | i in auctions :: Due(auctions[i], t)
  }

  function Tick(db: Db, t: int): Db
  {
    db.(auctions := TickAll(db.auctions, t))
  }

  /** Second by second from after `from` up to and including `to`. */
  function Advance(db: Db, from: int, to: int): Db
    decreases to - from
  {
    if to <= from then db else Tick(Advance(db, from, to - 1), to)
  }

  /** Time passes, the handler runs without any `update_database`, and an auction opened
      with no time at all is closed in the second it was opened. */
  ghost function EagerServe(db: Db, from: int, e: Event): Outcome
  {
    var o := Handle(Advance(db, from, e.now), e.now, e.req, false);
    Outcome(Tick(o.db, e.now), o.reply)
  }

  ghost function EagerAfter(evs: seq<Event>): Db
  {
    if evs == [] then Fresh
    else
      var init := evs[..|evs| - 1];
      EagerServe(EagerAfter(init), Clock(init), evs[|evs| - 1]).db
  }

  ghost function EagerReplyAt(evs: seq<Event>, i: nat): Reply
    requires i < |evs|
  {
    EagerServe(EagerAfter(evs[..i]), Clock(evs[..i]), evs[i]).reply
  }

  /* ---------- one auction ---------- */

  ghost predicate StartedBy(a: Auction, now: int)
  {
    && a.start.Some? && a.start.value.ta <= 99999 && 0 < a.start.value.time <= now
    && a.start.value.time < CLOCK_LIMIT
  }

  /** The auction as the eager server has it at time `now`. */
  function Settled(a: Auction, now: int): Auction
  {
    if a.end.None? && a.start.Some? && a.start.value.time + a.start.value.ta <= now
    then a.(end := Some(EndFile(a.start.value.time + a.start.value.ta, a.start.value.ta))) else a
  }

  ghost predicate NotOverdue(a: Auction, now: int)
  {
    a.end.None? && a.start.Some? ==> now <= a.start.value.time + a.start.value.ta
  }

  /** Past its deadline and, as its START cannot be read back, never to be closed. */
  predicate Overlooked(a: Auction, now: int)
  {
    && a.end.None? && a.start.Some? && !Sound(a.start.value)
    && a.start.value.time + a.start.value.ta <= now
  }

  lemma SettledStep(a: Auction, t: int)
    ensures Due(Settled(a, t - 1), t) == Settled(a, t)
    ensures Settled(Settled(a, t), t) == Settled(a, t) && NotOverdue(Settled(a, t), t)
    ensures NotOverdue(a, t) ==> Due(a, t) == Settled(a, t)
  {
  }

  /** The lazy update closes what the eager server has closed, but for what it overlooks. */
  lemma ExpireOrOverlook(a: Auction, now: int, t: int)
    requires StartedBy(a, now)
    ensures Expire(a, t) == if Overlooked(a, t) then a else Settled(a, t)
    ensures Settled(Expire(a, t), t) == Settled(a, t) && StartedBy(Expire(a, t), now) && StartedBy(Settled(a, t), now)
  {
    assert Int32(a.start.value.time) == a.start.value.time;
  }

  /* ---------- whole databases ---------- */

  function SettleAll(auctions: map<nat, Auction>, now: int): map<nat, Auction>
  {
    map i | i in auctions :: Settled(auctions[i], now)
  }

  function Settle(db: Db, now: int): Db
  {
    db.(auctions := SettleAll(db.auctions, now))
  }

  ghost predicate AllStarted(db: Db, now: int)
  {
    forall i :: i in db.auctions ==> StartedBy(db.auctions[i], now)
  }

  ghost predicate NoneOverdue(db: Db, now: int)
  {
    forall i :: i in db.auctions ==> NotOverdue(db.auctions[i], now)
  }

  lemma TickSettles(db: Db, now: int)
    requires NoneOverdue(db, now)
    ensures Tick(db, now) == Settle(db, now)
  {
    forall i | i in db.auctions ensures Due(db.auctions[i], now) == Settled(db.auctions[i], now) {
      SettledStep(db.auctions[i], now);
    }
  }

  lemma SettleSettles(db: Db, now: int)
    ensures var u := Settle(db, now); Settle(u, now) == u && NoneOverdue(u, now)
    ensures AllStarted(db, now) ==> AllStarted(Settle(db, now), now)
  {
    forall i | i in db.auctions
      ensures Settled(Settled(db.auctions[i], now), now) == Settled(db.auctions[i], now)
      ensures NotOverdue(Settled(db.auctions[i], now), now)
    {
      SettledStep(db.auctions[i], now);
    }
  }

  lemma UpdateSettles(db: Db, now: int)
    requires AllStarted(db, now)
    ensures Settle(Update(db, now), now) == Settle(db, now) && AllStarted(Update(db, now), now)
  {
    forall i | i in db.auctions
      ensures Settled(Expire(db.auctions[i], now), now) == Settled(db.auctions[i], now)
      ensures StartedBy(Expire(db.auctions[i], now), now)
    {
      ExpireOrOverlook(db.auctions[i], now, now);
    }
  }

  lemma TickCatchesUp(db: Db, t: int)
    ensures Tick(Settle(db, t - 1), t) == Settle(db, t)
  {
    forall i | i in db.auctions ensures Due(Settled(db.auctions[i], t - 1), t) == Settled(db.auctions[i], t) {
      SettledStep(db.auctions[i], t);
    }
  }

  /** Ticking through the seconds does what settling once at the end does. */
  lemma {:induction false} AdvanceSettles(db: Db, from: int, to: int)
    requires from <= to
    ensures Advance(Settle(db, from), from, to) == Settle(db, to)
    decreases if from < to then to - from else 0
  {
    if from < to {
      AdvanceSettles(db, from, to - 1);
      TickCatchesUp(db, to);
    }
  }

  /** Where nothing is overlooked, one late update does what closing second by second does. */
  lemma AdvanceIsUpdate(db: Db, from: int, to: int)
    requires AllStarted(db, to) && from <= to
    requires forall i :: i in db.auctions ==> !Overlooked(db.auctions[i], to)
    ensures Advance(Settle(db, from), from, to) == Update(db, to)
  {
    AdvanceSettles(db, from, to);
    forall i | i in db.auctions ensures Settled(db.auctions[i], to) == Expire(db.auctions[i], to) {
      ExpireOrOverlook(db.auctions[i], to, to);
    }
    assert Settle(db, to).auctions == Update(db, to).auctions;
  }

  /* ---------- what one handler leaves ---------- */

  /** A handler without its update, run on a settled database, leaves nothing overdue, and
      differs from the lazy handler's result only by settling. */
  ghost predicate Alike(e: Db, l: Db, now: int)
  {
    AllStarted(e, now) && NoneOverdue(e, now) && AllStarted(l, now) && Settle(e, now) == Settle(l, now)
  }

  ghost predicate Agree(s: Db, now: int, req: Request)
  {
    Alike(Handle(Settle(s, now), now, req, false).db, Handle(s, now, req, true).db, now)
  }

  /** User operations do not look at auctions, so they commute with settling. */
  lemma LoginCommutes(s: Db, now: int, uid: string, pw: string)
    ensures HandleLogin(Settle(s, now), uid, pw).db == Settle(HandleLogin(s, uid, pw).db, now)
    ensures HandleLogin(s, uid, pw).db.auctions == s.auctions
  {
  }

  lemma LogoutCommutes(s: Db, now: int, uid: string, pw: string)
    ensures HandleLogout(Settle(s, now), uid, pw).db == Settle(HandleLogout(s, uid, pw).db, now)
    ensures HandleLogout(s, uid, pw).db.auctions == s.auctions
  {
  }

  lemma UnregisterCommutes(s: Db, now: int, uid: string, pw: string)
    ensures HandleUnregister(Settle(s, now), uid, pw).db == Settle(HandleUnregister(s, uid, pw).db, now)
    ensures HandleUnregister(s, uid, pw).db.auctions == s.auctions
  {
  }

  lemma UsersCommute(s: Db, now: int, req: Request)
    requires req.Login? || req.Logout? || req.Unreg?
    ensures Handle(Settle(s, now), now, req, false).db == Settle(Handle(s, now, req, true).db, now)
    ensures Handle(s, now, req, true).db.auctions == s.auctions
  {
    LoginCommutes(s, now, req.uid, req.passwd);
    LogoutCommutes(s, now, req.uid, req.passwd);
    UnregisterCommutes(s, now, req.uid, req.passwd);
  }

  lemma UsersAgree(s: Db, now: int, req: Request)
    requires AllStarted(s, now) && (req.Login? || req.Logout? || req.Unreg?)
    ensures Agree(s, now, req)
  {
    UsersCommute(s, now, req);
    SettleSettles(Handle(s, now, req, true).db, now);
  }

  lemma ReadersAgree(s: Db, now: int, req: Request)
    requires AllStarted(s, now)
    requires req.List? || req.MyAuctions? || req.MyBids? || req.ShowRecord? || req.ShowAsset?
    ensures Agree(s, now, req)
  {
    SettleSettles(s, now);
    UpdateSettles(s, now);
    ReadersOnlyRefresh(s, now, req, true);
    ReadersOnlyRefresh(Settle(s, now), now, req, false);
  }

  /** Opening before or after settling: the new auction is the same, the others only differ by
      settling. */
  lemma CreateCommutes(s: Db, now: int, st: Start, content: Option<string>)
    requires AllStarted(s, now) && st.time == now && st.ta <= 99999 && 0 < now < CLOCK_LIMIT
    ensures Alike(Create(Settle(s, now), st, content).0, Create(s, st, content).0, now)
  {
    var u := Settle(s, now);
    SettleSettles(s, now);
    var e, l := Create(u, st, content).0, Create(s, st, content).0;
    if l != s {
      var id := s.count + 1;
      var a := l.auctions[id];
      assert l == s.(count := id, auctions := s.auctions[id := a], hosted := l.hosted);
      assert e == u.(count := id, auctions := u.auctions[id := a], hosted := l.hosted);
      AddCommutes(s.auctions, now, id, a);
    } else {
      assert e == u;
    }
  }

  lemma AddCommutes(m: map<nat, Auction>, now: int, id: nat, a: Auction)
    ensures SettleAll(SettleAll(m, now)[id := a], now) == SettleAll(m[id := a], now)
  {
    forall i | i in m ensures Settled(Settled(m[i], now), now) == Settled(m[i], now) {
      SettledStep(m[i], now);
    }
  }

  /** Both servers open the same auction, or neither opens one. */
  lemma OpenSame(s: Db, now: int, req: Request)
    requires req.Open?
    ensures var u, a := Settle(s, now), req.args;
            || (Handle(s, now, req, true).db == s && Handle(u, now, req, false).db == u)
            || (&& Atoi(a.ta) <= 99999
                && Handle(s, now, req, true).db == Create(s, OpenStart(req.uid, a, now), req.content).0
                && Handle(u, now, req, false).db == Create(u, OpenStart(req.uid, a, now), req.content).0)
  {
    if ArgsValid(req.args) { ArgsInRange(req.args); }
  }

  lemma OpenAgrees(s: Db, now: int, req: Request)
    requires AllStarted(s, now) && 0 < now && req.Open? && AllInClock(Handle(s, now, req, true).db.auctions)
    ensures Agree(s, now, req)
  {
    SettleSettles(s, now);
    OpenSame(s, now, req);
    var l := Handle(s, now, req, true).db;
    if l != s {
      assert s.count + 1 in l.auctions && InClock(l.auctions[s.count + 1]);
      CreateCommutes(s, now, OpenStart(req.uid, req.args, now), req.content);
    }
  }

  /** The two servers' databases before CLS or BID looks at auction `id`: the same but for ENDs,
      and at `id` the same or overlooked by one and closed by the other. */
  lemma TwoViews(s: Db, now: int, id: nat)
    requires AllStarted(s, now)
    ensures var d, u := Update(s, now), Settle(s, now);
            && u == d.(auctions := u.auctions) && u.auctions.Keys == d.auctions.Keys == s.auctions.Keys
            && (id in s.auctions ==>
                  if Overlooked(s.auctions[id], now) then d.auctions[id] == s.auctions[id] && u.auctions[id].end.Some?
                  else u.auctions[id] == d.auctions[id])
  {
    if id in s.auctions { ExpireOrOverlook(s.auctions[id], now, now); }
  }

  /** CLS on two databases that are the same but for ENDs, and at its auction the same or closed
      by `u` and not to be read back by `d`. */
  lemma CloseOnViews(d: Db, u: Db, now: int, uid: string, pw: string, aid: string, e: Db, l: Db)
    requires e == HandleClose(u, now, uid, pw, aid, false).db && l == HandleClose(d, now, uid, pw, aid, false).db
    requires u == d.(auctions := u.auctions) && u.auctions.Keys == d.auctions.Keys
    requires Atoi(aid) in d.auctions ==>
               var x, y := u.auctions[Atoi(aid)], d.auctions[Atoi(aid)];
               x == y || (x.end.Some? && y.start.Some? && !Sound(y.start.value))
    ensures || (e == u && l == d)
            || (var id := Atoi(aid);
                && id in d.auctions && u.auctions[id] == d.auctions[id] && u.auctions[id].end.None?
                && var x := u.auctions[id].(end := Some(EndFile(now, now - u.auctions[id].start.value.time)));
                   e == u.(auctions := u.auctions[id := x]) && l == d.(auctions := d.auctions[id := x]))
  {
    CloseWrites(u, now, uid, pw, aid, false);
    CloseWrites(d, now, uid, pw, aid, false);
  }

  /** CLS does the same to both, or nothing to either. */
  lemma CloseSame(s: Db, now: int, uid: string, pw: string, aid: string, e: Db, l: Db)
    requires AllStarted(s, now)
    requires e == HandleClose(Settle(s, now), now, uid, pw, aid, false).db
    requires l == HandleClose(s, now, uid, pw, aid, true).db
    ensures var d, u, id := Update(s, now), Settle(s, now), Atoi(aid);
            || (e == u && l in {s, d})
            || (&& id in s.auctions && u.auctions[id] == d.auctions[id] && u.auctions[id].end.None?
                && var x := u.auctions[id].(end := Some(EndFile(now, now - u.auctions[id].start.value.time)));
                   e == u.(auctions := u.auctions[id := x]) && l == d.(auctions := d.auctions[id := x]))
  {
    TwoViews(s, now, Atoi(aid));
    if ValidUid(uid) && ValidPasswd(pw) && ValidAid(aid) {
      CloseOnViews(Update(s, now), Settle(s, now), now, uid, pw, aid, e, l);
    }
  }

  lemma OfferSame(d: Db, u: Db, now: int, id: nat, uid: string, value: nat, st: Start)
    requires u == d.(auctions := u.auctions) && id in d.auctions && id in u.auctions
    requires u.auctions[id] == d.auctions[id] && u.auctions[id].start.Some?
    ensures var e, l := Offer(u, now, id, uid, value, st).db, Offer(d, now, id, uid, value, st).db;
            || (e == u && l == d)
            || (var x := WithBid(u.auctions[id], uid, value, now);
                && e == u.(auctions := u.auctions[id := x], bidded := e.bidded)
                && l == d.(auctions := d.auctions[id := x], bidded := e.bidded))
  {
  }

  /** BID comes to its offer on both, or on neither; an offer without a name changes nothing. */
  lemma BidReaches(s: Db, now: int, uid: string, pw: string, aid: string, value: nat)
    requires AllStarted(s, now)
    ensures var d, u, id := Update(s, now), Settle(s, now), Atoi(aid);
            var e, l := HandleBid(u, now, uid, pw, aid, value, false).db, HandleBid(s, now, uid, pw, aid, value, true).db;
            || (e == u && l in {s, d})
            || (&& id in s.auctions && u.auctions[id] == d.auctions[id] && u.auctions[id].end.None?
                && u == d.(auctions := u.auctions)
                && e == Offer(u, now, id, uid, value, u.auctions[id].start.value).db
                && l == Offer(d, now, id, uid, value, u.auctions[id].start.value).db)
  {
    TwoViews(s, now, Atoi(aid));
  }

  /** So does BID. */
  lemma BidSame(s: Db, now: int, uid: string, pw: string, aid: string, value: nat, e: Db, l: Db)
    requires AllStarted(s, now)
    requires e == HandleBid(Settle(s, now), now, uid, pw, aid, value, false).db
    requires l == HandleBid(s, now, uid, pw, aid, value, true).db
    ensures var d, u, id := Update(s, now), Settle(s, now), Atoi(aid);
            || (e == u && l in {s, d})
            || (&& id in s.auctions && u.auctions[id] == d.auctions[id] && u.auctions[id].end.None?
                && var x := WithBid(u.auctions[id], uid, value, now);
                   && e == u.(auctions := u.auctions[id := x], bidded := e.bidded)
                   && l == d.(auctions := d.auctions[id := x], bidded := e.bidded))
  {
    BidReaches(s, now, uid, pw, aid, value);
    var d, u, id := Update(s, now), Settle(s, now), Atoi(aid);
    if !(e == u && l in {s, d}) {
      OfferSame(d, u, now, id, uid, value, u.auctions[id].start.value);
    }
  }

  lemma WrittenSettles(m: map<nat, Auction>, now: int, id: nat, x: Auction)
    requires forall i :: i in m ==> StartedBy(m[i], now)
    ensures SettleAll(SettleAll(m, now)[id := x], now) == SettleAll(ExpireAll(m, now)[id := x], now)
  {
    forall i | i in m ensures Settled(Settled(m[i], now), now) == Settled(Expire(m[i], now), now) {
      SettledStep(m[i], now);
      ExpireOrOverlook(m[i], now, now);
    }
  }

  /** Writing the same into auction `id` keeps the two databases alike. */
  lemma WrittenAlike(s: Db, now: int, id: nat, x: Auction, e: Db, l: Db)
    requires AllStarted(s, now) && id in s.auctions && StartedBy(x, now) && NotOverdue(x, now)
    requires e == Settle(s, now).(auctions := SettleAll(s.auctions, now)[id := x], bidded := e.bidded)
    requires l == Update(s, now).(auctions := ExpireAll(s.auctions, now)[id := x], bidded := e.bidded)
    ensures Alike(e, l, now)
  {
    WrittenSettles(s.auctions, now, id, x);
    assert AllStarted(e, now) && NoneOverdue(e, now) by { SettleSettles(s, now); }
    assert AllStarted(l, now) by { UpdateSettles(s, now); }
  }

  lemma UnwrittenAlike(s: Db, now: int, l: Db)
    requires AllStarted(s, now) && l in {s, Update(s, now)}
    ensures Alike(Settle(s, now), l, now)
  {
    SettleSettles(s, now);
    UpdateSettles(s, now);
  }

  lemma CloseAgrees(s: Db, now: int, req: Request, e: Db, l: Db)
    requires AllStarted(s, now) && req.Close?
    requires e == HandleClose(Settle(s, now), now, req.uid, req.passwd, req.aid, false).db
    requires l == HandleClose(s, now, req.uid, req.passwd, req.aid, true).db
    ensures Alike(e, l, now)
  {
    var u, id := Settle(s, now), Atoi(req.aid);
    CloseSame(s, now, req.uid, req.passwd, req.aid, e, l);
    if e == u && l in {s, Update(s, now)} {
      UnwrittenAlike(s, now, l);
    } else {
      WrittenAlike(s, now, id, u.auctions[id].(end := Some(EndFile(now, now - u.auctions[id].start.value.time))), e, l);
    }
  }

  lemma BidAgrees(s: Db, now: int, req: Request, e: Db, l: Db)
    requires AllStarted(s, now) && req.Bid?
    requires e == HandleBid(Settle(s, now), now, req.uid, req.passwd, req.aid, req.value, false).db
    requires l == HandleBid(s, now, req.uid, req.passwd, req.aid, req.value, true).db
    ensures Alike(e, l, now)
  {
    var u, id := Settle(s, now), Atoi(req.aid);
    BidSame(s, now, req.uid, req.passwd, req.aid, req.value, e, l);
    if e == u && l in {s, Update(s, now)} {
      UnwrittenAlike(s, now, l);
    } else {
      WrittenAlike(s, now, id, WithBid(u.auctions[id], req.uid, req.value, now), e, l);
    }
  }

  lemma HandlersAgree(s: Db, now: int, req: Request)
    requires AllStarted(s, now) && 0 < now && (req.Open? ==> AllInClock(Handle(s, now, req, true).db.auctions))
    ensures Agree(s, now, req)
  {
    match req
    case Login(_, _) => UsersAgree(s, now, req);
    case Logout(_, _) => UsersAgree(s, now, req);
    case Unreg(_, _) => UsersAgree(s, now, req);
    case Open(_, _, _, _) => OpenAgrees(s, now, req);
    case Close(_, _, _) => CloseAgrees(s, now, req, Handle(Settle(s, now), now, req, false).db, Handle(s, now, req, true).db);
    case Bid(_, _, _, _) => BidAgrees(s, now, req, Handle(Settle(s, now), now, req, false).db, Handle(s, now, req, true).db);
    case _ => ReadersAgree(s, now, req);
  }

  /* ---------- what one handler replies ---------- */

  predicate Signed(s: Db, uid: string, pw: string)
  {
    ValidUid(uid) && ValidPasswd(pw) && ExistsUser(s, uid) && LoggedIn(s, uid) && Authentic(s, uid, pw)
  }

  ghost predicate SomeOverlooked(s: Db, now: int, ids: set<nat>)
  {
    exists i :: i in ids && i in s.auctions && Overlooked(s.auctions[i], now)
  }

  /** The requests that look at an overlooked auction: a list that names one, a close by its
      owner, a bid by anyone else. */
  ghost predicate Notices(s: Db, now: int, req: Request)
  {
    match req
    case List => SomeOverlooked(s, now, s.auctions.Keys)
    case MyAuctions(uid) =>
      ValidUid(uid) && ExistsUser(s, uid) && LoggedIn(s, uid) && uid in s.hosted && SomeOverlooked(s, now, s.hosted[uid])
    case MyBids(uid) =>
      ValidUid(uid) && ExistsUser(s, uid) && LoggedIn(s, uid) && uid in s.bidded && SomeOverlooked(s, now, s.bidded[uid])
    case Close(uid, pw, aid) =>
      && Signed(s, uid, pw) && ValidAid(aid) && ExistsAuction(s, Atoi(aid)) && Atoi(aid) in s.auctions
      && Overlooked(s.auctions[Atoi(aid)], now) && s.auctions[Atoi(aid)].start.value.owner == uid
    case Bid(uid, pw, aid, _) =>
      && Signed(s, uid, pw) && ValidAid(aid) && ExistsAuction(s, Atoi(aid)) && Atoi(aid) in s.auctions
      && Overlooked(s.auctions[Atoi(aid)], now) && s.auctions[Atoi(aid)].start.value.owner != uid
    case _ => false
  }

  /** The lazy server and the eager one would answer alike. */
  ghost predicate Same(s: Db, now: int, req: Request)
  {
    Handle(Settle(s, now), now, req, false).reply == Handle(s, now, req, true).reply
  }

  lemma SameUserReply(s: Db, now: int, uid: string, pw: string)
    ensures HandleLogin(Settle(s, now), uid, pw).reply == HandleLogin(s, uid, pw).reply
    ensures HandleLogout(Settle(s, now), uid, pw).reply == HandleLogout(s, uid, pw).reply
    ensures HandleUnregister(Settle(s, now), uid, pw).reply == HandleUnregister(s, uid, pw).reply
  {
  }

  lemma SameOpenReply(s: Db, now: int, uid: string, pw: string, args: OpenArgs, content: Option<string>)
    ensures HandleOpen(Settle(s, now), now, uid, pw, args, content).reply
            == HandleOpen(s, now, uid, pw, args, content).reply
  {
    var st := OpenStart(uid, args, now);
    assert Create(Settle(s, now), st, content).1 == Create(s, st, content).1;
  }

  lemma SameAssetReply(s: Db, now: int, aid: string)
    ensures HandleShowAsset(Settle(s, now), aid).reply == HandleShowAsset(s, aid).reply
  {
    if Atoi(aid) in s.auctions {
      assert Settle(s, now).auctions[Atoi(aid)] == Settled(s.auctions[Atoi(aid)], now);
    }
  }

  lemma SameRecordReply(s: Db, now: int, aid: string)
    requires AllStarted(s, now)
    ensures HandleShowRecord(Settle(s, now), now, aid, false).reply == HandleShowRecord(s, now, aid, true).reply
  {
    TwoViews(s, now, Atoi(aid));
  }

  /** Two status lists over the same ids differ if and only if some status does. */
  lemma ListsDiffer(d: Db, u: Db, ids: set<nat>)
    ensures |Statuses(d, ids)| == |Statuses(u, ids)|
    ensures Statuses(d, ids) == Statuses(u, ids) <==> forall i :: i in ids ==> Finished(d, i) == Finished(u, i)
  {
    var s, a, b := Sorted(ids), Statuses(d, ids), Statuses(u, ids);
    if a == b {
      forall i | i in ids ensures Finished(d, i) == Finished(u, i) {
        assert i in s;
        var k :| 0 <= k < |s| && s[k] == i;
        assert a[k] == (i, !Finished(d, i)) && b[k] == (i, !Finished(u, i));
      }
    }
    if forall i :: i in ids ==> Finished(d, i) == Finished(u, i) {
      forall k | 0 <= k < |s| ensures a[k] == b[k] { SortedAt(ids, k); }
    }
  }

  lemma StatusesSame(s: Db, now: int, ids: set<nat>)
    requires AllStarted(s, now)
    ensures |Statuses(Update(s, now), ids)| == |Statuses(Settle(s, now), ids)|
    ensures Statuses(Update(s, now), ids) == Statuses(Settle(s, now), ids) <==> !SomeOverlooked(s, now, ids)
  {
    var d, u := Update(s, now), Settle(s, now);
    ListsDiffer(d, u, ids);
    forall i | i in ids
      ensures Finished(d, i) == Finished(u, i) <==> !(i in s.auctions && Overlooked(s.auctions[i], now))
    {
      TwoViews(s, now, i);
    }
  }

  lemma ListReplies(s: Db, now: int)
    requires AllStarted(s, now)
    ensures HandleList(Settle(s, now), now, false).reply == HandleList(s, now, true).reply
            <==> !SomeOverlooked(s, now, s.auctions.Keys)
  {
    StatusesSame(s, now, s.auctions.Keys);
    assert Update(s, now).auctions.Keys == s.auctions.Keys == Settle(s, now).auctions.Keys;
  }

  lemma MyAuctionsReplies(s: Db, now: int, uid: string)
    requires AllStarted(s, now)
    ensures HandleMyAuctions(Settle(s, now), now, uid, false).reply == HandleMyAuctions(s, now, uid, true).reply
            <==> !Notices(s, now, MyAuctions(uid))
  {
    if uid in s.hosted { StatusesSame(s, now, s.hosted[uid]); }
  }

  lemma MyBidsReplies(s: Db, now: int, uid: string)
    requires AllStarted(s, now)
    ensures HandleMyBids(Settle(s, now), now, uid, false).reply == HandleMyBids(s, now, uid, true).reply
            <==> !Notices(s, now, MyBids(uid))
  {
    if uid in s.bidded { StatusesSame(s, now, s.bidded[uid]); }
  }

  lemma CloseReplies(s: Db, now: int, uid: string, pw: string, aid: string)
    requires AllStarted(s, now) && IdsOk(s)
    ensures HandleClose(Settle(s, now), now, uid, pw, aid, false).reply == HandleClose(s, now, uid, pw, aid, true).reply
            <==> !Notices(s, now, Close(uid, pw, aid))
  {
    TwoViews(s, now, Atoi(aid));
    assert Msg("RCL NOK\n").text[4] == 'N' && Msg("RCL END\n").text[4] == 'E';
  }

  lemma BidReplies(s: Db, now: int, uid: string, pw: string, aid: string, value: nat)
    requires AllStarted(s, now) && IdsOk(s)
    ensures HandleBid(Settle(s, now), now, uid, pw, aid, value, false).reply
            == HandleBid(s, now, uid, pw, aid, value, true).reply
            <==> !Notices(s, now, Bid(uid, pw, aid, value))
  {
    TwoViews(s, now, Atoi(aid));
    assert Msg("RBD NOK\n").text[4] == 'N' && Msg("RBD REF\n").text[4] == 'R';
  }

  lemma SameUnlessNoticed(s: Db, now: int, req: Request)
    requires AllStarted(s, now) && IdsOk(s)
    ensures Same(s, now, req) <==> !Notices(s, now, req)
  {
    match req
    case Login(uid, pw) => SameUserReply(s, now, uid, pw);
    case Logout(uid, pw) => SameUserReply(s, now, uid, pw);
    case Unreg(uid, pw) => SameUserReply(s, now, uid, pw);
    case List => ListReplies(s, now);
    case MyAuctions(uid) => MyAuctionsReplies(s, now, uid);
    case MyBids(uid) => MyBidsReplies(s, now, uid);
    case ShowRecord(aid) => SameRecordReply(s, now, aid);
    case Open(uid, pw, args, content) => SameOpenReply(s, now, uid, pw, args, content);
    case Close(uid, pw, aid) => CloseReplies(s, now, uid, pw, aid);
    case Bid(uid, pw, aid, value) => BidReplies(s, now, uid, pw, aid, value);
    case ShowAsset(aid) => SameAssetReply(s, now, aid);
  }

  /* ---------- runs ---------- */

  /** Every auction of a run was started in its time, and, if it says so, before the limit. */
  lemma RunStarted(evs: seq<Event>, later: int)
    requires ClockOk(evs) && Clock(evs) <= later && AllInClock(After(evs).auctions)
    ensures AllStarted(After(evs), later) && IdsOk(After(evs))
  {
    RunKeepsTimely(evs);
    RunFacts(evs);
    forall i | i in After(evs).auctions ensures StartedBy(After(evs).auctions[i], later) {
      assert Timely(After(evs).auctions[i], Clock(evs));
    }
  }

  /** Along every run the eager database is the lazy one settled, while every auction was
      opened before the clock limit. */
  lemma {:induction false} EagerIsLazySettled(evs: seq<Event>)
    requires ClockOk(evs) && AllInClock(After(evs).auctions)
    ensures EagerAfter(evs) == Settle(After(evs), Clock(evs))
  {
    if evs != [] {
      var n := |evs| - 1;
      var init, e := evs[..n], evs[n];
      ClockPrefix(evs, n);
      assert evs[..n + 1] == evs;
      InClockBefore(evs, n, n + 1);
      EagerIsLazySettled(init);
      var s := After(init);
      assert Clock(init) <= e.now;
      RunStarted(init, e.now);
      AdvanceSettles(s, Clock(init), e.now);
      HandlersAgree(s, e.now, e.req);
      TickSettles(Handle(Settle(s, e.now), e.now, e.req, false).db, e.now);
    }
  }

  lemma BeforeServing(evs: seq<Event>, i: nat)
    requires i < |evs| && ClockOk(evs) && AllInClock(After(evs[..i]).auctions)
    ensures AllStarted(After(evs[..i]), evs[i].now) && IdsOk(After(evs[..i]))
    ensures Advance(EagerAfter(evs[..i]), Clock(evs[..i]), evs[i].now) == Settle(After(evs[..i]), evs[i].now)
  {
    var init := evs[..i];
    ClockPrefix(evs, i);
    EagerIsLazySettled(init);
    assert Clock(init) <= evs[i].now;
    RunStarted(init, evs[i].now);
    AdvanceSettles(After(init), Clock(init), evs[i].now);
  }

  /** The refinement, exactly: over every run with a clock that never goes back, in which every
      auction was opened before the clock limit, each reply (list statuses, my auctions, my
      bids, records with their E section, bid and close verdicts, and all others) is the eager
      server's reply, if and only if the request does not look at an auction past its deadline
      that has no name or has a line feed in its file name. */
  lemma LazyRefinesEager(evs: seq<Event>, i: nat)
    requires i < |evs| && ClockOk(evs) && AllInClock(After(evs[..i]).auctions)
    ensures ReplyAt(evs, i) == EagerReplyAt(evs, i) <==> !Notices(After(evs[..i]), evs[i].now, evs[i].req)
  {
    BeforeServing(evs, i);
    SameUnlessNoticed(After(evs[..i]), evs[i].now, evs[i].req);
  }

  /** So no client can tell while every auction in the database can be read back, whatever opens
      were refused. */
  lemma SoundRunsCannotTell(evs: seq<Event>, i: nat)
    requires i < |evs| && ClockOk(evs) && AllInClock(After(evs[..i]).auctions)
    requires forall id :: id in After(evs[..i]).auctions && After(evs[..i]).auctions[id].start.Some? ==>
               Sound(After(evs[..i]).auctions[id].start.value)
    ensures ReplyAt(evs, i) == EagerReplyAt(evs, i)
  {
    LazyRefinesEager(evs, i);
  }

  /** And a list tells as soon as one that cannot is past its deadline. */
  lemma ListsTell(evs: seq<Event>, i: nat, id: nat)
    requires i < |evs| && ClockOk(evs) && AllInClock(After(evs[..i]).auctions)
    requires evs[i].req.List? && id in After(evs[..i]).auctions
    requires var a := After(evs[..i]).auctions[id];
             a.start.Some? && !Sound(a.start.value) && a.start.value.time + a.start.value.ta <= evs[i].now
    ensures ReplyAt(evs, i) != EagerReplyAt(evs, i)
  {
    ClockPrefix(evs, i);
    UnsoundStaysOpen(evs[..i]);
    assert Stuck(After(evs[..i]).auctions[id]);
    assert id in After(evs[..i]).auctions.Keys && Overlooked(After(evs[..i]).auctions[id], evs[i].now);
    LazyRefinesEager(evs, i);
  }

  /* A run that shows it: a user registers, opens an auction that cannot be read back, and lists. */

  function Forgetful(name: string, fname: string): seq<Event>
  {
    [Event(1, Login("000001", "password")),
     Event(1, Open("000001", "password", OpenArgs(name, "1", "1", fname, "1"), Some("x"))),
     Event(2, List)]
  }

  /** The two ways of opening an auction that cannot be read back. */
  predicate Unreadable(name: string, fname: string)
  {
    (name == "" && fname == "f") || (name == "vase" && fname == "a\nb")
  }

  lemma ForgetfulOk(name: string, fname: string)
    requires Unreadable(name, fname)
    ensures ClockOk(Forgetful(name, fname)) && ArgsValid(OpenArgs(name, "1", "1", fname, "1"))
    ensures ValidUid("000001") && ValidPasswd("password") && Atoi("1") == 1
  {
    AtoiDec(1, "");
    assert Dec(1) + "" == "1";
    if fname == "f" { assert |fname| == 1; } else { assert |fname| == 3; }
  }

  lemma ForgetfulOpens(name: string, fname: string)
    requires Unreadable(name, fname)
    ensures var evs := Forgetful(name, fname);
            && ReplyAt(evs, 1) == Opened(1) && After(evs[..2]).auctions.Keys == {1}
            && After(evs[..2]).auctions[1].start == Some(Start("000001", name, fname, 1, 1, 1))
  {
    var evs := Forgetful(name, fname);
    ForgetfulOk(name, fname);
    assert evs[..2][..1] == evs[..1] && evs[..1][..0] == [];
    assert After(evs[..1]) == Register(Fresh, "000001", "password");
  }

  /** The auction is opened and past its deadline; the two servers' lists differ. */
  lemma ForgottenAuction(name: string, fname: string)
    requires Unreadable(name, fname)
    ensures var evs := Forgetful(name, fname);
            ClockOk(evs) && ReplyAt(evs, 1) == Opened(1) && ReplyAt(evs, 2) != EagerReplyAt(evs, 2)
  {
    ForgetfulOk(name, fname);
    ForgetfulOpens(name, fname);
    if fname != "f" { assert fname[1] == '\n'; }
    ListsTell(Forgetful(name, fname), 2, 1);
  }

  /* ---------- past the clock limit ---------- */

  lemma {:induction false} AdvanceKeepsRunning(db: Db, from: int, to: int, id: nat)
    requires id in db.auctions && db.auctions[id].end.None? && db.auctions[id].start.Some?
    requires to < db.auctions[id].start.value.time + db.auctions[id].start.value.ta
    ensures var d := Advance(db, from, to);
            d.auctions.Keys == db.auctions.Keys && d.auctions[id] == db.auctions[id]
    decreases if from < to then to - from else 0
  {
    if from < to { AdvanceKeepsRunning(db, from, to - 1, id); }
  }

  /** Both servers' databases behind an open past the limit. */
  lemma LateOpen(s: Db, now: int, req: Request)
    requires req.Open? && Handle(s, now, req, true).reply.Opened? && IdsOk(s)
    ensures var id, st, u := s.count + 1, OpenStart(req.uid, req.args, now), Settle(s, now);
            var e, l := Handle(u, now, req, false).db, Handle(s, now, req, true).db;
            && st.ta <= 99999 && id in e.auctions && id in l.auctions && e.auctions[id] == l.auctions[id]
            && l.auctions[id].start == Some(st) && l.auctions[id].end == None
            && e.auctions.Keys == l.auctions.Keys
  {
    ArgsInRange(req.args);
  }

  lemma LateStates(evs: seq<Event>, i: nat) returns (id: nat)
    requires i < |evs| && ClockOk(evs) && AllInClock(After(evs[..i]).auctions)
    requires evs[i].req.Open? && ReplyAt(evs, i).Opened? && 0 < Atoi(evs[i].req.args.ta)
    ensures var l, t, st := After(evs[..i + 1]), EagerAfter(evs[..i + 1]), OpenStart(evs[i].req.uid, evs[i].req.args, evs[i].now);
            && st.ta <= 99999 && id in l.auctions && id in t.auctions && t.auctions.Keys == l.auctions.Keys
            && l.auctions[id].start == Some(st) && l.auctions[id].end == None && t.auctions[id] == l.auctions[id]
  {
    var s, now := After(evs[..i]), evs[i].now;
    BeforeServing(evs, i);
    LateOpen(s, now, evs[i].req);
    assert evs[..i + 1][..i] == evs[..i];
    assert EagerAfter(evs[..i + 1]) == Tick(Handle(Settle(s, now), now, evs[i].req, false).db, now);
    id := s.count + 1;
  }

  /** The limit is needed: behind an auction opened past it, with time to run and read back
      well, the very next list tells. */
  lemma LateStartTells(evs: seq<Event>, i: nat)
    requires i + 1 < |evs| && ClockOk(evs) && AllInClock(After(evs[..i]).auctions)
    requires evs[i].req.Open? && ReplyAt(evs, i).Opened? && CLOCK_LIMIT <= evs[i].now
    requires Sound(OpenStart(evs[i].req.uid, evs[i].req.args, evs[i].now))
    requires evs[i + 1].req.List? && evs[i + 1].now < evs[i].now + Atoi(evs[i].req.args.ta)
    ensures ReplyAt(evs, i + 1) != EagerReplyAt(evs, i + 1)
  {
    assert evs[i].now <= evs[i + 1].now;
    var id := LateStates(evs, i);
    ListAnswers(evs, i + 1);
    LateLists(After(evs[..i + 1]), EagerAfter(evs[..i + 1]), id, evs[i].now, evs[i + 1].now);
  }

  lemma ListAnswers(evs: seq<Event>, k: nat)
    requires 0 < k < |evs| && evs[k].req.List?
    ensures ReplyAt(evs, k) == HandleList(After(evs[..k]), evs[k].now, true).reply
    ensures EagerReplyAt(evs, k)
            == HandleList(Advance(EagerAfter(evs[..k]), evs[k - 1].now, evs[k].now), evs[k].now, false).reply
  {
    assert Clock(evs[..k]) == evs[k - 1].now;
  }

  lemma LateLists(l: Db, t: Db, id: nat, now: int, later: int)
    requires id in l.auctions && id in t.auctions && t.auctions.Keys == l.auctions.Keys
    requires t.auctions[id] == l.auctions[id] && l.auctions[id].end.None? && l.auctions[id].start.Some?
    requires Sound(l.auctions[id].start.value) && l.auctions[id].start.value.ta <= 99999
    requires l.auctions[id].start.value.time == now && CLOCK_LIMIT <= now <= later < now + l.auctions[id].start.value.ta
    ensures HandleList(l, later, true).reply != HandleList(Advance(t, now, later), later, false).reply
  {
    var d, u := Update(l, later), Advance(t, now, later);
    AdvanceKeepsRunning(t, now, later, id);
    ExpiresAtOnce(l.auctions[id], later);
    assert d.auctions.Keys == l.auctions.Keys;
    ListsDiffer(d, u, l.auctions.Keys);
    assert id in l.auctions.Keys && Finished(d, id) && !Finished(u, id);
  }

  /* ---------- the conditions on one auction ---------- */

  /** What the expiry test needs, exactly: it is right at all times if and only if the START line
      can be read back and either the start fits in 32 bits or there is no time to run. */
  lemma ExpiryRightExactly(a: Auction)
    requires a.start.Some? && a.end.None? && a.start.value.ta <= 99999 && 0 < a.start.value.time
    ensures var st := a.start.value;
            (forall now :: st.time <= now ==> (Expire(a, now).end.Some? <==> st.time + st.ta <= now))
            <==> Sound(st) && (st.time < CLOCK_LIMIT || st.ta == 0)
  {
    var st := a.start.value;
    if !Sound(st) {
      assert Expire(a, st.time + st.ta).end.None?;
    } else if st.time < CLOCK_LIMIT {
      assert Int32(st.time) == st.time;
    } else {
      ExpiresAtOnce(a, st.time);
      if st.ta == 0 { ExpiresAlways(a); }
    }
  }

  lemma ExpiresAlways(a: Auction)
    requires a.start.Some? && Sound(a.start.value) && a.start.value.ta == 0 && CLOCK_LIMIT <= a.start.value.time
    ensures forall now :: a.start.value.time <= now ==> Expire(a, now).end.Some?
  {
    forall now | a.start.value.time <= now ensures Expire(a, now).end.Some? { ExpiresAtOnce(a, now); }
  }
}
