/** What a run says by its own requests and replies, and that the database after it is exactly
    that: who is logged in and with which password, which auctions there are, every bid and
    every END. No function of the database appears in what is read off the run. */
module History {
  import opened Text
  import opened Store
  import opened Handlers
  import opened Runs
  import opened RunInvariants
  import opened Verdicts

  /** A request as it was answered. */
  datatype Entry = Entry(now: int, req: Request, reply: Reply)

  /** The run as its clients see it. */
  ghost function Log(evs: seq<Event>): (log: seq<Entry>)
    ensures |log| == |evs|
  {
    if evs == [] then []
    else
      var n := |evs| - 1;
      Log(evs[..n]) + [Entry(evs[n].now, evs[n].req, ReplyAt(evs, n))]
  }

  lemma {:induction false} LogAt(evs: seq<Event>, k: nat)
    requires k < |evs|
    ensures Log(evs)[k] == Entry(evs[k].now, evs[k].req, ReplyAt(evs, k))
  {
    var n := |evs| - 1;
    if k < n {
      LogAt(evs[..n], k);
      assert evs[..n][..k] == evs[..k];
    }
  }

  /** One event more: the database is what the handler leaves, the log gets its reply. */
  lemma {:induction false} OneMore(evs: seq<Event>, j: nat)
    requires j < |evs|
    ensures After(evs[..j + 1]) == Handle(After(evs[..j]), evs[j].now, evs[j].req, true).db
    ensures Log(evs)[j] == Entry(evs[j].now, evs[j].req, Handle(After(evs[..j]), evs[j].now, evs[j].req, true).reply)
  {
    assert evs[..j + 1][..j] == evs[..j];
    LogAt(evs, j);
  }

  /* ---------- users: one event ---------- */

  /** A login that succeeded, as known or as new user. */
  predicate SignsIn(req: Request, r: Reply, u: Uid)
  {
    req.Login? && req.uid == u && r in {Msg("RLI OK\n"), Msg("RLI REG\n")}
  }

  /** A logout or an unregister that succeeded. */
  predicate SignsOut(req: Request, r: Reply, u: Uid)
  {
    (req.Logout? && req.uid == u && r == Msg("RLO OK\n")) || (req.Unreg? && req.uid == u && r == Msg("RUR OK\n"))
  }

  predicate Registers(req: Request, r: Reply, u: Uid)
  {
    req.Login? && req.uid == u && r == Msg("RLI REG\n")
  }

  predicate Unregisters(req: Request, r: Reply, u: Uid)
  {
    req.Unreg? && req.uid == u && r == Msg("RUR OK\n")
  }

  lemma LoginEffect(s: Db, now: int, req: Request, u: Uid, pw: Passwd)
    requires UsersOk(s) && req.Login?
    ensures var o := Handle(s, now, req, true);
            && (u in o.db.logins <==> SignsIn(req, o.reply, u) || u in s.logins)
            && (Authentic(o.db, u, pw) <==> if Registers(req, o.reply, u) then pw == req.passwd else Authentic(s, u, pw))
  {
    assert "RLI REG\n"[4] == 'R' && "RLI NOK\n"[4] == 'N' && "RLI OK\n"[4] == 'O';
  }

  lemma LogoutEffect(s: Db, now: int, req: Request, u: Uid, pw: Passwd)
    requires UsersOk(s) && req.Logout?
    ensures var o := Handle(s, now, req, true);
            && (u in o.db.logins <==> !SignsOut(req, o.reply, u) && u in s.logins)
            && (Authentic(o.db, u, pw) <==> Authentic(s, u, pw))
  {
    assert "RLO UNR\n"[4] == 'U' && "RLO NOK\n"[4] == 'N' && "RLO OK\n"[4] == 'O';
  }

  lemma UnregisterEffect(s: Db, now: int, req: Request, u: Uid, pw: Passwd)
    requires UsersOk(s) && req.Unreg?
    ensures var o := Handle(s, now, req, true);
            && (u in o.db.logins <==> !SignsOut(req, o.reply, u) && u in s.logins)
            && (Authentic(o.db, u, pw) <==> !Unregisters(req, o.reply, u) && Authentic(s, u, pw))
  {
    assert "RUR UNR\n"[4] == 'U' && "RUR NOK\n"[4] == 'N' && "RUR OK\n"[4] == 'O';
  }

  lemma OtherEffect(s: Db, now: int, req: Request)
    requires !req.Login? && !req.Logout? && !req.Unreg?
    ensures var d := Handle(s, now, req, true).db; d.logins == s.logins && d.passwords == s.passwords
  {
    match req
    case Open(u, p, a, c) => OpenWrites(s, now, u, p, a, c);
    case Close(u, p, a) => CloseWrites(s, now, u, p, a, true);
    case Bid(u, p, a, v) =>
    case _ => ReadersOnlyRefresh(s, now, req, true);
  }

  /** What one event does to every user's login and password. */
  lemma UserEffect(s: Db, now: int, req: Request, u: Uid, pw: Passwd)
    requires UsersOk(s)
    ensures var o := Handle(s, now, req, true);
            && (u in o.db.logins <==> SignsIn(req, o.reply, u) || (!SignsOut(req, o.reply, u) && u in s.logins))
            && (Authentic(o.db, u, pw) <==>
                  if Registers(req, o.reply, u) then pw == req.passwd
                  else !Unregisters(req, o.reply, u) && Authentic(s, u, pw))
  {
    match req
    case Login(_, _) => LoginEffect(s, now, req, u, pw);
    case Logout(_, _) => LogoutEffect(s, now, req, u, pw);
    case Unreg(_, _) => UnregisterEffect(s, now, req, u, pw);
    case _ => OtherEffect(s, now, req);
  }

  /* ---------- users: whole runs ---------- */

  /** Entry `k` logs `u` in, and none behind it and before point `j` logs `u` out. */
  predicate InSince(log: seq<Entry>, k: nat, j: nat, u: Uid)
    requires j <= |log|
  {
    k < j && SignsIn(log[k].req, log[k].reply, u) && forall m :: k < m < j ==> !SignsOut(log[m].req, log[m].reply, u)
  }

  /** Before point `j` user `u` has logged in, and neither logged out nor unregistered since. */
  ghost predicate SignedIn(log: seq<Entry>, j: nat, u: Uid)
    requires j <= |log|
  {
    exists k: nat :: InSince(log, k, j, u)
  }

  /** Entry `k` registers `u` with `pw`, and none behind it and before point `j` unregisters `u`. */
  predicate WithSince(log: seq<Entry>, k: nat, j: nat, u: Uid, pw: Passwd)
    requires j <= |log|
  {
    k < j && Registers(log[k].req, log[k].reply, u) && log[k].req.passwd == pw
    && forall m :: k < m < j ==> !Unregisters(log[m].req, log[m].reply, u)
  }

  ghost predicate RegisteredWith(log: seq<Entry>, j: nat, u: Uid, pw: Passwd)
    requires j <= |log|
  {
    exists k: nat :: WithSince(log, k, j, u, pw)
  }

  /** Before point `j` user `u` has registered and not unregistered since. */
  ghost predicate Registered(log: seq<Entry>, j: nat, u: Uid)
    requires j <= |log|
  {
    exists pw: Passwd :: RegisteredWith(log, j, u, pw)
  }

  lemma {:induction false} InStep(log: seq<Entry>, j: nat, u: Uid)
    requires j < |log|
    ensures SignedIn(log, j + 1, u) <==>
              SignsIn(log[j].req, log[j].reply, u) || (!SignsOut(log[j].req, log[j].reply, u) && SignedIn(log, j, u))
  {
    if SignedIn(log, j + 1, u) && !SignsIn(log[j].req, log[j].reply, u) {
      var k: nat :| InSince(log, k, j + 1, u);
      assert InSince(log, k, j, u);
    }
    if SignsIn(log[j].req, log[j].reply, u) { assert InSince(log, j, j + 1, u); }
    if !SignsOut(log[j].req, log[j].reply, u) && SignedIn(log, j, u) {
      var k: nat :| InSince(log, k, j, u);
      assert InSince(log, k, j + 1, u);
    }
  }

  lemma {:induction false} WithStep(log: seq<Entry>, j: nat, u: Uid, pw: Passwd)
    requires j < |log|
    ensures RegisteredWith(log, j + 1, u, pw) <==>
              || (Registers(log[j].req, log[j].reply, u) && log[j].req.passwd == pw)
              || (!Unregisters(log[j].req, log[j].reply, u) && RegisteredWith(log, j, u, pw))
  {
    if RegisteredWith(log, j + 1, u, pw) && !(Registers(log[j].req, log[j].reply, u) && log[j].req.passwd == pw) {
      var k: nat :| WithSince(log, k, j + 1, u, pw);
      assert WithSince(log, k, j, u, pw);
    }
    if Registers(log[j].req, log[j].reply, u) && log[j].req.passwd == pw { assert WithSince(log, j, j + 1, u, pw); }
    if !Unregisters(log[j].req, log[j].reply, u) && RegisteredWith(log, j, u, pw) {
      var k: nat :| WithSince(log, k, j, u, pw);
      assert WithSince(log, k, j + 1, u, pw);
    }
  }

  lemma NewUserUnknown(s: Db, now: int, req: Request, u: Uid, pw: Passwd)
    requires Registers(req, Handle(s, now, req, true).reply, u)
    ensures !Authentic(s, u, pw)
  {
    assert "RLI REG\n"[4] == 'R' && "RLI NOK\n"[4] == 'N' && "RLI OK\n"[4] == 'O';
  }

  lemma {:induction false} EventEffect(evs: seq<Event>, j: nat, u: Uid, pw: Passwd)
    requires ClockOk(evs) && j < |evs|
    ensures var s, d, e := After(evs[..j]), After(evs[..j + 1]), Log(evs)[j];
            && (u in d.logins <==> SignsIn(e.req, e.reply, u) || (!SignsOut(e.req, e.reply, u) && u in s.logins))
            && (Authentic(d, u, pw) <==>
                  || (Registers(e.req, e.reply, u) && e.req.passwd == pw)
                  || (!Unregisters(e.req, e.reply, u) && Authentic(s, u, pw)))
  {
    ClockPrefix(evs, j);
    RunFacts(evs[..j]);
    OneMore(evs, j);
    UserEffect(After(evs[..j]), evs[j].now, evs[j].req, u, pw);
    if Registers(Log(evs)[j].req, Log(evs)[j].reply, u) {
      NewUserUnknown(After(evs[..j]), evs[j].now, evs[j].req, u, pw);
    }
  }

  lemma {:induction false} AtFirst(evs: seq<Event>, u: Uid, pw: Passwd)
    ensures !SignedIn(Log(evs), 0, u) && !RegisteredWith(Log(evs), 0, u, pw)
    ensures After(evs[..0]) == Fresh
  {
  }

  /** Who is logged in, over every run: exactly those whose last successful login comes behind
      their last successful logout and unregister. Nobody else's requests matter. */
  lemma {:induction false} LoginsAreHistory(evs: seq<Event>, j: nat, u: Uid)
    requires ClockOk(evs) && j <= |evs|
    ensures u in After(evs[..j]).logins <==> SignedIn(Log(evs), j, u)
  {
    if j > 0 {
      LoginsAreHistory(evs, j - 1, u);
      EventEffect(evs, j - 1, u, "");
      InStep(Log(evs), j - 1, u);
    } else {
      AtFirst(evs, u, "");
    }
  }

  /** And with which password: exactly that of a registration not followed by an unregister. */
  lemma {:induction false} PasswordsAreHistory(evs: seq<Event>, j: nat, u: Uid, pw: Passwd)
    requires ClockOk(evs) && j <= |evs|
    ensures Authentic(After(evs[..j]), u, pw) <==> RegisteredWith(Log(evs), j, u, pw)
  {
    if j > 0 {
      PasswordsAreHistory(evs, j - 1, u, pw);
      EventEffect(evs, j - 1, u, pw);
      WithStep(Log(evs), j - 1, u, pw);
    } else {
      AtFirst(evs, u, pw);
    }
  }

  lemma {:induction false} KnownIsHistory(evs: seq<Event>, j: nat, u: Uid)
    requires ClockOk(evs) && j <= |evs|
    ensures u in After(evs[..j]).passwords <==> Registered(Log(evs), j, u)
  {
    if u in After(evs[..j]).passwords { PasswordsAreHistory(evs, j, u, After(evs[..j]).passwords[u]); }
    if Registered(Log(evs), j, u) {
      var pw :| RegisteredWith(Log(evs), j, u, pw);
      PasswordsAreHistory(evs, j, u, pw);
    }
  }

  /** From a login until the next logout or unregister a user is logged in. */
  lemma {:induction false} LoggedInUntil(evs: seq<Event>, i: nat, j: nat, u: Uid)
    requires ClockOk(evs) && i < j <= |evs| && SignsIn(evs[i].req, ReplyAt(evs, i), u)
    requires forall m :: i < m < j ==> !SignsOut(evs[m].req, ReplyAt(evs, m), u)
    ensures u in After(evs[..j]).logins
  {
    forall m: nat | i <= m < j ensures Log(evs)[m] == Entry(evs[m].now, evs[m].req, ReplyAt(evs, m)) { LogAt(evs, m); }
    LoginsAreHistory(evs, j, u);
    assert InSince(Log(evs), i, j, u);
  }

  /** And from a logout or unregister until the next login not. */
  lemma {:induction false} LoggedOutUntil(evs: seq<Event>, i: nat, j: nat, u: Uid)
    requires ClockOk(evs) && i < j <= |evs| && SignsOut(evs[i].req, ReplyAt(evs, i), u)
    requires forall m :: i < m < j ==> !SignsIn(evs[m].req, ReplyAt(evs, m), u)
    ensures u !in After(evs[..j]).logins
  {
    forall m: nat | i <= m < j ensures Log(evs)[m] == Entry(evs[m].now, evs[m].req, ReplyAt(evs, m)) { LogAt(evs, m); }
    LoginsAreHistory(evs, j, u);
    forall k: nat ensures !InSince(Log(evs), k, j, u) {}
  }

  /** Nobody else's login changes at an event. */
  lemma {:induction false} OthersStay(evs: seq<Event>, i: nat, u: Uid)
    requires ClockOk(evs) && i < |evs|
    requires (evs[i].req.Login? || evs[i].req.Logout? || evs[i].req.Unreg?) ==> evs[i].req.uid != u
    ensures u in After(evs[..i + 1]).logins <==> u in After(evs[..i]).logins
  {
    LogAt(evs, i);
    EventEffect(evs, i, u, "");
  }

  /** From a registration until the next unregister exactly the registered password
      authenticates. */
  lemma {:induction false} RegisteredPasswordWorks(evs: seq<Event>, i: nat, j: nat, u: Uid, pw: Passwd)
    requires ClockOk(evs) && i < j <= |evs| && Registers(evs[i].req, ReplyAt(evs, i), u)
    requires forall m :: i < m < j ==> !Unregisters(evs[m].req, ReplyAt(evs, m), u)
    ensures Authentic(After(evs[..j]), u, pw) <==> pw == evs[i].req.passwd
  {
    forall m: nat | i <= m < j ensures Log(evs)[m] == Entry(evs[m].now, evs[m].req, ReplyAt(evs, m)) { LogAt(evs, m); }
    PasswordsAreHistory(evs, j, u, evs[i].req.passwd);
    assert WithSince(Log(evs), i, j, u, evs[i].req.passwd);
  }

  /** And from a successful unregister until the next registration no password does. */
  lemma {:induction false} NobodyAfterUnregister(evs: seq<Event>, i: nat, j: nat, u: Uid, pw: Passwd)
    requires ClockOk(evs) && i < j <= |evs| && Unregisters(evs[i].req, ReplyAt(evs, i), u)
    requires forall m :: i < m < j ==> !Registers(evs[m].req, ReplyAt(evs, m), u)
    ensures !Authentic(After(evs[..j]), u, pw)
  {
    forall m: nat | i <= m < j ensures Log(evs)[m] == Entry(evs[m].now, evs[m].req, ReplyAt(evs, m)) { LogAt(evs, m); }
    PasswordsAreHistory(evs, j, u, pw);
    forall k: nat ensures !WithSince(Log(evs), k, j, u, pw) {}
  }

  /* ---------- auctions: one event ---------- */

  predicate Opens(req: Request, r: Reply, id: nat) { req.Open? && r == Opened(id) }

  predicate Bids(req: Request, r: Reply, id: nat) { req.Bid? && r == Msg("RBD ACC\n") && Atoi(req.aid) == id }

  predicate Closes(req: Request, r: Reply, id: nat) { req.Close? && r == Msg("RCL OK\n") && Atoi(req.aid) == id }

  /** Only an accepted open adds an auction; it is a new one, without bids and END. */
  predicate Appeared(m: map<nat, Auction>, n: map<nat, Auction>, e: Entry, id: nat)
  {
    && (id in n <==> id in m || Opens(e.req, e.reply, id))
    && (Opens(e.req, e.reply, id) ==>
          && id !in m && e.req.content.Some?
          && n[id] == Auction(Some(AskedFor(e)), map[], None, map[e.req.args.fname := e.req.content.value]))
  }

  /** What an open asks for: owner, names, numbers, and the clock. */
  function AskedFor(e: Entry): Start
    requires e.req.Open?
  {
    Start(e.req.uid, e.req.args.name, e.req.args.fname, Atoi(e.req.args.sv), Atoi(e.req.args.ta), e.now)
  }

  lemma AuctionAppears(s: Db, now: int, req: Request, id: nat)
    requires IdsOk(s)
    ensures var o := Handle(s, now, req, true); Appeared(s.auctions, o.db.auctions, Entry(now, req, o.reply), id)
  {
    if req.Open? { OpenIsAtomic(s, now, req.uid, req.passwd, req.args, req.content); } else { HandleKeys(s, now, req); }
  }

  /** All but BID and CLS leave an auction as it was or as an update leaves it. */
  lemma QuietChange(s: Db, now: int, req: Request, id: nat)
    requires IdsOk(s) && id in s.auctions && !req.Bid? && !req.Close?
    ensures var d := Handle(s, now, req, true).db;
            id in d.auctions && d.auctions[id] in {s.auctions[id], Expire(s.auctions[id], now)}
  {
    match req
    case Open(u, p, a, c) => OpenIsAtomic(s, now, u, p, a, c);
    case Login(_, _) => UserWrites(s, now, req, true);
    case Logout(_, _) => UserWrites(s, now, req, true);
    case Unreg(_, _) => UserWrites(s, now, req, true);
    case _ => ReadersOnlyRefresh(s, now, req, true);
  }

  /** BID adds the bid it accepts, under its value, with its bidder and its instant. */
  lemma BidChange(s: Db, now: int, req: Request, id: nat)
    requires IdsOk(s) && UsersOk(s) && AuctionsOk(s.auctions) && AllStuck(s.auctions) && id in s.auctions && req.Bid?
    ensures var o, a := Handle(s, now, req, true), s.auctions[id];
            && id in o.db.auctions && a.start.Some?
            && if Bids(req, o.reply, id) then
                 && a == Expire(a, now)
                 && o.db.auctions[id] == a.(bids := a.bids[req.value := BidFile(req.uid, now, now - a.start.value.time)])
               else o.db.auctions[id] in {a, Expire(a, now)}
  {
    assert AuctionOk(s.auctions[id]);
    BidEffect(s, now, req.uid, req.passwd, req.aid, req.value);
  }

  /** CLS writes the END of the auction it closes, with its instant. */
  lemma CloseChange(s: Db, now: int, req: Request, id: nat)
    requires IdsOk(s) && UsersOk(s) && AuctionsOk(s.auctions) && id in s.auctions && req.Close?
    ensures var o, a := Handle(s, now, req, true), s.auctions[id];
            && id in o.db.auctions && a.start.Some?
            && if Closes(req, o.reply, id) then
                 && Expire(a, now).end.None? && ReadBack(a.start.value)
                 && o.db.auctions[id] == a.(end := Some(EndFile(now, now - a.start.value.time)))
               else o.db.auctions[id] in {a, Expire(a, now)}
  {
    assert AuctionOk(s.auctions[id]);
    CloseEffect(s, now, req.uid, req.passwd, req.aid);
  }

  /** What an answered request makes of one auction: an accepted bid adds itself, an accepted close
      writes the END, nothing else does more than an update. */
  predicate Changed(a: Auction, b: Auction, e: Entry, id: nat)
  {
    && a.start.Some?
    && (Bids(e.req, e.reply, id) ==>
          && a == Expire(a, e.now)
          && b == a.(bids := a.bids[e.req.value := BidFile(e.req.uid, e.now, e.now - a.start.value.time)]))
    && (Closes(e.req, e.reply, id) ==>
          && Expire(a, e.now).end.None? && ReadBack(a.start.value)
          && b == a.(end := Some(EndFile(e.now, e.now - a.start.value.time))))
    && (!Bids(e.req, e.reply, id) && !Closes(e.req, e.reply, id) ==> b in {a, Expire(a, e.now)})
  }

  lemma AuctionChange(s: Db, now: int, req: Request, id: nat)
    requires IdsOk(s) && UsersOk(s) && AuctionsOk(s.auctions) && AllStuck(s.auctions) && id in s.auctions
    ensures var o := Handle(s, now, req, true);
            id in o.db.auctions && Changed(s.auctions[id], o.db.auctions[id], Entry(now, req, o.reply), id)
  {
    assert AuctionOk(s.auctions[id]);
    if req.Bid? {
      BidChange(s, now, req, id);
    } else if req.Close? {
      CloseChange(s, now, req, id);
    } else {
      QuietChange(s, now, req, id);
    }
  }

  lemma CloseEffect(s: Db, now: int, uid: Uid, pw: Passwd, aid: string)
    requires IdsOk(s) && UsersOk(s) && AuctionsOk(s.auctions)
    ensures var o, id := Handle(s, now, Close(uid, pw, aid), true), Atoi(aid);
            && (o.reply == Msg("RCL OK\n") ==>
                  && id in s.auctions && Expire(s.auctions[id], now).end.None? && ReadBack(s.auctions[id].start.value)
                  && o.db.auctions == ExpireAll(s.auctions, now)[id :=
                       s.auctions[id].(end := Some(EndFile(now, now - s.auctions[id].start.value.time)))])
            && (o.reply != Msg("RCL OK\n") ==> o.db in {s, Update(s, now)})
  {
    CloseVerdict(s, now, uid, pw, aid);
    assert "RCL END\n"[4] == 'E' && "RCL NOK\n"[4] == 'N' && "RCL OK\n"[4] == 'O' && "RCL NLG\n"[4] == 'N';
    assert "RCL EAU\n"[4] == 'E' && "RCL EOW\n"[4] == 'E';
  }

  /* ---------- auctions: whole runs ---------- */

  predicate OpenedBy(log: seq<Entry>, k: nat, j: nat, id: nat)
    requires j <= |log|
  {
    k < j && Opens(log[k].req, log[k].reply, id)
  }

  /** Before point `j` an open was answered with the number `id`. */
  ghost predicate OnOffer(log: seq<Entry>, j: nat, id: nat)
    requires j <= |log|
  {
    exists k: nat :: OpenedBy(log, k, j, id)
  }

  /** The entry that opened `id`. */
  ghost function Opening(log: seq<Entry>, j: nat, id: nat): (k: nat)
    requires j <= |log| && OnOffer(log, j, id)
    ensures OpenedBy(log, k, j, id)
  {
    var k: nat :| OpenedBy(log, k, j, id); k
  }

  /** What was asked for then. */
  ghost function Offered(log: seq<Entry>, j: nat, id: nat): Start
    requires j <= |log| && OnOffer(log, j, id)
  {
    AskedFor(log[Opening(log, j, id)])
  }

  predicate BidBy(log: seq<Entry>, k: nat, j: nat, id: nat, v: nat)
    requires j <= |log|
  {
    k < j && Bids(log[k].req, log[k].reply, id) && log[k].req.value == v
  }

  /** Before point `j` a bid of `v` on `id` was accepted. */
  ghost predicate BidMade(log: seq<Entry>, j: nat, id: nat, v: nat)
    requires j <= |log|
  {
    exists k: nat :: BidBy(log, k, j, id, v)
  }

  predicate ClosedBy(log: seq<Entry>, k: nat, j: nat, id: nat)
    requires j <= |log|
  {
    k < j && Closes(log[k].req, log[k].reply, id)
  }

  /** Before point `j` its owner has closed `id`. */
  ghost predicate Closed(log: seq<Entry>, j: nat, id: nat)
    requires j <= |log|
  {
    exists k: nat :: ClosedBy(log, k, j, id)
  }

  lemma {:induction false} OfferStep(log: seq<Entry>, j: nat, id: nat)
    requires j < |log|
    ensures OnOffer(log, j + 1, id) <==> OnOffer(log, j, id) || Opens(log[j].req, log[j].reply, id)
  {
    if OnOffer(log, j, id) {
      var k: nat :| OpenedBy(log, k, j, id);
      assert OpenedBy(log, k, j + 1, id);
    }
    if Opens(log[j].req, log[j].reply, id) { assert OpenedBy(log, j, j + 1, id); }
    if OnOffer(log, j + 1, id) && !Opens(log[j].req, log[j].reply, id) {
      var k: nat :| OpenedBy(log, k, j + 1, id);
      assert OpenedBy(log, k, j, id);
    }
  }

  lemma {:induction false} BidStep(log: seq<Entry>, j: nat, id: nat, v: nat)
    requires j < |log|
    ensures BidMade(log, j + 1, id, v) <==>
              BidMade(log, j, id, v) || (Bids(log[j].req, log[j].reply, id) && log[j].req.value == v)
  {
    if BidMade(log, j, id, v) {
      var k: nat :| BidBy(log, k, j, id, v);
      assert BidBy(log, k, j + 1, id, v);
    }
    if Bids(log[j].req, log[j].reply, id) && log[j].req.value == v { assert BidBy(log, j, j + 1, id, v); }
    if BidMade(log, j + 1, id, v) && !(Bids(log[j].req, log[j].reply, id) && log[j].req.value == v) {
      var k: nat :| BidBy(log, k, j + 1, id, v);
      assert BidBy(log, k, j, id, v);
    }
  }

  lemma {:induction false} ClosedStep(log: seq<Entry>, j: nat, id: nat)
    requires j < |log|
    ensures Closed(log, j + 1, id) <==> Closed(log, j, id) || Closes(log[j].req, log[j].reply, id)
  {
    if Closed(log, j, id) {
      var k: nat :| ClosedBy(log, k, j, id);
      assert ClosedBy(log, k, j + 1, id);
    }
    if Closes(log[j].req, log[j].reply, id) { assert ClosedBy(log, j, j + 1, id); }
    if Closed(log, j + 1, id) && !Closes(log[j].req, log[j].reply, id) {
      var k: nat :| ClosedBy(log, k, j + 1, id);
      assert ClosedBy(log, k, j, id);
    }
  }

  lemma {:induction false} EventFacts(evs: seq<Event>, j: nat)
    requires ClockOk(evs) && j <= |evs|
    ensures var s := After(evs[..j]);
            IdsOk(s) && UsersOk(s) && AuctionsOk(s.auctions) && AllStuck(s.auctions) && HostedExact(s)
  {
    ClockPrefix(evs, j);
    RunFacts(evs[..j]);
    UnsoundStaysOpen(evs[..j]);
  }

  lemma {:induction false} Appears(evs: seq<Event>, j: nat, id: nat)
    requires ClockOk(evs) && j < |evs|
    ensures Appeared(After(evs[..j]).auctions, After(evs[..j + 1]).auctions, Log(evs)[j], id)
  {
    EventFacts(evs, j);
    OneMore(evs, j);
    AuctionAppears(After(evs[..j]), evs[j].now, evs[j].req, id);
  }

  lemma {:induction false} Changes(evs: seq<Event>, j: nat, id: nat)
    requires ClockOk(evs) && j < |evs| && id in After(evs[..j]).auctions
    ensures id in After(evs[..j + 1]).auctions
    ensures Changed(After(evs[..j]).auctions[id], After(evs[..j + 1]).auctions[id], Log(evs)[j], id)
  {
    EventFacts(evs, j);
    OneMore(evs, j);
    AuctionChange(After(evs[..j]), evs[j].now, evs[j].req, id);
  }

  /** Which auctions there are, over every run: exactly those an open was answered with. */
  lemma {:induction false} OffersAreHistory(evs: seq<Event>, j: nat, id: nat)
    requires ClockOk(evs) && j <= |evs|
    ensures id in After(evs[..j]).auctions <==> OnOffer(Log(evs), j, id)
  {
    if j > 0 {
      OffersAreHistory(evs, j - 1, id);
      Appears(evs, j - 1, id);
      OfferStep(Log(evs), j - 1, id);
    } else {
      AtFirst(evs, "", "");
    }
  }

  /** And START and asset are those of that open. */
  lemma {:induction false} StartIsHistory(evs: seq<Event>, j: nat, id: nat)
    requires ClockOk(evs) && j <= |evs| && OnOffer(Log(evs), j, id)
    ensures id in After(evs[..j]).auctions && After(evs[..j]).auctions[id].start == Some(Offered(Log(evs), j, id))
    ensures var req := Log(evs)[Opening(Log(evs), j, id)].req;
            req.content.Some? && After(evs[..j]).auctions[id].asset == map[req.args.fname := req.content.value]
  {
    var k := Opening(Log(evs), j, id);
    Appears(evs, k, id);
    RunMovesForward(evs, k + 1, j);
  }

  lemma WrittenToOffers(s: Db, now: int, req: Request, id: nat)
    requires IdsOk(s) && UsersOk(s) && AuctionsOk(s.auctions) && AllStuck(s.auctions)
    requires Bids(req, Handle(s, now, req, true).reply, id) || Closes(req, Handle(s, now, req, true).reply, id)
    ensures id in s.auctions
  {
    if req.Bid? {
      BidEffect(s, now, req.uid, req.passwd, req.aid, req.value);
    } else {
      CloseEffect(s, now, req.uid, req.passwd, req.aid);
    }
  }

  /** Only what is on offer is bid on or closed. */
  lemma {:induction false} TradedWasThere(evs: seq<Event>, j: nat, id: nat)
    requires ClockOk(evs) && j < |evs|
    requires Bids(Log(evs)[j].req, Log(evs)[j].reply, id) || Closes(Log(evs)[j].req, Log(evs)[j].reply, id)
    ensures id in After(evs[..j]).auctions
  {
    EventFacts(evs, j);
    OneMore(evs, j);
    WrittenToOffers(After(evs[..j]), evs[j].now, evs[j].req, id);
  }

  ghost predicate BidIn(m: map<nat, Auction>, id: nat, v: nat) { id in m && v in m[id].bids }

  lemma {:induction false} BidInStep(evs: seq<Event>, j: nat, id: nat, v: nat)
    requires ClockOk(evs) && j < |evs|
    ensures BidIn(After(evs[..j + 1]).auctions, id, v) <==>
              || BidIn(After(evs[..j]).auctions, id, v)
              || (Bids(Log(evs)[j].req, Log(evs)[j].reply, id) && Log(evs)[j].req.value == v)
  {
    Appears(evs, j, id);
    if id in After(evs[..j]).auctions {
      Changes(evs, j, id);
    } else if Bids(Log(evs)[j].req, Log(evs)[j].reply, id) {
      TradedWasThere(evs, j, id);
    }
  }

  /** Which bids are recorded, over every run: exactly the accepted ones. */
  lemma {:induction false} BidsAreHistory(evs: seq<Event>, j: nat, id: nat, v: nat)
    requires ClockOk(evs) && j <= |evs|
    ensures BidIn(After(evs[..j]).auctions, id, v) <==> BidMade(Log(evs), j, id, v)
  {
    if j > 0 {
      BidsAreHistory(evs, j - 1, id, v);
      BidInStep(evs, j - 1, id, v);
      BidStep(Log(evs), j - 1, id, v);
    } else {
      AtFirst(evs, "", "");
    }
  }

  /** Each under its value, with its bidder, its instant and the seconds since the opening. */
  lemma {:induction false} BidFileIsHistory(evs: seq<Event>, k: nat, j: nat, id: nat, v: nat)
    requires ClockOk(evs) && j <= |evs| && BidBy(Log(evs), k, j, id, v)
    ensures OnOffer(Log(evs), j, id) && BidIn(After(evs[..j]).auctions, id, v)
    ensures var e := Log(evs)[k];
            After(evs[..j]).auctions[id].bids[v] == BidFile(e.req.uid, e.now, e.now - Offered(Log(evs), j, id).time)
  {
    TradedWasThere(evs, k, id);
    Changes(evs, k, id);
    RunMovesForward(evs, k, j);
    RunMovesForward(evs, k + 1, j);
    OffersAreHistory(evs, j, id);
    StartIsHistory(evs, j, id);
  }

  /* ---------- ENDs ---------- */

  /** The END of `id` at point `j`, the clock standing at `now`: that of its owner's close if there
      was one, otherwise none or that of the deadline, and the latter only when time is up. */
  ghost predicate EndTold(log: seq<Entry>, j: nat, id: nat, st: Start, end: Option<EndFile>, now: int)
    requires j <= |log|
  {
    if Closed(log, j, id) then
      end.Some? && forall k: nat :: ClosedBy(log, k, j, id) ==> end == Some(EndFile(log[k].now, log[k].now - st.time))
    else
      end == None || (!TimeLeft(st, now) && end == Some(EndFile(Int32(st.time) + st.ta, st.ta)))
  }

  lemma {:induction false} EndStep(log: seq<Entry>, j: nat, id: nat, a: Auction, b: Auction, before: int)
    requires j < |log| && Changed(a, b, log[j], id) && EndTold(log, j, id, a.start.value, a.end, before)
    requires before <= log[j].now && 0 < a.start.value.time <= before && a.start.value.ta <= 99999
    ensures EndTold(log, j + 1, id, a.start.value, b.end, log[j].now)
  {
    var st, now := a.start.value, log[j].now;
    ClosedStep(log, j, id);
    EndAfterUpdate(a, now);
    forall k: nat | ClosedBy(log, k, j + 1, id) ensures b.end == Some(EndFile(log[k].now, log[k].now - st.time)) {
      if k < j { assert ClosedBy(log, k, j, id); }
    }
  }

  ghost predicate EndIs(evs: seq<Event>, j: nat, id: nat)
    requires j <= |evs|
  {
    id in After(evs[..j]).auctions && After(evs[..j]).auctions[id].start.Some? ==>
      EndTold(Log(evs), j, id, After(evs[..j]).auctions[id].start.value, After(evs[..j]).auctions[id].end, Clock(evs[..j]))
  }

  lemma {:induction false} NotClosedBefore(evs: seq<Event>, j: nat, id: nat)
    requires ClockOk(evs) && j <= |evs| && id !in After(evs[..j]).auctions
    ensures !Closed(Log(evs), j, id)
  {
    if Closed(Log(evs), j, id) {
      var k: nat :| ClosedBy(Log(evs), k, j, id);
      TradedWasThere(evs, k, id);
      RunMovesForward(evs, k, j);
    }
  }

  lemma {:induction false} NewIsOpen(evs: seq<Event>, j: nat, id: nat)
    requires ClockOk(evs) && j < |evs| && id !in After(evs[..j]).auctions
    ensures EndIs(evs, j + 1, id)
  {
    Appears(evs, j, id);
    NotClosedBefore(evs, j, id);
    ClosedStep(Log(evs), j, id);
    if Closes(Log(evs)[j].req, Log(evs)[j].reply, id) { TradedWasThere(evs, j, id); }
  }

  lemma {:induction false} OldEndStep(evs: seq<Event>, j: nat, id: nat)
    requires ClockOk(evs) && j < |evs| && id in After(evs[..j]).auctions && EndIs(evs, j, id)
    ensures EndIs(evs, j + 1, id)
  {
    var a := After(evs[..j]).auctions[id];
    ClockPrefix(evs, j);
    RunKeepsShut(evs[..j]);
    assert ShutAtOnce(a, Clock(evs[..j]));
    Changes(evs, j, id);
    LogAt(evs, j);
    assert Clock(evs[..j + 1]) == evs[j].now && Clock(evs[..j]) <= evs[j].now;
    RunMovesForward(evs, j, j + 1);
    EndStep(Log(evs), j, id, a, After(evs[..j + 1]).auctions[id], Clock(evs[..j]));
  }

  lemma {:induction false} EndsAreHistory(evs: seq<Event>, j: nat, id: nat)
    requires ClockOk(evs) && j <= |evs|
    ensures EndIs(evs, j, id)
  {
    if j > 0 {
      EndsAreHistory(evs, j - 1, id);
      if id in After(evs[..j - 1]).auctions { OldEndStep(evs, j - 1, id); } else { NewIsOpen(evs, j - 1, id); }
    } else {
      AtFirst(evs, "", "");
    }
  }
}
