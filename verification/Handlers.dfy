/** The request handlers of server/udp.c and server/tcp.c as functions on the database, one
    clock reading each: what a handler that runs whole does. With `lazy` false the calls of
    `update_database` are struck out; the eager machine of LazyExpiry is built from those. */
module Handlers {
  import opened Text
  import opened Store

  /** The five tokens the OPA reader hands to `handle_open`. */
  datatype OpenArgs = OpenArgs(name: string, sv: string, ta: string, fname: string, fsize: string)

  /** A request as its handler holds it once the message is split into fields. `content` is
      what the asset transfer delivers, if it succeeds. */
  datatype Request =
    | Login(uid: string, passwd: string)
    | Logout(uid: string, passwd: string)
    | Unreg(uid: string, passwd: string)
    | List
    | MyAuctions(uid: string)
    | MyBids(uid: string)
    | ShowRecord(aid: string)
    | Open(uid: string, passwd: string, args: OpenArgs, content: Option<string>)
    | Close(uid: string, passwd: string, aid: string)
    | Bid(uid: string, passwd: string, aid: string, value: nat)
    | ShowAsset(aid: string)

  datatype Reply =
    | BadArgs // the handler returned its error code
    | Msg(text: string)
    | Listing(cmd: string, entries: seq<(nat, bool)>)
    | Record(start: Start, bids: seq<(nat, BidFile)>, end: Option<EndFile>)
    | Opened(aid: nat)
    | Asset(fname: string, content: string)
    | Crash // NULL handed to a validator: the process ends, the files stay as they are

  datatype Outcome = Outcome(db: Db, reply: Reply)

  function Refresh(db: Db, now: int, lazy: bool): Db { if lazy then Update(db, now) else db }

  /* ---------- UDP ---------- */

  function HandleLogin(db: Db, uid: string, passwd: string): Outcome
  {
    if !ValidUid(uid) || !ValidPasswd(passwd) then Outcome(db, BadArgs)
    else if !ExistsUser(db, uid) then Outcome(Register(db, uid, passwd), Msg("RLI REG\n"))
    else if !Authentic(db, uid, passwd) then Outcome(db, Msg("RLI NOK\n"))
    else
      var w := LogIn(db, uid);
      Outcome(w.db, if w.ok then Msg("RLI OK\n") else BadArgs)
  }

  function HandleLogout(db: Db, uid: string, passwd: string): Outcome
  {
    if !ValidUid(uid) || !ValidPasswd(passwd) then Outcome(db, BadArgs)
    else if !ExistsUser(db, uid) then Outcome(db, Msg("RLO UNR\n"))
    else if !LoggedIn(db, uid) || !Authentic(db, uid, passwd) then Outcome(db, Msg("RLO NOK\n"))
    else
      var w := LogOut(db, uid);
      Outcome(w.db, if w.ok then Msg("RLO OK\n") else BadArgs)
  }

  function HandleUnregister(db: Db, uid: string, passwd: string): Outcome
  {
    if !ValidUid(uid) || !ValidPasswd(passwd) then Outcome(db, BadArgs)
    else if !ExistsUser(db, uid) then Outcome(db, Msg("RUR UNR\n"))
    else if !LoggedIn(db, uid) || !Authentic(db, uid, passwd) then Outcome(db, Msg("RUR NOK\n"))
    else
      var w := Unregister(db, uid);
      Outcome(w.db, if w.ok then Msg("RUR OK\n") else BadArgs)
  }

  ghost function HandleList(db: Db, now: int, lazy: bool): Outcome
  {
    var d := Refresh(db, now, lazy);
    var entries := Statuses(d, d.auctions.Keys);
    Outcome(d, if entries == [] then Msg("RLS NOK\n") else Listing("RLS", entries))
  }

  ghost function HandleMyAuctions(db: Db, now: int, uid: string, lazy: bool): Outcome
  {
    if !ValidUid(uid) then Outcome(db, BadArgs)
    else if !ExistsUser(db, uid) then Outcome(db, Msg("RMA NOK\n"))
    else if !LoggedIn(db, uid) then Outcome(db, Msg("RMA NLG\n"))
    else
      var d := Refresh(db, now, lazy);
      if uid !in d.hosted then Outcome(d, BadArgs)
      else
        var entries := Statuses(d, d.hosted[uid]);
        Outcome(d, if entries == [] then Msg("RMA NOK\n") else Listing("RMA", entries))
  }

  ghost function HandleMyBids(db: Db, now: int, uid: string, lazy: bool): Outcome
  {
    if !ValidUid(uid) then Outcome(db, BadArgs)
    else if !ExistsUser(db, uid) then Outcome(db, Msg("RMB NOK\n"))
    else if !LoggedIn(db, uid) then Outcome(db, Msg("RMB NLG\n"))
    else
      var d := Refresh(db, now, lazy);
      if uid !in d.bidded then Outcome(d, BadArgs)
      else
        var entries := Statuses(d, d.bidded[uid]);
        Outcome(d, if entries == [] then Msg("RMB NOK\n") else Listing("RMB", entries))
  }

  ghost function HandleShowRecord(db: Db, now: int, aid: string, lazy: bool): Outcome
  {
    if !ValidAid(aid) then Outcome(db, BadArgs)
    else if !ExistsAuction(db, Atoi(aid)) then Outcome(db, Msg("RRC NOK\n"))
    else
      var d := Refresh(db, now, lazy);
      match Info(d, Atoi(aid))
      case None => Outcome(d, BadArgs)
      case Some(st) =>
        var a := d.auctions[Atoi(aid)];
        // otherwise a token is missing or fails its check
        Outcome(d, if !Sound(st) then BadArgs else Record(st, ShownBids(a), a.end))
  }

  /* ---------- TCP ---------- */

  predicate ArgsValid(a: OpenArgs)
  {
    && ValidName(a.name) && ValidStartValue(a.sv) && ValidTimeActive(a.ta)
    && ValidFname(a.fname) && ValidFsize(a.fsize)
  }

  function OpenStart(uid: string, a: OpenArgs, now: int): Start
  {
    Start(uid, a.name, a.fname, Atoi(a.sv), Atoi(a.ta), now)
  }

  function HandleOpen(db: Db, now: int, uid: string, passwd: string, args: OpenArgs,
                      content: Option<string>): Outcome
  {
    if !ValidUid(uid) || !ValidPasswd(passwd) || !ArgsValid(args) then Outcome(db, BadArgs)
    else if Atoi(args.sv) == 999999 then Outcome(db, BadArgs)
    else if !(0 < Atoi(args.fsize) <= MAX_FSIZE) then Outcome(db, BadArgs)
    else if !ExistsUser(db, uid) || !LoggedIn(db, uid) then Outcome(db, Msg("ROA NLG\n"))
    else if !Authentic(db, uid, passwd) then Outcome(db, Msg("ROA NLG\n"))
    else
      match Create(db, OpenStart(uid, args, now), content)
      case (d, None) => Outcome(d, Msg("ROA NOK\n"))
      case (d, Some(id)) => Outcome(d, Opened(id))
  }

  function HandleClose(db: Db, now: int, uid: string, passwd: string, aid: string, lazy: bool): Outcome
  {
    if !ValidUid(uid) || !ValidPasswd(passwd) || !ValidAid(aid) then Outcome(db, BadArgs)
    else
      var d, id := Refresh(db, now, lazy), Atoi(aid);
      if !ExistsUser(d, uid) || !LoggedIn(d, uid) || !Authentic(d, uid, passwd)
      then Outcome(d, Msg("RCL NLG\n"))
      else if !ExistsAuction(d, id) then Outcome(d, Msg("RCL EAU\n"))
      else if Info(d, id).None? then Outcome(d, Msg("RCL NOK\n"))
      else if Info(d, id).value.owner != uid then Outcome(d, Msg("RCL EOW\n"))
      else if Finished(d, id) then Outcome(d, Msg("RCL END\n"))
      else
        var w := CloseAuction(d, id, now);
        Outcome(w.db, Msg(if w.ok then "RCL OK\n" else "RCL NOK\n"))
  }

  /** The last steps of `handle_bid`, from the check of the start value on. */
  ghost function Offer(d: Db, now: int, id: nat, uid: string, value: nat, st: Start): Outcome
  {
    if Asked(st).None? then Outcome(d, Crash)
    else
      match LastBid(d, id)
      case None => Outcome(d, BadArgs)
      case Some(last) =>
        if value <= (if last == 0 then Asked(st).value else last) then Outcome(d, Msg("RBD REF\n"))
        else
          var w := RecordBid(d, id, uid, value, now);
          Outcome(w.db, if w.ok then Msg("RBD ACC\n") else BadArgs)
  }

  ghost function HandleBid(db: Db, now: int, uid: string, passwd: string, aid: string, value: nat,
                           lazy: bool): Outcome
  {
    if !ValidUid(uid) || !ValidPasswd(passwd) || !ValidAid(aid) then Outcome(db, BadArgs)
    else
      var d, id := Refresh(db, now, lazy), Atoi(aid);
      if !ExistsUser(d, uid) then Outcome(d, Msg("RBD NOK\n"))
      else if !LoggedIn(d, uid) || !Authentic(d, uid, passwd) then Outcome(d, Msg("RBD NLG\n"))
      else if !ExistsAuction(d, id) then Outcome(d, Msg("RBD ERR\n"))
      else if Info(d, id).None? then Outcome(d, Msg("RBD NOK\n"))
      else if Info(d, id).value.owner == uid then Outcome(d, Msg("RBD ILG\n"))
      else if Finished(d, id) then Outcome(d, Msg("RBD NOK\n"))
      else Offer(d, now, id, uid, value, Info(d, id).value)
  }

  function HandleShowAsset(db: Db, aid: string): Outcome
  {
    if !ValidAid(aid) then Outcome(db, BadArgs)
    else if !ExistsAuction(db, Atoi(aid)) || Info(db, Atoi(aid)).None? then Outcome(db, Msg("RSA NOK\n"))
    else
      var a := db.auctions[Atoi(aid)];
      var f := Fetched(a.start.value);
      if f.None? || f.value !in a.asset then Outcome(db, Msg("RSA NOK\n"))
      else Outcome(db, Asset(f.value, a.asset[f.value]))
  }

  ghost function Handle(db: Db, now: int, req: Request, lazy: bool): Outcome
  {
    match req
    case Login(uid, pw) => HandleLogin(db, uid, pw)
    case Logout(uid, pw) => HandleLogout(db, uid, pw)
    case Unreg(uid, pw) => HandleUnregister(db, uid, pw)
    case List => HandleList(db, now, lazy)
    case MyAuctions(uid) => HandleMyAuctions(db, now, uid, lazy)
    case MyBids(uid) => HandleMyBids(db, now, uid, lazy)
    case ShowRecord(aid) => HandleShowRecord(db, now, aid, lazy)
    case Open(uid, pw, args, content) => HandleOpen(db, now, uid, pw, args, content)
    case Close(uid, pw, aid) => HandleClose(db, now, uid, pw, aid, lazy)
    case Bid(uid, pw, aid, value) => HandleBid(db, now, uid, pw, aid, value, lazy)
    case ShowAsset(aid) => HandleShowAsset(db, aid)
  }

  /** The reader of bid values delivers at most six digits, that of OPA arguments no file name
      with a space or a NUL, the transfer a file of the size announced. */
  predicate RequestOk(req: Request)
  {
    && (req.Bid? ==> req.value <= 999999)
    && (req.Open? ==>
          && Free(req.args.fname, ' ') && Free(req.args.fname, '\0')
          && (req.content.Some? ==> |req.content.value| == Atoi(req.args.fsize)))
  }

  lemma ArgsInRange(a: OpenArgs)
    requires ArgsValid(a)
    ensures Atoi(a.sv) <= 999999 && Atoi(a.ta) <= 99999
  {
    Powers();
    Below(a.sv, START_VALUE_LEN);
    Below(a.ta, TIME_ACTIVE_LEN);
  }

  lemma Below(s: string, w: nat)
    requires AllDigits(s) && |s| <= w
    ensures Atoi(s) < Pow10(w)
  {
    DigitPrefixOf(s, "");
    assert s + "" == s && s[..|s|] == s;
    NumBelow(s);
    PowGrows(|s|, w);
  }

  lemma {:induction false} PowGrows(v: nat, w: nat)
    requires v <= w
    ensures Pow10(v) <= Pow10(w)
  {
    if v < w { PowGrows(v, w - 1); }
  }

  /** Every handler keeps the database invariant: ids 1..count, both indexes, users, bids. */
  lemma HandleCore(db: Db, now: int, req: Request, lazy: bool)
    requires Core(db) && 0 < now && RequestOk(req)
    ensures Core(Handle(db, now, req, lazy).db)
  {
    match req
    case Login(uid, pw) => UserCore(db, now, req, lazy);
    case Logout(uid, pw) => UserCore(db, now, req, lazy);
    case Unreg(uid, pw) => UserCore(db, now, req, lazy);
    case Open(uid, pw, args, content) => OpenCore(db, now, uid, pw, args, content);
    case Close(uid, pw, aid) => CloserCore(db, now, uid, pw, aid, lazy);
    case Bid(uid, pw, aid, value) => BidCore(db, now, uid, pw, aid, value, lazy);
    case _ => ReadCore(db, now, req, lazy);
  }

  /** A user handler does nothing, or one user operation it has checked. */
  lemma UserWrites(db: Db, now: int, req: Request, lazy: bool)
    requires req.Login? || req.Logout? || req.Unreg?
    ensures var d, u := Handle(db, now, req, lazy).db, req.uid;
            || d in {db, Register(db, u, req.passwd), LogOut(db, u).db, Unregister(db, u).db}
            || (ExistsUser(db, u) && d == LogIn(db, u).db)
  {
  }

  lemma UserCore(db: Db, now: int, req: Request, lazy: bool)
    requires Core(db) && (req.Login? || req.Logout? || req.Unreg?)
    ensures Core(Handle(db, now, req, lazy).db)
  {
    UserWrites(db, now, req, lazy);
    RegisterCore(db, req.uid, req.passwd);
    LoginsCore(db, req.uid);
  }

  /** The reading handlers leave the database as it was or as `update_database` left it. */
  lemma ReadersOnlyRefresh(db: Db, now: int, req: Request, lazy: bool)
    requires req.List? || req.MyAuctions? || req.MyBids? || req.ShowRecord? || req.ShowAsset?
    ensures Handle(db, now, req, lazy).db in {db, Refresh(db, now, lazy)}
  {
  }

  lemma ReadCore(db: Db, now: int, req: Request, lazy: bool)
    requires Core(db)
    requires req.List? || req.MyAuctions? || req.MyBids? || req.ShowRecord? || req.ShowAsset?
    ensures Core(Handle(db, now, req, lazy).db)
  {
    ReadersOnlyRefresh(db, now, req, lazy);
    UpdateCore(db, now);
  }

  /** What a close request can do to the database. */
  lemma CloseWrites(db: Db, now: int, uid: string, pw: string, aid: string, lazy: bool)
    ensures var d, id := Refresh(db, now, lazy), Atoi(aid);
            var r := HandleClose(db, now, uid, pw, aid, lazy);
            || r.db in {db, d}
            || (&& Info(d, id).Some? && Info(d, id).value.owner == uid && !Finished(d, id)
                && Sound(Info(d, id).value) && r.db == CloseAuction(d, id, now).db
                && var a := d.auctions[id];
                   r.db == d.(auctions := d.auctions[id := a.(end := Some(EndFile(now, now - a.start.value.time)))]))
  {
  }

  lemma CloserCore(db: Db, now: int, uid: string, pw: string, aid: string, lazy: bool)
    requires Core(db)
    ensures Core(HandleClose(db, now, uid, pw, aid, lazy).db)
  {
    var d, id := Refresh(db, now, lazy), Atoi(aid);
    assert Core(d) by { UpdateCore(db, now); }
    CloseWrites(db, now, uid, pw, aid, lazy);
    var r := HandleClose(db, now, uid, pw, aid, lazy);
    if r.db != db && r.db != d { CloseCore(d, id, now); }
  }

  /** What an open request can do to the database. */
  lemma OpenWrites(db: Db, now: int, uid: string, pw: string, args: OpenArgs, content: Option<string>)
    ensures var r := HandleOpen(db, now, uid, pw, args, content);
            || r.db == db
            || (&& r.db == Create(db, OpenStart(uid, args, now), content).0
                && ValidUid(uid) && ValidName(args.name) && ValidFname(args.fname)
                && Atoi(args.sv) < 999999 && Atoi(args.ta) <= 99999)
  {
    if ArgsValid(args) { ArgsInRange(args); }
  }

  /** An open happens entirely or not at all: refused, cut off or badly transferred, it leaves
      the database exactly as it was; accepted, it takes the next number, stores the file it
      was sent, and adds nothing but the auction and its place in the owner's index. */
  lemma OpenIsAtomic(db: Db, now: int, uid: Uid, passwd: Passwd, args: OpenArgs, content: Option<string>)
    ensures var o := HandleOpen(db, now, uid, passwd, args, content);
            && (!o.reply.Opened? ==> o.db == db)
            && (content.None? ==> o.db == db)
            && (o.reply.Opened? ==>
                  && content.Some? && Authentic(db, uid, passwd) && LoggedIn(db, uid)
                  && o.reply.aid == db.count + 1 == o.db.count <= 999 && uid in db.hosted
                  && o.db == db.(count := o.reply.aid,
                                 auctions := db.auctions[o.reply.aid := Auction(Some(OpenStart(uid, args, now)), map[], None,
                                                                                map[args.fname := content.value])],
                                 hosted := db.hosted[uid := db.hosted[uid] + {o.reply.aid}]))
  {
  }

  lemma OpenCore(db: Db, now: int, uid: string, pw: string, args: OpenArgs, content: Option<string>)
    requires Core(db) && 0 < now && RequestOk(Open(uid, pw, args, content))
    ensures Core(HandleOpen(db, now, uid, pw, args, content).db)
  {
    OpenWrites(db, now, uid, pw, args, content);
    if HandleOpen(db, now, uid, pw, args, content).db != db {
      CreateCore(db, OpenStart(uid, args, now), content);
    }
  }

  lemma OfferCore(d: Db, now: int, id: nat, uid: string, value: nat)
    requires Core(d) && id in d.auctions && uid in d.bidded && value <= 999999
    requires AuctionOk(d.auctions[id]) && ValidUid(uid) && d.auctions[id].start.value.owner != uid
    ensures Core(Offer(d, now, id, uid, value, d.auctions[id].start.value).db)
  {
    if !Sound(d.auctions[id].start.value) {
      assert RecordBid(d, id, uid, value, now).db == d;
    } else if value > d.auctions[id].start.value.sv {
      RecordCore(d, id, uid, value, now);
    } else {
      var last := LastBid(d, id).value;
      assert last == 0 || last in d.auctions[id].bids.Keys;
    }
  }

  /** What a bid request can do to the database. */
  lemma BidWrites(db: Db, now: int, uid: string, pw: string, aid: string, value: nat, lazy: bool)
    ensures var d, id := Refresh(db, now, lazy), Atoi(aid);
            var r := HandleBid(db, now, uid, pw, aid, value, lazy);
            || r.db in {db, d}
            || (&& ValidUid(uid) && ExistsUser(d, uid) && ExistsAuction(d, id) && Info(d, id).Some?
                && Info(d, id).value.owner != uid && !Finished(d, id)
                && r == Offer(d, now, id, uid, value, Info(d, id).value))
  {
  }

  lemma CoreFacts(d: Db, uid: Uid, id: nat)
    requires Core(d)
    ensures ExistsUser(d, uid) ==> uid in d.bidded && uid in d.hosted
    ensures ExistsAuction(d, id) ==> id in d.auctions && AuctionOk(d.auctions[id])
  {
  }

  lemma BidCore(db: Db, now: int, uid: string, pw: string, aid: string, value: nat, lazy: bool)
    requires Core(db) && value <= 999999
    ensures Core(HandleBid(db, now, uid, pw, aid, value, lazy).db)
  {
    var d, id := Refresh(db, now, lazy), Atoi(aid);
    assert Core(d) by { UpdateCore(db, now); }
    BidWrites(db, now, uid, pw, aid, value, lazy);
    var r := HandleBid(db, now, uid, pw, aid, value, lazy);
    if r.db != db && r.db != d {
      CoreFacts(d, uid, id);
      OfferCore(d, now, id, uid, value);
    }
  }
}
