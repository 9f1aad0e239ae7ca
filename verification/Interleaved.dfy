/** The server as it runs: any number of TCP workers and the one UDP thread, every step of a
    thread being one critical section under `db_mutex` and the local work behind it. Between
    two steps of a handler any other thread may step and time may pass. */
module Interleaved {
  import opened Text
  import opened Names
  import opened Store
  import opened Handlers

  /* ---------- threads ---------- */

  /** Which critical section of OPA, CLS, BID or SAS comes next; `Sending` reads the asset file
      without the mutex. */
  datatype Stage =
    Updating | FindUser | FindLogin | CheckPasswd | FindAuction | ReadStart | FindEnd | ReadLast | Writing | Sending

  /** An idle worker's `said` is its last reply. `info` is the START a worker has read; `seen` is
      a history variable, the values recorded when it ran `get_last_bid`. */
  datatype Pc = Idle(said: Option<Reply>) | Job(req: Request, stage: Stage, info: Option<Start>, seen: set<nat>)

  datatype UdpStage = Exists | Logged | Authenticate | Find | Refreshing | Heading | Reporting | Change | Registering

  datatype UdpPc = Waiting(said: Option<Reply>) | Serving(req: Request, stage: UdpStage, info: Option<Start>)

  datatype Sys = Sys(db: Db, clock: int, workers: map<nat, Pc>, udp: UdpPc)

  datatype Label = Call(t: nat, req: Request) | Work(t: nat) | UdpCall(req: Request) | UdpWork | Tick(d: nat)

  /** What a TCP handler has checked before its first critical section. */
  predicate Admitted(req: Request)
  {
    && RequestOk(req)
    && match req
       case Open(uid, pw, a, _) =>
         && ValidUid(uid) && ValidPasswd(pw) && ArgsValid(a)
         && Atoi(a.sv) != 999999 && 0 < Atoi(a.fsize) <= MAX_FSIZE
       case Close(uid, pw, aid) => ValidUid(uid) && ValidPasswd(pw) && ValidAid(aid)
       case Bid(uid, pw, aid, _) => ValidUid(uid) && ValidPasswd(pw) && ValidAid(aid)
       case ShowAsset(aid) => ValidAid(aid)
       case _ => false
  }

  predicate UdpAdmitted(req: Request)
  {
    match req
    case Login(uid, pw) => ValidUid(uid) && ValidPasswd(pw)
    case Logout(uid, pw) => ValidUid(uid) && ValidPasswd(pw)
    case Unreg(uid, pw) => ValidUid(uid) && ValidPasswd(pw)
    case List => true
    case MyAuctions(uid) => ValidUid(uid)
    case MyBids(uid) => ValidUid(uid)
    case ShowRecord(aid) => ValidAid(aid)
    case _ => false
  }

  /** CLS and BID: what looks at an auction before it writes to it. */
  predicate Trades(req: Request) { req.Close? || req.Bid? }

  function Id(req: Request): nat
    requires Trades(req)
  {
    Atoi(req.aid)
  }

  function Says(text: string): Pc { Idle(Some(Msg(text))) }

  /** One critical section of a worker; `Idle` when the handler has replied. */
  ghost function WorkerStep(db: Db, now: int, p: Pc): (Db, Pc)
    requires p.Job? && Admitted(p.req)
  {
    if p.req.ShowAsset? then (db, AssetStep(db, p))
    else
      var uid, req := p.req.uid, p.req;
      match p.stage
      case Updating => (Update(db, now), p.(stage := FindUser))
      case FindUser =>
        (db, if ExistsUser(db, uid) then p.(stage := FindLogin)
             else Says(if req.Open? then "ROA NLG\n" else if req.Close? then "RCL NLG\n" else "RBD NOK\n"))
      case FindLogin => (db, if LoggedIn(db, uid) then p.(stage := CheckPasswd) else NotSigned(req))
      case CheckPasswd =>
        (db, if !Authentic(db, uid, req.passwd) then NotSigned(req)
             else p.(stage := if req.Open? then Writing else FindAuction))
      case Writing => var o := Write(db, now, req); (o.db, Idle(Some(o.reply)))
      case _ => (db, if req.Open? then Idle(None) else AuctionStep(db, p))
  }

  function NotSigned(req: Request): Pc
  {
    Says(if req.Open? then "ROA NLG\n" else if req.Close? then "RCL NLG\n" else "RBD NLG\n")
  }

  /** The section that writes. */
  function Write(db: Db, now: int, req: Request): Outcome
    requires Admitted(req) && !req.ShowAsset?
  {
    match req
    case Open(uid, _, args, content) =>
      (match Create(db, OpenStart(uid, args, now), content)
       case (d, None) => Outcome(d, Msg("ROA NOK\n"))
       case (d, Some(id)) => Outcome(d, Opened(id)))
    case Close(_, _, _) =>
      var w := CloseAuction(db, Id(req), now);
      Outcome(w.db, Msg(if w.ok then "RCL OK\n" else "RCL NOK\n"))
    case Bid(uid, _, _, value) =>
      var w := RecordBid(db, Id(req), uid, value, now);
      Outcome(w.db, if w.ok then Msg("RBD ACC\n") else BadArgs)
  }

  /** The sections of CLS and BID that read the auction. */
  ghost function AuctionStep(db: Db, p: Pc): Pc
    requires p.Job? && Trades(p.req)
  {
    var id, close := Id(p.req), p.req.Close?;
    match p.stage
    case FindAuction =>
      if ExistsAuction(db, id) then p.(stage := ReadStart) else Says(if close then "RCL EAU\n" else "RBD ERR\n")
    case ReadStart =>
      if Info(db, id).None? then Says(if close then "RCL NOK\n" else "RBD NOK\n")
      else if (Info(db, id).value.owner == p.req.uid) != close then Says(if close then "RCL EOW\n" else "RBD ILG\n")
      else p.(stage := FindEnd, info := Info(db, id))
    case FindEnd =>
      if Finished(db, id) then Says(if close then "RCL END\n" else "RBD NOK\n")
      else if p.info.None? then Idle(None)
      else if close then p.(stage := Writing)
      else if Asked(p.info.value).None? then Idle(Some(Crash))
      else p.(stage := ReadLast)
    case _ => if close || p.info.None? || Asked(p.info.value).None? then Idle(None) else LastStep(db, p)
  }

  /** `get_last_bid` and the comparison behind it. */
  ghost function LastStep(db: Db, p: Pc): Pc
    requires p.Job? && p.req.Bid? && p.info.Some? && Asked(p.info.value).Some?
  {
    match LastBid(db, Id(p.req))
    case None => Idle(Some(BadArgs))
    case Some(last) =>
      if p.req.value <= (if last == 0 then Asked(p.info.value).value else last) then Says("RBD REF\n")
      else p.(stage := Writing, seen := db.auctions[Id(p.req)].bids.Keys)
  }

  function AssetStep(db: Db, p: Pc): Pc
    requires p.Job? && p.req.ShowAsset?
  {
    var id := Atoi(p.req.aid);
    match p.stage
    case FindAuction => if ExistsAuction(db, id) then p.(stage := ReadStart) else Says("RSA NOK\n")
    case ReadStart => if Info(db, id).None? then Says("RSA NOK\n") else p.(stage := Sending, info := Info(db, id))
    case _ =>
      if p.info.None? || id !in db.auctions then Idle(None)
      else
        var f := Fetched(p.info.value);
        if f.None? || f.value !in db.auctions[id].asset then Says("RSA NOK\n")
        else Idle(Some(Asset(f.value, db.auctions[id].asset[f.value])))
  }

  function Replies(text: string): UdpPc { Waiting(Some(Msg(text))) }

  /** One critical section of the UDP thread. */
  ghost function UdpStep(db: Db, now: int, p: UdpPc): (Db, UdpPc)
    requires p.Serving? && UdpAdmitted(p.req)
  {
    match p.stage
    case Refreshing => (Update(db, now), p.(stage := if p.req.ShowRecord? then Heading else Reporting))
    case Reporting => (db, Waiting(Some(Report(db, p.req, p.info))))
    case _ =>
      if p.req.List? then (db, Waiting(None))
      else if p.req.ShowRecord? then (db, RecordStep(db, p))
      else UserStep(db, p)
  }

  function RecordStep(db: Db, p: UdpPc): UdpPc
    requires p.Serving? && p.req.ShowRecord?
  {
    var id := Atoi(p.req.aid);
    match p.stage
    case Find => if ExistsAuction(db, id) then p.(stage := Refreshing) else Replies("RRC NOK\n")
    case _ =>
      if Info(db, id).None? || !Sound(Info(db, id).value) then Waiting(Some(BadArgs))
      else p.(stage := Reporting, info := Info(db, id))
  }

  /** The section that reads what a list or a record shows. */
  ghost function Report(db: Db, req: Request, info: Option<Start>): Reply
  {
    match req
    case List => Listed("RLS", "RLS NOK\n", Statuses(db, db.auctions.Keys))
    case MyAuctions(uid) =>
      if uid in db.hosted then Listed("RMA", "RMA NOK\n", Statuses(db, db.hosted[uid])) else BadArgs
    case MyBids(uid) =>
      if uid in db.bidded then Listed("RMB", "RMB NOK\n", Statuses(db, db.bidded[uid])) else BadArgs
    case ShowRecord(aid) =>
      if info.None? || Atoi(aid) !in db.auctions then BadArgs
      else Record(info.value, ShownBids(db.auctions[Atoi(aid)]), db.auctions[Atoi(aid)].end)
    case _ => BadArgs
  }

  function Listed(cmd: string, nok: string, entries: seq<(nat, bool)>): Reply
  {
    if entries == [] then Msg(nok) else Listing(cmd, entries)
  }

  function UserStep(db: Db, p: UdpPc): (Db, UdpPc)
    requires p.Serving? && (p.req.Login? || p.req.Logout? || p.req.Unreg? || p.req.MyAuctions? || p.req.MyBids?)
  {
    var uid, req := p.req.uid, p.req;
    match p.stage
    case Exists =>
      (db, if ExistsUser(db, uid) then p.(stage := if req.Login? then Authenticate else Logged)
           else if req.Login? then p.(stage := Registering)
           else Replies(if req.Logout? then "RLO UNR\n" else if req.Unreg? then "RUR UNR\n"
                        else if req.MyAuctions? then "RMA NOK\n" else "RMB NOK\n"))
    case Logged =>
      (db, if LoggedIn(db, uid) then p.(stage := if req.MyAuctions? || req.MyBids? then Refreshing else Authenticate)
           else Replies(if req.Logout? then "RLO NOK\n" else if req.Unreg? then "RUR NOK\n"
                        else if req.MyAuctions? then "RMA NLG\n" else "RMB NLG\n"))
    case _ => if req.MyAuctions? || req.MyBids? then (db, Waiting(None)) else SignedStep(db, p)
  }

  function SignedStep(db: Db, p: UdpPc): (Db, UdpPc)
    requires p.Serving? && (p.req.Login? || p.req.Logout? || p.req.Unreg?)
  {
    var uid, pw, req := p.req.uid, p.req.passwd, p.req;
    match p.stage
    case Authenticate =>
      (db, if Authentic(db, uid, pw) then p.(stage := Change)
           else Replies(if req.Login? then "RLI NOK\n" else if req.Logout? then "RLO NOK\n" else "RUR NOK\n"))
    case Registering => (Register(db, uid, pw), Replies("RLI REG\n"))
    case Change =>
      var w := if req.Login? then LogIn(db, uid) else if req.Logout? then LogOut(db, uid) else Unregister(db, uid);
      (w.db, if !w.ok then Waiting(Some(BadArgs))
             else Replies(if req.Login? then "RLI OK\n" else if req.Logout? then "RLO OK\n" else "RUR OK\n"))
    case _ => (db, Waiting(None))
  }

  function FirstUdpStage(req: Request): UdpStage
  {
    if req.List? then Refreshing else if req.ShowRecord? then Find else Exists
  }

  function FirstPc(req: Request): Pc
  {
    Job(req, if req.Open? then FindUser else if req.ShowAsset? then FindAuction else Updating, None, {})
  }

  ghost predicate Enabled(s: Sys, l: Label)
  {
    match l
    case Call(t, req) => t in s.workers && s.workers[t].Idle? && Admitted(req)
    case Work(t) => t in s.workers && s.workers[t].Job? && Admitted(s.workers[t].req)
    case UdpCall(req) => s.udp.Waiting? && UdpAdmitted(req)
    case UdpWork => s.udp.Serving? && UdpAdmitted(s.udp.req)
    case Tick(_) => true
  }

  /** A label that is not enabled changes nothing. */
  ghost function Step(s: Sys, l: Label): Sys
  {
    if !Enabled(s, l) then s
    else
      match l
      case Call(t, req) => s.(workers := s.workers[t := FirstPc(req)])
      case Work(t) => var (d, p) := WorkerStep(s.db, s.clock, s.workers[t]); s.(db := d, workers := s.workers[t := p])
      case UdpCall(req) => s.(udp := Serving(req, FirstUdpStage(req), None))
      case UdpWork => var (d, p) := UdpStep(s.db, s.clock, s.udp); s.(db := d, udp := p)
      case Tick(d) => s.(clock := s.clock + d)
  }

  ghost function Exec(s: Sys, run: seq<Label>): Sys
  {
    if run == [] then s else Step(Exec(s, run[..|run| - 1]), run[|run| - 1])
  }

  /** Worker `t` runs for `n` sections. */
  function Works(t: nat, n: nat): seq<Label> { if n == 0 then [] else Works(t, n - 1) + [Work(t)] }

  /* ---------- what never goes back ---------- */

  /** STARTs stay, recorded values stay, an END stays; user directories and auctions stay. */
  ghost predicate Grew(a: Auction, b: Auction)
  {
    a.start == b.start && a.bids.Keys <= b.bids.Keys && (a.end.Some? ==> b.end.Some?)
  }

  ghost predicate Grows(db: Db, d: Db)
  {
    && db.bidded.Keys <= d.bidded.Keys
    && forall i :: i in db.auctions ==> i in d.auctions && Grew(db.auctions[i], d.auctions[i])
  }

  lemma GrowsTransitive(a: Db, b: Db, c: Db)
    requires Grows(a, b) && Grows(b, c)
    ensures Grows(a, c)
  {
    forall i | i in a.auctions ensures i in c.auctions && Grew(a.auctions[i], c.auctions[i]) {
      assert Grew(a.auctions[i], b.auctions[i]) && Grew(b.auctions[i], c.auctions[i]);
    }
  }

  lemma UpdateGrows(db: Db, now: int)
    ensures Grows(db, Update(db, now))
  {
    forall i | i in db.auctions ensures Grew(db.auctions[i], Update(db, now).auctions[i]) {}
  }

  lemma WriteGrows(db: Db, id: nat, uid: Uid, value: nat, now: int)
    ensures Grows(db, CloseAuction(db, id, now).db) && Grows(db, RecordBid(db, id, uid, value, now).db)
  {
  }

  lemma CreateGrows(db: Db, st: Start, content: Option<string>)
    requires IdsOk(db)
    ensures Grows(db, Create(db, st, content).0)
  {
  }

  lemma UsersGrow(db: Db, uid: Uid, pw: Passwd)
    ensures Grows(db, Register(db, uid, pw)) && Grows(db, LogIn(db, uid).db)
    ensures Grows(db, LogOut(db, uid).db) && Grows(db, Unregister(db, uid).db)
  {
  }

  /* ---------- the invariant ---------- */

  function Rank(g: Stage): nat
  {
    match g
    case Updating => 0 case FindUser => 1 case FindLogin => 2 case CheckPasswd => 3 case FindAuction => 4
    case ReadStart => 5 case FindEnd => 6 case ReadLast => 7 case Writing => 8 case Sending => 9
  }

  /** A worker past `is_auction_finished` acts on the START it has read, by someone allowed to. */
  ghost predicate HasRead(db: Db, p: Pc)
    requires p.Job? && Trades(p.req)
  {
    && Id(p.req) in db.auctions && p.info.Some? && db.auctions[Id(p.req)].start == p.info
    && (p.info.value.owner == p.req.uid) == p.req.Close?
  }

  /** A worker about to write a bid: the value is above the start value and above every value
      recorded when it looked, and those are still there. */
  ghost predicate Outbids(db: Db, p: Pc)
    requires p.Job? && p.req.Bid? && HasRead(db, p)
  {
    && (Sound(p.info.value) ==> p.info.value.sv < p.req.value)
    && p.seen <= db.auctions[Id(p.req)].bids.Keys
    && forall v :: v in p.seen ==> v < p.req.value
  }

  ghost predicate WorkerOk(db: Db, p: Pc)
  {
    p.Job? ==>
      && Admitted(p.req)
      && (!p.req.ShowAsset? && Rank(p.stage) >= 2 ==> p.req.uid in db.bidded)
      && (Trades(p.req) ==>
            && (Rank(p.stage) >= 5 ==> Id(p.req) in db.auctions)
            && (Rank(p.stage) >= 6 ==> HasRead(db, p))
            && (p.stage == Writing && p.req.Bid? ==> Outbids(db, p)))
  }

  /** A record is about to be read under a header that is still the auction's. */
  ghost predicate Headed(db: Db, id: nat, info: Option<Start>)
  {
    id in db.auctions && info.Some? && db.auctions[id].start == info && Sound(info.value)
  }

  ghost predicate UdpOk(db: Db, p: UdpPc)
  {
    p.Serving? ==>
      && UdpAdmitted(p.req)
      && (p.req.Login? ==> p.stage != Logged && (p.stage in {Authenticate, Change} ==> p.req.uid in db.passwords))
      && (p.stage == Registering ==> p.req.Login? && p.req.uid !in db.passwords)
      && ((p.req.Logout? || p.req.Unreg?) && p.stage in {Authenticate, Change} ==> p.req.uid in db.logins)
      && (p.req.ShowRecord? && p.stage == Reporting ==> Headed(db, Atoi(p.req.aid), p.info))
  }

  /** An auction lies behind the clock: opened, bid on and closed at instants that have been, the
      offsets counted from the opening. */
  ghost predicate Dated(a: Auction, now: int)
  {
    a.start.Some? ==>
      && 0 < a.start.value.time <= now
      && (forall v :: v in a.bids ==>
            a.bids[v].at == a.start.value.time + a.bids[v].offset <= now && 0 <= a.bids[v].offset)
      && (a.end.Some? ==>
            && a.end.value.at <= now && 0 <= a.end.value.duration
            && (InClock(a) ==> a.end.value.at == a.start.value.time + a.end.value.duration))
  }

  ghost predicate AllDated(m: map<nat, Auction>, now: int) { forall i :: i in m ==> Dated(m[i], now) }

  ghost predicate Inv(s: Sys)
  {
    && Core(s.db) && 0 < s.clock && AllDated(s.db.auctions, s.clock) && UdpOk(s.db, s.udp)
    && forall t :: t in s.workers ==> WorkerOk(s.db, s.workers[t])
  }

  lemma OthersStayOk(db: Db, d: Db, p: Pc)
    requires WorkerOk(db, p) && Grows(db, d)
    ensures WorkerOk(d, p)
  {
    if p.Job? && Trades(p.req) && Rank(p.stage) >= 5 {
      assert Grew(db.auctions[Id(p.req)], d.auctions[Id(p.req)]);
    }
  }

  /* ---------- steps ---------- */

  lemma WriteStep(db: Db, now: int, p: Pc)
    requires Core(db) && 0 < now && p.Job? && !p.req.ShowAsset? && WorkerOk(db, p) && p.stage == Writing
    ensures Core(Write(db, now, p.req).db) && Grows(db, Write(db, now, p.req).db)
  {
    if p.req.Open? {
      ArgsInRange(p.req.args);
      CreateCore(db, OpenStart(p.req.uid, p.req.args, now), p.req.content);
      CreateGrows(db, OpenStart(p.req.uid, p.req.args, now), p.req.content);
    } else {
      WriteGrows(db, Id(p.req), p.req.uid, if p.req.Bid? then p.req.value else 0, now);
      CloseCore(db, Id(p.req), now);
      if p.req.Bid? { BidStepCore(db, now, p); }
    }
  }

  lemma BidStepCore(db: Db, now: int, p: Pc)
    requires Core(db) && p.Job? && p.req.Bid? && WorkerOk(db, p) && p.stage == Writing
    ensures Core(RecordBid(db, Id(p.req), p.req.uid, p.req.value, now).db)
  {
    var id := Id(p.req);
    assert AuctionOk(db.auctions[id]);
    if Sound(p.info.value) {
      RecordCore(db, id, p.req.uid, p.req.value, now);
    } else {
      assert RecordBid(db, id, p.req.uid, p.req.value, now).db == db;
    }
  }

  /** Reading the last bid, the decision that is not made again before the write. */
  lemma LastKeeps(db: Db, p: Pc)
    requires Core(db) && p.Job? && p.req.Bid? && WorkerOk(db, p) && p.stage == ReadLast
    ensures WorkerOk(db, AuctionStep(db, p))
  {
    var id := Id(p.req);
    var bids := db.auctions[id].bids;
    assert AuctionOk(db.auctions[id]);
    if bids.Keys != {} { assert Max(bids.Keys) in bids; }
  }

  lemma ReadStep(db: Db, p: Pc)
    requires Core(db) && p.Job? && Trades(p.req) && WorkerOk(db, p)
    requires p.stage in {FindAuction, ReadStart, FindEnd, ReadLast}
    ensures WorkerOk(db, AuctionStep(db, p))
  {
    if p.stage == ReadLast && p.req.Bid? { LastKeeps(db, p); }
  }

  lemma CheckStep(db: Db, now: int, p: Pc)
    requires Core(db) && p.Job? && !p.req.ShowAsset? && WorkerOk(db, p) && p.stage in {FindUser, FindLogin, CheckPasswd}
    ensures WorkerStep(db, now, p).0 == db && WorkerOk(db, WorkerStep(db, now, p).1)
  {
    CoreUsers(db, p.req.uid);
  }

  lemma UpdatingKeeps(db: Db, now: int, p: Pc)
    requires Core(db) && p.Job? && WorkerOk(db, p) && p.stage == Updating
    ensures Core(Update(db, now)) && Grows(db, Update(db, now)) && WorkerOk(Update(db, now), p.(stage := FindUser))
  {
    UpdateCore(db, now);
    UpdateGrows(db, now);
    OthersStayOk(db, Update(db, now), p);
  }

  /** All other sections only read. */
  lemma ReadingKeeps(db: Db, now: int, p: Pc)
    requires Core(db) && p.Job? && WorkerOk(db, p) && (p.req.ShowAsset? || p.stage !in {Writing, Updating})
    ensures WorkerStep(db, now, p).0 == db && WorkerOk(db, WorkerStep(db, now, p).1)
  {
    if !p.req.ShowAsset? && p.stage in {FindUser, FindLogin, CheckPasswd} {
      CheckStep(db, now, p);
    } else if Trades(p.req) && p.stage != Sending {
      ReadStep(db, p);
    }
  }

  /** A worker's step keeps the invariant, its own place in it, and only adds. */
  lemma WorkerStepKeeps(db: Db, now: int, p: Pc)
    requires Core(db) && 0 < now && p.Job? && WorkerOk(db, p)
    ensures var (d, q) := WorkerStep(db, now, p); Core(d) && Grows(db, d) && WorkerOk(d, q)
  {
    if p.req.ShowAsset? || p.stage !in {Writing, Updating} {
      ReadingKeeps(db, now, p);
    } else if p.stage == Writing {
      WriteStep(db, now, p);
    } else {
      UpdatingKeeps(db, now, p);
    }
  }

  lemma CoreUsers(db: Db, uid: Uid)
    requires Core(db)
    ensures ExistsUser(db, uid) ==> uid in db.bidded
  {
  }

  /** The UDP thread changes the database when it updates it, and in the last section of a
      request by a user. */
  lemma UdpStepShape(db: Db, now: int, p: UdpPc)
    requires p.Serving? && UdpOk(db, p)
    ensures var r := UdpStep(db, now, p);
            && UdpOk(r.0, r.1)
            && if p.stage == Refreshing then r.0 == Update(db, now)
               else r.0 == db
                    || ((p.req.Login? || p.req.Logout? || p.req.Unreg?) && UserWrite(db, p.req, r.0))
  {
  }

  ghost predicate UserWrite(db: Db, req: Request, d: Db)
    requires req.Login? || req.Logout? || req.Unreg?
  {
    || d in {Register(db, req.uid, req.passwd), LogOut(db, req.uid).db, Unregister(db, req.uid).db}
    || (ExistsUser(db, req.uid) && d == LogIn(db, req.uid).db)
  }

  lemma UserWriteKeeps(db: Db, req: Request, d: Db)
    requires Core(db) && (req.Login? || req.Logout? || req.Unreg?) && UserWrite(db, req, d)
    ensures Core(d) && Grows(db, d)
  {
    UsersGrow(db, req.uid, req.passwd);
    RegisterCore(db, req.uid, req.passwd);
    LoginsCore(db, req.uid);
  }

  lemma UdpStepKeeps(db: Db, now: int, p: UdpPc)
    requires Core(db) && p.Serving? && UdpOk(db, p)
    ensures var r := UdpStep(db, now, p); Core(r.0) && Grows(db, r.0) && UdpOk(r.0, r.1)
  {
    var d := UdpStep(db, now, p).0;
    UdpStepShape(db, now, p);
    if p.stage == Refreshing {
      UpdateCore(db, now);
      UpdateGrows(db, now);
    } else if d != db {
      UserWriteKeeps(db, p.req, d);
    }
  }

  /** Workers never change who is registered or logged in. */
  lemma WorkersLeaveUsers(db: Db, now: int, p: Pc)
    requires p.Job? && Admitted(p.req)
    ensures var d := WorkerStep(db, now, p).0; d.passwords == db.passwords && d.logins == db.logins
  {
    if !p.req.ShowAsset? { WritesLeaveUsers(db, now, p.req); }
  }

  lemma WritesLeaveUsers(db: Db, now: int, req: Request)
    requires Admitted(req) && !req.ShowAsset?
    ensures var d := Write(db, now, req).db; d.passwords == db.passwords && d.logins == db.logins
  {
  }

  lemma UdpStaysOk(db: Db, d: Db, p: UdpPc)
    requires UdpOk(db, p) && Grows(db, d) && d.passwords == db.passwords && d.logins == db.logins
    ensures UdpOk(d, p)
  {
    if p.Serving? && p.req.ShowRecord? && p.stage == Reporting {
      assert Grew(db.auctions[Atoi(p.req.aid)], d.auctions[Atoi(p.req.aid)]);
    }
  }

  /* Dates. */

  lemma UpdateDated(m: map<nat, Auction>, before: int, now: int)
    requires AllDated(m, before) && before <= now
    ensures AllDated(ExpireAll(m, now), now)
  {
    forall i | i in m ensures Dated(Expire(m[i], now), now) {
      if InClock(m[i]) && m[i].start.Some? { assert Int32(m[i].start.value.time) == m[i].start.value.time; }
    }
  }

  lemma WriteDated(db: Db, now: int, req: Request)
    requires AllDated(db.auctions, now) && 0 < now && Admitted(req) && !req.ShowAsset?
    ensures AllDated(Write(db, now, req).db.auctions, now)
  {
    match req
    case Open(uid, _, args, content) => CreateDated(db, now, OpenStart(uid, args, now), content);
    case Close(_, _, _) => CloseDated(db, now, Id(req));
    case Bid(uid, _, _, value) => RecordDated(db, now, Id(req), uid, value);
  }

  lemma CreateDated(db: Db, now: int, st: Start, content: Option<string>)
    requires AllDated(db.auctions, now) && 0 < now == st.time
    ensures AllDated(Create(db, st, content).0.auctions, now)
  {
  }

  lemma CloseDated(db: Db, now: int, id: nat)
    requires AllDated(db.auctions, now)
    ensures AllDated(CloseAuction(db, id, now).db.auctions, now)
  {
  }

  lemma RecordDated(db: Db, now: int, id: nat, uid: Uid, value: nat)
    requires AllDated(db.auctions, now)
    ensures AllDated(RecordBid(db, id, uid, value, now).db.auctions, now)
  {
  }

  lemma WorkDated(db: Db, now: int, p: Pc)
    requires AllDated(db.auctions, now) && 0 < now && p.Job? && Admitted(p.req)
    ensures AllDated(WorkerStep(db, now, p).0.auctions, now)
  {
    UpdateDated(db.auctions, now, now);
    if !p.req.ShowAsset? { WriteDated(db, now, p.req); }
  }

  lemma StepDated(s: Sys, l: Label)
    requires AllDated(s.db.auctions, s.clock) && 0 < s.clock && UdpOk(s.db, s.udp)
    ensures AllDated(Step(s, l).db.auctions, Step(s, l).clock)
  {
    UpdateDated(s.db.auctions, s.clock, s.clock);
    if l.Work? && Enabled(s, l) { WorkDated(s.db, s.clock, s.workers[l.t]); }
    if l.UdpWork? && Enabled(s, l) { UdpStepShape(s.db, s.clock, s.udp); }
  }

  lemma StepKeeps(s: Sys, l: Label)
    requires Inv(s)
    ensures Inv(Step(s, l)) && Grows(s.db, Step(s, l).db)
  {
    var n := Step(s, l);
    StepDated(s, l);
    if l.Work? && Enabled(s, l) {
      WorkerStepKeeps(s.db, s.clock, s.workers[l.t]);
      WorkersLeaveUsers(s.db, s.clock, s.workers[l.t]);
      UdpStaysOk(s.db, n.db, s.udp);
    }
    if l.UdpWork? && Enabled(s, l) {
      UdpStepKeeps(s.db, s.clock, s.udp);
    }
    forall t | t in n.workers ensures WorkerOk(n.db, n.workers[t]) {
      if n.workers[t] == s.workers[t] { OthersStayOk(s.db, n.db, s.workers[t]); }
    }
  }

  /* ---------- runs ---------- */

  /** A server just started: an empty database, idle workers, a clock. */
  function Boot(threads: set<nat>, clock: int): Sys
  {
    Sys(Fresh, clock, map t | t in threads :: Idle(None), Waiting(None))
  }

  lemma {:induction false} ExecKeeps(s: Sys, run: seq<Label>)
    requires Inv(s)
    ensures Inv(Exec(s, run)) && Grows(s.db, Exec(s, run).db)
  {
    if run != [] {
      var init := run[..|run| - 1];
      ExecKeeps(s, init);
      StepKeeps(Exec(s, init), run[|run| - 1]);
      GrowsTransitive(s.db, Exec(s, init).db, Exec(s, run).db);
    }
  }

  /** Under every interleaving: auctions are exactly 1..count, every recorded bid is above the
      start value, at most 999999 and not the owner's, HOSTED is exact, BIDDED covers, and a
      login implies a password; bids and ENDs carry instants that have been, counted from the
      opening. */
  lemma EveryInterleavingIsSafe(threads: set<nat>, clock: int, run: seq<Label>)
    requires 0 < clock
    ensures var s := Exec(Boot(threads, clock), run); Core(s.db) && AllDated(s.db.auctions, s.clock)
  {
    FreshCore();
    ExecKeeps(Boot(threads, clock), run);
  }

  lemma {:induction false} ExecAppend(s: Sys, run: seq<Label>, more: seq<Label>)
    ensures Exec(s, run + more) == Exec(Exec(s, run), more)
    decreases |more|
  {
    if more == [] {
      assert run + more == run;
    } else {
      var k := |more| - 1;
      assert (run + more)[..|run + more| - 1] == run + more[..k];
      ExecAppend(s, run, more[..k]);
    }
  }

  lemma OneMore(s: Sys, run: seq<Label>, l: Label)
    ensures Exec(s, run + [l]) == Step(Exec(s, run), l)
  {
    assert (run + [l])[..|run|] == run;
  }

  lemma TwoSteps(s: Sys, a: Label, b: Label)
    ensures Exec(s, [a, b]) == Step(Step(s, a), b)
  {
    assert [a, b][..1] == [a] && [a][..0] == [];
    assert Exec(s, [a]) == Step(Exec(s, []), a);
  }

  /** Along every interleaving recorded values stay, an END is never withdrawn, a START never
      changes. */
  lemma NothingIsWithdrawn(threads: set<nat>, clock: int, run: seq<Label>, more: seq<Label>)
    requires 0 < clock
    ensures Grows(Exec(Boot(threads, clock), run).db, Exec(Boot(threads, clock), run + more).db)
  {
    FreshCore();
    ExecKeeps(Boot(threads, clock), run);
    ExecKeeps(Exec(Boot(threads, clock), run), more);
    ExecAppend(Boot(threads, clock), run, more);
  }

  /* ---------- passwords ---------- */

  /** The one step that takes a user's password away. */
  ghost predicate Unregisters(s: Sys, l: Label, uid: Uid)
  {
    l.UdpWork? && s.udp.Serving? && s.udp.req.Unreg? && s.udp.stage == Change && s.udp.req.uid == uid
  }

  lemma UdpKeepsPassword(db: Db, now: int, p: UdpPc, uid: Uid)
    requires p.Serving? && UdpOk(db, p) && uid in db.passwords
    requires !(p.req.Unreg? && p.stage == Change && p.req.uid == uid)
    ensures var d := UdpStep(db, now, p).0; uid in d.passwords && d.passwords[uid] == db.passwords[uid]
  {
  }

  lemma StepKeepsPassword(s: Sys, l: Label, uid: Uid)
    requires UdpOk(s.db, s.udp) && uid in s.db.passwords && !Unregisters(s, l, uid)
    ensures var d := Step(s, l).db; uid in d.passwords && d.passwords[uid] == s.db.passwords[uid]
  {
    if l.Work? && Enabled(s, l) { WorkersLeaveUsers(s.db, s.clock, s.workers[l.t]); }
    if l.UdpWork? && Enabled(s, l) { UdpKeepsPassword(s.db, s.clock, s.udp, uid); }
  }

  lemma {:induction false} ExecKeepsPassword(s: Sys, run: seq<Label>, uid: Uid)
    requires Inv(s) && uid in s.db.passwords
    requires forall k :: 0 <= k < |run| ==> !Unregisters(Exec(s, run[..k]), run[k], uid)
    ensures var d := Exec(s, run).db; uid in d.passwords && d.passwords[uid] == s.db.passwords[uid]
  {
    if run != [] {
      var n := |run| - 1;
      var init, l := run[..n], run[n];
      forall k | 0 <= k < n ensures !Unregisters(Exec(s, init[..k]), init[k], uid) {
        assert init[..k] == run[..k];
      }
      ExecKeepsPassword(s, init, uid);
      ExecKeeps(s, init);
      StepKeepsPassword(Exec(s, init), l, uid);
    }
  }

  lemma RegisteringWrites(s: Sys)
    requires UdpOk(s.db, s.udp) && s.udp.Serving? && s.udp.stage == Registering
    ensures s.udp.req.Login? && Step(s, UdpWork).db.passwords == s.db.passwords[s.udp.req.uid := s.udp.req.passwd]
  {
  }

  /** From the step that registers a user until one that unregisters them exactly the
      registered password authenticates, whatever the workers do meanwhile. */
  lemma RegisteredAuthenticates(s: Sys, t: Sys, run: seq<Label>, uid: Uid, pw: Passwd, tried: Passwd)
    requires Inv(s) && s.udp == Serving(Login(uid, pw), Registering, None) && t == Step(s, UdpWork)
    requires forall k :: 0 <= k < |run| ==> !Unregisters(Exec(t, run[..k]), run[k], uid)
    ensures Authentic(Exec(t, run).db, uid, tried) <==> tried == pw
  {
    RegisteringWrites(s);
    StepKeeps(s, UdpWork);
    ExecKeepsPassword(t, run, uid);
  }

  /** The one step that gives a user a password. */
  ghost predicate RegistersUser(s: Sys, l: Label, uid: Uid)
  {
    l.UdpWork? && s.udp.Serving? && s.udp.stage == Registering && s.udp.req.Login? && s.udp.req.uid == uid
  }

  lemma UdpGivesNoPassword(db: Db, now: int, p: UdpPc, uid: Uid)
    requires p.Serving? && UdpOk(db, p) && uid !in db.passwords
    requires !(p.stage == Registering && p.req.Login? && p.req.uid == uid)
    ensures uid !in UdpStep(db, now, p).0.passwords
  {
  }

  lemma {:induction false} ExecGivesNoPassword(s: Sys, run: seq<Label>, uid: Uid)
    requires Inv(s) && uid !in s.db.passwords
    requires forall k :: 0 <= k < |run| ==> !RegistersUser(Exec(s, run[..k]), run[k], uid)
    ensures uid !in Exec(s, run).db.passwords
  {
    if run != [] {
      var n := |run| - 1;
      var init, l := run[..n], run[n];
      forall k | 0 <= k < n ensures !RegistersUser(Exec(s, init[..k]), init[k], uid) {
        assert init[..k] == run[..k];
      }
      ExecGivesNoPassword(s, init, uid);
      ExecKeeps(s, init);
      StepGivesNoPassword(Exec(s, init), l, uid);
    }
  }

  lemma StepGivesNoPassword(s: Sys, l: Label, uid: Uid)
    requires UdpOk(s.db, s.udp) && uid !in s.db.passwords && !RegistersUser(s, l, uid)
    ensures uid !in Step(s, l).db.passwords
  {
    if l.Work? && Enabled(s, l) { WorkersLeaveUsers(s.db, s.clock, s.workers[l.t]); }
    if l.UdpWork? && Enabled(s, l) { UdpGivesNoPassword(s.db, s.clock, s.udp, uid); }
  }

  lemma UnregisteringRemoves(s: Sys, uid: Uid)
    requires Inv(s) && Unregisters(s, UdpWork, uid)
    ensures uid !in Step(s, UdpWork).db.passwords
  {
  }

  /** From the step that unregisters a user until one that registers them again no password
      authenticates, whatever the workers do meanwhile. */
  lemma NobodyAuthenticates(s: Sys, t: Sys, run: seq<Label>, uid: Uid, tried: Passwd)
    requires Inv(s) && Unregisters(s, UdpWork, uid) && t == Step(s, UdpWork)
    requires forall k :: 0 <= k < |run| ==> !RegistersUser(Exec(t, run[..k]), run[k], uid)
    ensures !Authentic(Exec(t, run).db, uid, tried)
  {
    UnregisteringRemoves(s, uid);
    StepKeeps(s, UdpWork);
    ExecGivesNoPassword(t, run, uid);
  }

  /** What other threads do does not move a worker. */
  lemma {:induction false} OthersLeave(s: Sys, run: seq<Label>, t: nat)
    requires t in s.workers && s.workers[t].Job?
    requires forall i :: 0 <= i < |run| ==> run[i] != Work(t)
    ensures t in Exec(s, run).workers && Exec(s, run).workers[t] == s.workers[t]
  {
    if run != [] { OthersLeave(s, run[..|run| - 1], t); }
  }

  /** Worker `t` is about to run `get_last_bid` for a bid that it will not refuse. */
  ghost predicate Looking(s: Sys, t: nat)
  {
    && t in s.workers && s.workers[t].Job? && s.workers[t].req.Bid? && s.workers[t].stage == ReadLast
    && WorkerOk(s.db, s.workers[t]) && Step(s, Work(t)).workers[t].Job?
  }

  lemma Looked(s: Sys, t: nat)
    requires Looking(s, t)
    ensures var w := Step(s, Work(t)).workers[t];
            && Id(s.workers[t].req) in s.db.auctions
            && w.Job? && w.stage == Writing && w.req == s.workers[t].req
            && w.seen == s.db.auctions[Id(w.req)].bids.Keys
  {
  }

  /** An accepted bid exceeds every value that was recorded when its worker ran
      `get_last_bid`, whatever the other threads did before the write. */
  lemma AcceptedExceedsSeen(s: Sys, t: nat, between: seq<Label>, v: nat)
    requires Inv(s) && Looking(s, t)
    requires forall i :: 0 <= i < |between| ==> between[i] != Work(t)
    ensures var id, w := Id(s.workers[t].req), Exec(Step(s, Work(t)), between);
            && id in s.db.auctions && id in w.db.auctions
            && t in w.workers && w.workers[t].Job? && w.workers[t].stage == Writing && w.workers[t].req == s.workers[t].req
            && (v in s.db.auctions[id].bids ==> v < s.workers[t].req.value && v in w.db.auctions[id].bids)
  {
    var one := Step(s, Work(t));
    Looked(s, t);
    StepKeeps(s, Work(t));
    ExecKeeps(one, between);
    OthersLeave(one, between, t);
    SeenIsOutbid(Exec(one, between).db, one.workers[t], v);
  }

  lemma SeenIsOutbid(db: Db, p: Pc, v: nat)
    requires p.Job? && p.req.Bid? && p.stage == Writing && WorkerOk(db, p)
    ensures Id(p.req) in db.auctions
    ensures v in p.seen ==> v < p.req.value && v in db.auctions[Id(p.req)].bids
  {
  }
}
