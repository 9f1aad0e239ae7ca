/** The handlers OPA, CLS and BID of server/tcp.c: from the bytes of the connection to the
    bytes of the reply. What a handler makes of a byte stream is a request of module
    Handlers, and serving the stream does exactly what that request does. */
module TcpHandlers {
  import opened Text
  import opened Store
  import opened Handlers
  import opened RunInvariants
  import opened Transfer
  import opened Readers
  import opened Records
  import opened UdpHandlers
  import DB = Database

  /** `Hung`: the client left before the request was complete, and gets no reply.
      `Refused`: the handler returns its error code before it looks at the database. */
  datatype Parsed = Hung | Refused | Got(req: Request)

  const OPA_HEAD: nat := UID_SIZE + 1 + PASSWORD_SIZE + 1
  const CLS_HEAD: nat := UID_SIZE + 1 + PASSWORD_SIZE + 1 + AID_SIZE + 1

  /** UID and password out of the zeroed buffer, and what is left of it. */
  function Credentials(head: string): (string, string, string)
  {
    var u := Strtok(CStr(head), ' ');
    var p := Strtok(FieldRest(u), ' ');
    (Field(u), Field(p), FieldRest(p))
  }

  function ParseOpen(stream: string, splits: seq<nat>): Parsed
  {
    if |stream| < OPA_HEAD then Hung
    else if stream[OPA_HEAD - 1] != ' ' then Refused
    else
      var (uid, passwd, _) := Credentials(stream[..OPA_HEAD]);
      if !ValidUid(uid) || !ValidPasswd(passwd) then Refused
      else
        match ReadArgs(stream[OPA_HEAD..], 0)
        case Closed => Hung
        case Rejected => Refused
        case Accepted(a, rest) =>
          AcceptedCount(stream[OPA_HEAD..], 0);
          Got(Open(uid, passwd, OpenArgs(a[0], a[1], a[2], a[3], a[4]), RecvOutcome(rest, splits, Atoi(a[4]))))
  }

  function ParseClose(stream: string): Parsed
  {
    if |stream| < CLS_HEAD then Hung
    else if stream[CLS_HEAD - 1] != '\n' then Refused
    else
      var (uid, passwd, rest) := Credentials(stream[..CLS_HEAD]);
      Got(Close(uid, passwd, Field(Strtok(rest, '\n'))))
  }

  function ParseBid(stream: string): Parsed
  {
    if |stream| < CLS_HEAD then Hung
    else
      var (uid, passwd, rest) := Credentials(stream[..CLS_HEAD]);
      match ReadValue(stream[CLS_HEAD..], "")
      case Ended => Hung
      case BadByte => Refused
      case Value(v, _) => Got(Bid(uid, passwd, Field(Strtok(rest, ' ')), v))
  }

  /** The reply sent, and whether the handler returned its error code instead. */
  ghost predicate Replied(r: Reply, err: bool, reply: string)
  {
    match r
    case BadArgs => err && reply == ""
    case Msg(t) => !err && reply == t
    case Crash => reply == "" // nothing is sent any more
    case Opened(id) => !err && id < Pow10(3) && reply == "ROA OK " + Pad(id, 3) + "\n"
    case _ => false
  }

  /** Without a request the database stays, nothing is sent, and only a refusal is an error. */
  predicate Untouched(p: Parsed, before: Db, after: Db, err: bool, reply: string)
  {
    err == p.Refused? && after == before && reply == ""
  }

  lemma AcceptedArgs(stream: string)
    requires ReadArgs(stream, 0).Accepted?
    ensures |ReadArgs(stream, 0).args| == OPA_ARGS
    ensures var a := ReadArgs(stream, 0).args; ArgsValid(OpenArgs(a[0], a[1], a[2], a[3], a[4]))
  {
    AcceptedCount(stream, 0);
    var a := ReadArgs(stream, 0).args;
    forall k: nat | k < OPA_ARGS ensures ValidArg(a[k], k) {
      AcceptedValid(stream, k);
    }
    CheckedArgs(a);
  }

  lemma CheckedArgs(a: seq<string>)
    requires |a| == OPA_ARGS && forall k :: 0 <= k < OPA_ARGS ==> ValidArg(a[k], k)
    ensures ArgsValid(OpenArgs(a[0], a[1], a[2], a[3], a[4]))
  {
    assert ValidArg(a[0], 0) && ValidArg(a[1], 1) && ValidArg(a[2], 2) && ValidArg(a[3], 3) && ValidArg(a[4], 4);
  }

  /** Everything of `handle_open` up to the database checks; the asset is still to come. */
  method ReadOpen(conn: Connection) returns (p: Parsed)
    modifies conn`incoming
    ensures p.Got? ==> p.req.Open? && ArgsValid(p.req.args) && ValidUid(p.req.uid) && ValidPasswd(p.req.passwd)
    ensures old(ParseOpen(conn.incoming, conn.splits)) == WithContent(p, conn.incoming, conn.splits)
  {
    var head := conn.ReadTcpStream(OPA_HEAD);
    if head.None? { return Hung; }
    if head.value[OPA_HEAD - 1] != ' ' { return Refused; }
    var (uid, passwd, _) := Credentials(head.value);
    if !ValidUid(uid) || !ValidPasswd(passwd) { return Refused; }
    ghost var stream := conn.incoming;
    var r := ReadOpaArgs(conn);
    match r
    case Closed => return Hung;
    case Rejected => return Refused;
    case Accepted(a, _) =>
      AcceptedArgs(stream);
      return Got(Open(uid, passwd, OpenArgs(a[0], a[1], a[2], a[3], a[4]), None));
  }

  /** The same request with what the transfer makes of the rest of the stream. */
  function WithContent(p: Parsed, rest: string, splits: seq<nat>): Parsed
  {
    if p.Got? && p.req.Open? then Got(p.req.(content := RecvOutcome(rest, splits, Atoi(p.req.args.fsize)))) else p
  }

  /** The checks and the creation; the asset is still in the stream. */
  method OpenAuction(db: DB.Database, conn: Connection, uid: string, passwd: string, args: OpenArgs, now: int)
    returns (err: bool, reply: string)
    requires IdsOk(db.View()) && ValidUid(uid) && ValidPasswd(passwd) && ArgsValid(args)
    modifies db, conn`incoming, conn`splits
    ensures var content := old(RecvOutcome(conn.incoming, conn.splits, Atoi(args.fsize)));
            var o := HandleOpen(old(db.View()), now, uid, passwd, args, content);
            db.View() == o.db && Replied(o.reply, err, reply)
  {
    var sv, ta, fsize := Atoi(args.sv), Atoi(args.ta), Atoi(args.fsize);
    if sv == 999999 {
      return true, "";
    }
    if fsize <= 0 || fsize > MAX_FSIZE {
      return true, "";
    }
    if uid !in db.passwords || uid !in db.logins {
      return false, "ROA NLG\n";
    }
    if db.passwords[uid] != passwd {
      return false, "ROA NLG\n";
    }
    var id := db.CreateNewAuction(Start(uid, args.name, args.fname, sv, ta, now), fsize as int32, conn, NoFault);
    if id.None? {
      return false, "ROA NOK\n";
    }
    Powers();
    return false, "ROA OK " + Pad(id.value, 3) + "\n";
  }

  /** `handle_open`: the outcome depends on the bytes alone, and a failure of any kind, the
      transfer included, leaves the database as it was. */
  method ServeOpen(db: DB.Database, conn: Connection, now: int) returns (err: bool, reply: string)
    requires IdsOk(db.View())
    modifies db, conn
    ensures conn.outgoing == old(conn.outgoing) + reply
    ensures var p := old(ParseOpen(conn.incoming, conn.splits));
            if p.Got? then
              p.req.Open? &&
              var o := HandleOpen(old(db.View()), now, p.req.uid, p.req.passwd, p.req.args, p.req.content);
              db.View() == o.db && Replied(o.reply, err, reply)
            else Untouched(p, old(db.View()), db.View(), err, reply)
  {
    var p := ReadOpen(conn);
    err, reply := p.Refused?, "";
    if p.Got? {
      err, reply := OpenAuction(db, conn, p.req.uid, p.req.passwd, p.req.args, now);
    }
    conn.Send(reply);
  }

  /** The checks of `handle_close` behind the update, in their order. */
  method CloseUpdated(db: DB.Database, cal: Calendar, uid: string, passwd: string, aid: string, now: int,
                      ghost before: Db)
    returns (err: bool, reply: string)
    requires CalendarOk(cal) && DB.Legible(db.auctions) && db.View() == Update(before, now)
    requires ValidUid(uid) && ValidPasswd(passwd) && ValidAid(aid)
    modifies db
    ensures var o := HandleClose(before, now, uid, passwd, aid, true);
            db.View() == o.db && Replied(o.reply, err, reply)
  {
    var id := Atoi(aid);
    if uid !in db.passwords || uid !in db.logins || db.passwords[uid] != passwd {
      return false, "RCL NLG\n";
    }
    if !(0 < id <= db.aucCount) {
      return false, "RCL EAU\n";
    }
    var info := ReadOwner(db, cal, id);
    if info.None? {
      return false, "RCL NOK\n";
    }
    if info.value.0 != uid {
      return false, "RCL EOW\n";
    }
    if id in db.auctions && db.auctions[id].end.Some? {
      return false, "RCL END\n";
    }
    var ok := db.CloseAuction(cal, id, now);
    if !ok {
      return false, "RCL NOK\n";
    }
    return false, "RCL OK\n";
  }

  method CloseChecked(db: DB.Database, cal: Calendar, uid: string, passwd: string, aid: string, now: int)
    returns (err: bool, reply: string)
    requires CalendarOk(cal) && Ready(db.View(), now)
    modifies db
    ensures var o := HandleClose(old(db.View()), now, uid, passwd, aid, true);
            db.View() == o.db && Replied(o.reply, err, reply)
  {
    if !ValidUid(uid) || !ValidPasswd(passwd) || !ValidAid(aid) {
      return true, "";
    }
    ghost var before := db.View();
    BringUpToDate(db, cal, now);
    err, reply := CloseUpdated(db, cal, uid, passwd, aid, now, before);
  }

  /** The owner and the token taken for the start value, from the START line. */
  method ReadOwner(db: DB.Database, cal: Calendar, id: nat) returns (info: Option<(string, Option<string>)>)
    requires CalendarOk(cal) && DB.Legible(db.auctions)
    ensures info.Some? <==> Info(db.View(), id).Some?
    ensures info.Some? ==>
              var st := Info(db.View(), id).value;
              && StartOk(st) && info.value.0 == st.owner
              && info.value.1 == match Asked(st) case None => None case Some(n) => Some(Dec(n))
  {
    var line := db.GetAuctionInfo(cal, id, 256);
    if line.None? { return None; }
    StartReads(cal, db.auctions[id].start.value, 256);
    return Some((OwnerToken(line.value).value, ValueToken(line.value)));
  }

  method ReadClose(conn: Connection) returns (p: Parsed)
    modifies conn`incoming
    ensures p == old(ParseClose(conn.incoming)) && (p.Got? ==> p.req.Close?)
  {
    var head := conn.ReadTcpStream(CLS_HEAD);
    if head.None? { return Hung; }
    if head.value[CLS_HEAD - 1] != '\n' { return Refused; }
    var (uid, passwd, rest) := Credentials(head.value);
    return Got(Close(uid, passwd, Field(Strtok(rest, '\n'))));
  }

  /** `handle_close`. */
  method ServeClose(db: DB.Database, cal: Calendar, conn: Connection, now: int) returns (err: bool, reply: string)
    requires CalendarOk(cal) && Ready(db.View(), now)
    modifies db, conn
    ensures conn.outgoing == old(conn.outgoing) + reply
    ensures var p := old(ParseClose(conn.incoming));
            if p.Got? then
              p.req.Close? &&
              var o := HandleClose(old(db.View()), now, p.req.uid, p.req.passwd, p.req.aid, true);
              db.View() == o.db && Replied(o.reply, err, reply)
            else Untouched(p, old(db.View()), db.View(), err, reply)
  {
    var p := ReadClose(conn);
    err, reply := p.Refused?, "";
    if p.Got? {
      err, reply := CloseChecked(db, cal, p.req.uid, p.req.passwd, p.req.aid, now);
    }
    conn.Send(reply);
  }

  /** `handle_bid` from the check of the start value on. */
  method OfferBid(db: DB.Database, cal: Calendar, id: nat, uid: string, value: nat, startingValue: Option<string>,
                  now: int, ghost st: Start)
    returns (err: bool, reply: string)
    requires CalendarOk(cal) && DB.Legible(db.auctions) && StartOk(st)
    requires id in db.auctions ==> DB.Readable(db.auctions[id])
    requires startingValue == match Asked(st) case None => None case Some(n) => Some(Dec(n))
    modifies db
    ensures var o := Offer(old(db.View()), now, id, uid, value, st);
            db.View() == o.db && Replied(o.reply, err, reply)
  {
    if startingValue.None? {
      return true, ""; // is_valid_start_value(NULL)
    }
    ValidDec(Asked(st).value);
    DecAlone(Asked(st).value);
    if !ValidStartValue(startingValue.value) {
      return true, "";
    }
    var startBid := Atoi(startingValue.value);
    var lastBid := db.GetLastBid(id);
    if lastBid < 0 {
      return true, "";
    }
    if lastBid == 0 {
      lastBid := startBid;
    }
    if value <= lastBid {
      return false, "RBD REF\n";
    }
    var ok := db.Bid(cal, id, uid, value, now);
    if !ok {
      return true, "";
    }
    return false, "RBD ACC\n";
  }

  /** The checks of `handle_bid` in their order. */
  method BidChecked(db: DB.Database, cal: Calendar, uid: string, passwd: string, aid: string, value: nat, now: int)
    returns (err: bool, reply: string)
    requires CalendarOk(cal) && Ready(db.View(), now)
    modifies db
    ensures var o := HandleBid(old(db.View()), now, uid, passwd, aid, value, true);
            db.View() == o.db && Replied(o.reply, err, reply)
  {
    if !ValidUid(uid) || !ValidPasswd(passwd) || !ValidAid(aid) {
      return true, "";
    }
    var id := Atoi(aid);
    BringUpToDate(db, cal, now);
    if uid !in db.passwords {
      return false, "RBD NOK\n";
    }
    if uid !in db.logins || db.passwords[uid] != passwd {
      return false, "RBD NLG\n";
    }
    if !(0 < id <= db.aucCount) {
      return false, "RBD ERR\n";
    }
    var info := ReadOwner(db, cal, id);
    if info.None? {
      return false, "RBD NOK\n";
    }
    if info.value.0 == uid {
      return false, "RBD ILG\n";
    }
    if id in db.auctions && db.auctions[id].end.Some? {
      return false, "RBD NOK\n";
    }
    err, reply := OfferBid(db, cal, id, uid, value, info.value.1, now, Info(db.View(), id).value);
  }

  method ReadBid(conn: Connection) returns (p: Parsed)
    modifies conn`incoming
    ensures p == old(ParseBid(conn.incoming)) && (p.Got? ==> p.req.Bid?)
  {
    var head := conn.ReadTcpStream(CLS_HEAD);
    if head.None? { return Hung; }
    var r := ReadBidValue(conn);
    var (uid, passwd, rest) := Credentials(head.value);
    match r
    case Ended => return Hung;
    case BadByte => return Refused;
    case Value(v, _) => return Got(Bid(uid, passwd, Field(Strtok(rest, ' ')), v));
  }

  /** `handle_bid`. */
  method ServeBid(db: DB.Database, cal: Calendar, conn: Connection, now: int) returns (err: bool, reply: string)
    requires CalendarOk(cal) && Ready(db.View(), now)
    modifies db, conn
    ensures conn.outgoing == old(conn.outgoing) + reply
    ensures var p := old(ParseBid(conn.incoming));
            if p.Got? then
              p.req.Bid? &&
              var o := HandleBid(old(db.View()), now, p.req.uid, p.req.passwd, p.req.aid, p.req.value, true);
              db.View() == o.db && Replied(o.reply, err, reply)
            else Untouched(p, old(db.View()), db.View(), err, reply)
  {
    var p := ReadBid(conn);
    err, reply := p.Refused?, "";
    if p.Got? {
      err, reply := BidChecked(db, cal, p.req.uid, p.req.passwd, p.req.aid, p.req.value, now);
    }
    conn.Send(reply);
  }

  /* ---------- the client's commands ---------- */

  /** `"%.6s %.8s "`, what every command goes on with. */
  function Signed(uid: string, passwd: string): string { uid + " " + passwd + " " }

  lemma SignedRead(uid: string, passwd: string, more: string)
    requires ValidUid(uid) && ValidPasswd(passwd) && Free(more, '\0')
    ensures |Signed(uid, passwd)| == OPA_HEAD && Signed(uid, passwd)[OPA_HEAD - 1] == ' '
    ensures Credentials(Signed(uid, passwd) + more) == (uid, passwd, more)
  {
    var head := Signed(uid, passwd) + more;
    assert head == uid + [' '] + (passwd + [' '] + more);
    assert Free(head, '\0') by { SignedFree(uid, passwd); }
    CStrOfToken(head);
    forall i | 0 <= i < |passwd| ensures passwd[i] != ' ' { assert IsAlnum(passwd[i]); }
    StrtokField(uid, ' ', passwd + [' '] + more);
    StrtokField(passwd, ' ', more);
  }

  lemma SignedFree(uid: string, passwd: string)
    requires ValidUid(uid) && ValidPasswd(passwd)
    ensures Free(Signed(uid, passwd), '\0')
  {
    forall i | 0 <= i < |passwd| ensures passwd[i] != '\0' { assert IsAlnum(passwd[i]); }
  }

  /** The whole way of an OPA command: the header the client prints and the file it sends,
      cut up by the network in any way, reach the server as the request meant, the file
      identical byte for byte. */
  lemma OpenCommandRoundTrip(uid: string, passwd: string, name: string, sv: nat, ta: nat, fname: string,
                             content: string, splits: seq<nat>)
    requires ValidUid(uid) && ValidPasswd(passwd) && ValidName(name) && sv <= 999999 && ta <= 99999
    requires ValidFname(fname) && Free(fname, ' ') && Free(fname, '\0') && |content| <= MAX_FSIZE
    ensures var file := content[..SentLength(|content|, |content|)] + "\n";
            ParseOpen(Signed(uid, passwd) + (OpaArgsText(name, sv, ta, fname, |content|) + file), splits)
            == Got(Open(uid, passwd, OpenArgs(name, Dec(sv), Dec(ta), fname, Dec(|content|)), Some(content)))
  {
    var file := content[..SentLength(|content|, |content|)] + "\n";
    var head, tail := Signed(uid, passwd), OpaArgsText(name, sv, ta, fname, |content|) + file;
    SignedRead(uid, passwd, "");
    assert head + "" == head && (head + tail)[..OPA_HEAD] == head && (head + tail)[OPA_HEAD..] == tail;
    OpaRoundTrip(name, sv, ta, fname, |content|, file);
    TransferRoundTrip(content, splits);
  }

  /** The CLS command reaches the server as the request meant. */
  lemma CloseCommandRoundTrip(uid: string, passwd: string, aid: string, rest: string)
    requires ValidUid(uid) && ValidPasswd(passwd) && ValidAid(aid)
    ensures ParseClose(Signed(uid, passwd) + (aid + "\n") + rest) == Got(Close(uid, passwd, aid))
  {
    var head := Signed(uid, passwd) + (aid + "\n");
    SignedRead(uid, passwd, aid + "\n");
    assert (head + rest)[..CLS_HEAD] == head && (head + rest)[CLS_HEAD - 1] == '\n';
    assert aid + "\n" == aid + ['\n'] + "";
    StrtokField(aid, '\n', "");
  }

  /** A BID command is its fixed head and what the value reader makes of the rest. */
  lemma BidHead(head: string, value: string, uid: string, passwd: string, aid: string)
    requires |head| == CLS_HEAD && Credentials(head) == (uid, passwd, aid + " ") && ValidAid(aid)
    ensures ParseBid(head + value)
            == match ReadValue(value, "")
               case Ended => Hung
               case BadByte => Refused
               case Value(v, _) => Got(Bid(uid, passwd, aid, v))
  {
    assert (head + value)[..CLS_HEAD] == head && (head + value)[CLS_HEAD..] == value;
    assert aid + " " == aid + [' '] + "";
    StrtokField(aid, ' ', "");
  }

  lemma PlainValue(v: nat)
    requires v <= 999999
    ensures ReadValue(Dec(v) + "\n", "").Value? && ReadValue(Dec(v) + "\n", "").v == v
  {
    BidValueRoundTrip(0, v, "");
    var text := Dec(v) + "\n";
    assert Zeros(0) == "" && "" + Dec(v) + "\n" + "" == text;
  }

  /** The BID command too reaches it as meant, for every value the client lets through. */
  lemma BidCommandRoundTrip(uid: string, passwd: string, aid: string, v: nat)
    requires ValidUid(uid) && ValidPasswd(passwd) && ValidAid(aid) && v <= 999999
    ensures ParseBid(Signed(uid, passwd) + (aid + " ") + (Dec(v) + "\n")) == Got(Bid(uid, passwd, aid, v))
  {
    SignedRead(uid, passwd, aid + " ");
    BidHead(Signed(uid, passwd) + (aid + " "), Dec(v) + "\n", uid, passwd, aid);
    PlainValue(v);
  }
}
