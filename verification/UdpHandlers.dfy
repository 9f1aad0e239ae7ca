/** The handlers of server/udp.c step by step, each proved to do what the function of module
    Handlers says and to put exactly its reply into the datagram. */
module UdpHandlers {
  import opened Text
  import opened Names
  import opened Store
  import opened Handlers
  import opened RunInvariants
  import opened Records
  import opened RecordReply
  import opened Lists
  import opened Database

  /** What a handler leaves for the UDP thread to send: its return code, the buffer and the
      length. A record is followed by a second line feed that the length does not cover. */
  ghost predicate Sent(cal: Calendar, r: Reply, ok: bool, response: string, len: nat)
  {
    match r
    case BadArgs => !ok
    case Msg(t) => ok && response == t && len == |t|
    case Listing(cmd, entries) =>
      ok && Ids(entries) && response == ListReply(cmd, entries) && len == |response|
    case Record(st, bids, end) =>
      && ok && Forward(bids) && (end.Some? ==> 0 <= end.value.duration)
      && response == RecordText(cal, st, bids, end) + "\n" && len == |response| - 1
    case _ => false
  }

  /** `strtok(input, " ")`, then `strtok(NULL, "\n")`. */
  function UserFields(input: string): (string, string)
  {
    var t := Strtok(input, ' ');
    (Field(t), Field(Strtok(FieldRest(t), '\n')))
  }

  /** What the listing loops need. */
  ghost predicate Servable(db: Db)
  {
    && Legible(db.auctions) && Fits(db.auctions.Keys, 3)
    && (forall u :: u in db.hosted ==> Fits(db.hosted[u], 3))
    && (forall u :: u in db.bidded ==> Fits(db.bidded[u], 3))
    && forall i :: i in db.auctions ==> Readable(db.auctions[i])
  }

  lemma AuctionServes(a: Auction, now: int)
    requires AuctionOk(a) && (InClock(a) ==> Timely(a, now)) && ShutAtOnce(a, now) && now < TIME_LIMIT
    ensures Readable(a) && StartOk(a.start.value) && a.start.value.time < TIME_LIMIT
  {
    Powers();
    forall v | v in a.bids.Keys ensures v < Pow10(6) { assert v in a.bids; }
  }

  /** It follows from what every run keeps. */
  lemma ReadyServes(db: Db, now: int)
    requires Ready(db, now)
    ensures Servable(db)
  {
    Powers();
    forall i | i in db.auctions
      ensures Readable(db.auctions[i])
      ensures StartOk(db.auctions[i].start.value) && db.auctions[i].start.value.time < TIME_LIMIT
    {
      AuctionServes(db.auctions[i], now);
    }
    forall u, i | u in db.hosted && i in db.hosted[u] ensures i < Pow10(3) { assert i in OwnedBy(db.auctions, u); }
  }

  method BringUpToDate(db: Database, cal: Calendar, now: int)
    requires CalendarOk(cal) && Ready(db.View(), now)
    modifies db
    ensures db.View() == Update(old(db.View()), now) && Servable(db.View())
  {
    ReadyServes(db.View(), now);
    UpdateKeepsSane(db.View(), now);
    ReadyServes(Update(db.View(), now), now);
    db.UpdateDatabase(cal, now);
  }

  /** Counting from 6 and adding what the list builder says it wrote gives the length. */
  lemma ListSent(cal: Calendar, cmd: string, entries: seq<(nat, bool)>, text: string, written: nat)
    requires Ids(entries) && |cmd| == 3 && text == ListText(entries) + "\n" && written == |text|
    ensures written == 1 <==> entries == []
    ensures Sent(cal, Listing(cmd, entries), true, cmd + " OK" + text, 6 + written)
  {
    assert cmd + " OK" + text == cmd + " OK" + ListText(entries) + "\n";
  }

  /** How the three list handlers end: a list, or NOK when the builder wrote nothing but the
      line feed. */
  method SendStatuses(db: Database, cal: Calendar, cmd: string, nok: string, ids: set<nat>, suffix: string)
    returns (response: string, responseLen: nat)
    requires Fits(ids, 3) && |cmd| == 3 && |nok| == 8
    ensures var entries := Statuses(db.View(), ids);
            Sent(cal, if entries == [] then Msg(nok) else Listing(cmd, entries), true, response, responseLen)
  {
    response, responseLen := cmd + " OK", 6;
    var text, written := db.StatusList(ids, suffix);
    ListSent(cal, cmd, Statuses(db.View(), ids), text, written);
    if written == 1 {
      return nok, 8;
    }
    return response + text, responseLen + written;
  }

  /** How LIN, LOU and UNR take their input apart. */
  method ReadCredentials(input: string) returns (fields: Option<(string, string)>)
    ensures var (uid, passwd) := UserFields(input);
            fields == if ValidUid(uid) && ValidPasswd(passwd) then Some((uid, passwd)) else None
  {
    var uid := Strtok(input, ' ');
    if uid.NoToken? || !ValidUid(uid.text) {
      return None;
    }
    var passwd := Strtok(uid.rest, '\n');
    if passwd.NoToken? || !ValidPasswd(passwd.text) {
      return None;
    }
    return Some((uid.text, passwd.text));
  }

  method ServeLogin(db: Database, cal: Calendar, input: string)
    returns (ok: bool, response: string, responseLen: nat)
    modifies db
    ensures var (uid, passwd) := UserFields(input);
            var o := HandleLogin(old(db.View()), uid, passwd);
            db.View() == o.db && Sent(cal, o.reply, ok, response, responseLen)
  {
    response, responseLen := "", 0;
    var fields := ReadCredentials(input);
    if fields.None? {
      return false, response, responseLen;
    }
    var (uid, passwd) := fields.value;
    if uid !in db.passwords {
      db.RegisterUser(uid, passwd);
      return true, "RLI REG\n", 8;
    }
    if db.passwords[uid] != passwd {
      return true, "RLI NOK\n", 8;
    }
    var done := db.LogInUser(uid);
    if !done {
      return false, response, responseLen;
    }
    return true, "RLI OK\n", 7;
  }

  method ServeLogout(db: Database, cal: Calendar, input: string)
    returns (ok: bool, response: string, responseLen: nat)
    modifies db
    ensures var (uid, passwd) := UserFields(input);
            var o := HandleLogout(old(db.View()), uid, passwd);
            db.View() == o.db && Sent(cal, o.reply, ok, response, responseLen)
  {
    response, responseLen := "", 0;
    var fields := ReadCredentials(input);
    if fields.None? {
      return false, response, responseLen;
    }
    var (uid, passwd) := fields.value;
    if uid !in db.passwords {
      return true, "RLO UNR\n", 8;
    }
    if uid !in db.logins {
      return true, "RLO NOK\n", 8;
    }
    if db.passwords[uid] != passwd {
      return true, "RLO NOK\n", 8;
    }
    var done := db.LogOutUser(uid);
    if !done {
      return false, response, responseLen;
    }
    return true, "RLO OK\n", 7;
  }

  method ServeUnregister(db: Database, cal: Calendar, input: string)
    returns (ok: bool, response: string, responseLen: nat)
    modifies db
    ensures var (uid, passwd) := UserFields(input);
            var o := HandleUnregister(old(db.View()), uid, passwd);
            db.View() == o.db && Sent(cal, o.reply, ok, response, responseLen)
  {
    response, responseLen := "", 0;
    var fields := ReadCredentials(input);
    if fields.None? {
      return false, response, responseLen;
    }
    var (uid, passwd) := fields.value;
    if uid !in db.passwords {
      return true, "RUR UNR\n", 8;
    }
    if uid !in db.logins {
      return true, "RUR NOK\n", 8;
    }
    if db.passwords[uid] != passwd {
      return true, "RUR NOK\n", 8;
    }
    var done := db.UnregisterUser(uid);
    if !done {
      return false, response, responseLen;
    }
    return true, "RUR OK\n", 7;
  }

  method ServeList(db: Database, cal: Calendar, now: int)
    returns (ok: bool, response: string, responseLen: nat)
    requires CalendarOk(cal) && Ready(db.View(), now)
    modifies db
    ensures var o := HandleList(old(db.View()), now, true);
            db.View() == o.db && Sent(cal, o.reply, ok, response, responseLen)
  {
    BringUpToDate(db, cal, now);
    response, responseLen := SendStatuses(db, cal, "RLS", "RLS NOK\n", db.auctions.Keys, "");
    return true, response, responseLen;
  }

  method ServeMyAuctions(db: Database, cal: Calendar, input: string, now: int)
    returns (ok: bool, response: string, responseLen: nat)
    requires CalendarOk(cal) && Ready(db.View(), now)
    modifies db
    ensures var o := HandleMyAuctions(old(db.View()), now, Field(Strtok(input, '\n')), true);
            db.View() == o.db && Sent(cal, o.reply, ok, response, responseLen)
  {
    response, responseLen := "", 0;
    var uid := Strtok(input, '\n');
    if uid.NoToken? || !ValidUid(uid.text) {
      return false, response, responseLen;
    }
    if uid.text !in db.passwords {
      return true, "RMA NOK\n", 8;
    }
    if uid.text !in db.logins {
      return true, "RMA NLG\n", 8;
    }
    BringUpToDate(db, cal, now);
    if uid.text !in db.hosted {
      return false, response, responseLen;
    }
    response, responseLen := SendStatuses(db, cal, "RMA", "RMA NOK\n", db.hosted[uid.text], ".txt");
    return true, response, responseLen;
  }

  method ServeMyBids(db: Database, cal: Calendar, input: string, now: int)
    returns (ok: bool, response: string, responseLen: nat)
    requires CalendarOk(cal) && Ready(db.View(), now)
    modifies db
    ensures var o := HandleMyBids(old(db.View()), now, Field(Strtok(input, '\n')), true);
            db.View() == o.db && Sent(cal, o.reply, ok, response, responseLen)
  {
    response, responseLen := "", 0;
    var uid := Strtok(input, '\n');
    if uid.NoToken? || !ValidUid(uid.text) {
      return false, response, responseLen;
    }
    if uid.text !in db.passwords {
      return true, "RMB NOK\n", 8;
    }
    if uid.text !in db.logins {
      return true, "RMB NLG\n", 8;
    }
    BringUpToDate(db, cal, now);
    if uid.text !in db.bidded {
      return false, response, responseLen;
    }
    response, responseLen := SendStatuses(db, cal, "RMB", "RMB NOK\n", db.bidded[uid.text], ".txt");
    return true, response, responseLen;
  }

  /** The header of a record, token by token from the START line; `None` when a check fails. */
  method RecordHead(cal: Calendar, st: Start) returns (head: Option<string>)
    requires CalendarOk(cal) && StartOk(st) && st.time < TIME_LIMIT
    ensures head == if !Sound(st) then None else Some("RRC OK" + Spaced(HeaderWords(cal, st)))
  {
    StartReads(cal, st, 128);
    match RecordHeader(cal.valid, FGets(StartLine(cal, st), 128))
    case None => return None;
    case Some(w) => return Some("RRC OK" + Spaced([w[0], w[1], w[2], w[3], w[5], w[6], w[4]]));
  }

  lemma RecordSent(cal: Calendar, st: Start, bids: seq<(nat, BidFile)>, end: Option<EndFile>,
                   head: string, text: string)
    requires Forward(bids) && (end.Some? ==> 0 <= end.value.duration)
    requires head == "RRC OK" + Spaced(HeaderWords(cal, st))
    requires text == BidsText(cal, bids) + EndText(cal, end) + "\n"
    ensures Sent(cal, Record(st, bids, end), true, head + text + "\n", |head| + |text|)
  {
    SameRecord(cal, st, bids, end, head, text);
  }

  lemma SameRecord(cal: Calendar, st: Start, bids: seq<(nat, BidFile)>, end: Option<EndFile>,
                   head: string, text: string)
    requires Forward(bids) && (end.Some? ==> 0 <= end.value.duration)
    requires head == "RRC OK" + Spaced(HeaderWords(cal, st))
    requires text == BidsText(cal, bids) + EndText(cal, end) + "\n"
    ensures head + text == RecordText(cal, st, bids, end)
  {
    var bidsText, endText := BidsText(cal, bids), EndText(cal, end);
    assert head + (bidsText + endText + "\n") == head + bidsText + endText + "\n";
  }

  method ServeShowRecord(db: Database, cal: Calendar, input: string, now: int)
    returns (ok: bool, response: string, responseLen: nat)
    requires CalendarOk(cal) && Ready(db.View(), now)
    modifies db
    ensures var o := HandleShowRecord(old(db.View()), now, Field(Strtok(input, '\n')), true);
            db.View() == o.db && Sent(cal, o.reply, ok, response, responseLen)
  {
    response, responseLen := "", 0;
    var aid := Strtok(input, '\n');
    if aid.NoToken? || !ValidAid(aid.text) {
      return false, response, responseLen;
    }
    var id := Atoi(aid.text);
    if !(0 < id <= db.aucCount) {
      return true, "RRC NOK\n", 8;
    }
    BringUpToDate(db, cal, now);
    if id !in db.auctions || db.auctions[id].start.None? {
      return false, response, responseLen;
    }
    var head := RecordHead(cal, db.auctions[id].start.value);
    if head.None? {
      return false, response, responseLen;
    }
    response := head.value;
    responseLen := |response|;
    var endLf: bool := *; // whichever of the two functions wrote the END
    var text, written := db.GetAuctionBiddersList(cal, id, endLf);
    RecordSent(cal, db.auctions[id].start.value, ShownBids(db.auctions[id]), db.auctions[id].end, response, text);
    return true, response + text + "\n", responseLen + written;
  }
}
