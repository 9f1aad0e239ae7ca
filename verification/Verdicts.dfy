/** What each command is answered with, read off the database it finds: which fields are well
    formed, letter by letter, and which check decides. */
module Verdicts {
  import opened Text
  import opened Names
  import opened Store
  import opened Handlers
  import opened RunInvariants

  /* ---------- fields ---------- */

  predicate Digits(s: string, least: nat, most: nat)
  {
    least <= |s| <= most && forall i :: 0 <= i < |s| ==> '0' <= s[i] <= '9'
  }

  predicate LetterOrDigit(c: char) { '0' <= c <= '9' || 'a' <= c <= 'z' || 'A' <= c <= 'Z' }

  predicate UserText(uid: string) { Digits(uid, 6, 6) }

  predicate PasswordText(pw: string) { |pw| == 8 && forall i :: 0 <= i < |pw| ==> LetterOrDigit(pw[i]) }

  predicate AuctionText(aid: string) { Digits(aid, 3, 3) }

  /** No lower limit: an empty name passes. */
  predicate NameText(name: string)
  {
    |name| <= 10 && forall i :: 0 <= i < |name| ==> LetterOrDigit(name[i]) || name[i] in {'-', '_', '@', '!', '?'}
  }

  predicate FileText(fname: string)
  {
    && 1 <= |fname| <= 24 && fname[0] != '.'
    && forall i :: 0 <= i < |fname| ==> fname[i] !in {'/', '\\', ':', '*', '?', '!', '|', '`', '~', '#', '$', '%'}
  }

  predicate OpenText(uid: string, pw: string, a: OpenArgs)
  {
    && UserText(uid) && PasswordText(pw) && NameText(a.name) && Digits(a.sv, 1, 6) && Digits(a.ta, 1, 5)
    && FileText(a.fname) && Digits(a.fsize, 1, 8)
  }

  lemma FieldsAgree(s: string)
    ensures ValidUid(s) <==> UserText(s)
    ensures ValidPasswd(s) <==> PasswordText(s)
    ensures ValidAid(s) <==> AuctionText(s)
    ensures ValidName(s) <==> NameText(s)
    ensures ValidFname(s) <==> FileText(s)
    ensures ValidStartValue(s) <==> Digits(s, 1, 6)
    ensures ValidTimeActive(s) <==> Digits(s, 1, 5)
    ensures ValidFsize(s) <==> Digits(s, 1, 8)
  {
  }

  lemma OpenFieldsAgree(uid: string, pw: string, a: OpenArgs)
    ensures ValidUid(uid) && ValidPasswd(pw) && ArgsValid(a) <==> OpenText(uid, pw, a)
  {
    FieldsAgree(uid);
    FieldsAgree(pw);
    FieldsAgree(a.name);
    FieldsAgree(a.sv);
    FieldsAgree(a.ta);
    FieldsAgree(a.fname);
    FieldsAgree(a.fsize);
  }

  lemma SignedFields(uid: string, pw: string, aid: string)
    ensures ValidUid(uid) <==> UserText(uid)
    ensures ValidPasswd(pw) <==> PasswordText(pw)
    ensures ValidAid(aid) <==> AuctionText(aid)
  {
    FieldsAgree(uid);
    FieldsAgree(pw);
    FieldsAgree(aid);
  }

  /* ---------- time ---------- */

  /** Can the START line be read back, and is the time not over; past 2^31 there is none. */
  predicate ReadBack(st: Start) { st.name != "" && forall i :: 0 <= i < |st.fname| ==> st.fname[i] != '\n' }

  predicate TimeLeft(st: Start, now: int)
  {
    !ReadBack(st) || (st.time < 0x8000_0000 && now < st.time + st.ta)
  }

  /** END after an update at time `now`. */
  lemma EndAfterUpdate(a: Auction, now: int)
    requires a.start.Some? && a.start.value.ta <= 99999 && 0 < a.start.value.time <= now
    ensures Expire(a, now).end
            == if a.end.Some? then a.end
               else if TimeLeft(a.start.value, now) then None
               else Some(EndFile(Int32(a.start.value.time) + a.start.value.ta, a.start.value.ta))
  {
    assert Sound(a.start.value) <==> ReadBack(a.start.value);
    if a.start.value.time < 0x8000_0000 {
      assert Int32(a.start.value.time) == a.start.value.time;
    } else if a.end.None? && Sound(a.start.value) {
      ExpiresAtOnce(a, now);
    }
  }

  predicate Over(a: Auction, now: int) { a.end.Some? || (a.start.Some? && !TimeLeft(a.start.value, now)) }

  /* ---------- users ---------- */

  predicate Signed(s: Db, uid: string, pw: string) { uid in s.logins && Authentic(s, uid, pw) }

  lemma LoginVerdict(s: Db, now: int, uid: string, pw: string)
    requires UsersOk(s)
    ensures Handle(s, now, Login(uid, pw), true).reply
            == if !UserText(uid) || !PasswordText(pw) then BadArgs
               else if uid !in s.passwords then Msg("RLI REG\n")
               else if s.passwords[uid] != pw then Msg("RLI NOK\n")
               else Msg("RLI OK\n")
  {
    SignedFields(uid, pw, "");
  }

  lemma LogoutVerdict(s: Db, now: int, uid: string, pw: string)
    requires UsersOk(s)
    ensures Handle(s, now, Logout(uid, pw), true).reply
            == if !UserText(uid) || !PasswordText(pw) then BadArgs
               else if uid !in s.passwords then Msg("RLO UNR\n")
               else if !Signed(s, uid, pw) then Msg("RLO NOK\n")
               else Msg("RLO OK\n")
  {
    SignedFields(uid, pw, "");
  }

  lemma UnregisterVerdict(s: Db, now: int, uid: string, pw: string)
    requires UsersOk(s)
    ensures Handle(s, now, Unreg(uid, pw), true).reply
            == if !UserText(uid) || !PasswordText(pw) then BadArgs
               else if uid !in s.passwords then Msg("RUR UNR\n")
               else if !Signed(s, uid, pw) then Msg("RUR NOK\n")
               else Msg("RUR OK\n")
  {
    SignedFields(uid, pw, "");
  }

  /* ---------- auctions ---------- */

  /** OPA: accepted under the next number, or refused; the owner's other auctions do not matter. */
  lemma OpenVerdict(s: Db, now: int, uid: string, pw: string, a: OpenArgs, content: Option<string>)
    requires IdsOk(s) && UsersOk(s)
    ensures Handle(s, now, Open(uid, pw, a, content), true).reply
            == if !OpenText(uid, pw, a) || Atoi(a.sv) == 999999 || !(1 <= Atoi(a.fsize) <= 10000000) then BadArgs
               else if !Signed(s, uid, pw) then Msg("ROA NLG\n")
               else if s.count == 999 || content.None? then Msg("ROA NOK\n")
               else Opened(s.count + 1)
  {
    OpenFieldsAgree(uid, pw, a);
  }

  lemma CloseVerdict(s: Db, now: int, uid: string, pw: string, aid: string)
    requires IdsOk(s) && UsersOk(s) && AuctionsOk(s.auctions)
    ensures var o, id := Handle(s, now, Close(uid, pw, aid), true), Atoi(aid);
            && o.reply
               == (if !UserText(uid) || !PasswordText(pw) || !AuctionText(aid) then BadArgs
                   else if !Signed(s, uid, pw) then Msg("RCL NLG\n")
                   else if id !in s.auctions then Msg("RCL EAU\n")
                   else if s.auctions[id].start.value.owner != uid then Msg("RCL EOW\n")
                   else if Expire(s.auctions[id], now).end.Some? then Msg("RCL END\n")
                   else if !ReadBack(s.auctions[id].start.value) then Msg("RCL NOK\n")
                   else Msg("RCL OK\n"))
            && (o.reply == Msg("RCL OK\n") ==>
                  o.db.auctions == ExpireAll(s.auctions, now)[id :=
                    s.auctions[id].(end := Some(EndFile(now, now - s.auctions[id].start.value.time)))])
            && (o.reply != Msg("RCL OK\n") ==> o.db in {s, Update(s, now)})
  {
    SignedFields(uid, pw, aid);
    assert "RCL END\n"[4] == 'E' && "RCL NOK\n"[4] == 'N' && "RCL OK\n"[4] == 'O' && "RCL NLG\n"[4] == 'N';
    assert "RCL EAU\n"[4] == 'E' && "RCL EOW\n"[4] == 'E';
    if Atoi(aid) in s.auctions { assert AuctionOk(s.auctions[Atoi(aid)]); }
  }

  /** What `handle_bid` takes for the start value: of an unnamed auction it is the time active. */
  function Least(st: Start): nat { if st.name == "" then st.ta else st.sv }

  predicate TooLow(a: Auction, value: nat)
    requires a.start.Some?
  {
    value <= Least(a.start.value) || exists v :: v in a.bids && value <= v
  }

  predicate Broken(st: Start) { exists i :: 0 <= i < |st.fname| && st.fname[i] == '\n' }

  /** The comparison with the last bid is one with the start value and every bid. */
  lemma LowExactly(d: Db, id: nat, value: nat)
    requires id in d.auctions && AuctionOk(d.auctions[id]) && Stuck(d.auctions[id]) && Asked(d.auctions[id].start.value).Some?
    ensures var last := LastBid(d, id).value;
            value <= (if last == 0 then Asked(d.auctions[id].start.value).value else last)
            <==> TooLow(d.auctions[id], value)
  {
    var a := d.auctions[id];
    if a.bids.Keys == {} {
      assert forall v :: v in a.bids ==> v in a.bids.Keys;
    } else {
      var m := Max(a.bids.Keys);
      assert m in a.bids && forall v :: v in a.bids ==> v in a.bids.Keys && v <= m;
      assert a.start.value.name != "";
    }
  }

  /** The last steps of BID, on a database that is up to date. */
  lemma OfferVerdict(d: Db, now: int, id: nat, uid: Uid, value: nat)
    requires id in d.auctions && uid in d.bidded && AuctionOk(d.auctions[id]) && Stuck(d.auctions[id])
    ensures var a, st := d.auctions[id], d.auctions[id].start.value;
            var o := Offer(d, now, id, uid, value, st);
            && o.reply == (if Broken(st) then Crash
                           else if TooLow(a, value) then Msg("RBD REF\n")
                           else if st.name == "" then BadArgs
                           else Msg("RBD ACC\n"))
            && o.db.auctions == (if Broken(st) || TooLow(a, value) || st.name == "" then d.auctions
                                 else d.auctions[id := a.(bids := a.bids[value := BidFile(uid, now, now - st.time)])])
  {
    var st := d.auctions[id].start.value;
    assert Broken(st) <==> !Free(st.fname, '\n');
    if !Broken(st) { LowExactly(d, id, value); }
  }

  lemma BidVerdict(s: Db, now: int, uid: string, pw: string, aid: string, value: nat)
    requires IdsOk(s) && UsersOk(s) && AuctionsOk(s.auctions) && AllStuck(s.auctions)
    ensures var id := Atoi(aid);
            Handle(s, now, Bid(uid, pw, aid, value), true).reply
            == (if !UserText(uid) || !PasswordText(pw) || !AuctionText(aid) then BadArgs
                else if uid !in s.passwords then Msg("RBD NOK\n")
                else if !Signed(s, uid, pw) then Msg("RBD NLG\n")
                else if id !in s.auctions then Msg("RBD ERR\n")
                else if s.auctions[id].start.value.owner == uid then Msg("RBD ILG\n")
                else if Expire(s.auctions[id], now).end.Some? then Msg("RBD NOK\n")
                else if Broken(s.auctions[id].start.value) then Crash
                else if TooLow(s.auctions[id], value) then Msg("RBD REF\n")
                else if s.auctions[id].start.value.name == "" then BadArgs
                else Msg("RBD ACC\n"))
  {
    SignedFields(uid, pw, aid);
    var id, d := Atoi(aid), Update(s, now);
    if id in s.auctions {
      assert AuctionOk(s.auctions[id]) && Stuck(s.auctions[id]);
      if d.auctions[id].end.None? && uid in d.bidded {
        assert d.auctions[id] == s.auctions[id];
        OfferVerdict(d, now, id, uid, value);
      }
    }
  }

  lemma AcceptedText()
    ensures Msg("RBD ACC\n") !in {Msg("RBD NOK\n"), Msg("RBD NLG\n"), Msg("RBD ERR\n"), Msg("RBD ILG\n"), Msg("RBD REF\n")}
  {
    assert "RBD ACC\n"[4] == 'A' && "RBD NOK\n"[4] == 'N' && "RBD NLG\n"[4] == 'N';
    assert "RBD ERR\n"[4] == 'E' && "RBD ILG\n"[4] == 'I' && "RBD REF\n"[4] == 'R';
  }

  /** What BID writes, and when. */
  lemma BidEffect(s: Db, now: int, uid: string, pw: string, aid: string, value: nat)
    requires IdsOk(s) && UsersOk(s) && AuctionsOk(s.auctions) && AllStuck(s.auctions)
    ensures var o, id := Handle(s, now, Bid(uid, pw, aid, value), true), Atoi(aid);
            && (o.reply == Msg("RBD ACC\n") ==>
                  && id in s.auctions && Expire(s.auctions[id], now) == s.auctions[id]
                  && var a := s.auctions[id];
                     o.db.auctions == ExpireAll(s.auctions, now)[id :=
                       a.(bids := a.bids[value := BidFile(uid, now, now - a.start.value.time)])])
            && (o.reply != Msg("RBD ACC\n") ==> o.db.auctions in {s.auctions, ExpireAll(s.auctions, now)})
  {
    var id, d := Atoi(aid), Update(s, now);
    BidVerdict(s, now, uid, pw, aid, value);
    AcceptedText();
    BidWrites(s, now, uid, pw, aid, value, true);
    if id in s.auctions {
      assert AuctionOk(s.auctions[id]) && Stuck(s.auctions[id]);
      if d.auctions[id].end.None? && uid in d.bidded {
        assert d.auctions[id] == s.auctions[id];
        OfferVerdict(d, now, id, uid, value);
      }
    }
  }

  /* ---------- lists and records ---------- */

  predicate Ascend(entries: seq<(nat, bool)>) { forall j, k :: 0 <= j < k < |entries| ==> entries[j].0 < entries[k].0 }

  predicate Listed(entries: seq<(nat, bool)>, id: nat) { exists k :: 0 <= k < |entries| && entries[k].0 == id }

  /** Each of `ids` once, ascending, with whether its auction is still running. */
  ghost predicate Lists(s: Db, now: int, ids: set<nat>, entries: seq<(nat, bool)>)
  {
    && Ascend(entries) && (forall id :: id in ids <==> Listed(entries, id))
    && forall k :: 0 <= k < |entries| ==>
         entries[k].0 in s.auctions && entries[k].1 == !Over(s.auctions[entries[k].0], now)
  }

  lemma OverExactly(s: Db, now: int, id: nat)
    requires id in s.auctions && AuctionOk(s.auctions[id]) && s.auctions[id].start.value.time <= now
    ensures Finished(Update(s, now), id) <==> Over(s.auctions[id], now)
  {
    EndAfterUpdate(s.auctions[id], now);
  }

  lemma StatusesList(s: Db, now: int, ids: set<nat>)
    requires AuctionsOk(s.auctions) && AllShut(s.auctions, now) && ids <= s.auctions.Keys
    ensures Lists(s, now, ids, Statuses(Update(s, now), ids))
  {
    var sorted := Sorted(ids);
    SortedLists(s, now, ids, sorted, Statuses(Update(s, now), ids));
  }

  lemma SortedLists(s: Db, now: int, ids: set<nat>, sorted: seq<nat>, entries: seq<(nat, bool)>)
    requires AuctionsOk(s.auctions) && AllShut(s.auctions, now) && ids <= s.auctions.Keys
    requires IsSorted(sorted, ids) && |entries| == |sorted|
    requires forall k :: 0 <= k < |sorted| ==> entries[k] == (sorted[k], !Finished(Update(s, now), sorted[k]))
    ensures Lists(s, now, ids, entries)
  {
    forall k | 0 <= k < |entries|
      ensures entries[k].0 in s.auctions && entries[k].1 == !Over(s.auctions[entries[k].0], now)
    {
      assert sorted[k] in sorted;
      assert AuctionOk(s.auctions[sorted[k]]) && ShutAtOnce(s.auctions[sorted[k]], now);
      OverExactly(s, now, sorted[k]);
    }
    forall id ensures id in ids <==> Listed(entries, id) {
      if id in ids {
        var k :| 0 <= k < |sorted| && sorted[k] == id;
        assert entries[k].0 == id;
      }
      if k :| 0 <= k < |entries| && entries[k].0 == id { assert sorted[k] in sorted; }
    }
  }

  lemma ListVerdict(s: Db, now: int) returns (entries: seq<(nat, bool)>)
    requires AuctionsOk(s.auctions) && AllShut(s.auctions, now)
    ensures Lists(s, now, s.auctions.Keys, entries)
    ensures Handle(s, now, List, true).reply == if entries == [] then Msg("RLS NOK\n") else Listing("RLS", entries)
  {
    entries := Statuses(Update(s, now), s.auctions.Keys);
    StatusesList(s, now, s.auctions.Keys);
    assert Update(s, now).auctions.Keys == s.auctions.Keys;
  }

  lemma MyAuctionsVerdict(s: Db, now: int, uid: string) returns (entries: seq<(nat, bool)>)
    requires UsersOk(s) && AuctionsOk(s.auctions) && AllShut(s.auctions, now) && HostedExact(s)
    ensures Lists(s, now, OwnedBy(s.auctions, uid), entries)
    ensures Handle(s, now, MyAuctions(uid), true).reply
            == if !UserText(uid) then BadArgs
               else if uid !in s.passwords then Msg("RMA NOK\n")
               else if uid !in s.logins then Msg("RMA NLG\n")
               else if entries == [] then Msg("RMA NOK\n") else Listing("RMA", entries)
  {
    FieldsAgree(uid);
    entries := Statuses(Update(s, now), OwnedBy(s.auctions, uid));
    StatusesList(s, now, OwnedBy(s.auctions, uid));
  }

  lemma MyBidsVerdict(s: Db, now: int, uid: string) returns (entries: seq<(nat, bool)>)
    requires UsersOk(s) && AuctionsOk(s.auctions) && AllShut(s.auctions, now) && BiddedExact(s)
    ensures Lists(s, now, BidOnBy(s.auctions, uid), entries)
    ensures Handle(s, now, MyBids(uid), true).reply
            == if !UserText(uid) then BadArgs
               else if uid !in s.passwords then Msg("RMB NOK\n")
               else if uid !in s.logins then Msg("RMB NLG\n")
               else if entries == [] then Msg("RMB NOK\n") else Listing("RMB", entries)
  {
    FieldsAgree(uid);
    entries := Statuses(Update(s, now), BidOnBy(s.auctions, uid));
    StatusesList(s, now, BidOnBy(s.auctions, uid));
  }

  lemma RecordVerdict(s: Db, now: int, aid: string)
    requires IdsOk(s) && AuctionsOk(s.auctions)
    ensures var id := Atoi(aid);
            Handle(s, now, ShowRecord(aid), true).reply
            == if !AuctionText(aid) then BadArgs
               else if id !in s.auctions then Msg("RRC NOK\n")
               else if !ReadBack(s.auctions[id].start.value) then BadArgs
               else Record(s.auctions[id].start.value, ShownBids(s.auctions[id]), Expire(s.auctions[id], now).end)
  {
    FieldsAgree(aid);
    if Atoi(aid) in s.auctions {
      assert AuctionOk(s.auctions[Atoi(aid)]);
      SameBidsShown(s.auctions[Atoi(aid)], Expire(s.auctions[Atoi(aid)], now));
    }
  }

  lemma SameBidsShown(a: Auction, b: Auction)
    requires a.bids == b.bids
    ensures ShownBids(a) == ShownBids(b)
  {
    LargestRecorded(a);
  }
}
