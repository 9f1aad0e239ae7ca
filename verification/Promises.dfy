/** The reply to every request of every run, told from the requests and replies before it alone:
    who has registered, logged in, opened, bid and closed what, and the clock. */
module Promises {
  import opened Text
  import opened Store
  import opened Handlers
  import opened Runs
  import opened RunInvariants
  import opened Verdicts
  import opened History
  import C = ClientView
  import A = AssetDelivery
  import R = RecordReply
  import opened Records

  /* ---------- users ---------- */

  /** `u` is logged in and `pw` is the password. */
  ghost predicate Trusted(log: seq<Entry>, j: nat, u: Uid, pw: Passwd)
    requires j <= |log|
  {
    SignedIn(log, j, u) && RegisteredWith(log, j, u, pw)
  }

  lemma {:induction false} UserFacts(evs: seq<Event>, i: nat, u: Uid, pw: Passwd)
    requires ClockOk(evs) && i < |evs|
    ensures var s, log := After(evs[..i]), Log(evs);
            && (u in s.passwords <==> Registered(log, i, u))
            && (Authentic(s, u, pw) <==> RegisteredWith(log, i, u, pw))
            && (u in s.logins <==> SignedIn(log, i, u))
            && (Signed(s, u, pw) <==> Trusted(log, i, u, pw))
  {
    KnownIsHistory(evs, i, u);
    PasswordsAreHistory(evs, i, u, pw);
    LoginsAreHistory(evs, i, u);
  }

  /** LIN: a user nobody has registered is registered; a registered one needs the password. */
  lemma {:induction false} LoginAnswered(evs: seq<Event>, i: nat)
    requires ClockOk(evs) && i < |evs| && evs[i].req.Login?
    ensures var log, u, pw := Log(evs), evs[i].req.uid, evs[i].req.passwd;
            ReplyAt(evs, i)
            == if !UserText(u) || !PasswordText(pw) then BadArgs
               else if !Registered(log, i, u) then Msg("RLI REG\n")
               else if !RegisteredWith(log, i, u, pw) then Msg("RLI NOK\n")
               else Msg("RLI OK\n")
  {
    EventFacts(evs, i);
    UserFacts(evs, i, evs[i].req.uid, evs[i].req.passwd);
    LoginVerdict(After(evs[..i]), evs[i].now, evs[i].req.uid, evs[i].req.passwd);
  }

  /** LOU and UNR: exactly a logged-in user with the password is served. */
  lemma {:induction false} LogoutAnswered(evs: seq<Event>, i: nat)
    requires ClockOk(evs) && i < |evs| && evs[i].req.Logout?
    ensures var log, u, pw := Log(evs), evs[i].req.uid, evs[i].req.passwd;
            ReplyAt(evs, i)
            == if !UserText(u) || !PasswordText(pw) then BadArgs
               else if !Registered(log, i, u) then Msg("RLO UNR\n")
               else if !Trusted(log, i, u, pw) then Msg("RLO NOK\n")
               else Msg("RLO OK\n")
  {
    EventFacts(evs, i);
    UserFacts(evs, i, evs[i].req.uid, evs[i].req.passwd);
    LogoutVerdict(After(evs[..i]), evs[i].now, evs[i].req.uid, evs[i].req.passwd);
  }

  lemma {:induction false} UnregisterAnswered(evs: seq<Event>, i: nat)
    requires ClockOk(evs) && i < |evs| && evs[i].req.Unreg?
    ensures var log, u, pw := Log(evs), evs[i].req.uid, evs[i].req.passwd;
            ReplyAt(evs, i)
            == if !UserText(u) || !PasswordText(pw) then BadArgs
               else if !Registered(log, i, u) then Msg("RUR UNR\n")
               else if !Trusted(log, i, u, pw) then Msg("RUR NOK\n")
               else Msg("RUR OK\n")
  {
    EventFacts(evs, i);
    UserFacts(evs, i, evs[i].req.uid, evs[i].req.passwd);
    UnregisterVerdict(After(evs[..i]), evs[i].now, evs[i].req.uid, evs[i].req.passwd);
  }

  /* ---------- opens ---------- */

  /** How many opens have been accepted before point `j`. */
  function OpenCount(log: seq<Entry>, j: nat): nat
    requires j <= |log|
  {
    if j == 0 then 0 else OpenCount(log, j - 1) + (if log[j - 1].req.Open? && log[j - 1].reply.Opened? then 1 else 0)
  }

  lemma CountChange(s: Db, now: int, req: Request)
    requires IdsOk(s) && IdsOk(Handle(s, now, req, true).db)
    ensures var o := Handle(s, now, req, true);
            o.db.count == s.count + if req.Open? && o.reply.Opened? then 1 else 0
  {
    if req.Open? {
      OpenIsAtomic(s, now, req.uid, req.passwd, req.args, req.content);
    } else {
      HandleKeys(s, now, req);
      SameCount(s, Handle(s, now, req, true).db);
    }
  }

  lemma SameCount(s: Db, d: Db)
    requires IdsOk(s) && IdsOk(d) && d.auctions.Keys == s.auctions.Keys
    ensures d.count == s.count
  {
    assert s.count != 0 ==> s.count in s.auctions.Keys;
    assert d.count != 0 ==> d.count in d.auctions.Keys;
    assert s.count in d.auctions.Keys <==> s.count in s.auctions.Keys;
    assert d.count in d.auctions.Keys <==> d.count in s.auctions.Keys;
  }

  lemma {:induction false} CountIsHistory(evs: seq<Event>, j: nat)
    requires ClockOk(evs) && j <= |evs|
    ensures After(evs[..j]).count == OpenCount(Log(evs), j)
  {
    if j > 0 {
      CountIsHistory(evs, j - 1);
      EventFacts(evs, j - 1);
      EventFacts(evs, j);
      OneMore(evs, j - 1);
      CountChange(After(evs[..j - 1]), evs[j - 1].now, evs[j - 1].req);
    } else {
      AtFirst(evs, "", "");
    }
  }

  /** OPA: accepted, under the next number, if and only if every field is well formed, the start
      value is not 999999, the size is 1 to 10^7, the user is logged in and gives the password,
      fewer than 999 opens have been accepted before, and the file has arrived. Nothing else
      matters, and every refusal has its reply. */
  lemma {:induction false} OpenAnswered(evs: seq<Event>, i: nat)
    requires ClockOk(evs) && i < |evs| && evs[i].req.Open?
    ensures var log, req := Log(evs), evs[i].req;
            ReplyAt(evs, i)
            == if !OpenText(req.uid, req.passwd, req.args) then BadArgs
               else if Atoi(req.args.sv) == 999999 || Atoi(req.args.fsize) < 1 || 10000000 < Atoi(req.args.fsize) then BadArgs
               else if !Trusted(log, i, req.uid, req.passwd) then Msg("ROA NLG\n")
               else if OpenCount(log, i) >= 999 || req.content.None? then Msg("ROA NOK\n")
               else Opened(OpenCount(log, i) + 1)
  {
    EventFacts(evs, i);
    UserFacts(evs, i, evs[i].req.uid, evs[i].req.passwd);
    CountIsHistory(evs, i);
    OpenVerdict(After(evs[..i]), evs[i].now, evs[i].req.uid, evs[i].req.passwd, evs[i].req.args, evs[i].req.content);
  }

  /* ---------- closes and bids ---------- */

  /** Closed by its owner, or out of time. */
  ghost predicate Ended(log: seq<Entry>, j: nat, id: nat, now: int)
    requires j <= |log| && OnOffer(log, j, id)
  {
    Closed(log, j, id) || !TimeLeft(Offered(log, j, id), now)
  }

  /** The END anyone sees at time `now`. */
  ghost predicate EndDue(log: seq<Entry>, j: nat, id: nat, now: int, end: Option<EndFile>)
    requires j <= |log| && OnOffer(log, j, id)
  {
    var st := Offered(log, j, id);
    if Closed(log, j, id) then
      end.Some? && forall k: nat :: ClosedBy(log, k, j, id) ==> end == Some(EndFile(log[k].now, log[k].now - st.time))
    else if TimeLeft(st, now) then end == None
    else end == Some(EndFile(Int32(st.time) + st.ta, st.ta))
  }

  lemma {:induction false} EndFrom(log: seq<Entry>, j: nat, id: nat, a: Auction, before: int, now: int)
    requires j <= |log| && OnOffer(log, j, id) && a.start == Some(Offered(log, j, id))
    requires EndTold(log, j, id, a.start.value, a.end, before)
    requires 0 < a.start.value.time <= before <= now && a.start.value.ta <= 99999
    ensures EndDue(log, j, id, now, Expire(a, now).end)
    ensures Expire(a, now).end.Some? <==> Ended(log, j, id, now)
    ensures Over(a, now) <==> Ended(log, j, id, now)
  {
    EndAfterUpdate(a, now);
  }

  lemma {:induction false} AuctionFacts(evs: seq<Event>, i: nat, id: nat)
    requires ClockOk(evs) && i < |evs| && OnOffer(Log(evs), i, id)
    ensures id in After(evs[..i]).auctions
    ensures var a, before := After(evs[..i]).auctions[id], Clock(evs[..i]);
            && AuctionOk(a) && Stuck(a) && a.start == Some(Offered(Log(evs), i, id))
            && EndTold(Log(evs), i, id, a.start.value, a.end, before)
            && 0 < a.start.value.time <= before <= evs[i].now && a.start.value.ta <= 99999
  {
    EventFacts(evs, i);
    StartIsHistory(evs, i, id);
    EndsAreHistory(evs, i, id);
    ClockPrefix(evs, i);
    RunKeepsShut(evs[..i]);
    assert ShutAtOnce(After(evs[..i]).auctions[id], Clock(evs[..i])) && Stuck(After(evs[..i]).auctions[id]);
  }

  lemma {:induction false} EndFacts(evs: seq<Event>, i: nat, id: nat)
    requires ClockOk(evs) && i < |evs| && OnOffer(Log(evs), i, id)
    ensures id in After(evs[..i]).auctions
    ensures var a, now := After(evs[..i]).auctions[id], evs[i].now;
            && AuctionOk(a) && Stuck(a) && a.start == Some(Offered(Log(evs), i, id))
            && EndDue(Log(evs), i, id, now, Expire(a, now).end)
            && (Expire(a, now).end.Some? <==> Ended(Log(evs), i, id, now))
            && (Over(a, now) <==> Ended(Log(evs), i, id, now))
  {
    AuctionFacts(evs, i, id);
    EndFrom(Log(evs), i, id, After(evs[..i]).auctions[id], Clock(evs[..i]), evs[i].now);
  }

  /** CLS: every verdict. */
  lemma {:induction false} CloseAnswered(evs: seq<Event>, i: nat)
    requires ClockOk(evs) && i < |evs| && evs[i].req.Close?
    ensures var log, req, id := Log(evs), evs[i].req, Atoi(evs[i].req.aid);
            ReplyAt(evs, i)
            == if !UserText(req.uid) || !PasswordText(req.passwd) || !AuctionText(req.aid) then BadArgs
               else if !Trusted(log, i, req.uid, req.passwd) then Msg("RCL NLG\n")
               else if !OnOffer(log, i, id) then Msg("RCL EAU\n")
               else if Offered(log, i, id).owner != req.uid then Msg("RCL EOW\n")
               else if Ended(log, i, id, evs[i].now) then Msg("RCL END\n")
               else if !ReadBack(Offered(log, i, id)) then Msg("RCL NOK\n")
               else Msg("RCL OK\n")
  {
    var id := Atoi(evs[i].req.aid);
    EventFacts(evs, i);
    UserFacts(evs, i, evs[i].req.uid, evs[i].req.passwd);
    OffersAreHistory(evs, i, id);
    if OnOffer(Log(evs), i, id) { EndFacts(evs, i, id); }
    CloseVerdict(After(evs[..i]), evs[i].now, evs[i].req.uid, evs[i].req.passwd, evs[i].req.aid);
  }

  /** Not above what the auction asks for, or not above a bid accepted before. */
  ghost predicate Outbid(log: seq<Entry>, j: nat, id: nat, value: nat)
    requires j <= |log| && OnOffer(log, j, id)
  {
    value <= Least(Offered(log, j, id)) || exists v :: BidMade(log, j, id, v) && value <= v
  }

  lemma {:induction false} OutbidExactly(evs: seq<Event>, i: nat, id: nat, value: nat)
    requires ClockOk(evs) && i < |evs| && OnOffer(Log(evs), i, id)
    ensures id in After(evs[..i]).auctions && After(evs[..i]).auctions[id].start == Some(Offered(Log(evs), i, id))
    ensures TooLow(After(evs[..i]).auctions[id], value) <==> Outbid(Log(evs), i, id, value)
  {
    StartIsHistory(evs, i, id);
    forall v ensures v in After(evs[..i]).auctions[id].bids <==> BidMade(Log(evs), i, id, v) {
      if v >= 0 { BidsAreHistory(evs, i, id, v); }
    }
  }

  /** BID: every verdict; accepted if and only if all checks pass and the value is above the start
      value and every bid accepted before. */
  lemma {:induction false} BidAnswered(evs: seq<Event>, i: nat)
    requires ClockOk(evs) && i < |evs| && evs[i].req.Bid?
    ensures var log, req, id := Log(evs), evs[i].req, Atoi(evs[i].req.aid);
            ReplyAt(evs, i)
            == if !UserText(req.uid) || !PasswordText(req.passwd) || !AuctionText(req.aid) then BadArgs
               else if !Registered(log, i, req.uid) then Msg("RBD NOK\n")
               else if !Trusted(log, i, req.uid, req.passwd) then Msg("RBD NLG\n")
               else if !OnOffer(log, i, id) then Msg("RBD ERR\n")
               else if Offered(log, i, id).owner == req.uid then Msg("RBD ILG\n")
               else if Ended(log, i, id, evs[i].now) then Msg("RBD NOK\n")
               else if Broken(Offered(log, i, id)) then Crash
               else if Outbid(log, i, id, req.value) then Msg("RBD REF\n")
               else if Offered(log, i, id).name == "" then BadArgs
               else Msg("RBD ACC\n")
  {
    var id := Atoi(evs[i].req.aid);
    EventFacts(evs, i);
    UserFacts(evs, i, evs[i].req.uid, evs[i].req.passwd);
    OffersAreHistory(evs, i, id);
    if OnOffer(Log(evs), i, id) {
      EndFacts(evs, i, id);
      OutbidExactly(evs, i, id, evs[i].req.value);
    }
    BidVerdict(After(evs[..i]), evs[i].now, evs[i].req.uid, evs[i].req.passwd, evs[i].req.aid, evs[i].req.value);
  }

  /* ---------- lists ---------- */

  /** Ascending, each entry with whether its auction is still running. */
  ghost predicate StatesTrue(log: seq<Entry>, i: nat, now: int, entries: seq<(nat, bool)>)
    requires i <= |log|
  {
    && Ascend(entries)
    && forall k :: 0 <= k < |entries| ==>
         OnOffer(log, i, entries[k].0) && entries[k].1 == !Ended(log, i, entries[k].0, now)
  }

  lemma {:induction false} ListedStates(evs: seq<Event>, i: nat, ids: set<nat>, entries: seq<(nat, bool)>)
    requires ClockOk(evs) && i < |evs| && Lists(After(evs[..i]), evs[i].now, ids, entries)
    ensures StatesTrue(Log(evs), i, evs[i].now, entries)
  {
    forall k | 0 <= k < |entries|
      ensures OnOffer(Log(evs), i, entries[k].0)
      ensures entries[k].1 == !Ended(Log(evs), i, entries[k].0, evs[i].now)
    {
      OffersAreHistory(evs, i, entries[k].0);
      EndFacts(evs, i, entries[k].0);
    }
  }

  lemma {:induction false} ListingFacts(evs: seq<Event>, i: nat)
    requires ClockOk(evs) && i < |evs|
    ensures var s := After(evs[..i]);
            UsersOk(s) && AuctionsOk(s.auctions) && AllShut(s.auctions, evs[i].now) && HostedExact(s) && BiddedExact(s)
  {
    EventFacts(evs, i);
    ClockPrefix(evs, i);
    RunKeepsBidded(evs[..i]);
    RunIsSane(evs[..i], evs[i].now);
  }

  /** LST: every auction an open was answered with, and no other, with its state. */
  lemma {:induction false} ListAnswered(evs: seq<Event>, i: nat) returns (entries: seq<(nat, bool)>)
    requires ClockOk(evs) && i < |evs| && evs[i].req.List?
    ensures ReplyAt(evs, i) == if entries == [] then Msg("RLS NOK\n") else Listing("RLS", entries)
    ensures StatesTrue(Log(evs), i, evs[i].now, entries)
    ensures forall id :: Listed(entries, id) <==> OnOffer(Log(evs), i, id)
  {
    ListingFacts(evs, i);
    entries := ListVerdict(After(evs[..i]), evs[i].now);
    ListedStates(evs, i, After(evs[..i]).auctions.Keys, entries);
    forall id ensures Listed(entries, id) <==> OnOffer(Log(evs), i, id) {
      OffersAreHistory(evs, i, id);
      assert id in After(evs[..i]).auctions.Keys <==> Listed(entries, id);
    }
  }

  lemma {:induction false} OwnerIsHistory(evs: seq<Event>, i: nat, u: Uid, id: nat)
    requires ClockOk(evs) && i < |evs|
    ensures id in OwnedBy(After(evs[..i]).auctions, u) <==>
              OnOffer(Log(evs), i, id) && Offered(Log(evs), i, id).owner == u
  {
    OffersAreHistory(evs, i, id);
    if OnOffer(Log(evs), i, id) { StartIsHistory(evs, i, id); }
  }

  /** LMA: exactly the auctions whose open the user sent. */
  lemma {:induction false} MyAuctionsAnswered(evs: seq<Event>, i: nat) returns (entries: seq<(nat, bool)>)
    requires ClockOk(evs) && i < |evs| && evs[i].req.MyAuctions?
    ensures var log, u := Log(evs), evs[i].req.uid;
            ReplyAt(evs, i)
            == if !UserText(u) then BadArgs
               else if !Registered(log, i, u) then Msg("RMA NOK\n")
               else if !SignedIn(log, i, u) then Msg("RMA NLG\n")
               else if entries == [] then Msg("RMA NOK\n") else Listing("RMA", entries)
    ensures StatesTrue(Log(evs), i, evs[i].now, entries)
    ensures forall id :: Listed(entries, id) <==> OnOffer(Log(evs), i, id) && Offered(Log(evs), i, id).owner == evs[i].req.uid
  {
    var u := evs[i].req.uid;
    ListingFacts(evs, i);
    UserFacts(evs, i, u, "");
    entries := MyAuctionsVerdict(After(evs[..i]), evs[i].now, u);
    ListedStates(evs, i, OwnedBy(After(evs[..i]).auctions, u), entries);
    forall id ensures Listed(entries, id) <==> OnOffer(Log(evs), i, id) && Offered(Log(evs), i, id).owner == u {
      if id >= 0 { OwnerIsHistory(evs, i, u, id); }
      assert id in OwnedBy(After(evs[..i]).auctions, u) <==> Listed(entries, id);
    }
  }

  predicate BidByUser(log: seq<Entry>, k: nat, j: nat, id: nat, u: Uid)
    requires j <= |log|
  {
    k < j && Bids(log[k].req, log[k].reply, id) && log[k].req.uid == u
  }

  /** A bid of `u` on `id` was accepted before point `j`. */
  ghost predicate HasBid(log: seq<Entry>, j: nat, id: nat, u: Uid)
    requires j <= |log|
  {
    exists k: nat :: BidByUser(log, k, j, id, u)
  }

  lemma {:induction false} BidderIsHistory(evs: seq<Event>, i: nat, u: Uid, id: nat)
    requires ClockOk(evs) && i < |evs|
    ensures id in BidOnBy(After(evs[..i]).auctions, u) <==> HasBid(Log(evs), i, id, u)
  {
    var log, m := Log(evs), After(evs[..i]).auctions;
    if HasBid(log, i, id, u) {
      var k: nat :| BidByUser(log, k, i, id, u);
      assert BidBy(log, k, i, id, log[k].req.value);
      BidFileIsHistory(evs, k, i, id, log[k].req.value);
      assert HasBidBy(m[id], u);
    }
    if id in BidOnBy(m, u) {
      var v :| v in m[id].bids && m[id].bids[v].bidder == u;
      BidsAreHistory(evs, i, id, v);
      var k: nat :| BidBy(log, k, i, id, v);
      BidFileIsHistory(evs, k, i, id, v);
      assert BidByUser(log, k, i, id, u);
    }
  }

  /** LMB: exactly the auctions on which a bid of the user was accepted. */
  lemma {:induction false} MyBidsAnswered(evs: seq<Event>, i: nat) returns (entries: seq<(nat, bool)>)
    requires ClockOk(evs) && i < |evs| && evs[i].req.MyBids?
    ensures var log, u := Log(evs), evs[i].req.uid;
            ReplyAt(evs, i)
            == if !UserText(u) then BadArgs
               else if !Registered(log, i, u) then Msg("RMB NOK\n")
               else if !SignedIn(log, i, u) then Msg("RMB NLG\n")
               else if entries == [] then Msg("RMB NOK\n") else Listing("RMB", entries)
    ensures StatesTrue(Log(evs), i, evs[i].now, entries)
    ensures forall id :: Listed(entries, id) <==> HasBid(Log(evs), i, id, evs[i].req.uid)
  {
    var u := evs[i].req.uid;
    ListingFacts(evs, i);
    UserFacts(evs, i, u, "");
    entries := MyBidsVerdict(After(evs[..i]), evs[i].now, u);
    ListedStates(evs, i, BidOnBy(After(evs[..i]).auctions, u), entries);
    forall id ensures Listed(entries, id) <==> HasBid(Log(evs), i, id, u) {
      if id >= 0 { BidderIsHistory(evs, i, u, id); }
      assert id in BidOnBy(After(evs[..i]).auctions, u) <==> Listed(entries, id);
    }
  }

  /* ---------- records and assets ---------- */

  predicate Shown(bids: seq<(nat, BidFile)>, v: nat) { exists n :: 0 <= n < |bids| && bids[n].0 == v }

  /** An accepted bid with its bidder, its instant and the seconds since the opening. */
  ghost predicate BidTrue(log: seq<Entry>, j: nat, id: nat, v: nat, b: BidFile)
    requires j <= |log| && OnOffer(log, j, id)
  {
    && BidMade(log, j, id, v)
    && forall k: nat :: BidBy(log, k, j, id, v) ==>
         b == BidFile(log[k].req.uid, log[k].now, log[k].now - Offered(log, j, id).time)
  }

  predicate ShownOrBelow(bids: seq<(nat, BidFile)>, v: nat)
  {
    Shown(bids, v) || (|bids| == 50 && forall n :: 0 <= n < |bids| ==> v < bids[n].0)
  }

  /** Ascending accepted bids: all of them, or the fifty highest. */
  ghost predicate BestBids(log: seq<Entry>, j: nat, id: nat, bids: seq<(nat, BidFile)>)
    requires j <= |log| && OnOffer(log, j, id)
  {
    && |bids| <= 50
    && (forall m, n :: 0 <= m < n < |bids| ==> bids[m].0 < bids[n].0)
    && (forall n :: 0 <= n < |bids| ==> BidTrue(log, j, id, bids[n].0, bids[n].1))
    && forall v :: BidMade(log, j, id, v) ==> ShownOrBelow(bids, v)
  }

  lemma {:induction false} ShownWasMade(evs: seq<Event>, i: nat, id: nat, v: nat, b: BidFile)
    requires ClockOk(evs) && i < |evs| && OnOffer(Log(evs), i, id) && id in After(evs[..i]).auctions
    requires v in After(evs[..i]).auctions[id].bids && b == After(evs[..i]).auctions[id].bids[v]
    ensures BidTrue(Log(evs), i, id, v, b)
  {
    BidsAreHistory(evs, i, id, v);
    forall k: nat | BidBy(Log(evs), k, i, id, v)
      ensures b == BidFile(Log(evs)[k].req.uid, Log(evs)[k].now, Log(evs)[k].now - Offered(Log(evs), i, id).time)
    {
      BidFileIsHistory(evs, k, i, id, v);
    }
  }

  lemma {:induction false} MadeIsShown(evs: seq<Event>, i: nat, id: nat, bids: seq<(nat, BidFile)>, v: nat)
    requires ClockOk(evs) && i < |evs| && id in After(evs[..i]).auctions && BidMade(Log(evs), i, id, v)
    requires C.TopBids(After(evs[..i]).auctions[id], bids)
    ensures ShownOrBelow(bids, v)
  {
    BidsAreHistory(evs, i, id, v);
    assert C.ShownOrLower(v, bids);
    if n :| 0 <= n < |bids| && bids[n].0 == v { assert Shown(bids, v); }
  }

  lemma {:induction false} TopIsBest(evs: seq<Event>, i: nat, id: nat, bids: seq<(nat, BidFile)>)
    requires ClockOk(evs) && i < |evs| && OnOffer(Log(evs), i, id) && id in After(evs[..i]).auctions
    requires C.TopBids(After(evs[..i]).auctions[id], bids)
    requires forall m, n :: 0 <= m < n < |bids| ==> bids[m].0 < bids[n].0
    ensures BestBids(Log(evs), i, id, bids)
  {
    forall n | 0 <= n < |bids| ensures BidTrue(Log(evs), i, id, bids[n].0, bids[n].1) {
      ShownWasMade(evs, i, id, bids[n].0, bids[n].1);
    }
    forall v | BidMade(Log(evs), i, id, v) ensures ShownOrBelow(bids, v) { MadeIsShown(evs, i, id, bids, v); }
  }

  /** SRC: the auction as it was opened, its best bids, and the END due. */
  lemma {:induction false} RecordAnswered(evs: seq<Event>, i: nat)
    returns (bids: seq<(nat, BidFile)>, end: Option<EndFile>)
    requires ClockOk(evs) && i < |evs| && evs[i].req.ShowRecord?
    ensures var log, aid := Log(evs), evs[i].req.aid;
            && ReplyAt(evs, i)
               == (if !AuctionText(aid) then BadArgs
                   else if !OnOffer(log, i, Atoi(aid)) then Msg("RRC NOK\n")
                   else if !ReadBack(Offered(log, i, Atoi(aid))) then BadArgs
                   else Record(Offered(log, i, Atoi(aid)), bids, end))
            && (OnOffer(log, i, Atoi(aid)) ==>
                  BestBids(log, i, Atoi(aid), bids) && EndDue(log, i, Atoi(aid), evs[i].now, end))
  {
    var id := Atoi(evs[i].req.aid);
    EventFacts(evs, i);
    OffersAreHistory(evs, i, id);
    RecordVerdict(After(evs[..i]), evs[i].now, evs[i].req.aid);
    bids, end := [], None;
    if OnOffer(Log(evs), i, id) {
      EndFacts(evs, i, id);
      var a := After(evs[..i]).auctions[id];
      bids, end := ShownBids(a), Expire(a, evs[i].now).end;
      var values := C.ShownIsEnd(a);
      C.EndIsTop(a, values, bids);
      TopIsBest(evs, i, id, bids);
    }
  }

  /** What the client shows of it: the words and numbers of that open, each in its place, with the
      date and time it was accepted at. */
  lemma {:induction false} RecordSeen(evs: seq<Event>, i: nat, cal: Calendar)
    requires ClockOk(evs) && i < |evs| && CalendarOk(cal) && ReplyAt(evs, i).Record?
    ensures evs[i].req.ShowRecord? && OnOffer(Log(evs), i, Atoi(evs[i].req.aid))
    ensures var r := ReplyAt(evs, i);
            R.Forward(r.bids) && (r.end.Some? ==> 0 <= r.end.value.duration)
    ensures var r, open := ReplyAt(evs, i), Log(evs)[Opening(Log(evs), i, Atoi(evs[i].req.aid))];
            var c := R.ClientRecord(cal.valid, R.RecordText(cal, r.start, r.bids, r.end));
            && c.Shown? && |c.view.header| == 7
            && c.view.header[0] == open.req.uid
            && c.view.header[1] == open.req.args.name
            && c.view.header[2] == open.req.args.fname
            && Atoi(c.view.header[3]) == Atoi(open.req.args.sv)
            && c.view.header[4] == cal.date(open.now)
            && c.view.header[5] == cal.clock(open.now)
            && Atoi(c.view.header[6]) == Atoi(open.req.args.ta)
            && R.BidsSay(cal, r.bids, c.view.bids) && R.EndSays(cal, r.end, c.view.end)
  {
    C.RecordsAreTrue(evs, i, cal);
    var bids, end := RecordAnswered(evs, i);
  }

  /** SAS: the very file the auction was opened with, if the START line gives its name back. */
  lemma {:induction false} AssetAnswered(evs: seq<Event>, i: nat)
    requires ClockOk(evs) && i < |evs| && evs[i].req.ShowAsset?
    ensures var log, aid := Log(evs), evs[i].req.aid;
            if !AuctionText(aid) then ReplyAt(evs, i) == BadArgs
            else if !OnOffer(log, i, Atoi(aid)) then ReplyAt(evs, i) == Msg("RSA NOK\n")
            else
              var st, req := Offered(log, i, Atoi(aid)), log[Opening(log, i, Atoi(aid))].req;
              && st.fname != "" && req.content.Some?
              && ReplyAt(evs, i) == if A.Found(st) then Asset(st.fname, req.content.value) else Msg("RSA NOK\n")
  {
    var id := Atoi(evs[i].req.aid);
    EventFacts(evs, i);
    OffersAreHistory(evs, i, id);
    FieldsAgree(evs[i].req.aid);
    if OnOffer(Log(evs), i, id) {
      StartIsHistory(evs, i, id);
      var a := After(evs[..i]).auctions[id];
      assert AuctionOk(a);
      if AuctionText(evs[i].req.aid) {
        A.StoredAnswers(After(evs[..i]), evs[i].req.aid, a.start.value, Log(evs)[Opening(Log(evs), i, id)].req.content.value);
      }
    }
  }

  /* ---------- what follows ---------- */

  /** Between a logout or unregister and the next login nothing is done for a user who needs to be
      logged in. */
  lemma {:induction false} SignedOutUserRefused(evs: seq<Event>, i: nat)
    requires ClockOk(evs) && i < |evs| && (evs[i].req.Open? || evs[i].req.Close? || evs[i].req.Bid?)
    requires !SignedIn(Log(evs), i, evs[i].req.uid)
    ensures !ReplyAt(evs, i).Opened? && ReplyAt(evs, i) !in {Msg("RCL OK\n"), Msg("RBD ACC\n")}
  {
    assert "RBD ACC\n"[4] == 'A' && "RBD NOK\n"[4] == 'N' && "RBD NLG\n"[4] == 'N';
    assert "RCL OK\n"[4] == 'O' && "RCL NLG\n"[4] == 'N' && "RCL OK\n"[1] == 'C' && "RBD ACC\n"[1] == 'B';
    assert "RBD NOK\n"[1] == 'B' && "RBD NLG\n"[1] == 'B' && "ROA NLG\n"[1] == 'O';
    match evs[i].req
    case Open(_, _, _, _) => OpenAnswered(evs, i);
    case Close(_, _, _) => CloseAnswered(evs, i);
    case Bid(_, _, _, _) => BidAnswered(evs, i);
  }
}
