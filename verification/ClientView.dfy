/** What clients learn over whole runs: records and lists that can be taken apart again and tell
    the truth, also when handlers interleave; exactly which replies are understood; passwords
    that keep working until the user is gone. */
module ClientView {
  import opened Text
  import opened Names
  import opened Store
  import opened Handlers
  import opened Runs
  import opened RunInvariants
  import opened Records
  import opened UdpServer
  import E = Envelopes
  import L = Lists
  import R = RecordReply
  import I = Interleaved

  /* ---------- records ---------- */

  /** The bids of a record: ascending in value and never going back in time, inside the
      auction's time, not after its END. */
  ghost predicate InOrder(st: Start, bids: seq<(nat, BidFile)>, end: Option<EndFile>)
  {
    && (forall i, j :: 0 <= i < j < |bids| ==> bids[i].0 < bids[j].0 && bids[i].1.offset <= bids[j].1.offset)
    && (forall i :: 0 <= i < |bids| ==> 0 <= bids[i].1.offset < st.ta)
    && (end.Some? ==>
          && 0 <= end.value.duration <= st.ta
          && forall i :: 0 <= i < |bids| ==> bids[i].1.offset <= end.value.duration)
  }

  /** The bids shown are min(50, k) recorded ones, and everything left out is lower. */
  ghost predicate TopBids(a: Auction, bids: seq<(nat, BidFile)>)
  {
    && |bids| == (if |a.bids| < 50 then |a.bids| else 50)
    && (forall i :: 0 <= i < |bids| ==> bids[i].0 in a.bids && bids[i].1 == a.bids[bids[i].0])
    && forall v :: v in a.bids ==> ShownOrLower(v, bids)
  }

  ghost predicate ShownOrLower(v: nat, bids: seq<(nat, BidFile)>)
  {
    (exists k :: 0 <= k < |bids| && bids[k].0 == v) || (|bids| == 50 && forall k :: 0 <= k < |bids| ==> v < bids[k].0)
  }

  /** `bids` is the end of the ascending list `s` of all values, with their files. */
  ghost predicate EndOf(a: Auction, s: seq<nat>, bids: seq<(nat, BidFile)>)
  {
    && Ascending(s) && (forall v :: v in a.bids ==> v in s) && |s| == |a.bids|
    && |bids| == (if |s| < 50 then |s| else 50)
    && forall k :: 0 <= k < |bids| ==>
         bids[k].0 == s[|s| - |bids| + k] && bids[k].0 in a.bids && bids[k].1 == a.bids[bids[k].0]
  }

  lemma LargestIsEnd(a: Auction, s: seq<nat>)
    requires IsSorted(s, a.bids.Keys) && Recorded(Largest(s), a.bids)
    ensures EndOf(a, s, BidsOf(Largest(s), a.bids))
  {
    assert |s| == |a.bids.Keys| == |a.bids|;
    forall v | v in a.bids ensures v in s { assert v in a.bids.Keys; }
  }

  lemma ShownIsEnd(a: Auction) returns (s: seq<nat>)
    ensures EndOf(a, s, ShownBids(a))
  {
    s := Sorted(a.bids.Keys);
    LargestRecorded(a);
    LargestIsEnd(a, s);
  }

  lemma EndIsTop(a: Auction, s: seq<nat>, bids: seq<(nat, BidFile)>)
    requires EndOf(a, s, bids)
    ensures TopBids(a, bids)
  {
    forall v | v in a.bids ensures ShownOrLower(v, bids) {
      var j :| 0 <= j < |s| && s[j] == v;
      var skipped := |s| - |bids|;
      if skipped <= j { assert bids[j - skipped].0 == v; }
    }
  }

  lemma EndInOrder(a: Auction, s: seq<nat>, bids: seq<(nat, BidFile)>, now: int)
    requires EndOf(a, s, bids) && AuctionOk(a) && (InClock(a) ==> Timely(a, now)) && ShutAtOnce(a, now)
    ensures InOrder(a.start.value, bids, a.end)
    ensures R.BidsSendable(bids) && R.OffsetsFit(bids)
  {
    forall i, j | 0 <= i < j < |bids|
      ensures bids[i].0 < bids[j].0 && bids[i].1.offset <= bids[j].1.offset
    {
      assert LowerEarlier(a.bids, bids[j].0);
    }
  }

  /** Every record a run sends: the header of the auction, its top bids in order, an END that
      fits them; and the client takes the datagram apart into exactly these. */
  lemma RecordsAreTrue(evs: seq<Event>, i: nat, cal: Calendar)
    requires i < |evs| && ClockOk(evs) && CalendarOk(cal) && ReplyAt(evs, i).Record?
    ensures evs[i].req.ShowRecord? && Atoi(evs[i].req.aid) in After(evs[..i]).auctions
    ensures var a := Expire(After(evs[..i]).auctions[Atoi(evs[i].req.aid)], evs[i].now);
            var r := ReplyAt(evs, i);
            && a.start == Some(r.start) && a.end == r.end
            && TopBids(a, r.bids) && InOrder(r.start, r.bids, r.end)
            && R.Forward(r.bids)
            && var c := R.ClientRecord(cal.valid, R.RecordText(cal, r.start, r.bids, r.end));
               c.Shown? && R.Tells(cal, r.start, r.bids, r.end, c.view)
  {
    var s, now := After(evs[..i]), evs[i].now;
    BeforeEvent(evs, i);
    RecordShape(s, now, evs[i].req);
    var a := Update(s, now).auctions[Atoi(evs[i].req.aid)];
    assert AuctionOk(a) && ShutAtOnce(a, now) && (InClock(a) ==> Timely(a, now));
    var values := ShownIsEnd(a);
    EndIsTop(a, values, ShownBids(a));
    EndInOrder(a, values, ShownBids(a), now);
    R.RecordRoundTrip(cal, a.start.value, ShownBids(a), a.end);
  }

  /** What a record of `a` means to the client, whenever its bids were made. */
  ghost predicate ReadBack(cal: Calendar, a: Auction, r: Reply)
    requires r.Record?
  {
    && a.start == Some(r.start) && a.end == r.end && TopBids(a, r.bids)
    && (forall i, j :: 0 <= i < j < |r.bids| ==> r.bids[i].0 < r.bids[j].0)
    && R.Forward(r.bids) && (r.end.Some? ==> 0 <= r.end.value.duration)
    && var c := R.ClientRecord(cal.valid, R.RecordText(cal, r.start, r.bids, r.end));
       if R.OffsetsFit(r.bids) && (r.end.Some? ==> r.end.value.duration <= 999999)
       then c.Shown? && R.Tells(cal, r.start, r.bids, r.end, c.view)
       else c == R.Unknown
  }

  lemma EndSendable(a: Auction, s: seq<nat>, bids: seq<(nat, BidFile)>, now: int)
    requires EndOf(a, s, bids) && AuctionOk(a) && I.Dated(a, now)
    ensures forall i, j :: 0 <= i < j < |bids| ==> bids[i].0 < bids[j].0
    ensures R.BidsSendable(bids) && (a.end.Some? ==> 0 <= a.end.value.duration)
  {
  }

  lemma DatedReadsBack(cal: Calendar, a: Auction, now: int)
    requires CalendarOk(cal) && AuctionOk(a) && I.Dated(a, now) && Sound(a.start.value)
    ensures ReadBack(cal, a, Record(a.start.value, ShownBids(a), a.end))
  {
    var bids := ShownBids(a);
    var values := ShownIsEnd(a);
    EndIsTop(a, values, bids);
    EndSendable(a, values, bids, now);
    R.RecordRoundTrip(cal, a.start.value, bids, a.end);
  }

  lemma RecordReported(s: I.Sys)
    requires s.udp.Serving? && s.udp.req.ShowRecord? && s.udp.stage == I.Reporting && I.UdpOk(s.db, s.udp)
    ensures Atoi(s.udp.req.aid) in s.db.auctions
    ensures var a := s.db.auctions[Atoi(s.udp.req.aid)];
            && a.start.Some? && Sound(a.start.value)
            && I.Step(s, I.UdpWork).udp == I.Waiting(Some(Record(a.start.value, ShownBids(a), a.end)))
  {
  }

  lemma RecordReadsBack(s: I.Sys, cal: Calendar)
    requires s.udp.Serving? && s.udp.req.ShowRecord? && s.udp.stage == I.Reporting && CalendarOk(cal) && I.Inv(s)
    ensures var r := I.Step(s, I.UdpWork).udp;
            && r.Waiting? && r.said.Some? && r.said.value.Record? && Atoi(s.udp.req.aid) in s.db.auctions
            && ReadBack(cal, s.db.auctions[Atoi(s.udp.req.aid)], r.said.value)
  {
    RecordReported(s);
    var a := s.db.auctions[Atoi(s.udp.req.aid)];
    assert AuctionOk(a);
    DatedReadsBack(cal, a, s.clock);
  }

  /** Under every interleaving too a record shows the highest bids under the auction's own header,
      and the client takes the datagram apart into exactly these while the numbers fit the six
      digits it takes. (Their order in time is lost: see module Races.) */
  lemma RecordsReadBack(threads: set<nat>, clock: int, run: seq<I.Label>, cal: Calendar)
    requires 0 < clock && CalendarOk(cal)
    requires var p := I.Exec(I.Boot(threads, clock), run).udp;
             p.Serving? && p.req.ShowRecord? && p.stage == I.Reporting
    ensures var s := I.Exec(I.Boot(threads, clock), run);
            var r := I.Step(s, I.UdpWork).udp;
            && r.Waiting? && r.said.Some? && r.said.value.Record? && Atoi(s.udp.req.aid) in s.db.auctions
            && ReadBack(cal, s.db.auctions[Atoi(s.udp.req.aid)], r.said.value)
  {
    FreshCore();
    I.ExecKeeps(I.Boot(threads, clock), run);
    RecordReadsBack(I.Exec(I.Boot(threads, clock), run), cal);
  }

  lemma RecordShape(s: Db, now: int, req: Request)
    requires Handle(s, now, req, true).reply.Record?
    ensures req.ShowRecord? && Atoi(req.aid) in s.auctions
    ensures var a := Update(s, now).auctions[Atoi(req.aid)];
            && a.start.Some? && Sound(a.start.value)
            && Handle(s, now, req, true).reply == Record(a.start.value, ShownBids(a), a.end)
  {
  }

  /** What is known when event `i` is served. */
  lemma BeforeEvent(evs: seq<Event>, i: nat)
    requires i < |evs| && ClockOk(evs)
    ensures Sane(After(evs[..i]), evs[i].now) && Sane(Update(After(evs[..i]), evs[i].now), evs[i].now)
  {
    ClockPrefix(evs, i);
    RunIsSane(evs[..i], evs[i].now);
    UpdateKeepsSane(After(evs[..i]), evs[i].now);
  }

  /* ---------- lists ---------- */

  /** Not closed and, if `update_database` can read it back, not past its deadline. */
  predicate Running(a: Auction, now: int)
  {
    a.end.None? && a.start.Some? && (Sound(a.start.value) ==> now < a.start.value.time + a.start.value.ta)
  }

  /** What makes a list right: all of the invariants, and no auction opened past the limit. */
  ghost predicate ListsRight(db: Db, now: int) { Sane(db, now) && AllInClock(db.auctions) }

  lemma SortedIds(db: Db)
    requires IdsOk(db)
    ensures |Sorted(db.auctions.Keys)| == db.count
    ensures forall k :: 0 <= k < db.count ==> Sorted(db.auctions.Keys)[k] == k + 1
  {
    var ids := seq(db.count, k => k + 1);
    forall x ensures x in ids <==> x in db.auctions.Keys {
      if x in db.auctions { assert ids[x - 1] == x; }
    }
    AscendingUnique(Sorted(db.auctions.Keys), ids);
  }

  lemma ActiveMeansRunning(a: Auction, now: int)
    requires Timely(a, now) && InClock(a)
    ensures Expire(a, now).end.None? <==> Running(a, now)
  {
    assert Int32(a.start.value.time) == a.start.value.time;
  }

  /** Entry `k` is auction `k + 1`, active if and only if it is running. */
  ghost predicate EntryTrue(s: Db, now: int, k: nat, entry: (nat, bool))
  {
    k + 1 in s.auctions && entry == (k + 1, Running(s.auctions[k + 1], now))
  }

  ghost predicate ListTrue(s: Db, now: int, entries: seq<(nat, bool)>)
  {
    |entries| == s.count && forall k :: 0 <= k < |entries| ==> EntryTrue(s, now, k, entries[k])
  }

  lemma EntryIsTrue(s: Db, now: int, k: nat)
    requires ListsRight(s, now) && k < s.count
    ensures k + 1 in s.auctions && !Finished(Update(s, now), k + 1) == Running(s.auctions[k + 1], now)
  {
    ActiveMeansRunning(s.auctions[k + 1], now);
  }

  lemma StatusesInOrder(d: Db)
    requires IdsOk(d)
    ensures var entries := Statuses(d, d.auctions.Keys);
            |entries| == d.count && forall k :: 0 <= k < |entries| ==> entries[k] == (k + 1, !Finished(d, k + 1))
  {
    SortedIds(d);
  }

  lemma EntriesAreTrue(s: Db, now: int, entries: seq<(nat, bool)>)
    requires ListsRight(s, now) && |entries| == s.count
    requires forall k :: 0 <= k < |entries| ==> entries[k] == (k + 1, !Finished(Update(s, now), k + 1))
    ensures ListTrue(s, now, entries)
  {
    forall k | 0 <= k < |entries| ensures EntryTrue(s, now, k, entries[k]) {
      EntryIsTrue(s, now, k);
    }
  }

  lemma StatusesAreTrue(s: Db, now: int) returns (entries: seq<(nat, bool)>)
    requires ListsRight(s, now)
    ensures ListTrue(s, now, entries) && entries == Statuses(Update(s, now), Update(s, now).auctions.Keys)
  {
    var d := Update(s, now);
    entries := Statuses(d, d.auctions.Keys);
    StatusesInOrder(d);
    EntriesAreTrue(s, now, entries);
  }

  /** What a list request makes of a database: the true list, or NOK when there is none. */
  lemma ListReplyIsTrue(s: Db, now: int) returns (entries: seq<(nat, bool)>)
    requires ListsRight(s, now)
    ensures ListTrue(s, now, entries)
    ensures HandleList(s, now, true).reply == if entries == [] then Msg("RLS NOK\n") else Listing("RLS", entries)
  {
    entries := StatusesAreTrue(s, now);
  }

  lemma RunListIsTrue(evs: seq<Event>, i: nat) returns (entries: seq<(nat, bool)>)
    requires i < |evs| && ClockOk(evs) && AllInClock(After(evs[..i]).auctions)
    ensures ListTrue(After(evs[..i]), evs[i].now, entries) && L.Ids(entries) && |entries| <= 999
    ensures HandleList(After(evs[..i]), evs[i].now, true).reply
            == if entries == [] then Msg("RLS NOK\n") else Listing("RLS", entries)
  {
    BeforeEvent(evs, i);
    entries := ListReplyIsTrue(After(evs[..i]), evs[i].now);
    TrueListFits(After(evs[..i]), evs[i].now, entries);
  }

  /** The status list of every run is the whole truth. */
  lemma ListsAreTrue(evs: seq<Event>, i: nat) returns (entries: seq<(nat, bool)>)
    requires i < |evs| && ClockOk(evs) && evs[i].req.List? && AllInClock(After(evs[..i]).auctions)
    ensures ListTrue(After(evs[..i]), evs[i].now, entries) && L.Ids(entries) && |entries| <= 999
    ensures ReplyAt(evs, i) == (if entries == [] then Msg("RLS NOK\n") else Listing("RLS", entries))
  {
    entries := RunListIsTrue(evs, i);
  }

  /** And the client reads exactly it, number by number, off a datagram it can hold. */
  lemma ListsAreReceived(s: Db, now: int, entries: seq<(nat, bool)>, k: nat)
    requires IdsOk(s) && ListTrue(s, now, entries) && k < |entries|
    ensures L.Ids(entries) && |L.ListReply("RLS", entries)| <= 6001
    ensures L.ReadList("RLS", {"ERR", "NOK"}, '\n', false, L.ListReply("RLS", entries)) == L.Shown(L.Views(entries))
    ensures |L.Views(entries)| == s.count && k + 1 in s.auctions
    ensures Atoi(L.Views(entries)[k].0) == k + 1 && L.Views(entries)[k].1 == Running(s.auctions[k + 1], now)
  {
    TrueListFits(s, now, entries);
    L.ListReplyLength("RLS", entries);
    L.ListRoundTrip("RLS", {"ERR", "NOK"}, '\n', false, entries);
    L.ViewsDecode(entries, k);
    assert EntryTrue(s, now, k, entries[k]);
  }

  lemma TrueListFits(s: Db, now: int, entries: seq<(nat, bool)>)
    requires IdsOk(s) && ListTrue(s, now, entries)
    ensures L.Ids(entries) && |entries| <= 999
  {
    Powers();
    forall k | 0 <= k < |entries| ensures entries[k].0 < Pow10(3) { assert EntryTrue(s, now, k, entries[k]); }
  }

  /** Each auction once, ascending, with its state in `d`; and the client takes the list apart into
      exactly that. */
  ghost predicate ListReads(d: Db, entries: seq<(nat, bool)>)
  {
    && |entries| == d.count && (forall k :: 0 <= k < |entries| ==> entries[k] == (k + 1, !Finished(d, k + 1)))
    && L.Ids(entries)
    && (entries != [] ==>
          L.ReadList("RLS", {"ERR", "NOK"}, '\n', false, L.ListReply("RLS", entries)) == L.Shown(L.Views(entries)))
  }

  lemma StatusesRead(d: Db)
    requires IdsOk(d)
    ensures ListReads(d, Statuses(d, d.auctions.Keys))
  {
    Powers();
    var entries := Statuses(d, d.auctions.Keys);
    StatusesInOrder(d);
    if entries != [] { L.ListRoundTrip("RLS", {"ERR", "NOK"}, '\n', false, entries); }
  }

  lemma ListReported(s: I.Sys)
    requires s.udp.Serving? && s.udp.req.List? && s.udp.stage == I.Reporting
    ensures I.Step(s, I.UdpWork).udp
            == I.Waiting(Some(I.Listed("RLS", "RLS NOK\n", Statuses(s.db, s.db.auctions.Keys))))
  {
  }

  /** Under every interleaving a list shows each auction with its state when the list was read. */
  lemma ListsReadBack(threads: set<nat>, clock: int, run: seq<I.Label>) returns (entries: seq<(nat, bool)>)
    requires 0 < clock
    requires var p := I.Exec(I.Boot(threads, clock), run).udp;
             p.Serving? && p.req.List? && p.stage == I.Reporting
    ensures var s := I.Exec(I.Boot(threads, clock), run);
            && ListReads(s.db, entries)
            && I.Step(s, I.UdpWork).udp
               == I.Waiting(Some(if entries == [] then Msg("RLS NOK\n") else Listing("RLS", entries)))
  {
    var s := I.Exec(I.Boot(threads, clock), run);
    I.EveryInterleavingIsSafe(threads, clock, run);
    entries := Statuses(s.db, s.db.auctions.Keys);
    StatusesRead(s.db);
    ListReported(s);
  }

  /** The entries are exactly the auctions `ids`, ascending, each active if and only if it is
      running. */
  ghost predicate OwnListTrue(s: Db, now: int, ids: set<nat>, entries: seq<(nat, bool)>)
  {
    && |entries| == |ids|
    && (forall k :: 0 <= k < |entries| ==>
          entries[k].0 in ids && entries[k].0 in s.auctions && entries[k].1 == Running(s.auctions[entries[k].0], now))
    && forall j, k :: 0 <= j < k < |entries| ==> entries[j].0 < entries[k].0
  }

  lemma StatusIsTrue(s: Db, now: int, id: nat)
    requires ListsRight(s, now) && id in s.auctions
    ensures !Finished(Update(s, now), id) == Running(s.auctions[id], now)
  {
    ActiveMeansRunning(s.auctions[id], now);
  }

  lemma OwnStatusesTrue(s: Db, now: int, ids: set<nat>, sorted: seq<nat>, entries: seq<(nat, bool)>)
    requires ListsRight(s, now) && ids <= s.auctions.Keys && IsSorted(sorted, ids) && |entries| == |sorted|
    requires forall k :: 0 <= k < |sorted| ==> entries[k] == (sorted[k], !Finished(Update(s, now), sorted[k]))
    ensures OwnListTrue(s, now, ids, entries)
  {
    forall k | 0 <= k < |entries|
      ensures entries[k].0 in ids && entries[k].0 in s.auctions
      ensures entries[k].1 == Running(s.auctions[entries[k].0], now)
    {
      assert sorted[k] in sorted;
      StatusIsTrue(s, now, sorted[k]);
    }
  }

  lemma OwnStatuses(s: Db, now: int, ids: set<nat>) returns (entries: seq<(nat, bool)>)
    requires ListsRight(s, now) && ids <= s.auctions.Keys
    ensures entries == Statuses(Update(s, now), ids) && OwnListTrue(s, now, ids, entries)
  {
    entries := Statuses(Update(s, now), ids);
    OwnStatusesTrue(s, now, ids, Sorted(ids), entries);
  }

  predicate LoggedUser(s: Db, uid: Uid) { ValidUid(uid) && ExistsUser(s, uid) && LoggedIn(s, uid) }

  lemma MyAuctionsReply(s: Db, now: int, uid: Uid) returns (entries: seq<(nat, bool)>)
    requires ListsRight(s, now) && LoggedUser(s, uid)
    ensures OwnListTrue(s, now, OwnedBy(s.auctions, uid), entries)
    ensures HandleMyAuctions(s, now, uid, true).reply
            == if entries == [] then Msg("RMA NOK\n") else Listing("RMA", entries)
  {
    assert uid in s.hosted && s.hosted[uid] == OwnedBy(s.auctions, uid);
    entries := OwnStatuses(s, now, s.hosted[uid]);
  }

  lemma MyBidsReply(s: Db, now: int, uid: Uid) returns (entries: seq<(nat, bool)>)
    requires ListsRight(s, now) && BiddedExact(s) && LoggedUser(s, uid)
    ensures OwnListTrue(s, now, BidOnBy(s.auctions, uid), entries)
    ensures HandleMyBids(s, now, uid, true).reply
            == if entries == [] then Msg("RMB NOK\n") else Listing("RMB", entries)
  {
    assert uid in s.bidded && s.bidded[uid] == BidOnBy(s.auctions, uid);
    entries := OwnStatuses(s, now, s.bidded[uid]);
  }

  lemma RunOwnLists(evs: seq<Event>, i: nat, uid: Uid) returns (owned: seq<(nat, bool)>, bidOn: seq<(nat, bool)>)
    requires i < |evs| && ClockOk(evs) && LoggedUser(After(evs[..i]), uid) && AllInClock(After(evs[..i]).auctions)
    ensures OwnListTrue(After(evs[..i]), evs[i].now, OwnedBy(After(evs[..i]).auctions, uid), owned)
    ensures OwnListTrue(After(evs[..i]), evs[i].now, BidOnBy(After(evs[..i]).auctions, uid), bidOn)
    ensures HandleMyAuctions(After(evs[..i]), evs[i].now, uid, true).reply
            == if owned == [] then Msg("RMA NOK\n") else Listing("RMA", owned)
    ensures HandleMyBids(After(evs[..i]), evs[i].now, uid, true).reply
            == if bidOn == [] then Msg("RMB NOK\n") else Listing("RMB", bidOn)
  {
    BeforeEvent(evs, i);
    ClockPrefix(evs, i);
    RunKeepsBidded(evs[..i]);
    owned := MyAuctionsReply(After(evs[..i]), evs[i].now, uid);
    bidOn := MyBidsReply(After(evs[..i]), evs[i].now, uid);
  }

  /** Over every run a logged-in user's own list is the whole truth: exactly the auctions whose
      START names the user. */
  lemma MyAuctionsAreTrue(evs: seq<Event>, i: nat, uid: Uid) returns (entries: seq<(nat, bool)>)
    requires i < |evs| && ClockOk(evs) && LoggedUser(After(evs[..i]), uid) && evs[i].req == MyAuctions(uid)
    requires AllInClock(After(evs[..i]).auctions)
    ensures OwnListTrue(After(evs[..i]), evs[i].now, OwnedBy(After(evs[..i]).auctions, uid), entries)
    ensures ReplyAt(evs, i) == if entries == [] then Msg("RMA NOK\n") else Listing("RMA", entries)
  {
    var bidOn;
    entries, bidOn := RunOwnLists(evs, i, uid);
  }

  /** And exactly the auctions that hold a bid of the user's. */
  lemma MyBidsAreTrue(evs: seq<Event>, i: nat, uid: Uid) returns (entries: seq<(nat, bool)>)
    requires i < |evs| && ClockOk(evs) && LoggedUser(After(evs[..i]), uid) && evs[i].req == MyBids(uid)
    requires AllInClock(After(evs[..i]).auctions)
    ensures OwnListTrue(After(evs[..i]), evs[i].now, BidOnBy(After(evs[..i]).auctions, uid), entries)
    ensures ReplyAt(evs, i) == if entries == [] then Msg("RMB NOK\n") else Listing("RMB", entries)
  {
    var owned;
    owned, entries := RunOwnLists(evs, i, uid);
  }

  /** And the client reads exactly them, number by number. */
  lemma OwnListsAreReceived(s: Db, now: int, ids: set<nat>, entries: seq<(nat, bool)>, k: nat)
    requires IdsOk(s) && ids <= s.auctions.Keys && OwnListTrue(s, now, ids, entries) && k < |entries|
    ensures L.Ids(entries) && |L.ListReply("RMA", entries)| == |L.ListReply("RMB", entries)| <= 6001
    ensures L.ReadList("RMA", {"ERR", "NOK", "NLG"}, '\0', true, L.ListReply("RMA", entries)) == L.Shown(L.Views(entries))
    ensures L.ReadList("RMB", {"ERR", "NOK"}, '\0', false, L.ListReply("RMB", entries)) == L.Shown(L.Views(entries))
    ensures |L.Views(entries)| == |ids| && entries[k].0 in s.auctions
    ensures Atoi(L.Views(entries)[k].0) == entries[k].0
    ensures L.Views(entries)[k].1 == Running(s.auctions[entries[k].0], now)
  {
    OwnListFits(s, now, ids, entries);
    L.ListReplyLength("RMA", entries);
    L.ListReplyLength("RMB", entries);
    L.ListRoundTrip("RMA", {"ERR", "NOK", "NLG"}, '\0', true, entries);
    L.ListRoundTrip("RMB", {"ERR", "NOK"}, '\0', false, entries);
    L.ViewsDecode(entries, k);
  }

  lemma OwnListFits(s: Db, now: int, ids: set<nat>, entries: seq<(nat, bool)>)
    requires IdsOk(s) && ids <= s.auctions.Keys && OwnListTrue(s, now, ids, entries)
    ensures L.Ids(entries) && |entries| <= 999
  {
    Powers();
    IdsCard(s.auctions.Keys, s.count);
    SubsetCard(ids, s.auctions.Keys);
  }

  lemma {:induction false} SubsetCard(a: set<nat>, b: set<nat>)
    requires a <= b
    ensures |a| <= |b|
  {
    if a != {} {
      var x :| x in a;
      SubsetCard(a - {x}, b - {x});
    }
  }

  /* ---------- what the client understands ---------- */

  /** What the client's handler for `req` makes of a reply is not "unknown answer". */
  predicate Recognised(cal: Calendar, req: Request, text: string)
    requires req.List? || req.MyAuctions? || req.MyBids? || req.ShowRecord?
  {
    match req
    case List => L.ReadList("RLS", {"ERR", "NOK"}, '\n', false, text) != L.Unknown
    case MyAuctions(_) => L.ReadList("RMA", {"ERR", "NOK", "NLG"}, '\0', true, text) != L.Unknown
    case MyBids(_) => L.ReadList("RMB", {"ERR", "NOK"}, '\0', false, text) != L.Unknown
    case ShowRecord(_) => R.ClientRecord(cal.valid, text) != R.Unknown
  }

  /** `text` is a command and a status, letter by letter. */
  predicate StatusLine(text: string, cmd: string, status: string)
  {
    && |text| == 8 && |cmd| == 3 && |status| == 3 && text[3] == ' ' && text[7] == '\n'
    && text[0] == cmd[0] && text[1] == cmd[1] && text[2] == cmd[2]
    && text[4] == status[0] && text[5] == status[1] && text[6] == status[2]
  }

  lemma StatusLineIs(text: string, cmd: string, status: string)
    requires StatusLine(text, cmd, status)
    ensures text == cmd + ([' '] + status + "\n")
  {
  }

  lemma NoticeKnown(cmd: string, notices: set<string>, delim: char, checkAid: bool, status: string, text: string)
    requires StatusLine(text, cmd, status) && Free(cmd, ' ') && status in notices && notices <= {"ERR", "NOK", "NLG"}
    ensures L.ReadList(cmd, notices, delim, checkAid, text) == L.Notice(status)
  {
    StatusLineIs(text, cmd, status);
    E.OpenNotice(cmd, notices, delim, status);
  }

  /** A status the handler does not know is no answer to it. */
  lemma NoticeUnknown(cmd: string, notices: set<string>, delim: char, checkAid: bool, status: string, text: string)
    requires StatusLine(text, cmd, status) && Free(cmd, ' ') && status !in notices
    requires Free(status, ' ') && Free(status, '\n')
    ensures L.ReadList(cmd, notices, delim, checkAid, text) == L.Unknown
  {
    StatusLineIs(text, cmd, status);
    E.CommandToken(cmd, status);
    E.PayloadToken(status);
    StrtokField(status, ' ', "");
    assert |status| == 3 && |"OK"| == 2;
  }

  lemma ListRecognised(r: Reply, response: string)
    requires response == "RLS NOK\n"
             || (ListedAs(r, "RLS") && L.Ids(r.entries) && response == L.ListReply("RLS", r.entries))
    ensures L.ReadList("RLS", {"ERR", "NOK"}, '\n', false, response) != L.Unknown
  {
    if response != "RLS NOK\n" {
      L.ListRoundTrip("RLS", {"ERR", "NOK"}, '\n', false, r.entries);
    } else {
      NoticeKnown("RLS", {"ERR", "NOK"}, '\n', false, "NOK", response);
    }
  }

  lemma MyAuctionsRecognised(r: Reply, response: string)
    requires response in {"RMA ERR\n", "RMA NOK\n", "RMA NLG\n"}
             || (ListedAs(r, "RMA") && L.Ids(r.entries) && response == L.ListReply("RMA", r.entries))
    ensures L.ReadList("RMA", {"ERR", "NOK", "NLG"}, '\0', true, response) != L.Unknown
  {
    if response == "RMA ERR\n" {
      NoticeKnown("RMA", {"ERR", "NOK", "NLG"}, '\0', true, "ERR", response);
    } else if response == "RMA NOK\n" {
      NoticeKnown("RMA", {"ERR", "NOK", "NLG"}, '\0', true, "NOK", response);
    } else if response == "RMA NLG\n" {
      NoticeKnown("RMA", {"ERR", "NOK", "NLG"}, '\0', true, "NLG", response);
    } else {
      L.ListRoundTrip("RMA", {"ERR", "NOK", "NLG"}, '\0', true, r.entries);
    }
  }

  lemma MyBidsRecognised(r: Reply, response: string)
    requires response in {"RMB ERR\n", "RMB NOK\n"}
             || (ListedAs(r, "RMB") && L.Ids(r.entries) && response == L.ListReply("RMB", r.entries))
    ensures L.ReadList("RMB", {"ERR", "NOK"}, '\0', false, response) != L.Unknown
  {
    if response == "RMB ERR\n" {
      NoticeKnown("RMB", {"ERR", "NOK"}, '\0', false, "ERR", response);
    } else if response == "RMB NOK\n" {
      NoticeKnown("RMB", {"ERR", "NOK"}, '\0', false, "NOK", response);
    } else {
      L.ListRoundTrip("RMB", {"ERR", "NOK"}, '\0', false, r.entries);
    }
  }

  lemma NotLoggedUnknown()
    ensures L.ReadList("RMB", {"ERR", "NOK"}, '\0', false, "RMB NLG\n") == L.Unknown
  {
    assert "NLG"[1] != "NOK"[1] && "NLG"[0] != "ERR"[0];
    NoticeUnknown("RMB", {"ERR", "NOK"}, '\0', false, "NLG", "RMB NLG\n");
  }

  lemma RecordNoticeKnown(valid: (string, string) -> bool)
    ensures R.ClientRecord(valid, "RRC NOK\n") != R.Unknown
  {
    StatusLineIs("RRC NOK\n", "RRC", "NOK");
    E.OpenNotice("RRC", {"ERR", "NOK"}, '\n', "NOK");
  }

  /* What each handler can reply. */

  predicate ListedAs(r: Reply, cmd: string) { r.Listing? && r.cmd == cmd && r.entries != [] }

  predicate MayReply(req: Request, r: Reply)
  {
    && (req.List? ==> r == Msg("RLS NOK\n") || ListedAs(r, "RLS"))
    && (req.MyAuctions? ==> r in {BadArgs, Msg("RMA NOK\n"), Msg("RMA NLG\n")} || ListedAs(r, "RMA"))
    && (req.MyBids? ==> r in {BadArgs, Msg("RMB NOK\n"), Msg("RMB NLG\n")} || ListedAs(r, "RMB"))
    && (req.ShowRecord? ==> r in {BadArgs, Msg("RRC NOK\n")} || r.Record?)
  }

  lemma HandlerMayReply(s: Db, now: int, req: Request)
    ensures MayReply(req, Handle(s, now, req, true).reply)
  {
  }

  /** The length covers a list and a status. */
  lemma AllCovered(cal: Calendar, req: Request, r: Reply, response: string, len: nat)
    requires (req.List? || req.MyAuctions? || req.MyBids?) && Answers(cal, req, r, response, len) && MayReply(req, r)
    ensures len == |response| && response[..len] == response
  {
  }

  lemma TrueNotices(r: Reply)
    requires r in {Msg("RLS NOK\n"), Msg("RMA NOK\n"), Msg("RMA NLG\n"), Msg("RMB NOK\n")}
    ensures r != Msg("RMB NLG\n")
  {
    assert "RMB NLG\n"[2] == 'B' && "RLS NOK\n"[2] == 'S' && "RMA NOK\n"[2] == 'A' && "RMA NLG\n"[2] == 'A';
    assert "RMB NLG\n"[5] == 'L' && "RMB NOK\n"[5] == 'O';
  }

  lemma BidsRecognised(cal: Calendar, req: Request, r: Reply, response: string, len: nat)
    requires req.MyBids? && Answers(cal, req, r, response, len) && MayReply(req, r)
    ensures Recognised(cal, req, response) <==> r != Msg("RMB NLG\n")
  {
    if r == Msg("RMB NLG\n") { NotLoggedUnknown(); } else { MyBidsRecognised(r, response); }
  }

  lemma ListsRecognised(cal: Calendar, req: Request, r: Reply, response: string, len: nat)
    requires (req.List? || req.MyAuctions?) && Answers(cal, req, r, response, len) && MayReply(req, r)
    ensures Recognised(cal, req, response) && r != Msg("RMB NLG\n")
  {
    if r.Msg? { TrueNotices(r); }
    if req.List? { ListRecognised(r, response); } else { MyAuctionsRecognised(r, response); }
  }

  lemma RecordRecognised(cal: Calendar, req: Request, r: Reply, response: string, len: nat)
    requires req.ShowRecord? && Answers(cal, req, r, response, len) && MayReply(req, r)
    requires r.Record? && R.Forward(r.bids) && (r.end.Some? ==> 0 <= r.end.value.duration) ==>
               R.ClientRecord(cal.valid, R.RecordText(cal, r.start, r.bids, r.end)) != R.Unknown
    ensures len <= |response| && Recognised(cal, req, response[..len]) && r != Msg("RMB NLG\n")
  {
    if r.Record? {
      RecordBytes(cal, req, r, response, len);
    } else {
      assert "RRC NOK\n"[1] == 'R' && "RMB NLG\n"[1] == 'M';
      RecordNoticeKnown(cal.valid);
      assert response[..len] == response;
    }
  }

  lemma RecordBytes(cal: Calendar, req: Request, r: Reply, response: string, len: nat)
    requires req.ShowRecord? && r.Record? && Answers(cal, req, r, response, len)
    ensures R.Forward(r.bids) && (r.end.Some? ==> 0 <= r.end.value.duration)
    ensures len <= |response| && response[..len] == R.RecordText(cal, r.start, r.bids, r.end)
  {
    var text := R.RecordText(cal, r.start, r.bids, r.end);
    assert (text + "\n")[..|text|] == text;
  }

  lemma RecordsKnown(evs: seq<Event>, i: nat, cal: Calendar, r: Reply)
    requires i < |evs| && ClockOk(evs) && CalendarOk(cal)
    requires r == ReplyAt(evs, i) && r.Record? && R.Forward(r.bids) && (r.end.Some? ==> 0 <= r.end.value.duration)
    ensures R.ClientRecord(cal.valid, R.RecordText(cal, r.start, r.bids, r.end)) != R.Unknown
  {
    RecordsAreTrue(evs, i, cal);
  }

  lemma ReplyRecognised(cal: Calendar, req: Request, r: Reply, response: string, len: nat)
    requires (req.List? || req.MyAuctions? || req.MyBids? || req.ShowRecord?) && MayReply(req, r)
    requires Answers(cal, req, r, response, len)
    requires r.Record? && R.Forward(r.bids) && (r.end.Some? ==> 0 <= r.end.value.duration) ==>
               R.ClientRecord(cal.valid, R.RecordText(cal, r.start, r.bids, r.end)) != R.Unknown
    ensures len <= |response| && (Recognised(cal, req, response[..len]) <==> r != Msg("RMB NLG\n"))
  {
    if req.ShowRecord? {
      RecordRecognised(cal, req, r, response, len);
    } else {
      AllCovered(cal, req, r, response, len);
      if req.MyBids? { BidsRecognised(cal, req, r, response, len); } else { ListsRecognised(cal, req, r, response, len); }
    }
  }

  /** Over every run: the client recognises what comes back to LST, LMA, LMB and SRC if and only if
      it is not the server's word that the user asking for his bids is not logged in. */
  lemma RecognisedExactly(evs: seq<Event>, i: nat, cal: Calendar, r: Reply, response: string, len: nat)
    requires i < |evs| && ClockOk(evs) && CalendarOk(cal)
    requires evs[i].req.List? || evs[i].req.MyAuctions? || evs[i].req.MyBids? || evs[i].req.ShowRecord?
    requires r == ReplyAt(evs, i) && Answers(cal, evs[i].req, r, response, len)
    ensures len <= |response|
    ensures Recognised(cal, evs[i].req, response[..len]) <==> r != Msg("RMB NLG\n")
  {
    HandlerMayReply(After(evs[..i]), evs[i].now, evs[i].req);
    if r.Record? && R.Forward(r.bids) && (r.end.Some? ==> 0 <= r.end.value.duration) { RecordsKnown(evs, i, cal, r); }
    ReplyRecognised(cal, evs[i].req, r, response, len);
  }
}
