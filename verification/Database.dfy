/** server/database.c: the files as fields that the functions update in place. Every method
    is tied to the function of module Store that says what its critical section does. */
module Database {
  import opened Text
  import opened Names
  import opened Store
  import opened Transfer
  import opened Records
  import opened RecordReply
  import opened Lists

  /** START lines that can be read back in 128 bytes. */
  ghost predicate Legible(m: map<nat, Auction>)
  {
    forall i :: i in m && m[i].start.Some? ==> StartOk(m[i].start.value) && m[i].start.value.time < TIME_LIMIT
  }

  /** What the listing functions rely on: names of the width they are printed with, and
      bids and ENDs whose numbers `fgets` can hold. */
  ghost predicate Readable(a: Auction)
  {
    && Fits(a.bids.Keys, 6)
    && (forall v :: v in a.bids ==> ValidUid(a.bids[v].bidder) && 0 <= a.bids[v].offset < TIME_LIMIT)
    && (a.end.Some? ==> 0 <= a.end.value.duration)
  }

  class Database {
    var passwords: map<Uid, Passwd>
    var logins: set<Uid>
    var hosted: map<Uid, set<nat>>
    var bidded: map<Uid, set<nat>>
    var aucCount: nat
    var auctions: map<nat, Auction>

    ghost function View(): Db
      reads this
    {
      Db(passwords, logins, hosted, bidded, aucCount, auctions)
    }

    /** `disk` is what ASDIR holds, Fresh the first time; the counter is not on it. */
    constructor InitDatabase(disk: Db)
      ensures View() == Restart(disk)
    {
      passwords, logins, hosted, bidded := disk.passwords, disk.logins, disk.hosted, disk.bidded;
      auctions := disk.auctions;
      new;
      LoadDbState();
    }

    /** A new process counts the directories it finds. */
    method LoadDbState()
      modifies this
      ensures View() == Restart(old(View()))
    {
      aucCount := 0;
      var rest := auctions.Keys;
      while rest != {}
        invariant View() == old(View()).(count := aucCount)
        invariant rest <= auctions.Keys && aucCount + |rest| == |auctions.Keys|
        decreases rest
      {
        var dir :| dir in rest;
        rest := rest - {dir};
        aucCount := aucCount + 1;
      }
    }

    /** The time active and the start time, token by token from the line read. */
    method ReadExpiryFields(cal: Calendar, st: Start) returns (fields: Option<(nat, nat)>)
      requires CalendarOk(cal) && StartOk(st) && st.time < TIME_LIMIT
      ensures fields == if !Sound(st) then None else Some((st.ta, st.time))
    {
      StartReads(cal, st, 128);
      fields := ExpiryFields(FGets(StartLine(cal, st), 128));
    }

    method UpdateDatabase(cal: Calendar, now: int)
      requires CalendarOk(cal) && Legible(auctions)
      modifies this`auctions
      ensures View() == Update(old(View()), now)
    {
      var rest := auctions.Keys;
      while rest != {}
        invariant auctions.Keys == old(auctions).Keys && rest <= auctions.Keys
        invariant forall i :: i in auctions ==>
                    auctions[i] == if i in rest then old(auctions)[i] else Expire(old(auctions)[i], now)
        decreases rest
      {
        var i :| i in rest;
        rest := rest - {i};
        var a := auctions[i];
        if a.end.Some? {
          continue; // already ended
        }
        if a.start.None? {
          continue;
        }
        var fields := ReadExpiryFields(cal, a.start.value);
        if fields.None? {
          continue;
        }
        var (timeActive, start) := fields.value;
        var startTime := Int32(start);
        if now - startTime < timeActive {
          continue; // not expired
        }
        auctions := auctions[i := a.(end := Some(EndFile(startTime + timeActive, timeActive)))];
      }
      assert auctions == ExpireAll(old(auctions), now);
    }

    /* ---------- users ---------- */

    method LogInUser(uid: Uid) returns (ok: bool)
      modifies this`logins
      ensures Written(View(), ok) == LogIn(old(View()), uid)
    {
      if uid !in hosted { return false; }
      logins := logins + {uid};
      return true;
    }

    method LogOutUser(uid: Uid) returns (ok: bool)
      modifies this`logins
      ensures Written(View(), ok) == LogOut(old(View()), uid)
    {
      if uid !in logins { return false; }
      logins := logins - {uid};
      return true;
    }

    method RegisterUser(uid: Uid, passwd: Passwd)
      modifies this
      ensures View() == Register(old(View()), uid, passwd)
    {
      // mkdir tolerates directories left by an earlier registration
      if uid !in hosted { hosted := hosted[uid := {}]; }
      if uid !in bidded { bidded := bidded[uid := {}]; }
      logins := logins + {uid};
      passwords := passwords[uid := passwd];
    }

    method UnregisterUser(uid: Uid) returns (ok: bool)
      modifies this`logins, this`passwords
      ensures Written(View(), ok) == Unregister(old(View()), uid)
    {
      if uid !in logins { return false; }
      logins := logins - {uid};
      if uid !in passwords { return false; }
      passwords := passwords - {uid};
      return true;
    }

    /* ---------- opening ---------- */

    method CreateAuctionDir(fault: Fault) returns (ok: bool)
      requires aucCount + 1 !in auctions
      modifies this`aucCount, this`auctions
      ensures ok <==> old(aucCount) < MAX_AUCTIONS && !DirFault(fault)
      ensures aucCount == if old(aucCount) < MAX_AUCTIONS then old(aucCount) + 1 else old(aucCount)
      ensures auctions == if old(aucCount) < MAX_AUCTIONS && !fault.NoAuctionDir?
                          then old(auctions)[aucCount := Auction(None, map[], None, map[])] else old(auctions)
    {
      if aucCount >= MAX_AUCTIONS { return false; }
      aucCount := aucCount + 1;
      if fault.NoAuctionDir? { return false; }
      auctions := auctions[aucCount := Auction(None, map[], None, map[])];
      // BIDS and ASSET, empty, are part of this value
      if fault.NoBidsDir? { return false; }
      if fault.NoAssetDir? { return false; }
      return true;
    }

    /** Directory and START first, then the asset, then the index; whatever fails after
        `create_auction_dir` is rolled back, and the database is exactly as it was. */
    method CreateNewAuction(st: Start, fsize: int32, conn: Connection, fault: Fault) returns (id: Option<nat>)
      requires IdsOk(View()) && 0 <= fsize as int <= MAX_FSIZE
      modifies this, conn`incoming, conn`splits
      ensures (View(), id) == CreateWith(old(View()), st, old(RecvOutcome(conn.incoming, conn.splits, fsize as int)), fault)
    {
      ghost var before := auctions;
      var ok := CreateAuctionDir(fault);
      if !ok {
        return None;
      }
      if fault.NoStartFile? {
        assert auctions - {aucCount} == before;
        RollbackAuctionDirCreation();
        return None;
      }
      auctions := auctions[aucCount := auctions[aucCount].(start := Some(st))];
      if fault.NoAssetFile? {
        assert auctions - {aucCount} == before;
        RollbackAuctionDirCreation();
        return None;
      }
      var file := new File("");
      var err := AsRecvAssetFile(file, conn, fsize);
      auctions := auctions[aucCount := auctions[aucCount].(asset := map[st.fname := file.content])];
      assert auctions == before[aucCount := Auction(Some(st), map[], None, map[st.fname := file.content])];
      assert auctions - {aucCount} == before;
      if err != 0 || st.owner !in hosted {
        RollbackAuctionDirCreation();
        return None;
      }
      assert file.content == old(RecvOutcome(conn.incoming, conn.splits, fsize as int)).value;
      hosted := hosted[st.owner := hosted[st.owner] + {aucCount}];
      return Some(aucCount);
    }

    method RollbackAuctionDirCreation()
      requires aucCount in auctions ==> 0 < aucCount
      modifies this`auctions, this`aucCount
      ensures aucCount == if old(aucCount in auctions) then old(aucCount) - 1 else old(aucCount)
      ensures auctions == old(auctions) - {old(aucCount)}
    {
      if aucCount !in auctions {
        assert auctions == auctions - {aucCount};
        return;
      }
      // the files of the directory, then its BIDS, then its ASSET, then the directory
      var a := auctions[aucCount];
      auctions := auctions[aucCount := a.(start := None, end := None)];
      auctions := auctions[aucCount := auctions[aucCount].(bids := map[])];
      auctions := auctions[aucCount := auctions[aucCount].(asset := map[])];
      auctions := auctions - {aucCount};
      aucCount := aucCount - 1;
    }

    /* ---------- closing and bidding ---------- */

    /** `None` when there is no START to read. */
    method GetAuctionInfo(cal: Calendar, aid: nat, n: nat) returns (line: Option<string>)
      requires Legible(auctions) && 0 < n
      ensures line.None? <==> Info(View(), aid).None?
      ensures line.Some? ==>
                StartOk(Info(View(), aid).value) && line == Some(FGets(StartLine(cal, Info(View(), aid).value), n))
    {
      if aid !in auctions || auctions[aid].start.None? { return None; }
      return Some(FGets(StartLine(cal, auctions[aid].start.value), n));
    }

    /** The seven tokens and the start time behind them, as `close_auction` and `bid` read
        them; 0 when they cannot. */
    method ReadStartTime(cal: Calendar, aid: nat) returns (t: int)
      requires CalendarOk(cal) && Legible(auctions)
      ensures t == StartedAt(View(), aid)
    {
      var line := GetAuctionInfo(cal, aid, 128);
      if line.None? { return 0; }
      StartReads(cal, auctions[aid].start.value, 128);
      var time := StartTime(line.value);
      return if time.None? then 0 else time.value;
    }

    method CloseAuction(cal: Calendar, aid: nat, now: int) returns (ok: bool)
      requires CalendarOk(cal) && Legible(auctions)
      modifies this`auctions
      ensures Written(View(), ok) == Store.CloseAuction(old(View()), aid, now)
    {
      var startTime := ReadStartTime(cal, aid);
      if startTime == 0 { return false; }
      auctions := auctions[aid := auctions[aid].(end := Some(EndFile(now, now - startTime)))];
      return true;
    }

    /** The last name of the sorted directory is the largest bid. */
    method GetLastBid(aid: nat) returns (last: int)
      requires aid in auctions ==> Fits(auctions[aid].bids.Keys, 6)
      ensures last == match LastBid(View(), aid) case None => -1 case Some(v) => v
    {
      if aid !in auctions { return -1; }
      var values := auctions[aid].bids.Keys;
      var entries := ScanNumbers(values, 6, ".txt");
      LastIsMax(values);
      match ScanInt(entries[|entries| - 1])
      case None =>
        DotNames();
        if values != {} { ScanPad(Max(values), 6, ".txt"); }
        return 0; // no bids yet
      case Some(v) =>
        DotNames();
        if values != {} { ScanPad(Max(values), 6, ".txt"); }
        return v;
    }

    method Bid(cal: Calendar, aid: nat, uid: Uid, value: nat, now: int) returns (ok: bool)
      requires CalendarOk(cal) && Legible(auctions)
      modifies this`auctions, this`bidded
      ensures Written(View(), ok) == RecordBid(old(View()), aid, uid, value, now)
    {
      var startTime := ReadStartTime(cal, aid);
      if startTime == 0 { return false; }
      var a := auctions[aid];
      auctions := auctions[aid := a.(bids := a.bids[value := BidFile(uid, now, now - startTime)])];
      if uid !in bidded { return false; }
      bidded := bidded[uid := bidded[uid] + {aid}];
      return true;
    }

    /* ---------- listings ---------- */

    /** The loop of `get_auctions_list`, `get_user_auctions` and `get_user_bids` over a
        scanned directory of auction names: what is appended to the reply, and how many
        bytes are counted for it. */
    method StatusList(ids: set<nat>, suffix: string) returns (text: string, written: nat)
      requires Fits(ids, 3)
      ensures Ids(Statuses(View(), ids))
      ensures text == ListText(Statuses(View(), ids)) + "\n" && written == |text|
    {
      var entries := ScanNumbers(ids, 3, suffix);
      ghost var db := View();
      ListedAll(db, entries, ids, suffix);
      text, written := "", 0;
      for i := 0 to |entries|
        invariant text == ListedTo(db, ids, i) && written == |text|
      {
        ListedStep(db, entries, ids, suffix, i);
        if entries[i][0] == '.' {
          continue;
        }
        var id := Atoi(entries[i][..3]);
        var status := Entry(id, !(id in auctions && auctions[id].end.Some?));
        text := text + status;
        written := written + |status|;
      }
      text := text + "\n";
      written := written + 1;
    }

    /** One bid file, read back token by token and printed for the record. */
    method BidEntry(cal: Calendar, b: BidFile, value: nat) returns (entry: string)
      requires CalendarOk(cal) && ValidUid(b.bidder) && 0 <= b.offset < TIME_LIMIT
      ensures entry == Spaced(EntryWords(cal, value, b))
    {
      BidLineFits(cal, b);
      BidLineRoundTrip(cal, value, b);
      entry := ServerEntry(cal.valid, FGets(BidLine(cal, b), 128), value);
    }

    /** The last fifty bids. */
    method BidsList(cal: Calendar, aid: nat) returns (text: string, written: nat)
      requires CalendarOk(cal) && aid in auctions && Readable(auctions[aid])
      ensures Forward(ShownBids(auctions[aid]))
      ensures text == BidsText(cal, ShownBids(auctions[aid])) && written == |text|
    {
      var a := auctions[aid];
      var entries := ScanNumbers(a.bids.Keys, 6, ".txt");
      ShownCount(cal, a, entries);
      var firstEntry := 2;
      if |entries| > 52 {
        firstEntry := |entries| - 50;
      }
      text, written := "", 0;
      for i := firstEntry to |entries|
        invariant text == ShownTo(cal, a, i - firstEntry) && written == |text|
      {
        ShownStep(cal, a, entries, i, i - firstEntry);
        var v := ScanInt(entries[i]).value;
        var entry := BidEntry(cal, a.bids[v], v);
        text := text + entry;
        written := written + |entry|;
      }
    }

    /** `get_auction_bidders_list`: the bids, the END if there is one, a line feed. `endLf` is
        whether the END was written with one. */
    method GetAuctionBiddersList(cal: Calendar, aid: nat, endLf: bool) returns (text: string, written: nat)
      requires CalendarOk(cal) && aid in auctions && Readable(auctions[aid])
      ensures Forward(ShownBids(auctions[aid])) && written == |text|
      ensures text == BidsText(cal, ShownBids(auctions[aid])) + EndText(cal, auctions[aid].end) + "\n"
    {
      text, written := BidsList(cal, aid);
      var end, endInfo := auctions[aid].end, "";
      if end.Some? {
        EndLineRoundTrip(cal, end.value, endLf);
        endInfo := ServerEnd(cal.valid, EndLine(cal, end.value, endLf));
        written := written + |endInfo|;
      }
      text := text + endInfo + "\n";
      written := written + 1;
    }
  }

  /* ---------- the two loops, entry by entry ---------- */

  /** What is listed of the first `i` names scanned: the two dot entries print nothing. */
  ghost function ListedTo(db: Db, ids: set<nat>, i: nat): string
    requires Fits(ids, 3) && i <= |Sorted(ids)| + 2
  {
    StatusesFit(db, ids);
    if i < 2 then "" else ListText(Statuses(db, ids)[..i - 2])
  }

  lemma StatusesFit(db: Db, ids: set<nat>)
    requires Fits(ids, 3)
    ensures Ids(Statuses(db, ids))
  {
    SortedFits(ids, 3);
  }

  lemma ListedAll(db: Db, e: seq<string>, ids: set<nat>, suffix: string)
    requires Fits(ids, 3) && e == Listing(ids, 3, suffix)
    ensures |e| == |Sorted(ids)| + 2 && Ids(Statuses(db, ids))
    ensures ListedTo(db, ids, |e|) == ListText(Statuses(db, ids))
  {
    SortedFits(ids, 3);
    StatusesFit(db, ids);
    var all := Statuses(db, ids);
    assert all[..|all|] == all;
  }

  lemma ListedStep(db: Db, e: seq<string>, ids: set<nat>, suffix: string, i: nat)
    requires Fits(ids, 3) && e == Listing(ids, 3, suffix) && i < |e|
    ensures |e| == |Sorted(ids)| + 2 && e[i] != "" && (e[i][0] == '.' <==> i < 2)
    ensures i < 2 ==> ListedTo(db, ids, i + 1) == ListedTo(db, ids, i)
    ensures 2 <= i ==>
              && |e[i]| >= 3
              && var id := Atoi(e[i][..3]);
                 id < Pow10(3) && ListedTo(db, ids, i + 1) == ListedTo(db, ids, i) + Entry(id, !Finished(db, id))
  {
    SortedFits(ids, 3);
    if 2 <= i {
      PaddedName(Sorted(ids)[i - 2], suffix);
      StatusesFit(db, ids);
      ListTextSnoc(Statuses(db, ids), i - 2);
    }
  }

  lemma PaddedName(n: nat, suffix: string)
    requires n < Pow10(3)
    ensures var name := Pad(n, 3) + suffix; |name| >= 3 && IsDigit(name[0]) && Atoi(name[..3]) == n
  {
    assert (Pad(n, 3) + suffix)[..3] == Pad(n, 3);
    NumPad(n, 3);
    DigitPrefixOf(Pad(n, 3), "");
    assert Pad(n, 3) + "" == Pad(n, 3) && Pad(n, 3)[..3] == Pad(n, 3);
  }

  /** The first `k` bids shown, printed. */
  ghost function ShownTo(cal: Calendar, a: Auction, k: nat): string
    requires Readable(a) && k <= |ShownBids(a)|
  {
    ShownForward(a);
    BidsText(cal, ShownBids(a)[..k])
  }

  lemma ShownForward(a: Auction)
    requires Readable(a)
    ensures Forward(ShownBids(a))
  {
  }

  /** The loop shows min(50, k) entries. */
  lemma ShownCount(cal: Calendar, a: Auction, e: seq<string>)
    requires Readable(a) && e == Listing(a.bids.Keys, 6, ".txt")
    ensures |e| >= 2 && |ShownBids(a)| == (if |e| > 52 then 50 else |e| - 2)
    ensures Forward(ShownBids(a)) && ShownTo(cal, a, |ShownBids(a)|) == BidsText(cal, ShownBids(a))
  {
    SortedFits(a.bids.Keys, 6);
    ShownForward(a);
    assert ShownBids(a)[..|ShownBids(a)|] == ShownBids(a);
  }

  lemma ShownEntry(a: Auction, e: seq<string>, i: nat, k: nat)
    requires Readable(a) && e == Listing(a.bids.Keys, 6, ".txt") && i < |e|
    requires k == (if |e| > 52 then i - (|e| - 50) else i - 2)
    ensures k < |ShownBids(a)| && ScanInt(e[i]) == Some(ShownBids(a)[k].0)
    ensures ShownBids(a)[k].0 in a.bids && ShownBids(a)[k].1 == a.bids[ShownBids(a)[k].0]
  {
    var s := Sorted(a.bids.Keys);
    SortedFits(a.bids.Keys, 6);
    LargestRecorded(a);
    assert Largest(s)[k] == s[i - 2];
    ScanPad(s[i - 2], 6, ".txt");
  }

  lemma ShownStep(cal: Calendar, a: Auction, e: seq<string>, i: nat, k: nat)
    requires CalendarOk(cal) && Readable(a) && e == Listing(a.bids.Keys, 6, ".txt") && i < |e|
    requires k == (if |e| > 52 then i - (|e| - 50) else i - 2)
    ensures k < |ShownBids(a)| && ScanInt(e[i]).Some? && ScanInt(e[i]).value in a.bids
    ensures var v := ScanInt(e[i]).value;
            && 0 <= a.bids[v].offset
            && ShownTo(cal, a, k + 1) == ShownTo(cal, a, k) + Spaced(EntryWords(cal, v, a.bids[v]))
  {
    ShownEntry(a, e, i, k);
    ShownForward(a);
    PrintedStep(cal, ShownBids(a), k);
  }

  lemma PrintedStep(cal: Calendar, shown: seq<(nat, BidFile)>, k: nat)
    requires Forward(shown) && k < |shown|
    ensures BidsText(cal, shown[..k + 1])
            == BidsText(cal, shown[..k]) + Spaced(EntryWords(cal, shown[k].0, shown[k].1))
  {
    BidsTextSnoc(cal, shown[..k], shown[k]);
    assert shown[..k + 1] == shown[..k] + [shown[k]];
  }

  lemma {:induction false} BidsTextSnoc(cal: Calendar, bids: seq<(nat, BidFile)>, b: (nat, BidFile))
    requires Forward(bids) && 0 <= b.1.offset
    ensures Forward(bids + [b])
    ensures BidsText(cal, bids + [b]) == BidsText(cal, bids) + Spaced(EntryWords(cal, b.0, b.1))
  {
    if bids == [] {
      assert bids + [b] == [b] && [b][1..] == [];
      assert BidsText(cal, [b]) == Spaced(EntryWords(cal, b.0, b.1)) + "";
    } else {
      assert (bids + [b])[1..] == bids[1..] + [b];
      BidsTextSnoc(cal, bids[1..], b);
      var x, y, z := Spaced(EntryWords(cal, bids[0].0, bids[0].1)), BidsText(cal, bids[1..]), Spaced(EntryWords(cal, b.0, b.1));
      assert x + (y + z) == (x + y) + z;
    }
  }

  /** A bid line fits the 128-byte read. */
  lemma BidLineFits(cal: Calendar, b: BidFile)
    requires CalendarOk(cal) && ValidUid(b.bidder) && 0 <= b.offset < TIME_LIMIT
    ensures FGets(BidLine(cal, b), 128) == BidLine(cal, b)
  {
    var ws := [b.bidder, cal.date(b.at), cal.clock(b.at)];
    Powers();
    DecWidth(b.offset, 10);
    DigitsWord(b.bidder);
    assert Word(cal.date(b.at)) && |cal.date(b.at)| == 10 && Word(cal.clock(b.at)) && |cal.clock(b.at)| == 8;
    assert Words(ws);
    SpacedFree(ws);
    SpacedLength(ws); SpacedLength(ws[1..]); SpacedLength(ws[2..]); SpacedLength(ws[3..]);
    var body := Spaced(ws)[1..] + [' '] + Dec(b.offset);
    assert BidLine(cal, b) == body + ['\n'] + "";
    assert Free(body, '\n');
    IndexOfAt(body, '\n', "");
  }

  /** `sscanf("%d")` finds no number in a dot entry. */
  lemma DotNames()
    ensures ScanInt(".") == None && ScanInt("..") == None
  {
  }
}
