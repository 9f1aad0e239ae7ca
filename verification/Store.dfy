/** The database of server/database.c as a value. A file tree under ASDIR becomes maps: a
    key stands for a directory or a file that exists. Every function here is what one
    critical section under `db_mutex` does to that value. */
module Store {
  import opened Text
  import opened Names

  type Uid = string
  type Passwd = string

  /** START_AID.txt; `time` is the Unix time the line ends with. */
  datatype Start = Start(owner: Uid, name: string, fname: string, sv: nat, ta: nat, time: int)

  /** BIDS/VVVVVV.txt: who, the instant the date and time are printed from, the offset. */
  datatype BidFile = BidFile(bidder: Uid, at: int, offset: int)

  /** END_AID.txt: the instant the date and time are printed from, the seconds active. */
  datatype EndFile = EndFile(at: int, duration: int)

  datatype Auction = Auction(start: Option<Start>, bids: map<nat, BidFile>, end: Option<EndFile>,
                             asset: map<string, string>)

  /** `hosted` and `bidded` hold one entry per user directory, which is never removed. */
  datatype Db = Db(passwords: map<Uid, Passwd>, logins: set<Uid>,
                   hosted: map<Uid, set<nat>>, bidded: map<Uid, set<nat>>,
                   count: nat, auctions: map<nat, Auction>)

  const Fresh: Db := Db(map[], {}, map[], map[], 0, map[])

  /* OPA accepts an empty name and a line feed in a file name. Of a START line with the one every
     token behind the owner is read one place off, of one with the other nothing behind the
     line feed is read (module Records). What that does is spelled out where it shows. */

  predicate Sound(st: Start) { st.name != "" && Free(st.fname, '\n') }

  /* ---------- expiry ---------- */

  /** `int start_time_l = atol(start_time)`: the value kept in 32 bits. */
  function Int32(x: int): (r: int)
    ensures -0x8000_0000 <= r < 0x8000_0000
    ensures r == x <==> -0x8000_0000 <= x < 0x8000_0000
  {
    (x + 0x8000_0000) % 0x1_0000_0000 - 0x8000_0000
  }

  /** What `int start_time_l` can hold. */
  const CLOCK_LIMIT: int := 0x8000_0000

  /** A time of ten digits, for which the lines of the files have room. */
  const TIME_LIMIT: int := 10000000000

  /** Opened while the clock still fits the `int` that `update_database` reads it into. */
  predicate InClock(a: Auction) { a.start.Some? ==> a.start.value.time < CLOCK_LIMIT }

  /** What `update_database` does to one auction directory at time `now`. */
  function Expire(a: Auction, now: int): Auction
  {
    if a.end.Some? || a.start.None? then a
    else
      var st := a.start.value;
      if !Sound(st) || st.ta > 99999 then a // the fifth token is missing, or no valid time active
      else if now - Int32(st.time) < st.ta then a
      else a.(end := Some(EndFile(Int32(st.time) + st.ta, st.ta)))
  }

  function ExpireAll(auctions: map<nat, Auction>, now: int): map<nat, Auction>
  {
    map i | i in auctions :: Expire(auctions[i], now)
  }

  /** `update_database`. */
  function Update(db: Db, now: int): Db
  {
    db.(auctions := ExpireAll(db.auctions, now))
  }

  /* ---------- reading ---------- */

  predicate ExistsUser(db: Db, uid: Uid) { uid in db.passwords }

  predicate LoggedIn(db: Db, uid: Uid) { uid in db.logins }

  predicate Authentic(db: Db, uid: Uid, passwd: Passwd)
  {
    uid in db.passwords && db.passwords[uid] == passwd
  }

  predicate ExistsAuction(db: Db, aid: nat) { 0 < aid <= db.count }

  predicate Finished(db: Db, aid: nat) { aid in db.auctions && db.auctions[aid].end.Some? }

  function Info(db: Db, aid: nat): Option<Start>
  {
    if aid in db.auctions then db.auctions[aid].start else None
  }

  /** The fourth token of the START line, which `handle_bid` takes for the start value; `None`
      when there is none, and NULL goes to its validator. */
  function Asked(st: Start): Option<nat>
  {
    if !Free(st.fname, '\n') then None else Some(if st.name == "" then st.ta else st.sv)
  }

  /** The third token, which `handle_show_asset` takes for the file name. */
  function Fetched(st: Start): Option<string>
  {
    if Free(st.fname, '\n') then Some(if st.name == "" then Dec(st.sv) else st.fname)
    else if st.name == "" then None
    else Some(st.fname[..IndexOf(st.fname, '\n')] + "\n")
  }

  /** `get_last_bid`: the largest recorded value, 0 when there is none; `None` when the
      directory cannot be scanned. */
  ghost function LastBid(db: Db, aid: nat): Option<nat>
  {
    if aid !in db.auctions then None
    else
      var values := db.auctions[aid].bids.Keys;
      Some(if values == {} then 0 else Max(values))
  }

  ghost function StatusesOf(db: Db, s: seq<nat>): (r: seq<(nat, bool)>)
    ensures |r| == |s| && forall k :: 0 <= k < |s| ==> r[k] == (s[k], !Finished(db, s[k]))
  {
    if s == [] then []
    else StatusesOf(db, s[..|s| - 1]) + [(s[|s| - 1], !Finished(db, s[|s| - 1]))]
  }

  /** The status list of a set of auctions, ids ascending: id, and whether still active. */
  ghost function Statuses(db: Db, ids: set<nat>): seq<(nat, bool)>
  {
    StatusesOf(db, Sorted(ids))
  }

  const MAX_BIDS_SHOWN: nat := 50

  /** All of an ascending list up to 50 numbers, else the 50 largest. */
  function Largest(s: seq<nat>): seq<nat>
  {
    if |s| > MAX_BIDS_SHOWN then s[|s| - MAX_BIDS_SHOWN..] else s
  }

  ghost predicate Recorded(s: seq<nat>, bids: map<nat, BidFile>) { forall k :: 0 <= k < |s| ==> s[k] in bids }

  ghost function BidsOf(s: seq<nat>, bids: map<nat, BidFile>): (r: seq<(nat, BidFile)>)
    requires Recorded(s, bids)
    ensures |r| == |s| && forall k :: 0 <= k < |s| ==> r[k] == (s[k], bids[s[k]])
  {
    if s == [] then [] else BidsOf(s[..|s| - 1], bids) + [(s[|s| - 1], bids[s[|s| - 1]])]
  }

  lemma LargestRecorded(a: Auction)
    ensures Recorded(Largest(Sorted(a.bids.Keys)), a.bids)
  {
    var s := Sorted(a.bids.Keys);
    forall k | 0 <= k < |s| ensures s[k] in a.bids { SortedAt(a.bids.Keys, k); }
  }

  /** The bids a record shows, ascending by value. */
  ghost function ShownBids(a: Auction): seq<(nat, BidFile)>
  {
    LargestRecorded(a);
    BidsOf(Largest(Sorted(a.bids.Keys)), a.bids)
  }

  /* ---------- writing users ---------- */

  /** The database afterwards, and whether the C function returned 0. */
  datatype Written = Written(db: Db, ok: bool)

  function LogIn(db: Db, uid: Uid): Written
  {
    if uid !in db.hosted then Written(db, false)
    else Written(db.(logins := db.logins + {uid}), true)
  }

  function LogOut(db: Db, uid: Uid): Written
  {
    if uid !in db.logins then Written(db, false)
    else Written(db.(logins := db.logins - {uid}), true)
  }

  function Register(db: Db, uid: Uid, passwd: Passwd): Db
  {
    db.(passwords := db.passwords[uid := passwd], logins := db.logins + {uid},
        hosted := if uid in db.hosted then db.hosted else db.hosted[uid := {}],
        bidded := if uid in db.bidded then db.bidded else db.bidded[uid := {}])
  }

  function Unregister(db: Db, uid: Uid): Written
  {
    if uid !in db.logins then Written(db, false)
    else if uid !in db.passwords then Written(db.(logins := db.logins - {uid}), false)
    else Written(db.(logins := db.logins - {uid}, passwords := db.passwords - {uid}), true)
  }

  /* ---------- writing auctions ---------- */

  const MAX_AUCTIONS: nat := 999

  /** `create_new_auction`, `content` being what the asset transfer delivered, if it did. */
  function Create(db: Db, st: Start, content: Option<string>): (r: (Db, Option<nat>))
    ensures r.1.None? ==> r.0 == db
  {
    if db.count >= MAX_AUCTIONS || content.None? || st.owner !in db.hosted then (db, None)
    else
      var id := db.count + 1;
      (db.(count := id,
           auctions := db.auctions[id := Auction(Some(st), map[], None, map[st.fname := content.value])],
           hosted := db.hosted[st.owner := db.hosted[st.owner] + {id}]),
       Some(id))
  }

  /** What the operating system may refuse while an auction is created: one of the three
      directories, or one of the files or the clock. */
  datatype Fault = NoFault | NoAuctionDir | NoBidsDir | NoAssetDir | NoStartFile | NoAssetFile

  predicate DirFault(f: Fault) { f.NoAuctionDir? || f.NoBidsDir? || f.NoAssetDir? }

  /** `create_new_auction` when `fault` strikes. What fails behind `create_auction_dir` is rolled
      back; what fails inside it is not, and has already taken the number. */
  function CreateWith(db: Db, st: Start, content: Option<string>, fault: Fault): (Db, Option<nat>)
  {
    if fault.NoFault? then Create(db, st, content)
    else if db.count >= MAX_AUCTIONS || !DirFault(fault) then (db, None)
    else
      var id := db.count + 1;
      (db.(count := id,
           auctions := if fault.NoAuctionDir? then db.auctions else db.auctions[id := Auction(None, map[], None, map[])]),
       None)
  }

  /** The start time `close_auction` and `bid` read; 0 stands for a line they cannot use. */
  function StartedAt(db: Db, aid: nat): (t: int)
    ensures t != 0 ==> aid in db.auctions && db.auctions[aid].start.Some? && t == db.auctions[aid].start.value.time
  {
    if aid !in db.auctions || db.auctions[aid].start.None? || !Sound(db.auctions[aid].start.value) then 0
    else db.auctions[aid].start.value.time
  }

  function CloseAuction(db: Db, aid: nat, now: int): Written
  {
    if StartedAt(db, aid) == 0 then Written(db, false)
    else
      var a := db.auctions[aid];
      Written(db.(auctions := db.auctions[aid := a.(end := Some(EndFile(now, now - a.start.value.time)))]), true)
  }

  /** `bid`: the bid file is written before the user's index is. */
  function RecordBid(db: Db, aid: nat, uid: Uid, value: nat, now: int): Written
  {
    if StartedAt(db, aid) == 0 then Written(db, false)
    else
      var a := db.auctions[aid];
      var b := BidFile(uid, now, now - a.start.value.time);
      var d := db.(auctions := db.auctions[aid := a.(bids := a.bids[value := b])]);
      if uid !in db.bidded then Written(d, false)
      else Written(d.(bidded := db.bidded[uid := db.bidded[uid] + {aid}]), true)
  }

  /** `load_db_state` after a restart: the counter is what a count of directories gives. */
  function Restart(db: Db): Db { db.(count := |db.auctions|) }

  /* ---------- the invariant of every level ---------- */

  ghost predicate StartOk(st: Start)
  {
    && ValidUid(st.owner) && ValidName(st.name) && ValidFname(st.fname)
    && Free(st.fname, ' ') && Free(st.fname, '\0')
    && st.sv < 999999 && st.ta <= 99999 && 0 < st.time
  }

  ghost predicate IdsOk(db: Db)
  {
    db.count <= 999 && forall i :: i in db.auctions <==> 0 < i <= db.count
  }

  ghost predicate UsersOk(db: Db)
  {
    db.logins <= db.passwords.Keys <= db.hosted.Keys == db.bidded.Keys
  }

  /** Bids are above the start value, below 10^6, and by someone other than the owner. */
  ghost predicate AuctionOk(a: Auction)
  {
    && a.start.Some? && StartOk(a.start.value)
    && forall v :: v in a.bids ==>
         && a.start.value.sv < v <= 999999
         && ValidUid(a.bids[v].bidder) && a.bids[v].bidder != a.start.value.owner
  }

  /** The auctions whose START names `u` as owner. */
  ghost function OwnedBy(m: map<nat, Auction>, u: Uid): set<nat>
  {
    set i | i in m && m[i].start.Some? && m[i].start.value.owner == u
  }

  ghost predicate HasBidBy(a: Auction, u: Uid)
  {
    exists v :: v in a.bids && a.bids[v].bidder == u
  }

  /** The auctions that hold a recorded bid by `u`. */
  ghost function BidOnBy(m: map<nat, Auction>, u: Uid): set<nat>
  {
    set i | i in m && HasBidBy(m[i], u)
  }

  /** HOSTED(u) is exactly what `u` owns, across unregistering and registering again. */
  ghost predicate HostedExact(db: Db)
  {
    && (forall u :: u in db.hosted ==> db.hosted[u] == OwnedBy(db.auctions, u))
    && forall i :: i in db.auctions && db.auctions[i].start.Some? ==>
         db.auctions[i].start.value.owner in db.hosted
  }

  ghost predicate BiddersIn(a: Auction, users: set<Uid>)
  {
    forall v :: v in a.bids ==> a.bids[v].bidder in users
  }

  /** BIDDED(u) contains every auction with a recorded bid by `u`. */
  ghost predicate BiddedCovers(db: Db)
  {
    && (forall u :: u in db.bidded ==> BidOnBy(db.auctions, u) <= db.bidded[u] <= db.auctions.Keys)
    && forall i :: i in db.auctions ==> BiddersIn(db.auctions[i], db.bidded.Keys)
  }

  ghost predicate AuctionsOk(m: map<nat, Auction>)
  {
    forall i :: i in m ==> AuctionOk(m[i])
  }

  ghost predicate Core(db: Db)
  {
    IdsOk(db) && UsersOk(db) && HostedExact(db) && BiddedCovers(db) && AuctionsOk(db.auctions)
  }

  lemma FreshCore()
    ensures Core(Fresh)
  {
  }

  /* What each critical section keeps. */

  /** Neither index depends on anything but STARTs and bids. */
  lemma SameIndexes(m: map<nat, Auction>, n: map<nat, Auction>)
    requires m.Keys == n.Keys
    requires forall i :: i in m ==> m[i].start == n[i].start && m[i].bids == n[i].bids
    ensures forall u :: OwnedBy(m, u) == OwnedBy(n, u)
    ensures forall u :: BidOnBy(m, u) == BidOnBy(n, u)
  {
    forall i, u | i in m ensures HasBidBy(m[i], u) <==> HasBidBy(n[i], u) {}
  }

  /** Changing only ENDs keeps the invariant. */
  lemma EndsCore(db: Db, d: Db)
    requires Core(db) && d == db.(auctions := d.auctions) && d.auctions.Keys == db.auctions.Keys
    requires forall i :: i in d.auctions ==>
               d.auctions[i].start == db.auctions[i].start && d.auctions[i].bids == db.auctions[i].bids
    ensures Core(d)
  {
    SameIndexes(db.auctions, d.auctions);
    forall i | i in d.auctions ensures AuctionOk(d.auctions[i]) && BiddersIn(d.auctions[i], d.bidded.Keys) {
      assert AuctionOk(db.auctions[i]) && BiddersIn(db.auctions[i], db.bidded.Keys);
    }
  }

  lemma UpdateCore(db: Db, now: int)
    requires Core(db)
    ensures Core(Update(db, now))
  {
    EndsCore(db, Update(db, now));
  }

  lemma CloseCore(db: Db, aid: nat, now: int)
    requires Core(db)
    ensures Core(CloseAuction(db, aid, now).db)
  {
    EndsCore(db, CloseAuction(db, aid, now).db);
  }

  /** A database whose auctions are untouched and whose user directories only gained empty
      ones. */
  lemma UsersFrame(db: Db, d: Db)
    requires Core(db) && UsersOk(d) && d.auctions == db.auctions && d.count == db.count
    requires forall u :: u in db.hosted ==> u in d.hosted && d.hosted[u] == db.hosted[u]
    requires forall u :: u in db.bidded ==> u in d.bidded && d.bidded[u] == db.bidded[u]
    requires forall u :: u in d.hosted && u !in db.hosted ==> d.hosted[u] == {}
    requires forall u :: u in d.bidded && u !in db.bidded ==> d.bidded[u] == {}
    ensures Core(d)
  {
    forall u | u in d.hosted && u !in db.hosted ensures OwnedBy(db.auctions, u) == {} {}
    forall u | u in d.bidded && u !in db.bidded ensures BidOnBy(db.auctions, u) == {} {
      forall i | i in db.auctions ensures !HasBidBy(db.auctions[i], u) {
        assert BiddersIn(db.auctions[i], db.bidded.Keys);
      }
    }
  }

  lemma RegisterCore(db: Db, uid: Uid, passwd: Passwd)
    requires Core(db)
    ensures Core(Register(db, uid, passwd))
  {
    UsersFrame(db, Register(db, uid, passwd));
  }

  lemma LoginsCore(db: Db, uid: Uid)
    requires Core(db)
    ensures Core(LogOut(db, uid).db) && Core(Unregister(db, uid).db)
    ensures ExistsUser(db, uid) ==> Core(LogIn(db, uid).db)
  {
    UsersFrame(db, LogOut(db, uid).db);
    UsersFrame(db, Unregister(db, uid).db);
    if ExistsUser(db, uid) { UsersFrame(db, LogIn(db, uid).db); }
  }

  lemma NewOwner(m: map<nat, Auction>, id: nat, a: Auction, u: Uid)
    requires id !in m && a.start.Some? && a.bids == map[]
    ensures OwnedBy(m[id := a], u) == OwnedBy(m, u) + (if u == a.start.value.owner then {id} else {})
    ensures BidOnBy(m[id := a], u) == BidOnBy(m, u)
  {
  }

  lemma CreateCore(db: Db, st: Start, content: Option<string>)
    requires Core(db) && StartOk(st)
    ensures Core(Create(db, st, content).0)
  {
    var d := Create(db, st, content).0;
    if d != db {
      var a := d.auctions[d.count];
      forall u
        ensures OwnedBy(d.auctions, u) == OwnedBy(db.auctions, u) + (if u == st.owner then {d.count} else {})
        ensures BidOnBy(d.auctions, u) == BidOnBy(db.auctions, u)
      {
        NewOwner(db.auctions, d.count, a, u);
      }
      assert AuctionOk(a);
      assert db.auctions.Keys <= d.auctions.Keys;
    }
  }

  lemma NumberTaken(db: Db)
    requires IdsOk(db) && db.count < MAX_AUCTIONS
    ensures var d := db.(count := db.count + 1); !IdsOk(d) && Restart(d) == db
  {
    IdsCard(db.auctions.Keys, db.count);
    assert |db.auctions| == |db.auctions.Keys| && db.count + 1 !in db.auctions;
  }

  lemma EmptyDirectory(db: Db)
    requires IdsOk(db) && db.count < MAX_AUCTIONS
    ensures var id := db.count + 1;
            var d := db.(count := id, auctions := db.auctions[id := Auction(None, map[], None, map[])]);
            !AuctionsOk(d.auctions) && Restart(d).count == id
  {
    var id := db.count + 1;
    var m := db.auctions[id := Auction(None, map[], None, map[])];
    IdsCard(m.Keys, id);
    assert |m| == |m.Keys| && !AuctionOk(m[id]);
  }

  /** Creating an auction keeps the invariant if and only if no directory is refused. Otherwise the
      counter admits an auction that cannot be read; a restart corrects that when there is not
      even a directory to count. */
  lemma CreateWithCore(db: Db, st: Start, content: Option<string>, fault: Fault)
    requires Core(db) && StartOk(st)
    ensures var d, id := CreateWith(db, st, content, fault).0, db.count + 1;
            && (Core(d) <==> !DirFault(fault) || db.count == 999)
            && (!Core(d) ==> ExistsAuction(d, id) && Info(d, id).None? && (Restart(d) == db <==> fault.NoAuctionDir?))
  {
    if !DirFault(fault) || db.count == 999 {
      CreateCore(db, st, content);
    } else if fault.NoAuctionDir? {
      NumberTaken(db);
    } else {
      EmptyDirectory(db);
    }
  }

  /** The auction directory after one more bid file. */
  function WithBid(a: Auction, uid: Uid, value: nat, now: int): Auction
    requires a.start.Some?
  {
    a.(bids := a.bids[value := BidFile(uid, now, now - a.start.value.time)])
  }

  /** Adding a bid adds the auction to its bidder's; an overwritten bid may take it from
      another's. */
  lemma NewBidder(m: map<nat, Auction>, id: nat, uid: Uid, value: nat, now: int, u: Uid)
    requires id in m && m[id].start.Some?
    ensures var n := m[id := WithBid(m[id], uid, value, now)];
            && OwnedBy(n, u) == OwnedBy(m, u)
            && BidOnBy(n, u) <= BidOnBy(m, u) + (if u == uid then {id} else {})
            && (value !in m[id].bids ==> BidOnBy(n, u) == BidOnBy(m, u) + (if u == uid then {id} else {}))
  {
    var b := WithBid(m[id], uid, value, now);
    assert b.bids[value].bidder == uid;
    if HasBidBy(b, u) && u != uid {
      var v :| v in b.bids && b.bids[v].bidder == u;
      assert v in m[id].bids && m[id].bids[v].bidder == u;
    }
    if HasBidBy(m[id], u) && value !in m[id].bids {
      var v :| v in m[id].bids && m[id].bids[v].bidder == u;
      assert v in b.bids && b.bids[v].bidder == u;
    }
  }

  lemma RecordCovers(db: Db, d: Db, aid: nat, uid: Uid, value: nat, now: int)
    requires BiddedCovers(db) && HostedExact(db) && aid in db.auctions && db.auctions[aid].start.Some?
    requires uid in db.bidded && d.hosted == db.hosted
    requires d.auctions == db.auctions[aid := WithBid(db.auctions[aid], uid, value, now)]
    requires d.bidded == db.bidded[uid := db.bidded[uid] + {aid}]
    ensures BiddedCovers(d) && HostedExact(d)
  {
    forall u
      ensures OwnedBy(d.auctions, u) == OwnedBy(db.auctions, u)
      ensures BidOnBy(d.auctions, u) <= BidOnBy(db.auctions, u) + (if u == uid then {aid} else {})
    {
      NewBidder(db.auctions, aid, uid, value, now, u);
    }
    assert d.bidded.Keys == db.bidded.Keys && d.auctions.Keys == db.auctions.Keys;
    forall i | i in d.auctions ensures BiddersIn(d.auctions[i], d.bidded.Keys) {
      assert BiddersIn(db.auctions[i], db.bidded.Keys);
    }
  }

  lemma RecordCore(db: Db, aid: nat, uid: Uid, value: nat, now: int)
    requires Core(db) && aid in db.auctions && uid in db.bidded
    requires AuctionOk(db.auctions[aid]) && ValidUid(uid) && db.auctions[aid].start.value.owner != uid
    requires db.auctions[aid].start.value.sv < value <= 999999
    ensures Core(RecordBid(db, aid, uid, value, now).db)
  {
    var d := RecordBid(db, aid, uid, value, now).db;
    if d != db {
      RecordCovers(db, d, aid, uid, value, now);
      assert AuctionOk(d.auctions[aid]);
      assert d.bidded.Keys == db.bidded.Keys;
    }
  }

  /** Membership is decided by the counter alone, and a restart recovers it. */
  lemma CounterDecides(db: Db, aid: nat)
    requires IdsOk(db)
    ensures ExistsAuction(db, aid) <==> aid in db.auctions
    ensures Restart(db) == db
  {
    IdsCard(db.auctions.Keys, db.count);
  }

  lemma {:induction false} IdsCard(s: set<nat>, n: nat)
    requires forall i :: i in s <==> 0 < i <= n
    ensures |s| == n
  {
    if n == 0 {
      assert s == {};
    } else {
      IdsCard(s - {n}, n - 1);
    }
  }
}
