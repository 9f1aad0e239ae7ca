/** What interleaving costs. A worker looks at an auction in one critical section and writes in
    a later one; this module says exactly when the write then overwrites a bid, follows the
    END, rewrites it or comes past the deadline, and shows runs from a server just started in
    which it does. */
module Races {
  import opened Text
  import opened Names
  import opened Store
  import opened Handlers
  import opened Interleaved

  /* ---------- who writes what ---------- */

  ghost predicate SoundIn(db: Db, id: nat)
  {
    id in db.auctions && db.auctions[id].start.Some? && Sound(db.auctions[id].start.value)
  }

  /** What `update_database` would find of auction `id`. */
  predicate Overdue(db: Db, id: nat, now: int)
  {
    id in db.auctions && db.auctions[id].start.Some?
    && db.auctions[id].start.value.ta <= now - Int32(db.auctions[id].start.value.time)
  }

  predicate PutsBid(p: Pc, id: nat, v: nat)
  {
    p.Job? && p.req.Bid? && p.stage == Writing && Id(p.req) == id && p.req.value == v
  }

  predicate PutsEnd(p: Pc, id: nat)
  {
    p.Job? && p.req.Close? && p.stage == Writing && Id(p.req) == id
  }

  /** The step of a worker about to write a bid of `v` on auction `id`. */
  predicate WritesBid(s: Sys, l: Label, id: nat, v: nat)
  {
    l.Work? && l.t in s.workers && PutsBid(s.workers[l.t], id, v)
  }

  predicate Updates(p: Pc) { p.Job? && !p.req.ShowAsset? && p.stage == Updating }

  /** The step of a worker about to close auction `id`, or an update by any thread while it is
      overdue. */
  predicate WritesEnd(s: Sys, l: Label, id: nat)
  {
    || (l.Work? && l.t in s.workers
        && (PutsEnd(s.workers[l.t], id)
            || (Updates(s.workers[l.t]) && Overdue(s.db, id, s.clock))))
    || (l.UdpWork? && s.udp.Serving? && s.udp.stage == Refreshing && Overdue(s.db, id, s.clock))
  }

  ghost predicate BidIn(s: Sys, run: seq<Label>, id: nat, v: nat)
  {
    exists k :: 0 <= k < |run| && WritesBid(Exec(s, run[..k]), run[k], id, v)
  }

  ghost predicate EndIn(s: Sys, run: seq<Label>, id: nat)
  {
    exists k :: 0 <= k < |run| && WritesEnd(Exec(s, run[..k]), run[k], id)
  }

  /* One critical section. */

  lemma UpdateFinishes(db: Db, now: int, id: nat)
    requires SoundIn(db, id) && AuctionOk(db.auctions[id])
    ensures SoundIn(Update(db, now), id) && Update(db, now).auctions[id].bids == db.auctions[id].bids
    ensures Finished(Update(db, now), id) <==> Finished(db, id) || Overdue(db, id, now)
  {
  }

  /** The write of a bid or an END into auction `i`, seen from auction `id`. */
  lemma WritesSeen(db: Db, i: nat, uid: Uid, value: nat, now: int, id: nat)
    requires SoundIn(db, id) && AuctionOk(db.auctions[id])
    ensures var d := RecordBid(db, i, uid, value, now).db;
            && SoundIn(d, id) && d.auctions[id].end == db.auctions[id].end
            && d.auctions[id].bids.Keys == db.auctions[id].bids.Keys + (if i == id then {value} else {})
    ensures var d := CloseAuction(db, i, now).db;
            && SoundIn(d, id) && d.auctions[id].bids == db.auctions[id].bids
            && (Finished(d, id) <==> Finished(db, id) || i == id)
  {
  }

  lemma CreateSeen(db: Db, st: Start, content: Option<string>, id: nat)
    requires SoundIn(db, id) && IdsOk(db)
    ensures var d := Create(db, st, content).0; SoundIn(d, id) && d.auctions[id] == db.auctions[id]
  {
  }

  lemma WritingSeen(db: Db, now: int, p: Pc, id: nat, v: nat)
    requires IdsOk(db) && SoundIn(db, id) && AuctionOk(db.auctions[id])
    requires p.Job? && Admitted(p.req) && !p.req.ShowAsset? && p.stage == Writing
    ensures var d := Write(db, now, p.req).db;
            && SoundIn(d, id)
            && (v in d.auctions[id].bids <==> v in db.auctions[id].bids || PutsBid(p, id, v))
            && (Finished(d, id) <==> Finished(db, id) || PutsEnd(p, id))
  {
    if p.req.Open? {
      CreateSeen(db, OpenStart(p.req.uid, p.req.args, now), p.req.content, id);
    } else {
      var value := if p.req.Bid? then p.req.value else 0;
      WritesSeen(db, Id(p.req), p.req.uid, value, now, id);
      assert forall d: Db :: id in d.auctions ==> (v in d.auctions[id].bids <==> v in d.auctions[id].bids.Keys);
    }
  }

  lemma WorkSeen(db: Db, now: int, p: Pc, id: nat, v: nat)
    requires IdsOk(db) && SoundIn(db, id) && AuctionOk(db.auctions[id]) && p.Job? && Admitted(p.req)
    ensures var d := WorkerStep(db, now, p).0;
            && SoundIn(d, id)
            && (v in d.auctions[id].bids <==> v in db.auctions[id].bids || PutsBid(p, id, v))
            && (Finished(d, id) <==>
                  Finished(db, id) || PutsEnd(p, id) || (Updates(p) && Overdue(db, id, now)))
  {
    if p.req.ShowAsset? {
      assert WorkerStep(db, now, p).0 == db;
    } else if p.stage == Writing {
      WritingSeen(db, now, p, id, v);
    } else if p.stage == Updating {
      UpdateFinishes(db, now, id);
    }
  }

  lemma UdpSeen(db: Db, now: int, p: UdpPc)
    requires p.Serving? && UdpAdmitted(p.req)
    ensures UdpStep(db, now, p).0.auctions == if p.stage == Refreshing then Update(db, now).auctions else db.auctions
  {
  }

  /* One step of any thread. */

  lemma StepSeen(s: Sys, l: Label, id: nat, v: nat)
    requires Inv(s) && SoundIn(s.db, id)
    ensures var d := Step(s, l).db;
            && SoundIn(d, id)
            && (v in d.auctions[id].bids <==> v in s.db.auctions[id].bids || WritesBid(s, l, id, v))
            && (Finished(d, id) <==> Finished(s.db, id) || WritesEnd(s, l, id))
  {
    assert AuctionOk(s.db.auctions[id]);
    if l.Work? && Enabled(s, l) {
      WorkSeen(s.db, s.clock, s.workers[l.t], id, v);
    }
    if l.UdpWork? && Enabled(s, l) {
      UdpSeen(s.db, s.clock, s.udp);
      UpdateFinishes(s.db, s.clock, id);
    }
    assert l.Work? && l.t in s.workers && s.workers[l.t].Job? ==> Enabled(s, l);
    assert l.UdpWork? && s.udp.Serving? ==> Enabled(s, l);
  }

  /* ---------- the exact conditions over any run ---------- */

  lemma BidInSnoc(s: Sys, run: seq<Label>, init: seq<Label>, l: Label, id: nat, v: nat)
    requires run == init + [l]
    ensures BidIn(s, run, id, v) <==> BidIn(s, init, id, v) || WritesBid(Exec(s, init), l, id, v)
  {
    forall k | 0 <= k <= |init| ensures run[..k] == init[..k] {}
    assert init[..|init|] == init;
    if k: int :| 0 <= k < |run| && WritesBid(Exec(s, run[..k]), run[k], id, v) {
      assert k < |init| ==> WritesBid(Exec(s, init[..k]), init[k], id, v);
    }
    if k: int :| 0 <= k < |init| && WritesBid(Exec(s, init[..k]), init[k], id, v) {
      assert WritesBid(Exec(s, run[..k]), run[k], id, v);
    }
    if WritesBid(Exec(s, init), l, id, v) { assert WritesBid(Exec(s, run[..|init|]), run[|init|], id, v); }
  }

  lemma EndInSnoc(s: Sys, run: seq<Label>, init: seq<Label>, l: Label, id: nat)
    requires run == init + [l]
    ensures EndIn(s, run, id) <==> EndIn(s, init, id) || WritesEnd(Exec(s, init), l, id)
  {
    forall k | 0 <= k <= |init| ensures run[..k] == init[..k] {}
    assert init[..|init|] == init;
    if k: int :| 0 <= k < |run| && WritesEnd(Exec(s, run[..k]), run[k], id) {
      assert k < |init| ==> WritesEnd(Exec(s, init[..k]), init[k], id);
    }
    if k: int :| 0 <= k < |init| && WritesEnd(Exec(s, init[..k]), init[k], id) {
      assert WritesEnd(Exec(s, run[..k]), run[k], id);
    }
    if WritesEnd(Exec(s, init), l, id) { assert WritesEnd(Exec(s, run[..|init|]), run[|init|], id); }
  }

  lemma {:induction false} ExecBids(s: Sys, run: seq<Label>, id: nat, v: nat)
    requires Inv(s) && SoundIn(s.db, id)
    ensures var d := Exec(s, run).db;
            SoundIn(d, id) && (v in d.auctions[id].bids <==> v in s.db.auctions[id].bids || BidIn(s, run, id, v))
  {
    if run != [] {
      var init, l := run[..|run| - 1], run[|run| - 1];
      ExecBids(s, init, id, v);
      ExecKeeps(s, init);
      OneMoreBid(s, run, init, l, Exec(s, init), id, v);
    }
  }

  lemma OneMoreBid(s: Sys, run: seq<Label>, init: seq<Label>, l: Label, m: Sys, id: nat, v: nat)
    requires SoundIn(s.db, id) && run == init + [l] && m == Exec(s, init) && Inv(m) && SoundIn(m.db, id)
    requires v in m.db.auctions[id].bids <==> v in s.db.auctions[id].bids || BidIn(s, init, id, v)
    ensures SoundIn(Step(m, l).db, id)
    ensures v in Step(m, l).db.auctions[id].bids <==> v in s.db.auctions[id].bids || BidIn(s, run, id, v)
  {
    StepSeen(m, l, id, v);
    BidInSnoc(s, run, init, l, id, v);
  }

  lemma {:induction false} ExecEnds(s: Sys, run: seq<Label>, id: nat)
    requires Inv(s) && SoundIn(s.db, id)
    ensures var d := Exec(s, run).db; SoundIn(d, id) && (Finished(d, id) <==> Finished(s.db, id) || EndIn(s, run, id))
  {
    if run != [] {
      var init, l := run[..|run| - 1], run[|run| - 1];
      ExecEnds(s, init, id);
      ExecKeeps(s, init);
      OneMoreEnd(s, run, init, l, Exec(s, init), id);
    }
  }

  lemma OneMoreEnd(s: Sys, run: seq<Label>, init: seq<Label>, l: Label, m: Sys, id: nat)
    requires run == init + [l] && m == Exec(s, init) && Inv(m) && SoundIn(m.db, id)
    requires Finished(m.db, id) <==> Finished(s.db, id) || EndIn(s, init, id)
    ensures SoundIn(Step(m, l).db, id) && (Finished(Step(m, l).db, id) <==> Finished(s.db, id) || EndIn(s, run, id))
  {
    StepSeen(m, l, id, 0);
    EndInSnoc(s, run, init, l, id);
  }

  /** Over any run a value is recorded if and only if it was before or a worker wrote it, and an
      auction is finished if and only if it was before, a worker closed it, or some thread
      updated while it was overdue. */
  lemma ExecSeen(s: Sys, run: seq<Label>, id: nat, v: nat)
    requires Inv(s) && SoundIn(s.db, id)
    ensures var d := Exec(s, run).db;
            && SoundIn(d, id)
            && (v in d.auctions[id].bids <==> v in s.db.auctions[id].bids || BidIn(s, run, id, v))
            && (Finished(d, id) <==> Finished(s.db, id) || EndIn(s, run, id))
  {
    ExecBids(s, run, id, v);
    ExecEnds(s, run, id);
  }

  /* ---------- a worker's window ---------- */

  /** A bid overwrites a file if and only if another worker writes the same value on the same
      auction between the `get_last_bid` and the `bid` of its worker. */
  lemma OverwritesExactly(s: Sys, t: nat, window: seq<Label>)
    requires Inv(s) && Looking(s, t) && SoundIn(s.db, Id(s.workers[t].req))
    requires forall i :: 0 <= i < |window| ==> window[i] != Work(t)
    ensures var one, id, v := Step(s, Work(t)), Id(s.workers[t].req), s.workers[t].req.value;
            var w := Exec(one, window);
            && WritesBid(w, Work(t), id, v) && id in w.db.auctions
            && (v in w.db.auctions[id].bids <==> BidIn(one, window, id, v))
  {
    var one, id, v := Step(s, Work(t)), Id(s.workers[t].req), s.workers[t].req.value;
    LookedAbove(s, t);
    StepKeeps(s, Work(t));
    ExecSeen(one, window, id, v);
    OthersLeave(one, window, t);
  }

  /** Looking changes nothing, and what is offered is not recorded yet. */
  lemma LookedAbove(s: Sys, t: nat)
    requires Inv(s) && Looking(s, t)
    ensures Step(s, Work(t)).db == s.db && Id(s.workers[t].req) in s.db.auctions
    ensures s.workers[t].req.value !in s.db.auctions[Id(s.workers[t].req)].bids
    ensures PutsBid(Step(s, Work(t)).workers[t], Id(s.workers[t].req), s.workers[t].req.value)
  {
    Looked(s, t);
    AcceptedExceedsSeen(s, t, [], s.workers[t].req.value);
  }

  /** Worker `t` is about to run `is_auction_finished` and will find that it is not. */
  ghost predicate Checking(s: Sys, t: nat)
  {
    && t in s.workers && s.workers[t].Job? && (s.workers[t].req.Bid? || s.workers[t].req.Close?)
    && s.workers[t].stage == FindEnd && !Finished(s.db, Id(s.workers[t].req))
  }

  /** What worker `t` writes with its next step, it writes into a finished auction if and only
      if, since it ran `is_auction_finished`, a worker has closed that auction or a thread has
      updated while it was overdue. A bid then follows the END, a close rewrites it. */
  lemma WritesAfterEndExactly(s: Sys, t: nat, window: seq<Label>, w: Sys)
    requires Inv(s) && Checking(s, t) && SoundIn(s.db, Id(s.workers[t].req))
    requires w == Exec(Step(s, Work(t)), window) && t in w.workers
    requires w.workers[t].Job? && w.workers[t].stage == Writing && w.workers[t].req == s.workers[t].req
    ensures var req, id, z := s.workers[t].req, Id(s.workers[t].req), Step(w, Work(t));
            && (Finished(w.db, id) <==> EndIn(Step(s, Work(t)), window, id))
            && id in z.db.auctions
            && (req.Bid? ==> req.value in z.db.auctions[id].bids && (Finished(z.db, id) <==> Finished(w.db, id)))
            && (req.Close? ==> z.db.auctions[id].end.Some? && z.db.auctions[id].end.value.at == w.clock)
  {
    var req, one := s.workers[t].req, Step(s, Work(t));
    var id := Id(req);
    StepKeeps(s, Work(t));
    CheckedSame(s, t);
    ExecEnds(one, window, id);
    ExecKeeps(one, window);
    WritesThere(w, t, req);
  }

  lemma WritesThere(w: Sys, t: nat, req: Request)
    requires Inv(w) && Trades(req) && SoundIn(w.db, Id(req)) && t in w.workers
    requires w.workers[t].Job? && w.workers[t].stage == Writing && w.workers[t].req == req
    ensures var id, z := Id(req), Step(w, Work(t));
            && id in z.db.auctions
            && (req.Bid? ==> req.value in z.db.auctions[id].bids && (Finished(z.db, id) <==> Finished(w.db, id)))
            && (req.Close? ==> z.db.auctions[id].end.Some? && z.db.auctions[id].end.value.at == w.clock)
  {
    StepSeen(w, Work(t), Id(req), if req.Bid? then req.value else 0);
    if req.Close? {
      assert AuctionOk(w.db.auctions[Id(req)]);
      CloseStamps(w.db, w.clock, w.workers[t]);
    }
  }

  lemma CheckedSame(s: Sys, t: nat)
    requires Inv(s) && Checking(s, t)
    ensures Step(s, Work(t)).db == s.db
  {
  }

  lemma CloseStamps(db: Db, now: int, p: Pc)
    requires p.Job? && Admitted(p.req) && p.req.Close? && p.stage == Writing
    requires SoundIn(db, Id(p.req)) && AuctionOk(db.auctions[Id(p.req)])
    ensures var d := WorkerStep(db, now, p).0;
            Id(p.req) in d.auctions && d.auctions[Id(p.req)].end.Some? && d.auctions[Id(p.req)].end.value.at == now
  {
  }

  /* ---------- what a write leaves ---------- */

  /** Worker `t` has decided to write into auction `id`, which it has read by its name. */
  ghost predicate AboutTo(s: Sys, t: nat, id: nat, req: Request)
  {
    && t in s.workers && s.workers[t].Job? && s.workers[t].stage == Writing && s.workers[t].req == req
    && (req.Bid? || req.Close?) && Id(req) == id && WorkerOk(s.db, s.workers[t])
    && Sound(s.workers[t].info.value)
  }

  /** Another worker's write leaves worker `u` where it is. */
  lemma StillAboutTo(s: Sys, t: nat, u: nat, id: nat, req: Request)
    requires Inv(s) && t != u && AboutTo(s, u, id, req)
    ensures Inv(Step(s, Work(t))) && AboutTo(Step(s, Work(t)), u, id, req)
  {
    StepKeeps(s, Work(t));
    OthersStayOk(s.db, Step(s, Work(t)).db, s.workers[u]);
  }

  lemma WriteShape(db: Db, now: int, p: Pc)
    requires AuctionsOk(db.auctions) && p.Job? && p.stage == Writing && WorkerOk(db, p) && (p.req.Bid? || p.req.Close?)
    requires Sound(p.info.value)
    ensures var id := Id(p.req);
            && id in db.auctions && db.auctions[id].start.Some? && p.req.uid in db.bidded
            && WorkerStep(db, now, p).0.auctions
               == db.auctions[id := if p.req.Bid? then WithBid(db.auctions[id], p.req.uid, p.req.value, now)
                                    else db.auctions[id].(end := Some(EndFile(now, now - db.auctions[id].start.value.time)))]
            && (p.req.Bid? ==>
                  WorkerStep(db, now, p).0.bidded == db.bidded[p.req.uid := db.bidded[p.req.uid] + {id}])
  {
    assert AuctionOk(db.auctions[Id(p.req)]);
  }

  lemma BidWritten(s: Sys, t: nat, id: nat, req: Request)
    requires Inv(s) && AboutTo(s, t, id, req) && req.Bid?
    ensures id in s.db.auctions && req.uid in s.db.bidded && s.db.auctions[id].start.Some?
    ensures var d := Step(s, Work(t)).db;
            && d.auctions == s.db.auctions[id := WithBid(s.db.auctions[id], req.uid, req.value, s.clock)]
            && d.bidded == s.db.bidded[req.uid := s.db.bidded[req.uid] + {id}]
  {
    WriteShape(s.db, s.clock, s.workers[t]);
  }

  lemma EndWritten(s: Sys, t: nat, id: nat, req: Request)
    requires Inv(s) && AboutTo(s, t, id, req) && req.Close?
    ensures id in s.db.auctions && s.db.auctions[id].start.Some?
    ensures var a := s.db.auctions[id];
            Step(s, Work(t)).db.auctions
            == s.db.auctions[id := a.(end := Some(EndFile(s.clock, s.clock - a.start.value.time)))]
  {
    WriteShape(s.db, s.clock, s.workers[t]);
  }

  /* ---------- past the deadline ---------- */

  /** Auction `Id(req)` is finished, and worker `t` is not behind the check that will tell it. */
  ghost predicate TooLate(s: Sys, t: nat, req: Request)
    requires Trades(req)
  {
    && Finished(s.db, Id(req)) && t in s.workers
    && (s.workers[t].Job? ==> s.workers[t].req == req && s.workers[t].stage !in {ReadLast, Writing, Sending})
  }

  lemma StopsAtEnd(db: Db, now: int, p: Pc)
    requires p.Job? && Trades(p.req) && Admitted(p.req) && Finished(db, Id(p.req))
    requires p.stage !in {ReadLast, Writing, Sending}
    ensures var q := WorkerStep(db, now, p).1; q.Job? ==> q.req == p.req && q.stage !in {ReadLast, Writing, Sending}
  {
  }

  lemma StaysFinished(s: Sys, l: Label, id: nat)
    requires Inv(s) && Finished(s.db, id)
    ensures Finished(Step(s, l).db, id)
  {
    StepKeeps(s, l);
    assert Grew(s.db.auctions[id], Step(s, l).db.auctions[id]);
  }

  lemma StaysTooLate(s: Sys, t: nat, req: Request, l: Label)
    requires Inv(s) && Trades(req) && TooLate(s, t, req) && !(l.Call? && l.t == t)
    ensures TooLate(Step(s, l), t, req)
  {
    StaysFinished(s, l, Id(req));
    if l == Work(t) && Enabled(s, l) { StopsAtEnd(s.db, s.clock, s.workers[t]); }
  }

  predicate NotCalled(t: nat, run: seq<Label>) { forall i :: 0 <= i < |run| ==> !(run[i].Call? && run[i].t == t) }

  lemma {:induction false} NeverWrites(s: Sys, t: nat, req: Request, run: seq<Label>)
    requires Inv(s) && Trades(req) && TooLate(s, t, req) && NotCalled(t, run)
    ensures TooLate(Exec(s, run), t, req)
  {
    if run != [] {
      var init := run[..|run| - 1];
      NeverWrites(s, t, req, init);
      ExecKeeps(s, init);
      StaysTooLate(Exec(s, init), t, req, run[|run| - 1]);
    }
  }

  /** An auction that appears during a run is not older than the run. */
  ghost predicate NotOlder(d: Db, id: nat, clock: int)
  {
    id in d.auctions && d.auctions[id].start.Some? ==> clock <= d.auctions[id].start.value.time
  }

  lemma WriteNotOlder(db: Db, now: int, req: Request, id: nat, clock: int)
    requires NotOlder(db, id, clock) && clock <= now && Admitted(req) && !req.ShowAsset?
    ensures NotOlder(Write(db, now, req).db, id, clock)
  {
  }

  lemma WorkNotOlder(db: Db, now: int, p: Pc, id: nat, clock: int)
    requires NotOlder(db, id, clock) && clock <= now && p.Job? && Admitted(p.req)
    ensures NotOlder(WorkerStep(db, now, p).0, id, clock)
  {
    if !p.req.ShowAsset? { WriteNotOlder(db, now, p.req, id, clock); }
  }

  lemma StepNotOlder(s: Sys, l: Label, id: nat, clock: int)
    requires Inv(s) && NotOlder(s.db, id, clock) && clock <= s.clock
    ensures NotOlder(Step(s, l).db, id, clock) && clock <= Step(s, l).clock
  {
    if l.Work? && Enabled(s, l) { WorkNotOlder(s.db, s.clock, s.workers[l.t], id, clock); }
    if l.UdpWork? && Enabled(s, l) { UdpSeen(s.db, s.clock, s.udp); }
  }

  lemma {:induction false} ExecNotOlder(s: Sys, run: seq<Label>, id: nat, clock: int)
    requires Inv(s) && NotOlder(s.db, id, clock) && clock <= s.clock
    ensures NotOlder(Exec(s, run).db, id, clock) && clock <= Exec(s, run).clock
  {
    if run != [] {
      var init := run[..|run| - 1];
      ExecNotOlder(s, init, id, clock);
      ExecKeeps(s, init);
      StepNotOlder(Exec(s, init), run[|run| - 1], id, clock);
    }
  }

  /** The first section of worker `t` is an update, and if the time of its auction is over by
      then, `t` comes too late. */
  lemma UpdatedInTime(s: Sys, t: nat, window: seq<Label>, w: Sys)
    requires Inv(s) && t in s.workers && s.workers[t].Job? && Trades(s.workers[t].req) && s.workers[t].stage == Updating
    requires w == Exec(Step(s, Work(t)), window) && NotCalled(t, window)
    requires t in w.workers && w.workers[t].Job? && w.workers[t].stage == Writing
    requires SoundIn(s.db, Id(s.workers[t].req)) && InClock(s.db.auctions[Id(s.workers[t].req)])
    ensures var st := s.db.auctions[Id(s.workers[t].req)].start.value; s.clock < st.time + st.ta
  {
    var req := s.workers[t].req;
    var st := s.db.auctions[Id(req)].start.value;
    if st.time + st.ta <= s.clock {
      UpdatedTooLate(s, t);
      NeverWrites(Step(s, Work(t)), t, req, window);
    }
  }

  lemma UpdatedTooLate(s: Sys, t: nat)
    requires Inv(s) && t in s.workers && s.workers[t].Job? && Trades(s.workers[t].req) && s.workers[t].stage == Updating
    requires SoundIn(s.db, Id(s.workers[t].req)) && InClock(s.db.auctions[Id(s.workers[t].req)])
    requires var st := s.db.auctions[Id(s.workers[t].req)].start.value; st.time + st.ta <= s.clock
    ensures Inv(Step(s, Work(t))) && TooLate(Step(s, Work(t)), t, s.workers[t].req)
  {
    StepKeeps(s, Work(t));
    DueIsFinished(s.db, s.clock, Id(s.workers[t].req));
    assert Step(s, Work(t)).db == Update(s.db, s.clock);
  }

  lemma DueIsFinished(db: Db, now: int, id: nat)
    requires AuctionsOk(db.auctions) && SoundIn(db, id) && InClock(db.auctions[id])
    requires db.auctions[id].start.value.time + db.auctions[id].start.value.ta <= now
    ensures Finished(Update(db, now), id)
  {
    assert AuctionOk(db.auctions[id]);
    assert Int32(db.auctions[id].start.value.time) == db.auctions[id].start.value.time;
  }

  /** What worker `t` writes into an auction, a bid or an END, lies at or past its deadline if and
      only if the clock passes the deadline between the update of `t` and this write. (An auction
      that was not there at the update is not older than that.) */
  lemma LateExactly(s: Sys, t: nat, window: seq<Label>, w: Sys)
    requires Inv(s) && t in s.workers && s.workers[t].Job? && Trades(s.workers[t].req) && s.workers[t].stage == Updating
    requires w == Exec(Step(s, Work(t)), window) && NotCalled(t, window)
    requires t in w.workers && w.workers[t].Job? && w.workers[t].stage == Writing && w.workers[t].req == s.workers[t].req
    requires SoundIn(w.db, Id(s.workers[t].req)) && InClock(w.db.auctions[Id(s.workers[t].req)])
    ensures var req, id, z := s.workers[t].req, Id(s.workers[t].req), Step(w, Work(t));
            var st := w.db.auctions[id].start.value;
            && id in z.db.auctions
            && (req.Bid? ==> req.value in z.db.auctions[id].bids)
            && (req.Close? ==> z.db.auctions[id].end.Some?)
            && var offset := if req.Bid? then z.db.auctions[id].bids[req.value].offset
                             else z.db.auctions[id].end.value.duration;
               st.ta <= offset <==>
                 st.time + st.ta <= w.clock
                 && if id in s.db.auctions then s.clock < st.time + st.ta else s.clock <= st.time
  {
    var req, id := s.workers[t].req, Id(s.workers[t].req);
    StepKeeps(s, Work(t));
    ExecKeeps(Step(s, Work(t)), window);
    assert AboutTo(w, t, id, req);
    if req.Bid? { BidWritten(w, t, id, req); } else { EndWritten(w, t, id, req); }
    if id in s.db.auctions {
      SameStart(s, t, window, id);
      UpdatedInTime(s, t, window, w);
    } else {
      assert Step(s, Work(t)).db == Update(s.db, s.clock);
      ExecNotOlder(Step(s, Work(t)), window, id, s.clock);
    }
  }

  lemma SameStart(s: Sys, t: nat, window: seq<Label>, id: nat)
    requires Inv(s) && id in s.db.auctions
    ensures var d := Exec(Step(s, Work(t)), window).db; id in d.auctions && d.auctions[id].start == s.db.auctions[id].start
  {
    StepKeeps(s, Work(t));
    ExecKeeps(Step(s, Work(t)), window);
    assert Grew(s.db.auctions[id], Step(s, Work(t)).db.auctions[id]);
    assert Grew(Step(s, Work(t)).db.auctions[id], Exec(Step(s, Work(t)), window).db.auctions[id]);
  }

  /* ---------- it does happen ---------- */

  /** A bid decided before a close is recorded after the END. */
  lemma BidAfterEnd(s: Sys, t: nat, u: nat, id: nat, close: Request, bid: Request)
    requires Inv(s) && t != u && AboutTo(s, t, id, close) && AboutTo(s, u, id, bid) && close.Close? && bid.Bid?
    requires id in s.db.auctions && bid.value !in s.db.auctions[id].bids
    ensures var m, w := Step(s, Work(t)), Exec(s, [Work(t), Work(u)]);
            && Finished(m.db, id) && bid.value !in m.db.auctions[id].bids
            && Finished(w.db, id) && bid.value in w.db.auctions[id].bids
  {
    TwoSteps(s, Work(t), Work(u));
    EndWritten(s, t, id, close);
    StillAboutTo(s, t, u, id, bid);
    BidWritten(Step(s, Work(t)), u, id, bid);
  }

  /** Two closers who both found the auction open: the second writes the END again, later. */
  lemma EndRewritten(s: Sys, t: nat, u: nat, id: nat, first: Request, second: Request, d: nat)
    requires Inv(s) && t != u && AboutTo(s, t, id, first) && AboutTo(s, u, id, second)
    requires first.Close? && second.Close? && 0 < d
    ensures var m := Step(s, Work(t));
            var w := Step(Step(m, Tick(d)), Work(u));
            && id in m.db.auctions && id in w.db.auctions
            && m.db.auctions[id].end.Some? && w.db.auctions[id].end.Some?
            && m.db.auctions[id].end.value.at < w.db.auctions[id].end.value.at
  {
    EndWritten(s, t, id, first);
    StillAboutTo(s, t, u, id, second);
    EndWritten(Step(Step(s, Work(t)), Tick(d)), u, id, second);
    assert Step(s, Work(t)).clock == s.clock;
  }

  /* And all of it happens: from any state in which each request alone would succeed. */

  /** A request whose handler would write if it ran alone now, with nothing overdue. */
  ghost predicate WouldWrite(s: Sys, req: Request)
  {
    && (req.Bid? || req.Close?) && Admitted(req) && Update(s.db, s.clock) == s.db
    && ExistsUser(s.db, req.uid) && LoggedIn(s.db, req.uid) && Authentic(s.db, req.uid, req.passwd)
    && ExistsAuction(s.db, Id(req)) && Info(s.db, Id(req)).Some? && !Finished(s.db, Id(req))
    && Sound(Info(s.db, Id(req)).value) && (Info(s.db, Id(req)).value.owner == req.uid) == req.Close?
    && (req.Bid? ==>
          && LastBid(s.db, Id(req)).Some?
          && req.value > (if LastBid(s.db, Id(req)) == Some(0) then Info(s.db, Id(req)).value.sv
                          else LastBid(s.db, Id(req)).value))
  }

  function Placed(s: Sys, t: nat, p: Pc): Sys { s.(workers := s.workers[t := p]) }

  /** How many sections a request runs before it writes; CLS does not look at the bids. */
  function Sections(req: Request): nat { if req.Bid? then 8 else 7 }

  /** The program counter after the first `n` sections of a request that gets through. */
  ghost function Through(s: Sys, req: Request, n: nat): Pc
    requires WouldWrite(s, req) && n <= Sections(req)
  {
    var stages := [Updating, FindUser, FindLogin, CheckPasswd, FindAuction, ReadStart, FindEnd, ReadLast];
    Job(req, if n == Sections(req) then Writing else stages[n],
        if n < 6 then None else Info(s.db, Id(req)),
        if n < 8 then {} else s.db.auctions[Id(req)].bids.Keys)
  }

  lemma ThroughStep(s: Sys, req: Request, n: nat)
    requires WouldWrite(s, req) && n < Sections(req)
    ensures WorkerStep(s.db, s.clock, Through(s, req, n)) == (s.db, Through(s, req, n + 1))
  {
  }

  lemma PlacedStep(s: Sys, t: nat, req: Request, n: nat)
    requires WouldWrite(s, req) && t in s.workers && n < Sections(req)
    ensures Step(Placed(s, t, Through(s, req, n)), Work(t)) == Placed(s, t, Through(s, req, n + 1))
  {
    ThroughStep(s, req, n);
  }

  lemma CalledStep(s: Sys, t: nat, req: Request)
    requires WouldWrite(s, req) && t in s.workers && s.workers[t].Idle?
    ensures Step(s, Call(t, req)) == Placed(s, t, Through(s, req, 0))
  {
  }

  /** A run of one worker, state by state. */
  lemma {:induction false} Chain(s: Sys, l: Label, t: nat, states: seq<Sys>, n: nat)
    requires n < |states| && states[0] == Step(s, l)
    requires forall i :: 0 < i < |states| ==> states[i] == Step(states[i - 1], Work(t))
    ensures Exec(s, [l] + Works(t, n)) == states[n]
    decreases n
  {
    if n == 0 {
      assert [l] + Works(t, 0) == [] + [l];
      OneMore(s, [], l);
    } else {
      Chain(s, l, t, states, n - 1);
      OneMore(s, [l] + Works(t, n - 1), Work(t));
      assert [l] + Works(t, n) == [l] + Works(t, n - 1) + [Work(t)];
    }
  }

  lemma GetsThrough(s: Sys, t: nat, req: Request)
    requires WouldWrite(s, req) && t in s.workers && s.workers[t].Idle?
    ensures Exec(s, [Call(t, req)] + Works(t, Sections(req))) == Placed(s, t, Through(s, req, Sections(req)))
  {
    var states := seq(Sections(req) + 1, i requires 0 <= i <= Sections(req) => Placed(s, t, Through(s, req, i)));
    CalledStep(s, t, req);
    forall i | 0 < i < |states| ensures states[i] == Step(states[i - 1], Work(t)) {
      PlacedStep(s, t, req, i - 1);
    }
    Chain(s, Call(t, req), t, states, Sections(req));
  }

  /** Two idle workers that are handed requests which would each write now. */
  ghost predicate Rivals(s: Sys, t: nat, u: nat, first: Request, second: Request)
  {
    && Inv(s) && t != u && t in s.workers && u in s.workers && s.workers[t].Idle? && s.workers[u].Idle?
    && WouldWrite(s, first) && WouldWrite(s, second) && Id(first) == Id(second)
  }

  /** Both come to the point of writing before either of them writes. */
  lemma BothDecide(s: Sys, t: nat, u: nat, first: Request, second: Request) returns (run: seq<Label>)
    requires Rivals(s, t, u, first, second)
    ensures var k := Exec(s, run);
            && Inv(k) && k.db == s.db && AboutTo(k, t, Id(first), first) && AboutTo(k, u, Id(second), second)
  {
    var one, two := [Call(t, first)] + Works(t, Sections(first)), [Call(u, second)] + Works(u, Sections(second));
    GetsThrough(s, t, first);
    var m := Placed(s, t, Through(s, first, Sections(first)));
    GetsThrough(m, u, second);
    var k := Placed(m, u, Through(m, second, Sections(second)));
    run := one + two;
    ExecKeeps(s, run);
    ExecAppend(s, one, two);
    assert WorkerOk(k.db, k.workers[t]) && WorkerOk(k.db, k.workers[u]);
  }

  /** Whenever two idle workers are handed bids of the same value that would each be accepted,
      there is a run that records the first, with the second still to be written, and goes on
      to replace its file by the second's. */
  lemma EqualBidsHappen(s: Sys, t: nat, u: nat, first: Request, second: Request)
    returns (run: seq<Label>, more: seq<Label>)
    requires Rivals(s, t, u, first, second) && first.Bid? && second.Bid? && first.value == second.value
    ensures var m, w, id, v := Exec(s, run), Exec(s, run + more), Id(first), first.value;
            && id in s.db.auctions && id in m.db.auctions && id in w.db.auctions
            && v !in s.db.auctions[id].bids
            && v in m.db.auctions[id].bids && m.db.auctions[id].bids[v].bidder == first.uid
            && m.db.auctions[id].bids.Keys == s.db.auctions[id].bids.Keys + {v}
            && AboutTo(m, u, id, second)
            && w.db.auctions[id].bids.Keys == m.db.auctions[id].bids.Keys
            && v in w.db.auctions[id].bids && w.db.auctions[id].bids[v].bidder == second.uid
  {
    NewValue(s, first);
    var meet := BothDecide(s, t, u, first, second);
    var k, id := Exec(s, meet), Id(first);
    BidWritten(k, t, id, first);
    StillAboutTo(k, t, u, id, second);
    BidWritten(Step(k, Work(t)), u, id, second);
    run, more := meet + [Work(t)], [Work(u)];
    OneMore(s, meet, Work(t));
    OneMore(s, run, Work(u));
    SameFile(k.db.auctions[id], first.uid, second.uid, first.value, k.clock, Step(k, Work(t)).clock);
  }

  lemma SameFile(a: Auction, first: Uid, second: Uid, v: nat, now: int, later: int)
    requires a.start.Some?
    ensures var b := WithBid(a, first, v, now);
            var c := WithBid(b, second, v, later);
            && b.bids.Keys == a.bids.Keys + {v} && b.bids[v].bidder == first
            && c.bids.Keys == b.bids.Keys && c.bids[v].bidder == second
  {
  }

  /** A bid that would be accepted offers a value not recorded yet. */
  lemma NewValue(s: Sys, bid: Request)
    requires Inv(s) && WouldWrite(s, bid) && bid.Bid?
    ensures Id(bid) in s.db.auctions && bid.value !in s.db.auctions[Id(bid)].bids
  {
    var bids := s.db.auctions[Id(bid)].bids;
    assert AuctionOk(s.db.auctions[Id(bid)]);
    assert forall v :: v in bids ==> v in bids.Keys;
    assert bids.Keys != {} ==> Max(bids.Keys) in bids && forall v :: v in bids ==> v <= Max(bids.Keys);
  }

  /** Whenever a close and a bid would each succeed, there is a run that records the bid, and
      not before the END was written. */
  lemma BidAfterEndHappens(s: Sys, t: nat, u: nat, close: Request, bid: Request)
    returns (run: seq<Label>, more: seq<Label>)
    requires Rivals(s, t, u, close, bid) && close.Close? && bid.Bid?
    ensures var m, w, id := Exec(s, run), Exec(s, run + more), Id(bid);
            && Finished(m.db, id) && bid.value !in m.db.auctions[id].bids
            && Finished(w.db, id) && bid.value in w.db.auctions[id].bids
  {
    NewValue(s, bid);
    var meet := BothDecide(s, t, u, close, bid);
    var k := Exec(s, meet);
    BidAfterEnd(k, t, u, Id(bid), close, bid);
    TwoSteps(k, Work(t), Work(u));
    run, more := meet + [Work(t)], [Work(u)];
    OneMore(s, meet, Work(t));
    OneMore(s, run, Work(u));
  }

  /** Whenever two closes would each succeed, there is a run in which the END is written twice,
      the second time later. */
  lemma EndRewrittenHappens(s: Sys, t: nat, u: nat, first: Request, second: Request)
    returns (run: seq<Label>, more: seq<Label>)
    requires Rivals(s, t, u, first, second) && first.Close? && second.Close?
    ensures var m, w, id := Exec(s, run), Exec(s, run + more), Id(first);
            && id in m.db.auctions && id in w.db.auctions
            && m.db.auctions[id].end.Some? && w.db.auctions[id].end.Some?
            && m.db.auctions[id].end.value.at < w.db.auctions[id].end.value.at
  {
    var meet := BothDecide(s, t, u, first, second);
    EndRewritten(Exec(s, meet), t, u, Id(first), first, second, 1);
    run, more := meet + [Work(t)], [Tick(1), Work(u)];
    OneMore(s, meet, Work(t));
    ExecAppend(s, run, more);
    TwoSteps(Exec(s, run), Tick(1), Work(u));
  }

  lemma Ticked(s: Sys, t: nat, id: nat, req: Request, d: nat)
    requires Inv(s) && AboutTo(s, t, id, req)
    ensures Inv(Step(s, Tick(d))) && AboutTo(Step(s, Tick(d)), t, id, req)
    ensures Step(s, Tick(d)).db == s.db && Step(s, Tick(d)).clock == s.clock + d
  {
    StepKeeps(s, Tick(d));
  }

  /** A worker alone comes to the point of writing. */
  lemma Decides(s: Sys, t: nat, req: Request)
    requires Inv(s) && WouldWrite(s, req) && t in s.workers && s.workers[t].Idle?
    ensures var k := Exec(s, [Call(t, req)] + Works(t, Sections(req)));
            Inv(k) && k.db == s.db && k.clock == s.clock && AboutTo(k, t, Id(req), req)
  {
    GetsThrough(s, t, req);
    ExecKeeps(s, [Call(t, req)] + Works(t, Sections(req)));
    var k := Placed(s, t, Through(s, req, Sections(req)));
    assert WorkerOk(k.db, k.workers[t]);
  }

  lemma LateWrite(s: Sys, t: nat, id: nat, req: Request)
    requires Inv(s) && AboutTo(s, t, id, req) && id in s.db.auctions && s.db.auctions[id].start.Some?
    requires s.db.auctions[id].start.value.time + s.db.auctions[id].start.value.ta <= s.clock
    ensures var z, st := Step(s, Work(t)), s.db.auctions[id].start.value;
            && id in z.db.auctions
            && (req.Bid? ==> req.value in z.db.auctions[id].bids && st.ta <= z.db.auctions[id].bids[req.value].offset)
            && (req.Close? ==> z.db.auctions[id].end.Some? && st.ta <= z.db.auctions[id].end.value.duration)
  {
    if req.Bid? { BidWritten(s, t, id, req); } else { EndWritten(s, t, id, req); }
  }

  /** Whenever a bid or a close would succeed, there is a run in which it does so past the
      deadline. */
  lemma LateHappens(s: Sys, t: nat, req: Request) returns (run: seq<Label>)
    requires Inv(s) && WouldWrite(s, req) && t in s.workers && s.workers[t].Idle?
    ensures var z, id, st := Exec(s, run), Id(req), Info(s.db, Id(req)).value;
            && id in z.db.auctions
            && (req.Bid? ==> req.value in z.db.auctions[id].bids && st.ta <= z.db.auctions[id].bids[req.value].offset)
            && (req.Close? ==> z.db.auctions[id].end.Some? && st.ta <= z.db.auctions[id].end.value.duration)
  {
    var st, meet := Info(s.db, Id(req)).value, [Call(t, req)] + Works(t, Sections(req));
    var d: nat := if s.clock < st.time + st.ta then st.time + st.ta - s.clock else 0;
    Decides(s, t, req);
    Ticked(Exec(s, meet), t, Id(req), req, d);
    run := meet + [Tick(d), Work(t)];
    ExecAppend(s, meet, [Tick(d), Work(t)]);
    TwoSteps(Exec(s, meet), Tick(d), Work(t));
    LateWrite(Step(Exec(s, meet), Tick(d)), t, Id(req), req);
  }

  /* ---------- from a server just started ---------- */

  /** `LIN` of a new user. */
  function Registration(uid: Uid, pw: Passwd): seq<Label> { [UdpCall(Login(uid, pw)), UdpWork, UdpWork] }

  lemma ThreeSteps(s: Sys, a: Label, b: Label, c: Label)
    ensures Exec(s, [a, b, c]) == Step(Step(Step(s, a), b), c)
  {
    assert [a, b, c] == [a, b] + [c];
    TwoSteps(s, a, b);
    OneMore(s, [a, b], c);
  }

  lemma RegistersStep(s: Sys, uid: Uid, pw: Passwd)
    requires ValidUid(uid) && ValidPasswd(pw) && !ExistsUser(s.db, uid)
    ensures Step(s.(udp := Serving(Login(uid, pw), Exists, None)), UdpWork)
            == s.(udp := Serving(Login(uid, pw), Registering, None))
  {
  }

  lemma RegistersLast(s: Sys, uid: Uid, pw: Passwd)
    requires ValidUid(uid) && ValidPasswd(pw)
    ensures Step(s.(udp := Serving(Login(uid, pw), Registering, None)), UdpWork)
            == s.(db := Register(s.db, uid, pw), udp := Replies("RLI REG\n"))
  {
  }

  lemma Registers(s: Sys, uid: Uid, pw: Passwd)
    requires s.udp.Waiting? && ValidUid(uid) && ValidPasswd(pw) && !ExistsUser(s.db, uid)
    ensures Exec(s, Registration(uid, pw)) == s.(db := Register(s.db, uid, pw), udp := Replies("RLI REG\n"))
  {
    ThreeSteps(s, UdpCall(Login(uid, pw)), UdpWork, UdpWork);
    assert Step(s, UdpCall(Login(uid, pw))) == s.(udp := Serving(Login(uid, pw), Exists, None));
    RegistersStep(s, uid, pw);
    RegistersLast(s, uid, pw);
  }

  /** `OPA` by worker `t` alone. */
  function Opening(t: nat, req: Request): seq<Label> { [Call(t, req)] + Works(t, 4) }

  const OPENING: seq<Stage> := [FindUser, FindLogin, CheckPasswd, Writing]

  predicate MayOpen(s: Sys, t: nat, req: Request)
  {
    && t in s.workers && s.workers[t].Idle? && req.Open? && Admitted(req)
    && ExistsUser(s.db, req.uid) && LoggedIn(s.db, req.uid) && Authentic(s.db, req.uid, req.passwd)
  }

  function AfterOpen(s: Sys, t: nat, req: Request): Sys
    requires MayOpen(s, t, req)
  {
    var o := Write(s.db, s.clock, req);
    s.(db := o.db, workers := s.workers[t := Idle(Some(o.reply))])
  }

  lemma OpensStep(s: Sys, t: nat, req: Request, i: nat)
    requires MayOpen(s, t, req) && i < 3
    ensures Step(Placed(s, t, Job(req, OPENING[i], None, {})), Work(t)) == Placed(s, t, Job(req, OPENING[i + 1], None, {}))
  {
    var p := Job(req, OPENING[i], None, {});
    assert WorkerStep(s.db, s.clock, p) == (s.db, Job(req, OPENING[i + 1], None, {}));
  }

  lemma OpensLast(s: Sys, t: nat, req: Request)
    requires MayOpen(s, t, req)
    ensures Step(Placed(s, t, Job(req, Writing, None, {})), Work(t)) == AfterOpen(s, t, req)
  {
    var said := Idle(Some(Write(s.db, s.clock, req).reply));
    assert s.workers[t := Job(req, Writing, None, {})][t := said] == s.workers[t := said];
  }

  lemma Opens(s: Sys, t: nat, req: Request)
    requires MayOpen(s, t, req)
    ensures Exec(s, Opening(t, req)) == AfterOpen(s, t, req)
  {
    var states := seq(4, i requires 0 <= i < 4 => Placed(s, t, Job(req, OPENING[i], None, {}))) + [AfterOpen(s, t, req)];
    assert states[0] == Step(s, Call(t, req));
    OpensLast(s, t, req);
    forall i | 0 < i < 5 ensures states[i] == Step(states[i - 1], Work(t)) {
      if i < 4 { OpensStep(s, t, req, i - 1); }
    }
    Chain(s, Call(t, req), t, states, 4);
  }

  const OWNER: Uid := "100000"
  const FIRST: Uid := "200000"
  const SECOND: Uid := "300000"
  const WORD: Passwd := "password"

  const SALE: Request := Open(OWNER, WORD, OpenArgs("vase", "1", "9", "vase", "1"), Some("x"))

  lemma SaleNumbers()
    ensures Atoi("1") == 1 && Atoi("9") == 9 && Atoi("001") == 1
  {
    AtoiDec(1, "");
    AtoiDec(9, "");
    assert Dec(1) + "" == "1" && Dec(9) + "" == "9";
    DigitPrefixOf("001", "");
    assert "001" + "" == "001" && "001"[..3] == "001" && "001"[..2] == "00" && "00"[..1] == "0" && "0"[..0] == "";
    assert Num("0") == 0 && Num("00") == 0 && Num("001") == 1;
  }

  lemma SaleOk()
    ensures Admitted(SALE) && Atoi("1") == 1 && Atoi("9") == 9 && Atoi("001") == 1
    ensures ValidUid(OWNER) && ValidUid(FIRST) && ValidUid(SECOND) && ValidPasswd(WORD) && ValidAid("001")
  {
    SaleNumbers();
  }

  /** Three users registered and one auction opened, the clock standing at its start. */
  function Market(): seq<Label>
  {
    Registration(OWNER, WORD) + Registration(FIRST, WORD) + Registration(SECOND, WORD) + Opening(0, SALE)
  }

  lemma MarketDb()
    ensures var b := Boot({0, 1}, 1);
            var u := Register(Register(Register(Fresh, OWNER, WORD), FIRST, WORD), SECOND, WORD);
            var s := Exec(b, Market());
            && s.db == Create(u, OpenStart(OWNER, SALE.args, 1), Some("x")).0 && s.clock == 1
            && s.workers.Keys == {0, 1} && s.workers[0].Idle? && s.workers[1].Idle?
  {
    SaleOk();
    var b := Boot({0, 1}, 1);
    var one := b.(db := Register(Fresh, OWNER, WORD), udp := Replies("RLI REG\n"));
    var two := one.(db := Register(one.db, FIRST, WORD));
    var three := two.(db := Register(two.db, SECOND, WORD));
    Registers(b, OWNER, WORD);
    Registers(one, FIRST, WORD);
    Registers(two, SECOND, WORD);
    Opens(three, 0, SALE);
    ExecAppend(b, Registration(OWNER, WORD), Registration(FIRST, WORD));
    ExecAppend(b, Registration(OWNER, WORD) + Registration(FIRST, WORD), Registration(SECOND, WORD));
    ExecAppend(b, Registration(OWNER, WORD) + Registration(FIRST, WORD) + Registration(SECOND, WORD), Opening(0, SALE));
  }

  /** Auction 1 on sale at clock 1, its owner and two others registered, two workers idle. */
  ghost predicate OnSale(d: Db)
  {
    && d.count == 1 && d.auctions.Keys == {1}
    && d.auctions[1].start == Some(Start(OWNER, "vase", "vase", 1, 9, 1))
    && d.auctions[1].bids == map[] && d.auctions[1].end == None
    && forall u :: u in {OWNER, FIRST, SECOND} ==> ExistsUser(d, u) && Authentic(d, u, WORD) && LoggedIn(d, u)
  }

  lemma UsersRegistered()
    ensures var u := Register(Register(Register(Fresh, OWNER, WORD), FIRST, WORD), SECOND, WORD);
            && u.count == 0 && u.auctions == map[] && OWNER in u.hosted
            && forall n :: n in {OWNER, FIRST, SECOND} ==> ExistsUser(u, n) && Authentic(u, n, WORD) && LoggedIn(u, n)
  {
  }

  lemma SoldBy(u: Db)
    requires u.count == 0 && u.auctions == map[] && OWNER in u.hosted
    requires forall n :: n in {OWNER, FIRST, SECOND} ==> ExistsUser(u, n) && Authentic(u, n, WORD) && LoggedIn(u, n)
    ensures OnSale(Create(u, OpenStart(OWNER, SALE.args, 1), Some("x")).0)
  {
    SaleOk();
    var d := Create(u, OpenStart(OWNER, SALE.args, 1), Some("x")).0;
    assert OpenStart(OWNER, SALE.args, 1) == Start(OWNER, "vase", "vase", 1, 9, 1);
    assert d.auctions.Keys == {1};
    assert d.auctions[1].start == Some(Start(OWNER, "vase", "vase", 1, 9, 1));
    assert d.auctions[1].bids == map[];
    assert d.auctions[1].end == None;
    assert d.passwords == u.passwords && d.logins == u.logins;
    forall n | n in {OWNER, FIRST, SECOND} ensures ExistsUser(d, n) && Authentic(d, n, WORD) && LoggedIn(d, n) {
      assert ExistsUser(u, n) && Authentic(u, n, WORD) && LoggedIn(u, n);
    }
  }

  lemma NotExpired(d: Db)
    requires OnSale(d)
    ensures Update(d, 1) == d
  {
    assert Int32(1) == 1;
    assert Update(d, 1).auctions == d.auctions;
  }

  lemma BidsWouldWrite(s: Sys, uid: Uid)
    requires OnSale(s.db) && s.clock == 1 && uid in {FIRST, SECOND}
    ensures WouldWrite(s, Bid(uid, WORD, "001", 5))
  {
    SaleOk();
    NotExpired(s.db);
    assert s.db.auctions[1].bids.Keys == {};
  }

  lemma CloseWouldWrite(s: Sys)
    requires OnSale(s.db) && s.clock == 1
    ensures WouldWrite(s, Close(OWNER, WORD, "001"))
  {
    SaleOk();
    NotExpired(s.db);
  }

  lemma MarketOpen()
    ensures var s := Exec(Boot({0, 1}, 1), Market());
            && Inv(s) && OnSale(s.db) && s.clock == 1
            && s.workers.Keys == {0, 1} && s.workers[0].Idle? && s.workers[1].Idle?
  {
    MarketDb();
    UsersRegistered();
    SoldBy(Register(Register(Register(Fresh, OWNER, WORD), FIRST, WORD), SECOND, WORD));
    FreshCore();
    ExecKeeps(Boot({0, 1}, 1), Market());
  }

  /** In the state this reaches, two equal bids, a close and a bid, and two closes are rivals:
      the runs above exist from a server just started. */
  lemma RivalsFromBoot()
    ensures var s := Exec(Boot({0, 1}, 1), Market());
            && Rivals(s, 0, 1, Bid(FIRST, WORD, "001", 5), Bid(SECOND, WORD, "001", 5))
            && Rivals(s, 0, 1, Close(OWNER, WORD, "001"), Bid(SECOND, WORD, "001", 5))
            && Rivals(s, 0, 1, Close(OWNER, WORD, "001"), Close(OWNER, WORD, "001"))
  {
    var s := Exec(Boot({0, 1}, 1), Market());
    MarketOpen();
    BidsWouldWrite(s, FIRST);
    BidsWouldWrite(s, SECOND);
    CloseWouldWrite(s);
  }
}
