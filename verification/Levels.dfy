/** The two levels of the model meet: a thread that runs through its critical sections alone
    does what its handler does in one piece, so every handler-at-a-time run is one of the
    interleavings. */
module Levels {
  import opened Text
  import opened Store
  import opened Handlers
  import opened Runs
  import opened Interleaved

  /* ---------- a worker alone ---------- */

  /** `n` sections of one worker; an idle worker stays idle. */
  ghost function Drive(db: Db, now: int, p: Pc, n: nat): (Db, Pc)
    decreases n
  {
    if n == 0 || p.Idle? || !Admitted(p.req) then (db, p)
    else
      var r := WorkerStep(db, now, p);
      Drive(r.0, now, r.1, n - 1)
  }

  /** From here `n` sections or more end the handler with this outcome. */
  ghost predicate Ends(db: Db, now: int, p: Pc, n: nat, o: Outcome)
  {
    forall k :: n <= k ==> Drive(db, now, p, k) == (o.db, Idle(Some(o.reply)))
  }

  lemma EndsStep(db: Db, now: int, p: Pc, n: nat, o: Outcome)
    requires p.Job? && Admitted(p.req)
    requires Ends(WorkerStep(db, now, p).0, now, WorkerStep(db, now, p).1, n, o)
    ensures Ends(db, now, p, n + 1, o)
  {
    forall k | n + 1 <= k ensures Drive(db, now, p, k) == (o.db, Idle(Some(o.reply))) {
      assert Drive(WorkerStep(db, now, p).0, now, WorkerStep(db, now, p).1, k - 1) == (o.db, Idle(Some(o.reply)));
    }
  }

  /** A worker whose next section ends the handler. */
  lemma EndsHere(db: Db, now: int, p: Pc, n: nat, o: Outcome)
    requires p.Job? && Admitted(p.req) && WorkerStep(db, now, p) == (o.db, Idle(Some(o.reply))) && 1 <= n
    ensures Ends(db, now, p, n, o)
  {
    forall k | n <= k ensures Drive(db, now, p, k) == (o.db, Idle(Some(o.reply))) {
      assert Drive(o.db, now, Idle(Some(o.reply)), k - 1) == (o.db, Idle(Some(o.reply)));
    }
  }

  /* What is left of CLS and BID at each stage, on a database that is up to date. */

  ghost function FromEnd(d: Db, now: int, req: Request, st: Start): Outcome
    requires Trades(req) && Admitted(req)
  {
    if Finished(d, Id(req)) then Outcome(d, Msg(if req.Close? then "RCL END\n" else "RBD NOK\n"))
    else if req.Close? then Write(d, now, req)
    else Offer(d, now, Id(req), req.uid, req.value, st)
  }

  ghost function FromStart(d: Db, now: int, req: Request): Outcome
    requires Trades(req) && Admitted(req)
  {
    match Info(d, Id(req))
    case None => Outcome(d, Msg(if req.Close? then "RCL NOK\n" else "RBD NOK\n"))
    case Some(st) =>
      if (st.owner == req.uid) != req.Close? then Outcome(d, Msg(if req.Close? then "RCL EOW\n" else "RBD ILG\n"))
      else FromEnd(d, now, req, st)
  }

  ghost function FromAuction(d: Db, now: int, req: Request): Outcome
    requires Trades(req) && Admitted(req)
  {
    if !ExistsAuction(d, Id(req)) then Outcome(d, Msg(if req.Close? then "RCL EAU\n" else "RBD ERR\n"))
    else FromStart(d, now, req)
  }

  ghost function FromUser(d: Db, now: int, req: Request): Outcome
    requires Admitted(req) && !req.ShowAsset?
  {
    if !ExistsUser(d, req.uid) then
      Outcome(d, Msg(if req.Open? then "ROA NLG\n" else if req.Close? then "RCL NLG\n" else "RBD NOK\n"))
    else if !LoggedIn(d, req.uid) || !Authentic(d, req.uid, req.passwd) then
      Outcome(d, NotSigned(req).said.value)
    else if req.Open? then Write(d, now, req)
    else FromAuction(d, now, req)
  }

  lemma CloseFromUser(db: Db, now: int, req: Request)
    requires Admitted(req) && req.Close?
    ensures Handle(db, now, req, true) == FromUser(Update(db, now), now, req)
  {
  }

  lemma BidFromUser(db: Db, now: int, req: Request)
    requires Admitted(req) && req.Bid?
    ensures Handle(db, now, req, true) == FromUser(Update(db, now), now, req)
  {
  }

  lemma OpenFromUser(db: Db, now: int, req: Request)
    requires Admitted(req) && req.Open?
    ensures Handle(db, now, req, true) == FromUser(db, now, req)
  {
  }

  lemma LastEnds(d: Db, now: int, p: Pc)
    requires p.Job? && Admitted(p.req) && p.req.Bid? && p.stage == ReadLast && p.info.Some?
    requires Asked(p.info.value).Some?
    ensures Ends(d, now, p, 2, Offer(d, now, Id(p.req), p.req.uid, p.req.value, p.info.value))
  {
    var o := Offer(d, now, Id(p.req), p.req.uid, p.req.value, p.info.value);
    var q := WorkerStep(d, now, p).1;
    if q.Idle? {
      EndsHere(d, now, p, 2, o);
    } else {
      EndsHere(d, now, q, 1, o);
      EndsStep(d, now, p, 1, o);
    }
  }

  lemma EndEnds(d: Db, now: int, p: Pc)
    requires p.Job? && Admitted(p.req) && Trades(p.req) && p.stage == FindEnd && p.info.Some?
    ensures Ends(d, now, p, 3, FromEnd(d, now, p.req, p.info.value))
  {
    var o, q := FromEnd(d, now, p.req, p.info.value), WorkerStep(d, now, p).1;
    if q.Idle? {
      EndsHere(d, now, p, 3, o);
    } else {
      if p.req.Bid? { LastEnds(d, now, q); } else { EndsHere(d, now, q, 2, o); }
      EndsStep(d, now, p, 2, o);
    }
  }

  lemma StartEnds(d: Db, now: int, p: Pc)
    requires p.Job? && Admitted(p.req) && Trades(p.req) && p.stage == ReadStart
    ensures Ends(d, now, p, 4, FromStart(d, now, p.req))
  {
    var o, q := FromStart(d, now, p.req), WorkerStep(d, now, p).1;
    if q.Idle? {
      EndsHere(d, now, p, 4, o);
    } else {
      EndEnds(d, now, q);
      EndsStep(d, now, p, 3, o);
    }
  }

  lemma AuctionEnds(d: Db, now: int, p: Pc)
    requires p.Job? && Admitted(p.req) && Trades(p.req) && p.stage == FindAuction
    ensures Ends(d, now, p, 5, FromAuction(d, now, p.req))
  {
    var o, q := FromAuction(d, now, p.req), WorkerStep(d, now, p).1;
    if q.Idle? {
      EndsHere(d, now, p, 5, o);
    } else {
      StartEnds(d, now, q);
      EndsStep(d, now, p, 4, o);
    }
  }

  lemma PasswdEnds(d: Db, now: int, p: Pc)
    requires p.Job? && Admitted(p.req) && !p.req.ShowAsset? && p.stage == CheckPasswd
    requires ExistsUser(d, p.req.uid) && LoggedIn(d, p.req.uid)
    ensures Ends(d, now, p, 6, FromUser(d, now, p.req))
  {
    var o, q := FromUser(d, now, p.req), WorkerStep(d, now, p).1;
    if q.Idle? {
      EndsHere(d, now, p, 6, o);
    } else {
      if p.req.Open? { EndsHere(d, now, q, 5, o); } else { AuctionEnds(d, now, q); }
      EndsStep(d, now, p, 5, o);
    }
  }

  lemma UserEnds(d: Db, now: int, p: Pc)
    requires p.Job? && Admitted(p.req) && !p.req.ShowAsset? && p.stage == FindUser
    ensures Ends(d, now, p, 8, FromUser(d, now, p.req))
  {
    var o, q := FromUser(d, now, p.req), WorkerStep(d, now, p).1;
    if q.Idle? {
      EndsHere(d, now, p, 8, o);
    } else {
      var r := WorkerStep(d, now, q).1;
      if r.Idle? {
        EndsHere(d, now, q, 7, o);
      } else {
        PasswdEnds(d, now, r);
        EndsStep(d, now, q, 6, o);
      }
      EndsStep(d, now, p, 7, o);
    }
  }

  /** The three sections of SAS. */
  lemma AssetEnds(d: Db, now: int, p: Pc)
    requires p.Job? && p == FirstPc(p.req) && Admitted(p.req) && p.req.ShowAsset?
    ensures Ends(d, now, p, 3, HandleShowAsset(d, p.req.aid))
  {
    var o, q := HandleShowAsset(d, p.req.aid), WorkerStep(d, now, p).1;
    if q.Idle? {
      EndsHere(d, now, p, 3, o);
    } else {
      var r := WorkerStep(d, now, q).1;
      if r.Idle? {
        EndsHere(d, now, q, 2, o);
      } else {
        EndsHere(d, now, r, 1, o);
        EndsStep(d, now, q, 1, o);
      }
      EndsStep(d, now, p, 2, o);
    }
  }

  lemma HandlerEnds(db: Db, now: int, req: Request)
    requires Admitted(req)
    ensures Ends(db, now, FirstPc(req), 9, Handle(db, now, req, true))
  {
    var p, o := FirstPc(req), Handle(db, now, req, true);
    if req.ShowAsset? {
      AssetEnds(db, now, p);
    } else if req.Open? {
      OpenFromUser(db, now, req);
      UserEnds(db, now, p);
    } else {
      if req.Close? { CloseFromUser(db, now, req); } else { BidFromUser(db, now, req); }
      UserEnds(Update(db, now), now, WorkerStep(db, now, p).1);
      EndsStep(db, now, p, 8, o);
    }
  }

  lemma {:induction false} WorksFront(t: nat, n: nat)
    requires n > 0
    ensures Works(t, n) == [Work(t)] + Works(t, n - 1)
  {
    if n > 1 { WorksFront(t, n - 1); }
  }

  lemma WorksFirst(s: Sys, t: nat, n: nat)
    requires n > 0
    ensures Exec(s, Works(t, n)) == Exec(Step(s, Work(t)), Works(t, n - 1))
  {
    WorksFront(t, n);
    ExecAppend(s, [Work(t)], Works(t, n - 1));
    OneMore(s, [], Work(t));
    assert [] + [Work(t)] == [Work(t)];
  }

  /** Driving is what the system does when only worker `t` runs. */
  lemma {:induction false} DrivenAlone(s: Sys, t: nat, n: nat)
    requires t in s.workers
    ensures var r := Drive(s.db, s.clock, s.workers[t], n);
            Exec(s, Works(t, n)) == s.(db := r.0, workers := s.workers[t := r.1])
    decreases n
  {
    if n == 0 {
      assert s.workers[t := s.workers[t]] == s.workers;
    } else {
      WorksFirst(s, t, n);
      DrivenStep(s, t, n);
      DrivenAlone(Step(s, Work(t)), t, n - 1);
    }
  }

  lemma DrivenStep(s: Sys, t: nat, n: nat)
    requires t in s.workers && n > 0
    ensures var m := Step(s, Work(t));
            && t in m.workers && m.clock == s.clock && m.udp == s.udp && m.workers == s.workers[t := m.workers[t]]
            && Drive(m.db, m.clock, m.workers[t], n - 1) == Drive(s.db, s.clock, s.workers[t], n)
  {
    if !Enabled(s, Work(t)) {
      assert s.workers[t := s.workers[t]] == s.workers;
    }
  }

  /** A worker running alone from call to reply gives the reply of the whole handler at that
      clock, and leaves the system as it was but for what that does to the database. */
  lemma WorkerAlone(s: Sys, t: nat, req: Request)
    requires t in s.workers && s.workers[t].Idle? && Admitted(req)
    ensures var o := Handle(s.db, s.clock, req, true);
            Exec(s, [Call(t, req)] + Works(t, 9)) == s.(db := o.db, workers := s.workers[t := Idle(Some(o.reply))])
  {
    var m := s.(workers := s.workers[t := FirstPc(req)]);
    OneMore(s, [], Call(t, req));
    assert [] + [Call(t, req)] == [Call(t, req)] && Step(s, Call(t, req)) == m;
    ExecAppend(s, [Call(t, req)], Works(t, 9));
    DrivenAlone(m, t, 9);
    HandlerEnds(s.db, s.clock, req);
    var said := Idle(Some(Handle(s.db, s.clock, req, true).reply));
    assert s.workers[t := FirstPc(req)][t := said] == s.workers[t := said];
  }

  /* ---------- the UDP thread alone ---------- */

  function UdpWorks(n: nat): seq<Label> { if n == 0 then [] else UdpWorks(n - 1) + [UdpWork] }

  /** `n` sections of the UDP thread. */
  ghost function UdpDrive(db: Db, now: int, p: UdpPc, n: nat): (Db, UdpPc)
    decreases n
  {
    if n == 0 then (db, p)
    else
      var r := UdpDrive(db, now, p, n - 1);
      if r.1.Waiting? || !UdpAdmitted(r.1.req) then r else UdpStep(r.0, now, r.1)
  }

  lemma {:induction false} UdpDriven(s: Sys, n: nat)
    ensures var r := UdpDrive(s.db, s.clock, s.udp, n); Exec(s, UdpWorks(n)) == s.(db := r.0, udp := r.1)
    decreases n
  {
    if n > 0 {
      UdpDriven(s, n - 1);
      OneMore(s, UdpWorks(n - 1), UdpWork);
    }
  }

  /** The thread has ended with this outcome. */
  ghost predicate UdpEnds(db: Db, now: int, req: Request, o: Outcome)
    requires UdpAdmitted(req)
  {
    UdpDrive(db, now, Serving(req, FirstUdpStage(req), None), 4) == (o.db, Waiting(Some(o.reply)))
  }

  lemma LoginDriven(db: Db, now: int, uid: Uid, pw: Passwd)
    requires ValidUid(uid) && ValidPasswd(pw)
    ensures UdpEnds(db, now, Login(uid, pw), HandleLogin(db, uid, pw))
  {
    UdpUnroll(db, now, Serving(Login(uid, pw), Exists, None));
  }

  lemma UdpUnroll(db: Db, now: int, p: UdpPc)
    ensures UdpDrive(db, now, p, 1) == UdpOnce(db, now, p)
    ensures UdpDrive(db, now, p, 2) == UdpOnce(UdpDrive(db, now, p, 1).0, now, UdpDrive(db, now, p, 1).1)
    ensures UdpDrive(db, now, p, 3) == UdpOnce(UdpDrive(db, now, p, 2).0, now, UdpDrive(db, now, p, 2).1)
    ensures UdpDrive(db, now, p, 4) == UdpOnce(UdpDrive(db, now, p, 3).0, now, UdpDrive(db, now, p, 3).1)
  {
    assert UdpDrive(db, now, p, 0) == (db, p);
  }

  ghost function UdpOnce(db: Db, now: int, p: UdpPc): (Db, UdpPc)
  {
    if p.Waiting? || !UdpAdmitted(p.req) then (db, p) else UdpStep(db, now, p)
  }

  lemma LogoutDriven(db: Db, now: int, uid: Uid, pw: Passwd)
    requires ValidUid(uid) && ValidPasswd(pw)
    ensures UdpEnds(db, now, Logout(uid, pw), HandleLogout(db, uid, pw))
  {
    UdpUnroll(db, now, Serving(Logout(uid, pw), Exists, None));
  }

  lemma UnregisterDriven(db: Db, now: int, uid: Uid, pw: Passwd)
    requires ValidUid(uid) && ValidPasswd(pw)
    ensures UdpEnds(db, now, Unreg(uid, pw), HandleUnregister(db, uid, pw))
  {
    UdpUnroll(db, now, Serving(Unreg(uid, pw), Exists, None));
  }

  lemma ListDriven(db: Db, now: int)
    ensures UdpEnds(db, now, List, HandleList(db, now, true))
  {
    UdpUnroll(db, now, Serving(List, Refreshing, None));
  }

  lemma MyAuctionsDriven(db: Db, now: int, uid: Uid)
    requires ValidUid(uid)
    ensures UdpEnds(db, now, MyAuctions(uid), HandleMyAuctions(db, now, uid, true))
  {
    UdpUnroll(db, now, Serving(MyAuctions(uid), Exists, None));
  }

  lemma MyBidsDriven(db: Db, now: int, uid: Uid)
    requires ValidUid(uid)
    ensures UdpEnds(db, now, MyBids(uid), HandleMyBids(db, now, uid, true))
  {
    UdpUnroll(db, now, Serving(MyBids(uid), Exists, None));
  }

  lemma RecordDriven(db: Db, now: int, aid: string)
    requires ValidAid(aid)
    ensures UdpEnds(db, now, ShowRecord(aid), HandleShowRecord(db, now, aid, true))
  {
    UdpUnroll(db, now, Serving(ShowRecord(aid), Find, None));
  }

  lemma RequestDriven(db: Db, now: int, req: Request)
    requires UdpAdmitted(req)
    ensures UdpEnds(db, now, req, Handle(db, now, req, true))
  {
    match req
    case Login(uid, pw) => LoginDriven(db, now, uid, pw);
    case Logout(uid, pw) => LogoutDriven(db, now, uid, pw);
    case Unreg(uid, pw) => UnregisterDriven(db, now, uid, pw);
    case List => ListDriven(db, now);
    case MyAuctions(uid) => MyAuctionsDriven(db, now, uid);
    case MyBids(uid) => MyBidsDriven(db, now, uid);
    case ShowRecord(aid) => RecordDriven(db, now, aid);
  }

  /** So does the UDP thread. */
  lemma UdpAlone(s: Sys, req: Request)
    requires s.udp.Waiting? && UdpAdmitted(req)
    ensures var o := Handle(s.db, s.clock, req, true);
            Exec(s, [UdpCall(req)] + UdpWorks(4)) == s.(db := o.db, udp := Waiting(Some(o.reply)))
  {
    var m := s.(udp := Serving(req, FirstUdpStage(req), None));
    OneMore(s, [], UdpCall(req));
    assert [] + [UdpCall(req)] == [UdpCall(req)] && Step(s, UdpCall(req)) == m;
    ExecAppend(s, [UdpCall(req)], UdpWorks(4));
    UdpDriven(m, 4);
    RequestDriven(s.db, s.clock, req);
  }

  /* ---------- whole runs ---------- */

  /** What the thread that serves `req` has said last; a request that no thread admits has been
      refused before anything was looked at. */
  ghost predicate Answered(s: Sys, req: Request, r: Reply)
  {
    if Admitted(req) then 0 in s.workers && s.workers[0] == Idle(Some(r))
    else if UdpAdmitted(req) then s.udp == Waiting(Some(r))
    else r == BadArgs
  }

  lemma RefusedEarly(db: Db, now: int, req: Request)
    requires RequestOk(req) && !Admitted(req) && !UdpAdmitted(req)
    ensures Handle(db, now, req, true) == Outcome(db, BadArgs)
  {
  }

  ghost predicate AtRest(s: Sys) { s.udp.Waiting? && 0 in s.workers && s.workers[0].Idle? }

  /** One event: the clock moves on, then one thread serves the request alone. */
  lemma EventAlone(s: Sys, e: Event) returns (run: seq<Label>)
    requires AtRest(s) && s.clock <= e.now && RequestOk(e.req)
    ensures var o, n := Handle(s.db, e.now, e.req, true), Exec(s, run);
            AtRest(n) && n.clock == e.now && n.db == o.db && Answered(n, e.req, o.reply)
  {
    var tick := Tick(e.now - s.clock);
    var m := s.(clock := e.now);
    OneMore(s, [], tick);
    assert [] + [tick] == [tick] && Step(s, tick) == m;
    if Admitted(e.req) {
      WorkerAlone(m, 0, e.req);
      run := [tick] + ([Call(0, e.req)] + Works(0, 9));
      ExecAppend(s, [tick], [Call(0, e.req)] + Works(0, 9));
    } else if UdpAdmitted(e.req) {
      UdpAlone(m, e.req);
      run := [tick] + ([UdpCall(e.req)] + UdpWorks(4));
      ExecAppend(s, [tick], [UdpCall(e.req)] + UdpWorks(4));
    } else {
      RefusedEarly(s.db, e.now, e.req);
      run := [tick];
    }
  }

  function Joined(parts: seq<seq<Label>>): seq<Label>
  {
    if parts == [] then [] else Joined(parts[..|parts| - 1]) + parts[|parts| - 1]
  }

  /** A server just started, at rest behind each of the first parts of its schedule. */
  ghost function Behind(parts: seq<seq<Label>>, i: nat): Sys
    requires i <= |parts|
  {
    Exec(Boot({0}, 1), Joined(parts[..i]))
  }

  lemma OnePart(parts: seq<seq<Label>>, i: nat)
    requires i < |parts|
    ensures Behind(parts, i + 1) == Exec(Behind(parts, i), parts[i])
  {
    assert parts[..i + 1][..i] == parts[..i];
    ExecAppend(Boot({0}, 1), Joined(parts[..i]), parts[i]);
  }

  ghost predicate Serves(parts: seq<seq<Label>>, evs: seq<Event>, i: nat)
    requires i < |evs| == |parts|
  {
    var s := Behind(parts, i + 1);
    s.db == After(evs[..i + 1]) && s.clock == evs[i].now && Answered(s, evs[i].req, ReplyAt(evs, i))
  }

  lemma ServesLonger(parts: seq<seq<Label>>, last: seq<Label>, evs: seq<Event>, i: nat)
    requires evs != [] && |parts| == |evs| - 1 && i < |parts| && Serves(parts, evs[..|evs| - 1], i)
    ensures Serves(parts + [last], evs, i)
  {
    var init := evs[..|evs| - 1];
    assert init[..i + 1] == evs[..i + 1] && init[..i] == evs[..i];
    assert (parts + [last])[..i + 1] == parts[..i + 1];
  }

  /** Every handler-at-a-time run is an interleaving: some schedule of the threads of a server
      just started serves its events one by one, with the same replies and the same databases. */
  lemma {:induction false} EveryRunIsAnInterleaving(evs: seq<Event>) returns (parts: seq<seq<Label>>)
    requires ClockOk(evs)
    ensures |parts| == |evs| && forall i :: 0 <= i < |evs| ==> Serves(parts, evs, i)
    ensures var s := Behind(parts, |parts|);
            AtRest(s) && s.db == After(evs) && s.clock == if evs == [] then 1 else Clock(evs)
  {
    if evs == [] {
      parts := [];
    } else {
      var n := |evs| - 1;
      ClockPrefix(evs, n);
      var init := EveryRunIsAnInterleaving(evs[..n]);
      var last := EventAlone(Behind(init, n), evs[n]);
      parts := init + [last];
      assert parts[..n] == init[..n] && evs[..n + 1] == evs;
      OnePart(parts, n);
      forall i | 0 <= i < n ensures Serves(parts, evs, i) { ServesLonger(init, last, evs, i); }
    }
  }
}
