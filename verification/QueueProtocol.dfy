/** The monitor around the ring: any number of threads calling `enqueue` and `dequeue`, the
    mutex, the two condition variables, and the signal sent after the mutex is released.
    A step is one critical section, one signal, one spurious wakeup or one call. */
module QueueProtocol {
  import opened Text
  import opened TasksQueue

  datatype Pc<T> =
    | Idle
    | Enqueuing(task: T)     // wants the mutex, first time
    | WaitNotFull(task: T)   // asleep in pthread_cond_wait(&not_full)
    | WokenNotFull(task: T)  // woken, not yet back in the mutex
    | SignalNotEmpty         // has unlocked, about to signal not_empty
    | Dequeuing
    | WaitNotEmpty
    | WokenNotEmpty
    | SignalNotFull(got: T)

  /** `put` and `got` are the histories of completed critical sections, in order. */
  datatype Sys<T> = Sys(ring: Ring<T>, pcs: map<nat, Pc<T>>, put: seq<T>, got: seq<T>)

  datatype Label<T> =
    | CallEnqueue(t: nat, task: T)
    | CallDequeue(t: nat)
    | LockEnqueue(t: nat)
    | LockDequeue(t: nat)
    | Signal(t: nat, woken: set<nat>)
    | Spurious(t: nat)

  ghost function Sleepers<T(!new)>(s: Sys<T>, notEmpty: bool): set<nat> {
    set t | t in s.pcs && (if notEmpty then s.pcs[t].WaitNotEmpty? else s.pcs[t].WaitNotFull?)
  }

  ghost function Woken<T(!new)>(s: Sys<T>, notEmpty: bool): set<nat> {
    set t | t in s.pcs && (if notEmpty then s.pcs[t].WokenNotEmpty? else s.pcs[t].WokenNotFull?)
  }

  ghost function Signallers<T(!new)>(s: Sys<T>, notEmpty: bool): set<nat> {
    set t | t in s.pcs && (if notEmpty then s.pcs[t].SignalNotEmpty? else s.pcs[t].SignalNotFull?)
  }

  /** `pthread_cond_signal` unblocks at least one of the threads blocked on the variable. */
  ghost predicate Enabled<T(!new)>(s: Sys<T>, l: Label<T>)
  {
    && s.ring.Ok()
    && l.t in s.pcs
    && var pc := s.pcs[l.t];
      match l
      case CallEnqueue(_, _) => pc.Idle?
      case CallDequeue(_) => pc.Idle?
      case LockEnqueue(_) => pc.Enqueuing? || pc.WokenNotFull?
      case LockDequeue(_) => pc.Dequeuing? || pc.WokenNotEmpty?
      case Signal(_, w) =>
        && (pc.SignalNotEmpty? || pc.SignalNotFull?)
        && w <= Sleepers(s, pc.SignalNotEmpty?)
        && (w == {} ==> Sleepers(s, pc.SignalNotEmpty?) == {})
      case Spurious(_) => pc.WaitNotEmpty? || pc.WaitNotFull?
  }

  function Wake<T>(pc: Pc<T>): Pc<T> {
    match pc
    case WaitNotFull(task) => WokenNotFull(task)
    case WaitNotEmpty => WokenNotEmpty
    case _ => pc
  }

  function AfterSignal<T>(pcs: map<nat, Pc<T>>, t: nat, w: set<nat>): map<nat, Pc<T>> {
    map u | u in pcs :: if u == t then Idle else if u in w then Wake(pcs[u]) else pcs[u]
  }

  ghost function Step<T(!new)>(s: Sys<T>, l: Label<T>): Sys<T>
    requires Enabled(s, l)
  {
    var t := l.t;
    match l
    case CallEnqueue(_, task) => s.(pcs := s.pcs[t := Enqueuing(task)])
    case CallDequeue(_) => s.(pcs := s.pcs[t := Dequeuing])
    case LockEnqueue(_) =>
      var task := s.pcs[t].task;
      if s.ring.size == THREAD_POOL_SZ then s.(pcs := s.pcs[t := WaitNotFull(task)])
      else Sys(s.ring.Put(task), s.pcs[t := SignalNotEmpty], s.put + [task], s.got)
    case LockDequeue(_) =>
      if s.ring.size == 0 then s.(pcs := s.pcs[t := WaitNotEmpty])
      else
        var task := s.ring.Front();
        Sys(s.ring.Take(), s.pcs[t := SignalNotFull(task)], s.put, s.got + [task])
    case Signal(_, w) =>
      s.(pcs := AfterSignal(s.pcs, t, w))
    case Spurious(_) => s.(pcs := s.pcs[t := Wake(s.pcs[t])])
  }

  /* ---------- what every step keeps ---------- */

  /** No wakeup is lost: while a thread sleeps on a condition, every unit of what it waits
      for is covered by a signal still to be sent or by a woken thread still to run. */
  ghost predicate Covered<T(!new)>(s: Sys<T>, notEmpty: bool)
  {
    Sleepers(s, notEmpty) != {} ==>
      (if notEmpty then s.ring.size else THREAD_POOL_SZ - s.ring.size)
      <= |Signallers(s, notEmpty)| + |Woken(s, notEmpty)|
  }

  ghost predicate Inv<T(!new)>(s: Sys<T>)
  {
    && s.ring.Ok()
    && s.put == s.got + s.ring.Contents()
    && Covered(s, true) && Covered(s, false)
  }

  ghost predicate Initial<T(!new)>(s: Sys<T>)
  {
    && s.ring.Ok() && s.ring.size == 0 && s.put == [] && s.got == []
    && forall t :: t in s.pcs ==> s.pcs[t].Idle?
  }

  /** How one thread's move changes a counted set of threads. */
  lemma Recount(a: set<nat>, b: set<nat>, t: nat, before: bool, after: bool)
    requires before <==> t in a
    requires after <==> t in b
    requires a - {t} == b - {t}
    ensures |b| == |a| - (if before then 1 else 0) + (if after then 1 else 0)
  {
    assert a == if before then (a - {t}) + {t} else a - {t};
    assert b == if after then (b - {t}) + {t} else b - {t};
  }

  lemma MoveCounts<T(!new)>(s: Sys<T>, s': Sys<T>, t: nat, c: bool)
    requires t in s.pcs && t in s'.pcs && s'.pcs == s.pcs[t := s'.pcs[t]]
    ensures |Signallers(s', c)| == |Signallers(s, c)|
              - (if t in Signallers(s, c) then 1 else 0) + (if t in Signallers(s', c) then 1 else 0)
    ensures |Woken(s', c)| == |Woken(s, c)|
              - (if t in Woken(s, c) then 1 else 0) + (if t in Woken(s', c) then 1 else 0)
    ensures Sleepers(s', c) - {t} == Sleepers(s, c) - {t}
  {
    Recount(Signallers(s, c), Signallers(s', c), t, t in Signallers(s, c), t in Signallers(s', c));
    Recount(Woken(s, c), Woken(s', c), t, t in Woken(s, c), t in Woken(s', c));
  }

  lemma SignalMoves<T(!new)>(s: Sys<T>, t: nat, w: set<nat>, c: bool)
    requires Enabled(s, Signal(t, w))
    ensures var s' := Step(s, Signal(t, w));
            var mine := s.pcs[t].SignalNotEmpty? == c;
            && Sleepers(s', c) == (if mine then Sleepers(s, c) - w else Sleepers(s, c))
            && Signallers(s', c) == (if mine then Signallers(s, c) - {t} else Signallers(s, c))
            && Woken(s', c) == (if mine then Woken(s, c) + w else Woken(s, c))
  {
    var s', mine := Step(s, Signal(t, w)), s.pcs[t].SignalNotEmpty? == c;
    forall u
      ensures u in Sleepers(s', c) <==> u in (if mine then Sleepers(s, c) - w else Sleepers(s, c))
      ensures u in Signallers(s', c) <==> u in (if mine then Signallers(s, c) - {t} else Signallers(s, c))
      ensures u in Woken(s', c) <==> u in (if mine then Woken(s, c) + w else Woken(s, c))
    {
      if u in s.pcs {
        assert u in w ==> u in Sleepers(s, s.pcs[t].SignalNotEmpty?);
        assert s'.pcs[u] == if u == t then Idle else if u in w then Wake(s.pcs[u]) else s.pcs[u];
      }
    }
  }

  lemma SignalKeeps<T(!new)>(s: Sys<T>, t: nat, w: set<nat>, c: bool)
    requires Inv(s) && Enabled(s, Signal(t, w))
    ensures Covered(Step(s, Signal(t, w)), c)
  {
    var s' := Step(s, Signal(t, w));
    SignalMoves(s, t, w, c);
    if s.pcs[t].SignalNotEmpty? == c {
      assert w !! Woken(s, c) && t in Signallers(s, c);
      assert |Signallers(s, c) - {t}| == |Signallers(s, c)| - 1;
      assert |Woken(s, c) + w| == |Woken(s, c)| + |w|;
      if w == {} { assert Sleepers(s', c) == {}; }
    }
  }

  /** The invariant survives every enabled step. */
  lemma StepKeepsInv<T(!new)>(s: Sys<T>, l: Label<T>)
    requires Inv(s) && Enabled(s, l)
    ensures Inv(Step(s, l))
  {
    var s' := Step(s, l);
    if l.Signal? {
      SignalKeeps(s, l.t, l.woken, true);
      SignalKeeps(s, l.t, l.woken, false);
    } else {
      MoveCounts(s, s', l.t, true);
      MoveCounts(s, s', l.t, false);
      if l.LockEnqueue? && s.ring.size != THREAD_POOL_SZ {
        PutAppends(s.ring, s.pcs[l.t].task);
      }
      if l.LockDequeue? && s.ring.size != 0 {
        TakeRemoves(s.ring);
      }
      assert Sleepers(s', true) - {l.t} != {} ==> Sleepers(s, true) != {};
      assert Sleepers(s', false) - {l.t} != {} ==> Sleepers(s, false) != {};
      assert l.t !in Sleepers(s', true) ==> Sleepers(s', true) == Sleepers(s', true) - {l.t};
      assert l.t !in Sleepers(s', false) ==> Sleepers(s', false) == Sleepers(s', false) - {l.t};
    }
  }

  /* ---------- runs ---------- */

  /** The states reached by firing enabled labels from `s0`. */
  ghost predicate Reaches<T(!new)>(s0: Sys<T>, run: seq<Label<T>>, s: Sys<T>)
  {
    if run == [] then s == s0
    else
      var l := run[|run| - 1];
      exists m :: Reaches(s0, run[..|run| - 1], m) && Enabled(m, l) && s == Step(m, l)
  }

  lemma {:induction false} RunInv<T(!new)>(s0: Sys<T>, run: seq<Label<T>>, s: Sys<T>)
    requires Initial(s0) && Reaches(s0, run, s)
    ensures Inv(s)
  {
    if run != [] {
      var l := run[|run| - 1];
      var m :| Reaches(s0, run[..|run| - 1], m) && Enabled(m, l) && s == Step(m, l);
      RunInv(s0, run[..|run| - 1], m);
      StepKeepsInv(m, l);
    } else {
      assert s.ring.Contents() == [];
      assert Sleepers(s, true) == {} && Sleepers(s, false) == {};
    }
  }

  /** In no reachable state do sleepers wait while nobody is on the way to release them:
      consumers then sleep only on an empty ring, producers only on a full one, and never
      both kinds at once. */
  lemma NoLostWakeup<T(!new)>(s0: Sys<T>, run: seq<Label<T>>, s: Sys<T>)
    requires Initial(s0) && Reaches(s0, run, s)
    ensures Signallers(s, true) == {} && Woken(s, true) == {} && Sleepers(s, true) != {} ==> s.ring.size == 0
    ensures Signallers(s, false) == {} && Woken(s, false) == {} && Sleepers(s, false) != {} ==>
              s.ring.size == 30
    ensures !(&& Sleepers(s, true) != {} && Sleepers(s, false) != {}
              && Sleepers(s, true) + Sleepers(s, false) == s.pcs.Keys)
  {
    RunInv(s0, run, s);
    if Sleepers(s, true) + Sleepers(s, false) == s.pcs.Keys {
      forall t, c: bool ensures t !in Signallers(s, c) && t !in Woken(s, c) {
        if t in s.pcs { assert t in Sleepers(s, true) + Sleepers(s, false); }
      }
      assert Signallers(s, true) == {} && Woken(s, true) == {};
      assert Signallers(s, false) == {} && Woken(s, false) == {};
    }
  }

  /** First in, first out, exactly once, over any interleaving: what has been enqueued is
      what has been dequeued, in the same order, then what is in the ring, at most 30. */
  lemma FifoExactlyOnce<T(!new)>(s0: Sys<T>, run: seq<Label<T>>, s: Sys<T>)
    requires Initial(s0) && Reaches(s0, run, s)
    ensures s.ring.Ok() && s.put == s.got + s.ring.Contents()
    ensures |s.put| - |s.got| == s.ring.size <= 30
    ensures forall k :: 0 <= k < |s.got| ==> s.got[k] == s.put[k]
  {
    RunInv(s0, run, s);
  }

  /** Whenever a consumer gets the mutex: from a ring with tasks it takes the one enqueued that many
      places earlier, on an empty one it goes to sleep and changes nothing else. */
  lemma DequeuedInOrder<T(!new)>(s0: Sys<T>, run: seq<Label<T>>, s: Sys<T>, t: nat)
    requires Initial(s0) && Reaches(s0, run, s) && Enabled(s, LockDequeue(t))
    ensures var n := Step(s, LockDequeue(t));
            if s.ring.size == 0 then n == s.(pcs := s.pcs[t := WaitNotEmpty])
            else
              && |s.got| < |s.put| && n.pcs == s.pcs[t := SignalNotFull(s.put[|s.got|])]
              && n.got == s.got + [s.put[|s.got|]] && n.put == s.put
  {
    RunInv(s0, run, s);
    if s.ring.size != 0 {
      FrontIsFirst(s.ring);
      assert s.put[|s.got|] == s.ring.Contents()[0];
    }
  }

  lemma FrontIsFirst<T(!new)>(r: Ring<T>)
    requires r.Ok() && r.size != 0
    ensures r.Contents()[0] == r.Front()
  {
    Wrap(r.tail);
  }

  /* ---------- whose tasks they are ---------- */

  /** The task of the last call of `enqueue` by thread `t`. */
  ghost function LastCall<T(!new)>(run: seq<Label<T>>, t: nat): Option<T>
  {
    if run == [] then None
    else
      var l := run[|run| - 1];
      if l.CallEnqueue? && l.t == t then Some(l.task) else LastCall(run[..|run| - 1], t)
  }

  predicate Holds<T>(pc: Pc<T>) { pc.Enqueuing? || pc.WaitNotFull? || pc.WokenNotFull? }

  lemma HeldBefore<T(!new)>(s: Sys<T>, l: Label<T>, t: nat)
    requires Enabled(s, l) && !(l.CallEnqueue? && l.t == t)
    requires t in Step(s, l).pcs && Holds(Step(s, l).pcs[t])
    ensures t in s.pcs && Holds(s.pcs[t]) && s.pcs[t].task == Step(s, l).pcs[t].task
  {
  }

  /** A thread inside `enqueue` holds the task it was called with. */
  lemma {:induction false} HoldsItsOwn<T(!new)>(s0: Sys<T>, run: seq<Label<T>>, s: Sys<T>, t: nat)
    requires Initial(s0) && Reaches(s0, run, s) && t in s.pcs && Holds(s.pcs[t])
    ensures LastCall(run, t) == Some(s.pcs[t].task)
  {
    if run != [] {
      var l := run[|run| - 1];
      var m :| Reaches(s0, run[..|run| - 1], m) && Enabled(m, l) && s == Step(m, l);
      if !(l.CallEnqueue? && l.t == t) {
        HeldBefore(m, l, t);
        HoldsItsOwn(s0, run[..|run| - 1], m, t);
      }
    }
  }

  /** Whenever a producer gets the mutex: with fewer than 30 tasks in the ring it appends the
      task of its own last call, with 30 it goes to sleep holding it and changes nothing else. */
  lemma AppendsItsOwn<T(!new)>(s0: Sys<T>, run: seq<Label<T>>, s: Sys<T>, t: nat)
    requires Initial(s0) && Reaches(s0, run, s) && Enabled(s, LockEnqueue(t))
    ensures s.ring.Ok() && LastCall(run, t).Some?
    ensures var task, n := LastCall(run, t).value, Step(s, LockEnqueue(t));
            && n.ring.Ok() && n.got == s.got
            && if s.ring.size < 30 then
                 && n.ring.Contents() == s.ring.Contents() + [task] && n.put == s.put + [task]
                 && n.pcs == s.pcs[t := SignalNotEmpty]
               else
                 n.ring == s.ring && n.put == s.put && n.pcs == s.pcs[t := WaitNotFull(task)]
  {
    RunInv(s0, run, s);
    HoldsItsOwn(s0, run, s, t);
    if s.ring.size < 30 { PutAppends(s.ring, s.pcs[t].task); }
  }

  /** How often a run calls `enqueue` with `x`. */
  ghost function Calls<T(!new)>(run: seq<Label<T>>, x: T): nat
  {
    if run == [] then 0
    else
      var l := run[|run| - 1];
      Calls(run[..|run| - 1], x) + (if l.CallEnqueue? && l.task == x then 1 else 0)
  }

  ghost function Own<T(!new)>(pcs: map<nat, Pc<T>>, t: nat, x: T): nat
  {
    if t in pcs && Holds(pcs[t]) && pcs[t].task == x then 1 else 0
  }

  /** How many of the threads below `n` have `x` in their hands. */
  ghost function Held<T(!new)>(pcs: map<nat, Pc<T>>, n: nat, x: T): nat
  {
    if n == 0 then 0 else Held(pcs, n - 1, x) + Own(pcs, n - 1, x)
  }

  lemma {:induction false} HeldSame<T(!new)>(a: map<nat, Pc<T>>, b: map<nat, Pc<T>>, n: nat, x: T)
    requires forall t :: 0 <= t < n ==> Own(a, t, x) == Own(b, t, x)
    ensures Held(a, n, x) == Held(b, n, x)
  {
    if n > 0 { HeldSame(a, b, n - 1, x); }
  }

  lemma {:induction false} HeldMoves<T(!new)>(a: map<nat, Pc<T>>, b: map<nat, Pc<T>>, t: nat, n: nat, x: T)
    requires t < n && forall u :: 0 <= u < n && u != t ==> Own(a, u, x) == Own(b, u, x)
    ensures Held(a, n, x) - Own(a, t, x) == Held(b, n, x) - Own(b, t, x)
  {
    if t == n - 1 { HeldSame(a, b, n - 1, x); } else { HeldMoves(a, b, t, n - 1, x); }
  }

  lemma OneMore<T>(put: seq<T>, task: T, x: T)
    ensures multiset(put + [task])[x] == multiset(put)[x] + if task == x then 1 else 0
  {
  }

  /** A call takes a task into its hands, a completed `enqueue` puts it down; nobody else's hands
      change. */
  lemma StepHolds<T(!new)>(s: Sys<T>, l: Label<T>, u: nat, x: T)
    requires Enabled(s, l)
    ensures u != l.t ==> Own(Step(s, l).pcs, u, x) == Own(s.pcs, u, x)
    ensures multiset(Step(s, l).put)[x] + Own(Step(s, l).pcs, l.t, x)
            == multiset(s.put)[x] + Own(s.pcs, l.t, x) + if l.CallEnqueue? && l.task == x then 1 else 0
  {
    if l.LockEnqueue? { OneMore(s.put, s.pcs[l.t].task, x); }
  }

  lemma {:induction false} NothingHeld<T(!new)>(pcs: map<nat, Pc<T>>, n: nat, x: T)
    requires forall t :: t in pcs ==> pcs[t].Idle?
    ensures Held(pcs, n, x) == 0
  {
    if n > 0 { NothingHeld(pcs, n - 1, x); }
  }

  /** Nothing is lost and nothing made up, over any interleaving: every task has been enqueued or
      is still held by a producer exactly as often as `enqueue` was called with it. */
  lemma {:induction false} EveryTaskOnce<T(!new)>(s0: Sys<T>, run: seq<Label<T>>, s: Sys<T>, n: nat, x: T)
    requires Initial(s0) && Reaches(s0, run, s) && forall t :: t in s.pcs ==> t < n
    ensures multiset(s.put)[x] + Held(s.pcs, n, x) == Calls(run, x)
  {
    if run != [] {
      var l := run[|run| - 1];
      var m :| Reaches(s0, run[..|run| - 1], m) && Enabled(m, l) && s == Step(m, l);
      assert m.pcs.Keys == s.pcs.Keys;
      EveryTaskOnce(s0, run[..|run| - 1], m, n, x);
      forall u | 0 <= u < n && u != l.t ensures Own(m.pcs, u, x) == Own(s.pcs, u, x) { StepHolds(m, l, u, x); }
      HeldMoves(m.pcs, s.pcs, l.t, n, x);
      StepHolds(m, l, l.t, x);
    } else {
      NothingHeld(s.pcs, n, x);
    }
  }
}
