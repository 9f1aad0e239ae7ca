/** Handler-at-a-time runs: a sequence of requests, each served whole at one clock reading. */
module Runs {
  import opened Store
  import opened Handlers

  datatype Event = Event(now: int, req: Request)

  /** A clock that never goes back. */
  ghost predicate ClockOk(evs: seq<Event>)
  {
    && (forall i :: 0 <= i < |evs| ==> 0 < evs[i].now && RequestOk(evs[i].req))
    && forall i, j :: 0 <= i <= j < |evs| ==> evs[i].now <= evs[j].now
  }

  ghost function Clock(evs: seq<Event>): int { if evs == [] then 0 else evs[|evs| - 1].now }

  /** The database after a handler-at-a-time run from an empty one. */
  ghost function After(evs: seq<Event>): Db
  {
    if evs == [] then Fresh
    else
      var e := evs[|evs| - 1];
      Handle(After(evs[..|evs| - 1]), e.now, e.req, true).db
  }

  ghost function ReplyAt(evs: seq<Event>, i: nat): Reply
    requires i < |evs|
  {
    Handle(After(evs[..i]), evs[i].now, evs[i].req, true).reply
  }

  lemma ClockPrefix(evs: seq<Event>, k: nat)
    requires ClockOk(evs) && k <= |evs|
    ensures ClockOk(evs[..k])
  {
  }
}
