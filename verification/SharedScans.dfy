/** Concurrent visibility checks that share scans: every interleaving of the two locked sections. */
module SharedScans {

  type Key = int

  datatype Outcome = Fine | Failed(code: int) | Cancelled

  /** A scan: when it started, and its result once it is over. */
  datatype Flight = Flight(key: Key, started: nat, owner: int, over: bool, result: Outcome)

  datatype Place =
    | Looking
    | Waiting(flight: nat)
    | Scanning(flight: nat)
    | Returned(outcome: Outcome, source: int)   // -1: the caller's own cancellation, no scan

  /** One call of check.  `seen` is the number of scans begun before the call, `stale` how many
      scans it found too old, `broken` how many it met that ended by cancellation. */
  datatype Caller = Caller(key: Key, requested: nat, seen: nat, place: Place, stale: nat, broken: nat, waits: nat)

  datatype State = State(now: nat, flights: map<Key, nat>, scans: seq<Flight>, callers: map<int, Caller>)

  datatype Event =
    | Tick
    | Arrive(id: int, key: Key)
    | GiveUp(id: int)
    | LookUp(id: int)
    | Finish(id: int, outcome: Outcome)
    | Wake(id: int)

  predicate Enabled(s: State, e: Event) {
    match e
    case Tick => true
    case Arrive(id, _) => id !in s.callers
    case GiveUp(id) => id in s.callers && (s.callers[id].place.Looking? || s.callers[id].place.Waiting?)
    case LookUp(id) => id in s.callers && s.callers[id].place.Looking?
    case Finish(id, _) => id in s.callers && s.callers[id].place.Scanning? && s.callers[id].place.flight < |s.scans|
    case Wake(id) =>
      && id in s.callers && s.callers[id].place.Waiting?
      && s.callers[id].place.flight < |s.scans| && s.scans[s.callers[id].place.flight].over
  }

  /** The first locked section: wait for the scan of the key, or begin one. */
  function LookedUp(s: State, id: int): State
    requires Enabled(s, LookUp(id))
  {
    var c := s.callers[id];
    if c.key in s.flights
      then s.(callers := s.callers[id := c.(place := Waiting(s.flights[c.key]), waits := c.waits + 1)])
    else s.(flights := s.flights[c.key := |s.scans|],
            scans := s.scans + [Flight(c.key, s.now, id, false, Fine)],
            callers := s.callers[id := c.(place := Scanning(|s.scans|))])
  }

  /** The second locked section: the result is set before waiters can read it. */
  function Finished(s: State, id: int, outcome: Outcome): State
    requires Enabled(s, Finish(id, outcome))
  {
    var c := s.callers[id];
    var f := c.place.flight;
    s.(flights := s.flights - {c.key}, scans := s.scans[f := s.scans[f].(over := true, result := outcome)],
       callers := s.callers[id := c.(place := Returned(outcome, f))])
  }

  /** A waiter takes the result unless the scan is too old or was cancelled. */
  function Woken(s: State, id: int): State
    requires Enabled(s, Wake(id))
  {
    var c := s.callers[id];
    var f := s.scans[c.place.flight];
    var next :=
      if f.started < c.requested then c.(place := Looking, stale := c.stale + 1)
      else if f.result.Cancelled? then c.(place := Looking, broken := c.broken + 1)
      else c.(place := Returned(f.result, c.place.flight));
    s.(callers := s.callers[id := next])
  }

  function Next(s: State, e: Event): State
    requires Enabled(s, e)
  {
    match e
    case Tick => s.(now := s.now + 1)
    case Arrive(id, key) => s.(callers := s.callers[id := Caller(key, s.now, |s.scans|, Looking, 0, 0, 0)])
    case GiveUp(id) => s.(callers := s.callers[id := s.callers[id].(place := Returned(Cancelled, -1))])
    case LookUp(id) => LookedUp(s, id)
    case Finish(id, outcome) => Finished(s, id, outcome)
    case Wake(id) => Woken(s, id)
  }

  // ---- what always holds ----

  /** The running scans are exactly those registered, each with its owner at work. */
  ghost predicate ScansRight(s: State) {
    && (forall k | k in s.flights ::
         s.flights[k] < |s.scans| && s.scans[s.flights[k]].key == k && !s.scans[s.flights[k]].over)
    && (forall f | 0 <= f < |s.scans| && !s.scans[f].over ::
          s.scans[f].key in s.flights && s.flights[s.scans[f].key] == f
          && s.scans[f].owner in s.callers && s.callers[s.scans[f].owner].place == Scanning(f))
    && (forall f | 0 <= f < |s.scans| :: s.scans[f].started <= s.now)
  }

  ghost predicate WaitRight(s: State, c: Caller)
    requires c.place.Waiting? && c.seen <= |s.scans|
  {
    && c.place.flight < |s.scans| && s.scans[c.place.flight].key == c.key
    && forall f | 0 <= f < c.seen && f != c.place.flight && s.scans[f].key == c.key :: s.scans[f].over
  }

  ghost predicate ScanRight(s: State, c: Caller, id: int)
    requires c.place.Scanning?
  {
    && c.place.flight < |s.scans| && s.scans[c.place.flight].key == c.key
    && s.scans[c.place.flight].owner == id && !s.scans[c.place.flight].over
  }

  /** A caller: scans begun after it arrived are not older than it; what it waits for or does has
      its key; after a stale scan no scan from before its arrival is left. */
  ghost predicate CallerRight(s: State, id: int)
    requires id in s.callers
  {
    var c := s.callers[id];
    && c.requested <= s.now && c.seen <= |s.scans|
    && (forall f | c.seen <= f < |s.scans| :: s.scans[f].started >= c.requested)
    && (c.place.Waiting? ==> WaitRight(s, c))
    && (c.place.Scanning? ==> c.seen <= c.place.flight && ScanRight(s, c, id))
    && (c.stale > 0 ==> c.stale == 1 && forall f | 0 <= f < c.seen && s.scans[f].key == c.key :: s.scans[f].over)
    && (c.stale > 0 && c.place.Waiting? ==> c.place.flight >= c.seen)
    && (c.place.Returned? ==> ResultRight(s, id))
    && c.waits <= c.stale + c.broken + if c.place.Waiting? || c.place.Returned? then 1 else 0
  }

  /** Where a result may come from: a scan of the key that is over, is not older than the call, and
      whose cancellation only its own caller sees. */
  ghost predicate ResultRight(s: State, id: int)
    requires id in s.callers && s.callers[id].place.Returned?
  {
    var c, f := s.callers[id], s.callers[id].place.source;
    if f < 0 then c.place.outcome.Cancelled?
    else
      && f < |s.scans| && s.scans[f].over && s.scans[f].key == c.key
      && s.scans[f].started >= c.requested && s.scans[f].result == c.place.outcome
      && (c.place.outcome.Cancelled? ==> s.scans[f].owner == id)
  }

  ghost predicate Inv(s: State) {
    ScansRight(s) && forall id | id in s.callers :: CallerRight(s, id)
  }

  lemma LookUpKeeps(s: State, id: int)
    requires Inv(s) && Enabled(s, LookUp(id))
    ensures Inv(LookedUp(s, id))
  {
    var t := LookedUp(s, id);
    LookUpScans(s, id);
    OwnLookUp(s, id);
    forall x | x in t.callers && x != id ensures CallerRight(t, x) {
      OtherLookUp(s, id, x);
    }
  }

  lemma OwnLookUp(s: State, id: int)
    requires Inv(s) && Enabled(s, LookUp(id))
    ensures CallerRight(LookedUp(s, id), id)
  {
    assert CallerRight(s, id);
  }

  lemma OtherLookUp(s: State, id: int, x: int)
    requires Inv(s) && Enabled(s, LookUp(id)) && x in s.callers && x != id
    ensures CallerRight(LookedUp(s, id), x)
  {
    assert CallerRight(s, x);
  }

  lemma LookUpScans(s: State, id: int)
    requires Inv(s) && Enabled(s, LookUp(id))
    ensures ScansRight(LookedUp(s, id))
  {
    hide CallerRight;
  }

  lemma FinishKeepsCaller(s: State, id: int, outcome: Outcome, x: int)
    requires Inv(s) && Enabled(s, Finish(id, outcome)) && x in s.callers
    ensures x in Finished(s, id, outcome).callers && CallerRight(Finished(s, id, outcome), x)
  {
    assert CallerRight(s, id) && CallerRight(s, x);
  }

  lemma FinishKeeps(s: State, id: int, outcome: Outcome)
    requires Inv(s) && Enabled(s, Finish(id, outcome))
    ensures Inv(Finished(s, id, outcome))
  {
    var t := Finished(s, id, outcome);
    assert CallerRight(s, id);
    assert ScansRight(t);
    hide CallerRight;
    forall x | x in t.callers ensures CallerRight(t, x) {
      FinishKeepsCaller(s, id, outcome, x);
    }
  }

  lemma WakeKeepsCaller(s: State, id: int, x: int)
    requires Inv(s) && Enabled(s, Wake(id)) && x in s.callers
    ensures x in Woken(s, id).callers && CallerRight(Woken(s, id), x)
  {
    assert CallerRight(s, id) && CallerRight(s, x);
  }

  lemma WakeKeeps(s: State, id: int)
    requires Inv(s) && Enabled(s, Wake(id))
    ensures Inv(Woken(s, id))
  {
    var t := Woken(s, id);
    assert CallerRight(s, id);
    assert ScansRight(t);
    hide CallerRight;
    forall x | x in t.callers ensures CallerRight(t, x) {
      WakeKeepsCaller(s, id, x);
    }
  }

  lemma StepKeeps(s: State, e: Event)
    requires Inv(s) && Enabled(s, e)
    ensures Inv(Next(s, e))
  {
    hide Inv;
    hide LookedUp;
    hide Finished;
    hide Woken;
    match e
    case LookUp(id) => LookUpKeeps(s, id);
    case Finish(id, outcome) => FinishKeeps(s, id, outcome);
    case Wake(id) => WakeKeeps(s, id);
    case _ => QuietKeeps(s, e);
  }

  lemma QuietKeeps(s: State, e: Event)
    requires Inv(s) && Enabled(s, e) && (e.Tick? || e.Arrive? || e.GiveUp?)
    ensures Inv(Next(s, e))
  {
    var t := Next(s, e);
    forall x | x in t.callers ensures CallerRight(t, x) {
      if x in s.callers {
        assert CallerRight(s, x);
      }
    }
  }

  // ---- over every run ----

  const START := State(0, map[], [], map[])

  ghost predicate Possible(s: State, events: seq<Event>)
    decreases |events|
  {
    events == [] || (Enabled(s, events[0]) && Possible(Next(s, events[0]), events[1..]))
  }

  ghost function Run(s: State, events: seq<Event>): State
    requires Possible(s, events)
    decreases |events|
  {
    if events == [] then s else Run(Next(s, events[0]), events[1..])
  }

  lemma {:induction false} RunKeeps(s: State, events: seq<Event>)
    requires Inv(s) && Possible(s, events)
    ensures Inv(Run(s, events))
    decreases |events|
  {
    hide Next;
    hide Enabled;
    hide Inv;
    if events != [] {
      StepKeeps(s, events[0]);
      RunKeeps(Next(s, events[0]), events[1..]);
    }
  }

  /** In every interleaving a returned result comes from a finished scan of the key that began no
      earlier than the call, or is the caller's own cancellation. */
  lemma ResultsAreFresh(events: seq<Event>, id: int)
    requires Possible(START, events)
    ensures var s := Run(START, events); id in s.callers && s.callers[id].place.Returned? ==> ResultRight(s, id)
  {
    RunKeeps(START, events);
    hide Run;
    assert id in Run(START, events).callers ==> CallerRight(Run(START, events), id);
  }

  /** At most one scan per key is running. */
  lemma OneScanPerKey(events: seq<Event>, f: nat, g: nat)
    requires Possible(START, events)
    ensures var s := Run(START, events);
      f < |s.scans| && g < |s.scans| && !s.scans[f].over && !s.scans[g].over && s.scans[f].key == s.scans[g].key ==>
        f == g
  {
    RunKeeps(START, events);
    hide Run;
    hide CallerRight;
  }

  // ---- waits ----

  /** The step makes a caller wait. */
  predicate BeginsToWait(s: State, t: State, id: int) {
    id in t.callers && t.callers[id].place.Waiting? && !(id in s.callers && s.callers[id].place.Waiting?)
  }

  /** How often a caller begins to wait. */
  ghost function Waits(s: State, events: seq<Event>, id: int): nat
    requires Possible(s, events)
    decreases |events|
  {
    if events == [] then 0
    else (if BeginsToWait(s, Next(s, events[0]), id) then 1 else 0) + Waits(Next(s, events[0]), events[1..], id)
  }

  /** The step is a caller's waking up to a cancelled scan that began no earlier than its call. */
  predicate MeetsCancelled(s: State, e: Event, id: int)
    requires Enabled(s, e)
  {
    e == Wake(id)
    && var f := s.scans[s.callers[id].place.flight]; f.result.Cancelled? && f.started >= s.callers[id].requested
  }

  ghost function Breaks(s: State, events: seq<Event>, id: int): nat
    requires Possible(s, events)
    decreases |events|
  {
    if events == [] then 0
    else (if MeetsCancelled(s, events[0], id) then 1 else 0) + Breaks(Next(s, events[0]), events[1..], id)
  }

  lemma StepCounts(s: State, e: Event, id: int)
    requires Enabled(s, e)
    ensures var t := Next(s, e);
      id in t.callers ==>
        && t.callers[id].waits
             == (if id in s.callers then s.callers[id].waits else 0) + (if BeginsToWait(s, t, id) then 1 else 0)
        && t.callers[id].broken
             == (if id in s.callers then s.callers[id].broken else 0) + (if MeetsCancelled(s, e, id) then 1 else 0)
    ensures id in s.callers ==> id in Next(s, e).callers
    ensures id !in Next(s, e).callers ==> !BeginsToWait(s, Next(s, e), id) && !MeetsCancelled(s, e, id)
  {}

  lemma {:induction false} RunCounts(s: State, events: seq<Event>, id: int)
    requires Possible(s, events)
    ensures var t := Run(s, events);
      id in t.callers ==>
        && t.callers[id].waits == (if id in s.callers then s.callers[id].waits else 0) + Waits(s, events, id)
        && t.callers[id].broken == (if id in s.callers then s.callers[id].broken else 0) + Breaks(s, events, id)
    ensures id in s.callers ==> id in Run(s, events).callers
    ensures id !in Run(s, events).callers ==> Waits(s, events, id) == 0
    decreases |events|
  {
    if events != [] {
      StepCounts(s, events[0], id);
      RunCounts(Next(s, events[0]), events[1..], id);
      hide Next;
      hide Enabled;
      hide BeginsToWait;
      hide MeetsCancelled;
    }
  }

  /** A caller waits for at most two scans, not counting recent ones that were cancelled. */
  lemma AtMostTwoWaits(events: seq<Event>, id: int)
    requires Possible(START, events)
    ensures Waits(START, events, id) <= 2 + Breaks(START, events, id)
  {
    RunKeeps(START, events);
    RunCounts(START, events, id);
    hide Run;
    assert id in Run(START, events).callers ==> CallerRight(Run(START, events), id);
  }

  /** The clock shows how often it has ticked. */
  ghost function Ticks(events: seq<Event>): nat {
    if events == [] then 0 else (if events[0].Tick? then 1 else 0) + Ticks(events[1..])
  }

  lemma {:induction false} ClockRuns(s: State, events: seq<Event>)
    requires Possible(s, events)
    ensures Run(s, events).now == s.now + Ticks(events)
    decreases |events|
  {
    if events != [] {
      ClockRuns(Next(s, events[0]), events[1..]);
    }
  }

  /** Nobody is stuck: a waiter can wake, or the owner of its scan is at work. */
  lemma NobodyIsStuck(events: seq<Event>, id: int)
    requires Possible(START, events)
    ensures var s := Run(START, events);
      id in s.callers && s.callers[id].place.Waiting? && !Enabled(s, Wake(id)) ==>
        exists owner :: Enabled(s, Finish(owner, Fine)) && s.callers[owner].place.flight == s.callers[id].place.flight
  {
    RunKeeps(START, events);
    hide Run;
    var s := Run(START, events);
    if id in s.callers && s.callers[id].place.Waiting? && !Enabled(s, Wake(id)) {
      assert CallerRight(s, id);
      var f := s.callers[id].place.flight;
      assert Enabled(s, Finish(s.scans[f].owner, Fine));
    }
  }
}
