/** Every interleaving of callers of the image cache: the locked sections of `get` and `close` in
    any order, with decodes in between. */
module ImageCacheRuns {
  import opened ImageCache

  datatype Outcome = Decoded(image: Image) | Failed | Cancelled | CacheClosed

  /** A decode and its result once it is over. */
  datatype Flight = Flight(key: Key, owner: int, over: bool, outcome: Outcome)

  datatype Caller =
    | Looking(key: Key)
    | Waiting(key: Key, flight: nat)
    | Decoding(key: Key, flight: nat)
    | Returned(key: Key, outcome: Outcome, own: bool)

  datatype Event =
    | Arrive(id: int, key: Key)
    | Look(id: int)
    | Finish(id: int, outcome: Outcome)
    | Wake(id: int)
    | GiveUp(id: int)
    | Close

  /** The running decodes are exactly the pending ones, each with its caller at work; waiters wait
      for a decode of their key; only its own caller returns a cancelled result. */
  ghost predicate Sound(pending: map<Key, nat>, flights: seq<Flight>, callers: map<int, Caller>) {
    && (forall k | k in pending :: pending[k] < |flights| && flights[pending[k]].key == k && !flights[pending[k]].over)
    && (forall f | 0 <= f < |flights| && !flights[f].over ::
          flights[f].key in pending && pending[flights[f].key] == f
          && flights[f].owner in callers && callers[flights[f].owner] == Decoding(flights[f].key, f))
    && (forall id | id in callers :: CallerSound(flights, id, callers[id]))
  }

  ghost predicate CallerSound(flights: seq<Flight>, id: int, c: Caller) {
    match c
    case Looking(_) => true
    case Waiting(key, f) => f < |flights| && flights[f].key == key
    case Decoding(key, f) => f < |flights| && flights[f].key == key && flights[f].owner == id && !flights[f].over
    case Returned(_, outcome, own) => outcome.Cancelled? ==> own
  }

  lemma StillSound(flights: seq<Flight>, more: seq<Flight>, id: int, c: Caller)
    requires CallerSound(flights, id, c) && |flights| <= |more|
    requires forall f | 0 <= f < |flights| :: more[f].key == flights[f].key && more[f].owner == flights[f].owner
    requires c.Decoding? ==> !more[c.flight].over
    ensures CallerSound(more, id, c)
  {}

  lemma DecodeBegins(pending: map<Key, nat>, flights: seq<Flight>, callers: map<int, Caller>, id: int, key: Key)
    requires Sound(pending, flights, callers) && id in callers && callers[id] == Looking(key) && key !in pending
    ensures Sound(pending[key := |flights|], flights + [Flight(key, id, false, Failed)],
      callers[id := Decoding(key, |flights|)])
  {
    var more := flights + [Flight(key, id, false, Failed)];
    forall x | x in callers && x != id ensures CallerSound(more, x, callers[x]) {
      StillSound(flights, more, x, callers[x]);
    }
  }

  lemma DecodeEnds(pending: map<Key, nat>, flights: seq<Flight>, callers: map<int, Caller>, id: int, outcome: Outcome)
    requires Sound(pending, flights, callers) && id in callers && callers[id].Decoding?
    ensures callers[id].flight < |flights| && callers[id].key in pending
    ensures var c := callers[id];
      Sound(pending - {c.key}, flights[c.flight := flights[c.flight].(over := true, outcome := outcome)],
            callers[id := Returned(c.key, outcome, true)])
  {
    var c := callers[id];
    assert CallerSound(flights, id, c);
    var more := flights[c.flight := flights[c.flight].(over := true, outcome := outcome)];
    forall x | x in callers && x != id ensures CallerSound(more, x, callers[x]) {
      assert CallerSound(flights, x, callers[x]);
      StillSound(flights, more, x, callers[x]);
    }
  }

  lemma CallerMoves(pending: map<Key, nat>, flights: seq<Flight>, callers: map<int, Caller>, id: int, c: Caller)
    requires Sound(pending, flights, callers) && CallerSound(flights, id, c) && !c.Decoding?
    requires id in callers ==> !callers[id].Decoding?
    ensures Sound(pending, flights, callers[id := c])
  {}

  /** Carries out the events one after the other; events that are not possible are skipped.  All
      through, the cache stays valid: map and list hold the same keys, the byte count is exact,
      the limits are kept, and no key is both cached and being decoded. */
  method Interleave(cache: Cache, events: seq<Event>) returns (callers: map<int, Caller>, flights: seq<Flight>)
    requires cache.Valid() && cache.pending == map[]
    modifies cache
    ensures cache.Valid() && Sound(cache.pending, flights, callers)
  {
    callers, flights := map[], [];
    hide Sound;
    StartSound();
    for i := 0 to |events|
      invariant cache.Valid() && Sound(cache.pending, flights, callers)
    {
      callers, flights := Step(cache, events[i], callers, flights);
    }
  }

  lemma StartSound()
    ensures Sound(map[], [], map[])
  {}

  method Step(cache: Cache, e: Event, callers: map<int, Caller>, flights: seq<Flight>)
    returns (callers': map<int, Caller>, flights': seq<Flight>)
    requires cache.Valid() && Sound(cache.pending, flights, callers)
    modifies cache
    ensures cache.Valid() && Sound(cache.pending, flights', callers')
  {
    hide Sound;
    callers', flights' := callers, flights;
    match e {
      case Close =>
        cache.Close();
      case Arrive(id, key) =>
        if id !in callers {
          CallerMoves(cache.pending, flights, callers, id, Looking(key));
          callers' := callers[id := Looking(key)];
        }
      case GiveUp(id) =>
        if id in callers && (callers[id].Looking? || callers[id].Waiting?) {
          CallerMoves(cache.pending, flights, callers, id, Returned(callers[id].key, Cancelled, true));
          callers' := callers[id := Returned(callers[id].key, Cancelled, true)];
        }
      case Look(id) =>
        if id in callers && callers[id].Looking? {
          callers', flights' := LookUp(cache, id, callers, flights);
        }
      case Finish(id, outcome) =>
        if id in callers && callers[id].Decoding? && !outcome.CacheClosed? {
          DecodeEnds(cache.pending, flights, callers, id, outcome);
          var c := callers[id];
          cache.Complete(c.key, if outcome.Decoded? then outcome.image else Image(0, 0), outcome.Decoded?);
          flights' := flights[c.flight := flights[c.flight].(over := true, outcome := outcome)];
          callers' := callers[id := Returned(c.key, outcome, true)];
        }
      case Wake(id) =>
        if id in callers && callers[id].Waiting? {
          callers' := WakeUp(cache, id, callers, flights);
        }
    }
  }

  method LookUp(cache: Cache, id: int, callers: map<int, Caller>, flights: seq<Flight>)
    returns (callers': map<int, Caller>, flights': seq<Flight>)
    requires cache.Valid() && Sound(cache.pending, flights, callers) && id in callers && callers[id].Looking?
    modifies cache
    ensures cache.Valid() && Sound(cache.pending, flights', callers')
  {
    callers', flights' := callers, flights;
    var key := callers[id].key;
    ghost var before := cache.pending;
    var answer := cache.Look(key, |flights|);
    match answer {
      case Closed =>
        CallerMoves(before, flights, callers, id, Returned(key, CacheClosed, false));
        callers' := callers[id := Returned(key, CacheClosed, false)];
      case Hit(image) =>
        CallerMoves(before, flights, callers, id, Returned(key, Decoded(image), false));
        callers' := callers[id := Returned(key, Decoded(image), false)];
      case Shared(f) =>
        CallerMoves(before, flights, callers, id, Waiting(key, f));
        callers' := callers[id := Waiting(key, f)];
      case Decode =>
        DecodeBegins(before, flights, callers, id, key);
        callers' := callers[id := Decoding(key, |flights|)];
        flights' := flights + [Flight(key, id, false, Failed)];
    }
  }

  method WakeUp(cache: Cache, id: int, callers: map<int, Caller>, flights: seq<Flight>)
    returns (callers': map<int, Caller>)
    requires Sound(cache.pending, flights, callers) && id in callers && callers[id].Waiting?
    ensures Sound(cache.pending, flights, callers')
  {
    callers' := callers;
    var c := callers[id];
    assert CallerSound(flights, id, c);
    var f := flights[c.flight];
    if f.over {
      var next := if f.outcome.Cancelled? then Looking(c.key) else Returned(c.key, f.outcome, false);
      CallerMoves(cache.pending, flights, callers, id, next);
      callers' := callers[id := next];
    }
  }

  /** At most one decode per key is running, and a waiter is never left alone. */
  lemma OneDecodePerKey(pending: map<Key, nat>, flights: seq<Flight>, callers: map<int, Caller>)
    requires Sound(pending, flights, callers)
    ensures forall a, b | a in callers && b in callers && callers[a].Decoding? && callers[b].Decoding?
      && callers[a].key == callers[b].key :: a == b
    ensures forall id | id in callers && callers[id].Waiting? ::
      && callers[id].flight < |flights|
      && (flights[callers[id].flight].over
           || exists owner :: owner in callers && callers[owner] == Decoding(callers[id].key, callers[id].flight))
  {
    forall a | a in callers && callers[a].Decoding?
      ensures callers[a].flight < |flights| && callers[a].key in pending && pending[callers[a].key] == callers[a].flight
        && flights[callers[a].flight].owner == a
    {
      assert CallerSound(flights, a, callers[a]);
    }
    forall id | id in callers && callers[id].Waiting?
      ensures callers[id].flight < |flights|
      ensures flights[callers[id].flight].over
        || exists owner :: owner in callers && callers[owner] == Decoding(callers[id].key, callers[id].flight)
    {
      assert CallerSound(flights, id, callers[id]);
      var f := callers[id].flight;
      if !flights[f].over {
        assert callers[flights[f].owner] == Decoding(callers[id].key, f);
      }
    }
  }
}
