/** The cache of decoded images: bounded by bytes and entries, least recently used first out. */
module ImageCache {

  type Key = int

  const CACHE_BYTES := 33554432
  const CACHE_ENTRIES := 8

  /** An image is represented by its number and its size in bytes. */
  datatype Image = Image(id: int, size: nat)

  function Total(order: seq<Key>, entries: map<Key, Image>): (n: nat)
    requires forall k | k in order :: k in entries
  {
    if order == [] then 0
    else
      var last := order[|order| - 1];
      assert last in order;
      assert forall k | k in order[..|order| - 1] :: k in order;
      Total(order[..|order| - 1], entries) + entries[last].size
  }

  predicate Fits(order: seq<Key>, entries: map<Key, Image>, need: nat, limit: int)
    requires forall k | k in order :: k in entries
  {
    Total(order, entries) + need <= limit && |order| < CACHE_ENTRIES
  }

  /** The most recent entries that leave room for `need` bytes and one entry more. */
  function Kept(order: seq<Key>, entries: map<Key, Image>, need: nat, limit: int): (kept: seq<Key>)
    requires forall k | k in order :: k in entries
    ensures kept <= order
  {
    if order == [] || Fits(order, entries, need, limit) then order
    else
      assert forall k | k in order[..|order| - 1] :: k in order;
      Kept(order[..|order| - 1], entries, need, limit)
  }

  lemma {:induction false} TotalGrows(order: seq<Key>, entries: map<Key, Image>, n: nat)
    requires (forall k | k in order :: k in entries) && n <= |order|
    ensures forall k | k in order[..n] :: k in entries
    ensures Total(order[..n], entries) <= Total(order, entries)
  {
    forall k | k in order[..n] ensures k in entries {
      assert k in order;
    }
    if n < |order| {
      var init := order[..|order| - 1];
      assert forall k | k in init :: k in order;
      TotalGrows(init, entries, n);
      assert init[..n] == order[..n];
      assert order[|order| - 1] in order;
    } else {
      assert order[..n] == order;
    }
  }

  /** Nothing is evicted that could have stayed: no longer prefix leaves enough room. */
  lemma {:induction false} KeptIsLongest(order: seq<Key>, entries: map<Key, Image>, need: nat, limit: int, n: nat)
    requires (forall k | k in order :: k in entries) && need <= limit && n <= |order|
    ensures forall k | k in order[..n] :: k in entries
    ensures n <= |Kept(order, entries, need, limit)| <==> Fits(order[..n], entries, need, limit)
  {
    TotalGrows(order, entries, n);
    if order == [] || Fits(order, entries, need, limit) {
    } else if n == |order| {
      assert order[..n] == order;
    } else {
      var init := order[..|order| - 1];
      assert forall k | k in init :: k in order;
      KeptIsLongest(init, entries, need, limit, n);
      assert init[..n] == order[..n];
    }
  }

  class Cache {
    var entries: map<Key, Image>
    var lru: seq<Key>             // most recent first
    var bytes: int
    var limitBytes: int
    var pending: map<Key, nat>    // the running decode of a key
    var closed: bool

    ghost predicate Valid()
      reads this
    {
      && Listed(lru, entries)
      && bytes == Total(lru, entries)
      && bytes <= Limit() && |lru| <= CACHE_ENTRIES
      && entries.Keys !! pending.Keys
      && (closed ==> lru == [])
    }

    function Limit(): int
      reads this
    {
      if limitBytes <= 0 then CACHE_BYTES else limitBytes
    }

    constructor (limit: int)
      ensures Valid() && !closed && lru == [] && pending == map[] && limitBytes == limit
      ensures Limit() == if limit > 0 then limit else 32 * 1024 * 1024
    {
      entries, lru, bytes, limitBytes, pending, closed := map[], [], 0, limit, map[], false;
    }

    /** The first locked section of get: a hit moves to the front, a running decode is shared, and
        otherwise the caller decodes. */
    method Look(key: Key, flight: nat) returns (answer: Answer)
      requires Valid()
      modifies this
      ensures Valid() && limitBytes == old(limitBytes) && closed == old(closed) && entries == old(entries)
      ensures answer == (
        if closed then Closed
        else if key in old(entries) then Hit(old(entries)[key])
        else if key in old(pending) then Shared(old(pending)[key])
        else Decode)
      ensures pending == if answer.Decode? then old(pending)[key := flight] else old(pending)
      ensures lru == if answer.Hit? then ToFront(old(lru), key) else old(lru)
      ensures answer.Hit? ==>
        exists i :: 0 <= i < |old(lru)| && old(lru)[i] == key && lru == [key] + old(lru)[..i] + old(lru)[i + 1..]
    {
      hide Total;
      hide ToFront;
      if closed {
        return Closed;
      }
      if key in entries {
        FrontIsListed(lru, entries, key);
        var i := FrontIsCut(lru, key);
        lru := ToFront(lru, key);
        return Hit(entries[key]);
      }
      if key in pending {
        return Shared(pending[key]);
      }
      pending := pending[key := flight];
      answer := Decode;
    }

    /** The eviction loop. */
    method MakeRoom(need: nat)
      requires Listed(lru, entries) && bytes == Total(lru, entries) && need <= Limit()
      modifies `entries, `lru, `bytes
      ensures lru == Kept(old(lru), old(entries), need, Limit())
      ensures Listed(lru, entries) && bytes == Total(lru, entries) && Fits(lru, entries, need, Limit())
      ensures forall k | k in lru :: k in old(entries) && entries[k] == old(entries)[k]
    {
      hide Listed;
      hide Total;
      ghost var order, start := lru, entries;
      ListedKeys(lru, entries);
      while |lru| > 0 && (bytes + need > Limit() || |lru| >= CACHE_ENTRIES)
        invariant Listed(lru, entries) && (forall k | k in lru :: k in entries) && bytes == Total(lru, entries)
        invariant forall k | k in lru :: k in start && entries[k] == start[k]
        invariant Kept(lru, entries, need, Limit()) == Kept(order, start, need, Limit())
        decreases |lru|
      {
        var oldest := lru[|lru| - 1];
        ghost var before := entries;
        LastLeaves(lru, entries, need, Limit());
        bytes := bytes - entries[oldest].size;
        entries := entries - {oldest};
        lru := lru[..|lru| - 1];
      }
      EmptyTotal(entries);
    }

    /** The second locked section of get: the decoded image is kept unless it failed, is too large
        or the cache was closed meanwhile. */
    method Complete(key: Key, image: Image, ok: bool)
      requires Valid() && key in pending
      modifies this
      ensures Valid() && limitBytes == old(limitBytes) && closed == old(closed)
      ensures pending == old(pending) - {key}
      ensures ok && !closed && image.size <= Limit() ==>
        && lru == [key] + Kept(old(lru), old(entries), image.size, Limit())
        && entries[key] == image
        && forall k | k in lru && k != key :: k in old(entries) && entries[k] == old(entries)[k]
      ensures ok && !closed && image.size <= Limit() ==>
        exists n: nat :: n <= |old(lru)| && lru == [key] + old(lru)[..n]
      ensures !(ok && !closed && image.size <= Limit()) ==> lru == old(lru) && entries == old(entries)
    {
      if ok && !closed && image.size <= Limit() {
        ghost var n := |Kept(lru, entries, image.size, Limit())|;
        assert Kept(lru, entries, image.size, Limit()) == lru[..n];
        Insert(key, image);
      }
      pending := pending - {key};
      forall k | k in entries ensures k !in pending {}
      hide Kept;
      hide Total;
    }

    method Insert(key: Key, image: Image)
      requires Listed(lru, entries) && bytes == Total(lru, entries) && image.size <= Limit() && key !in entries
      modifies `entries, `lru, `bytes
      ensures lru == [key] + Kept(old(lru), old(entries), image.size, Limit())
      ensures Listed(lru, entries) && bytes == Total(lru, entries) && bytes <= Limit() && |lru| <= CACHE_ENTRIES
      ensures entries[key] == image
        && forall k | k in entries && k != key :: k in old(entries) && entries[k] == old(entries)[k]
    {
      hide Kept;
      MakeRoom(image.size);
      ghost var room := entries;
      NewFront(lru, entries, key, image);
      hide Total;
      entries := entries[key := image];
      lru := [key] + lru;
      bytes := bytes + image.size;
    }

    method Close()
      modifies this
      ensures closed && entries == map[] && lru == [] && pending == old(pending)
      ensures old(Valid()) ==> Valid()
    {
      closed, entries, lru, bytes := true, map[], [], 0;
    }
  }

  datatype Answer = Closed | Hit(image: Image) | Shared(flight: nat) | Decode

  /** The list holds each key of the map once. */
  ghost predicate Listed(lru: seq<Key>, entries: map<Key, Image>) {
    && (forall k :: k in lru <==> k in entries)
    && (forall i, j | 0 <= i < j < |lru| :: lru[i] != lru[j])
  }

  function Drop(order: seq<Key>, key: Key): seq<Key> {
    if order == [] then []
    else Drop(order[..|order| - 1], key) + if order[|order| - 1] == key then [] else [order[|order| - 1]]
  }

  function ToFront(order: seq<Key>, key: Key): seq<Key> {
    [key] + Drop(order, key)
  }

  lemma {:induction false} DroppedKeys(order: seq<Key>, key: Key)
    requires forall i, j | 0 <= i < j < |order| :: order[i] != order[j]
    ensures forall k :: k in Drop(order, key) <==> k in order && k != key
    ensures forall i, j | 0 <= i < j < |Drop(order, key)| :: Drop(order, key)[i] != Drop(order, key)[j]
    ensures |order| == |Drop(order, key)| + if key in order then 1 else 0
  {
    if order != [] {
      var init, last := order[..|order| - 1], order[|order| - 1];
      assert order == init + [last] && last !in init;
      DroppedKeys(init, key);
    }
  }

  lemma DropNext(init: seq<Key>, last: Key, key: Key)
    ensures Drop(init + [last], key) == Drop(init, key) + if last == key then [] else [last]
  {
    assert (init + [last])[..|init|] == init;
  }

  lemma {:induction false} NothingDropped(order: seq<Key>, key: Key)
    requires key !in order
    ensures Drop(order, key) == order
  {
    if order != [] {
      var init, last := order[..|order| - 1], order[|order| - 1];
      assert order == init + [last] && last in order;
      DropNext(init, last, key);
      hide Drop;
      assert key !in init;
      NothingDropped(init, key);
    }
  }

  /** One key is cut out, the others keep their order. */
  lemma {:induction false} DropIsCut(order: seq<Key>, key: Key) returns (i: nat)
    requires key in order && forall i, j | 0 <= i < j < |order| :: order[i] != order[j]
    ensures i < |order| && order[i] == key && Drop(order, key) == order[..i] + order[i + 1..]
  {
    hide Drop;
    var init, last := order[..|order| - 1], order[|order| - 1];
    assert order == init + [last];
    DropNext(init, last, key);
    if last == key {
      i := |order| - 1;
      assert key !in init;
      NothingDropped(init, key);
      assert order[..i] == init && order[i + 1..] == [];
    } else {
      i := DropIsCut(init, key);
      CutGrows(init, last, i);
    }
  }

  lemma FrontIsCut(order: seq<Key>, key: Key) returns (i: nat)
    requires key in order && forall i, j | 0 <= i < j < |order| :: order[i] != order[j]
    ensures i < |order| && order[i] == key && ToFront(order, key) == [key] + order[..i] + order[i + 1..]
  {
    i := DropIsCut(order, key);
    assert [key] + (order[..i] + order[i + 1..]) == [key] + order[..i] + order[i + 1..];
  }

  lemma CutGrows(init: seq<Key>, last: Key, i: nat)
    requires i < |init|
    ensures init[..i] + init[i + 1..] + [last] == (init + [last])[..i] + (init + [last])[i + 1..]
  {}

  lemma {:induction false} DroppedTotal(order: seq<Key>, entries: map<Key, Image>, key: Key)
    requires (forall k | k in order :: k in entries) && (forall i, j | 0 <= i < j < |order| :: order[i] != order[j])
    ensures forall k | k in Drop(order, key) :: k in entries
    ensures Total(order, entries) == Total(Drop(order, key), entries) + if key in order then entries[key].size else 0
  {
    DroppedKeys(order, key);
    if order != [] {
      var init, last := order[..|order| - 1], order[|order| - 1];
      assert order == init + [last] && last in order;
      forall k | k in init ensures k in entries {
        assert k in order;
      }
      DroppedTotal(init, entries, key);
      DroppedKeys(init, key);
      DroppedSnoc(init, last, entries, key);
    }
  }

  lemma DroppedSnoc(init: seq<Key>, last: Key, entries: map<Key, Image>, key: Key)
    requires last in entries && last !in init && (forall k | k in init :: k in entries)
      && (forall k | k in Drop(init, key) :: k in entries)
    requires Total(init, entries) == Total(Drop(init, key), entries) + if key in init then entries[key].size else 0
    ensures forall k | k in Drop(init + [last], key) :: k in entries
    ensures Total(init + [last], entries)
      == Total(Drop(init + [last], key), entries) + if key in init + [last] then entries[key].size else 0
  {
    TotalSnoc(init, last, entries);
    assert (init + [last])[..|init|] == init;
    if last == key {
      assert Drop(init + [last], key) == Drop(init, key);
    } else {
      assert Drop(init + [last], key) == Drop(init, key) + [last];
      TotalSnoc(Drop(init, key), last, entries);
    }
    hide Total;
  }

  lemma TotalSnoc(order: seq<Key>, key: Key, entries: map<Key, Image>)
    requires (forall k | k in order :: k in entries) && key in entries
    ensures Total(order + [key], entries) == Total(order, entries) + entries[key].size
  {
    assert (order + [key])[..|order|] == order;
  }

  lemma {:induction false} TotalOfFront(order: seq<Key>, entries: map<Key, Image>, key: Key)
    requires (forall k | k in order :: k in entries) && key in entries
    ensures forall k | k in [key] + order :: k in entries
    ensures Total([key] + order, entries) == entries[key].size + Total(order, entries)
  {
    if order == [] {
      assert [key] + order == [key] && [key][..0] == [];
    } else {
      var init := order[..|order| - 1];
      assert forall k | k in init :: k in order;
      TotalOfFront(init, entries, key);
      assert ([key] + order)[..|order|] == [key] + init;
    }
  }

  lemma FrontIsListed(order: seq<Key>, entries: map<Key, Image>, key: Key)
    requires Listed(order, entries) && key in entries
    ensures Listed(ToFront(order, key), entries) && Total(ToFront(order, key), entries) == Total(order, entries)
    ensures |ToFront(order, key)| == |order|
  {
    DroppedKeys(order, key);
    DroppedTotal(order, entries, key);
    TotalOfFront(Drop(order, key), entries, key);
  }

  lemma {:induction false} SameTotal(order: seq<Key>, a: map<Key, Image>, b: map<Key, Image>)
    requires forall k | k in order :: k in a && k in b && a[k] == b[k]
    ensures Total(order, a) == Total(order, b)
  {
    if order != [] {
      assert order[|order| - 1] in order && forall k | k in order[..|order| - 1] :: k in order;
      SameTotal(order[..|order| - 1], a, b);
    }
  }

  lemma {:induction false} SameKept(order: seq<Key>, a: map<Key, Image>, b: map<Key, Image>, need: nat, limit: int)
    requires forall k | k in order :: k in a && k in b && a[k] == b[k]
    ensures Kept(order, a, need, limit) == Kept(order, b, need, limit)
  {
    SameTotal(order, a, b);
    if order != [] {
      assert forall k | k in order[..|order| - 1] :: k in order;
      SameKept(order[..|order| - 1], a, b, need, limit);
    }
  }

  /** Removing the oldest entry. */
  lemma LastLeaves(order: seq<Key>, entries: map<Key, Image>, need: nat, limit: int)
    requires Listed(order, entries) && order != [] && !Fits(order, entries, need, limit)
    ensures var rest, oldest := order[..|order| - 1], order[|order| - 1];
      && oldest in entries && Listed(rest, entries - {oldest})
      && (forall k | k in rest :: k in order && k in entries - {oldest})
      && Total(rest, entries - {oldest}) == Total(order, entries) - entries[oldest].size
      && Kept(rest, entries - {oldest}, need, limit) == Kept(order, entries, need, limit)
  {
    var rest, oldest := order[..|order| - 1], order[|order| - 1];
    assert order == rest + [oldest];
    SameTotal(rest, entries, entries - {oldest});
    SameKept(rest, entries, entries - {oldest}, need, limit);
  }

  lemma EmptyTotal(entries: map<Key, Image>)
    ensures Total([], entries) == 0
  {}

  lemma ListedKeys(order: seq<Key>, entries: map<Key, Image>)
    requires Listed(order, entries)
    ensures forall k | k in order :: k in entries
  {}

  lemma NewFront(order: seq<Key>, entries: map<Key, Image>, key: Key, image: Image)
    requires Listed(order, entries) && key !in entries
    ensures Listed([key] + order, entries[key := image])
    ensures Total([key] + order, entries[key := image]) == Total(order, entries) + image.size
  {
    SameTotal(order, entries, entries[key := image]);
    TotalOfFront(order, entries[key := image], key);
  }
}
