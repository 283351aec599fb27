/** The activity cache: updates are queued, taken in a batch, written to the database and, on failure,
    queued again. Machine entries are session entries whose updates name no instance. */
module ActivityCache {
  import opened Sql

  const THRESHOLD_MS := 30_000

  /** An accepted update; the ticket numbers acceptances. */
  datatype Update = Update(ticket: nat, timestamp: int, instance: Option<string>)

  /** `ident` is the identity of the entry object. */
  datatype Entry = Entry(
    ident: nat,
    user: string,
    validUntil: int,
    lastSent: int,
    pending: Option<Update>,
    inFlight: Option<Update>)

  /** The two maps of the cache as one. */
  datatype Key = SessionKey(id: string) | MachineKey(id: string)

  type Cache = map<Key, Entry>

  datatype Item = Item(key: Key, user: string, ident: nat, update: Update)

  datatype Outcome = Written | Missing | Failed

  function Max(a: int, b: int): int {
    if a >= b then a else b
  }

  predicate Near(a: int, b: int) {
    -THRESHOLD_MS <= a - b <= THRESHOLD_MS
  }

  /** The latest activity already sent, being sent or waiting for the same instance. */
  function Watermark(e: Entry, instance: Option<string>): int {
    var sent := e.lastSent;
    var flying := if e.inFlight.Some? && e.inFlight.value.instance == instance
                  then Max(sent, e.inFlight.value.timestamp) else sent;
    if e.pending.Some? && e.pending.value.instance == instance
    then Max(flying, e.pending.value.timestamp) else flying
  }

  predicate Accepts(e: Entry, timestamp: int, instance: Option<string>) {
    && !Near(timestamp, Watermark(e, instance))
    && (e.pending.None? || timestamp >= e.pending.value.timestamp)
  }

  predicate Takeable(e: Entry) {
    e.pending.Some? && e.inFlight.None?
  }

  function Take(e: Entry): Entry {
    if Takeable(e) then e.(pending := None, inFlight := e.pending) else e
  }

  function TakeAll(c: Cache): Cache {
    map key | key in c :: Take(c[key])
  }

  /** The items of a batch: one per takeable entry, in some order. */
  predicate Batch(c: Cache, items: seq<Item>) {
    && (forall i :: 0 <= i < |items| ==> ItemOf(c, items[i]))
    && (forall i, j :: 0 <= i < j < |items| ==> items[i].key != items[j].key)
    && (forall key :: key in c && Takeable(c[key]) ==> Listed(items, key))
  }

  predicate ItemOf(c: Cache, item: Item) {
    item.key in c && Takeable(c[item.key]) && item == Item(item.key, c[item.key].user, c[item.key].ident, c[item.key].pending.value)
  }

  predicate Listed(items: seq<Item>, key: Key) {
    exists i :: 0 <= i < |items| && items[i].key == key
  }

  lemma ListedStays(items: seq<Item>, item: Item)
    ensures forall key :: Listed(items + [item], key) <==> Listed(items, key) || key == item.key
  {
    var more := items + [item];
    assert more[|items|] == item;
    forall key | Listed(items, key) ensures Listed(more, key) {
      var i :| 0 <= i < |items| && items[i].key == key;
      assert more[i].key == key;
    }
  }

  /** The pending update an entry may drop after a write: same instance, close to what was sent. */
  predicate Redundant(e: Entry, sent: int, instance: Option<string>) {
    e.pending.Some? && e.pending.value.instance == instance && Near(e.pending.value.timestamp, sent)
  }

  /** What a finished write does to the cache; an entry that was replaced meanwhile is left alone. */
  function Finish(c: Cache, item: Item, outcome: Outcome): Cache {
    if item.key !in c || c[item.key].ident != item.ident then c
    else
      var e := c[item.key];
      match outcome
      case Written =>
        var sent := Max(e.lastSent, item.update.timestamp);
        c[item.key := e.(lastSent := sent, inFlight := None,
                        pending := if Redundant(e, sent, item.update.instance) then None else e.pending)]
      case Missing => c - {item.key}
      case Failed =>
        c[item.key := e.(inFlight := None, pending := if e.pending.Some? then e.pending else Some(item.update))]
  }

  predicate Expired(e: Entry, now: int) {
    e.validUntil < now && e.pending.None? && e.inFlight.None?
  }

  /** The entry after a validation that read `stored`: refreshed for its own account, replaced for
      another one. */
  function Validated(c: Cache, key: Key, user: string, stored: int, until: int, ident: nat): Cache {
    if key in c && c[key].user == user
    then c[key := c[key].(validUntil := until, lastSent := Max(c[key].lastSent, stored))]
    else c[key := Entry(ident, user, until, stored, None, None)]
  }

  /** The cache object. */
  class ActivityCache {
    var cache: Cache
    var shuttingDown: bool

    constructor ()
      ensures cache == map[] && !shuttingDown
    {
      cache, shuttingDown := map[], false;
    }

    /** The cache side of `isSessionValid`, once the database has confirmed the record. */
    method Admit(key: Key, user: string, stored: int, until: int, ident: nat)
      modifies this`cache
      ensures cache == Validated(old(cache), key, user, stored, until, ident)
    {
      if key in cache && cache[key].user == user {
        var e := cache[key];
        e := e.(validUntil := until, lastSent := Max(e.lastSent, stored));
        cache := cache[key := e];
      } else {
        cache := cache[key := Entry(ident, user, until, stored, None, None)];
      }
    }

    method QueueUpdate(key: Key, u: Update) returns (accepted: bool)
      modifies this`cache
      ensures accepted == (key in old(cache) && !shuttingDown && Accepts(old(cache)[key], u.timestamp, u.instance))
      ensures cache == if accepted then old(cache)[key := old(cache)[key].(pending := Some(u))] else old(cache)
    {
      if key !in cache || shuttingDown {
        return false;
      }
      var e := cache[key];
      var watermark := e.lastSent;
      if e.inFlight.Some? && e.inFlight.value.instance == u.instance {
        watermark := Max(watermark, e.inFlight.value.timestamp);
      }
      if e.pending.Some? && e.pending.value.instance == u.instance {
        watermark := Max(watermark, e.pending.value.timestamp);
      }
      var diff := if u.timestamp >= watermark then u.timestamp - watermark else watermark - u.timestamp;
      if diff > THRESHOLD_MS && (e.pending.None? || u.timestamp >= e.pending.value.timestamp) {
        cache := cache[key := e.(pending := Some(u))];
        return true;
      }
      accepted := false;
    }

    method TakePendingUpdates() returns (items: seq<Item>)
      modifies this`cache
      ensures cache == TakeAll(old(cache))
      ensures Batch(old(cache), items)
    {
      items := [];
      var rest := cache.Keys;
      while rest != {}
        invariant rest <= old(cache).Keys && cache.Keys == old(cache).Keys
        invariant forall key :: key in cache ==> cache[key] == if key in rest then old(cache)[key] else Take(old(cache)[key])
        invariant forall i :: 0 <= i < |items| ==> ItemOf(old(cache), items[i]) && items[i].key !in rest
        invariant forall i, j :: 0 <= i < j < |items| ==> items[i].key != items[j].key
        invariant forall key :: key in old(cache) && key !in rest && Takeable(old(cache)[key]) ==> Listed(items, key)
        decreases rest
      {
        var key :| key in rest;
        rest := rest - {key};
        var e := cache[key];
        if e.pending.Some? && e.inFlight.None? {
          cache := cache[key := e.(pending := None, inFlight := e.pending)];
          ListedStays(items, Item(key, e.user, e.ident, e.pending.value));
          items := items + [Item(key, e.user, e.ident, e.pending.value)];
        }
      }
    }

    /** The tail of `persistUpdate`: record the write, discard a missing record, or queue again. */
    method FinishUpdate(item: Item, outcome: Outcome)
      modifies this`cache
      ensures cache == Finish(old(cache), item, outcome)
    {
      if item.key !in cache || cache[item.key].ident != item.ident {
        return;
      }
      var e := cache[item.key];
      match outcome
      case Written =>
        e := e.(lastSent := Max(e.lastSent, item.update.timestamp), inFlight := None);
        if e.pending.Some? && e.pending.value.instance == item.update.instance
           && -THRESHOLD_MS <= e.pending.value.timestamp - e.lastSent <= THRESHOLD_MS {
          e := e.(pending := None);
        }
        cache := cache[item.key := e];
      case Missing =>
        cache := cache - {item.key};
      case Failed =>
        e := e.(inFlight := None);
        if e.pending.None? {
          e := e.(pending := Some(item.update));
        }
        cache := cache[item.key := e];
    }

    method CleanUp(now: int)
      modifies this`cache
      ensures cache == map key | key in old(cache) && !Expired(old(cache)[key], now) :: old(cache)[key]
    {
      var rest := cache.Keys;
      while rest != {}
        invariant rest <= old(cache).Keys
        invariant forall key :: key in cache <==> key in old(cache) && (key in rest || !Expired(old(cache)[key], now))
        invariant forall key :: key in cache ==> cache[key] == old(cache)[key]
        decreases rest
      {
        var key :| key in rest;
        rest := rest - {key};
        if cache[key].validUntil < now && cache[key].pending.None? && cache[key].inFlight.None? {
          cache := cache - {key};
        }
      }
    }
  }
}
