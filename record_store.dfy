/**
 * The server's snapshot of both collections and the rules every backend and handler shares:
 * what a write stores, what a lookup answers and which events belong to a user.
 */
module RecordStore {
  import opened Wrappers
  import opened JsValues
  import opened Collections

  /** `{users, events}`, each a dictionary from a string id to a record. */
  datatype Snapshot = Snapshot(users: Collection, events: Collection)

  /** `{ users: {}, events: {} }`, the fallback every backend answers when it cannot read. */
  const EmptySnapshot := Snapshot(EmptyCollection, EmptyCollection)

  ghost predicate Wf(s: Snapshot) {
    Collections.Wf(s.users) && Collections.Wf(s.events)
  }

  /**
   * `{...payload, lastUpdated: now}`: the record a POST stores. It holds the payload's fields and a
   * fresh `lastUpdated`, which overrides one the payload carries.
   */
  function Stamped(payload: Value, now: string): (r: Record)
    ensures Field(r, "lastUpdated") == Some(JStr(now))
    ensures forall k :: k != "lastUpdated" ==> Field(r, k) == Field(Spread(payload), k)
  {
    Spread(payload)["lastUpdated" := JStr(now)]
  }

  /**
   * A POST replaces the record: what is stored under `id` afterwards is the same whatever was stored
   * there before, so no field of the prior record survives.
   */
  lemma WriteReplaces(c1: Collection, c2: Collection, id: string, payload: Value, now: string, k: string)
    requires Collections.Wf(c1) && Collections.Wf(c2)
    ensures Get(Put(c1, id, Stamped(payload, now)), id) == Get(Put(c2, id, Stamped(payload, now)), id)
    ensures id in c1.records && k in c1.records[id] && k != "lastUpdated" && k !in Spread(payload) ==>
              k !in Put(c1, id, Stamped(payload, now)).records[id]
  {
  }

  /** `collection[id] || null`: a stored record is an object and so truthy; a miss answers `null`. */
  function Lookup(c: Collection, id: string): (r: Json)
    ensures r == JNull <==> id !in c.records
    ensures id in c.records ==> r == JObj(c.records[id])
  {
    if id in c.records then JObj(c.records[id]) else JNull
  }

  /** `data.users[userId] = {...payload, lastUpdated}`: only that user's record changes. */
  function SaveUser(s: Snapshot, userId: string, payload: Value, now: string): (t: Snapshot)
    requires Wf(s)
    ensures Wf(t)
    ensures Get(t.users, userId) == Some(Stamped(payload, now))
    ensures forall k :: k != userId ==> Get(t.users, k) == Get(s.users, k)
    ensures t.events == s.events
  {
    Snapshot(Put(s.users, userId, Stamped(payload, now)), s.events)
  }

  /** `data.events[eventId] = {...payload, lastUpdated}`: only that event's record changes. */
  function SaveEvent(s: Snapshot, eventId: string, payload: Value, now: string): (t: Snapshot)
    requires Wf(s)
    ensures Wf(t)
    ensures Get(t.events, eventId) == Some(Stamped(payload, now))
    ensures forall k :: k != eventId ==> Get(t.events, k) == Get(s.events, k)
    ensures t.users == s.users
  {
    Snapshot(s.users, Put(s.events, eventId, Stamped(payload, now)))
  }

  /** `delete data.events[eventId]`: that event is gone, everything else stays, and a miss changes nothing. */
  function DropEvent(s: Snapshot, eventId: string): (t: Snapshot)
    requires Wf(s)
    ensures Wf(t)
    ensures Get(t.events, eventId) == None
    ensures forall k :: k != eventId ==> Get(t.events, k) == Get(s.events, k)
    ensures t.users == s.users
    ensures eventId !in s.events.records ==> t == s
  {
    Snapshot(s.users, Remove(s.events, eventId))
  }

  /** `event.ownerId === userId` */
  predicate OwnedBy(event: Record, userId: string) {
    StrictEq(Field(event, "ownerId"), Some(JStr(userId)))
  }

  /** `{id, ...event}`: the key comes first, so an `id` field stored in the record overrides it. */
  function OwnerView(key: string, event: Record): (r: Record)
    ensures Field(r, "id") == if "id" in event then Some(event["id"]) else Some(JStr(key))
    ensures forall k :: k != "id" ==> Field(r, k) == Field(event, k)
  {
    map["id" := JStr(key)] + event
  }

  /**
   * `Object.entries(events).filter(([id, e]) => e.ownerId === userId).map(([id, e]) => ({id, ...e}))`
   * over the keys in enumeration order.
   */
  function ListOwned(keys: seq<string>, records: map<string, Record>, userId: string): (r: seq<Json>)
    requires forall k :: k in keys ==> k in records
    ensures |r| <= |keys|
    decreases |keys|
  {
    if |keys| == 0 then []
    else
      var k := keys[0];
      (if OwnedBy(records[k], userId) then [JObj(OwnerView(k, records[k]))] else []) + ListOwned(keys[1..], records, userId)
  }

  /** The owner listing of a collection. */
  function OwnerListing(c: Collection, userId: string): seq<Json>
    requires Collections.Wf(c)
  {
    ListOwned(c.keys, c.records, userId)
  }

  /** The listing holds exactly the views of the events whose `ownerId` is `userId`. */
  lemma {:induction false} ListOwnedExact(keys: seq<string>, records: map<string, Record>, userId: string, x: Json)
    requires forall k :: k in keys ==> k in records
    ensures x in ListOwned(keys, records, userId) <==>
              exists k :: k in keys && OwnedBy(records[k], userId) && x == JObj(OwnerView(k, records[k]))
    decreases |keys|
  {
    if |keys| > 0 {
      ListOwnedExact(keys[1..], records, userId, x);
      var k0 := keys[0];
      if x in ListOwned(keys, records, userId) && !(OwnedBy(records[k0], userId) && x == JObj(OwnerView(k0, records[k0]))) {
        var k :| k in keys[1..] && OwnedBy(records[k], userId) && x == JObj(OwnerView(k, records[k]));
        assert k in keys;
      }
      if exists k :: k in keys && OwnedBy(records[k], userId) && x == JObj(OwnerView(k, records[k])) {
        var k :| k in keys && OwnedBy(records[k], userId) && x == JObj(OwnerView(k, records[k]));
        if k != k0 {
          assert k in keys[1..];
        }
      }
    }
  }

  /** The number of keys whose event `userId` owns. */
  function CountOwned(keys: seq<string>, records: map<string, Record>, userId: string): nat
    requires forall k :: k in keys ==> k in records
    decreases |keys|
  {
    if |keys| == 0 then 0
    else (if OwnedBy(records[keys[0]], userId) then 1 else 0) + CountOwned(keys[1..], records, userId)
  }

  /** One entry per owned event: none is listed twice and none is dropped. */
  lemma {:induction false} ListOwnedLength(keys: seq<string>, records: map<string, Record>, userId: string)
    requires forall k :: k in keys ==> k in records
    ensures |ListOwned(keys, records, userId)| == CountOwned(keys, records, userId)
    decreases |keys|
  {
    if |keys| > 0 {
      ListOwnedLength(keys[1..], records, userId);
    }
  }

  /** The listing keeps enumeration order: it is the listing of a prefix followed by the listing of the rest. */
  lemma {:induction false} ListOwnedAppend(a: seq<string>, b: seq<string>, records: map<string, Record>, userId: string)
    requires forall k :: k in a + b ==> k in records
    ensures ListOwned(a + b, records, userId) == ListOwned(a, records, userId) + ListOwned(b, records, userId)
    decreases |a|
  {
    if |a| > 0 {
      assert (a + b)[1..] == a[1..] + b;
      ListOwnedAppend(a[1..], b, records, userId);
    } else {
      assert a + b == b;
    }
  }
}
