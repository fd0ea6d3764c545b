/**
 * The "my events" screen: the signed-in user's events from `birthdayAppEvents`, split into active
 * and archived, with archive, unarchive and delete writing the whole map back.
 */
module MyEvents {
  import opened Wrappers
  import opened JsValues
  import opened Collections
  import opened Browser

  /** `{...event, id: eventId, isArchived: event.isArchived || false}` */
  function Listed(key: string, event: Record): (r: Record)
    ensures Field(r, "id") == Some(JStr(key))
    ensures Field(r, "isArchived") == Or(Field(event, "isArchived"), Some(JBool(false)))
    ensures forall k :: k != "id" && k != "isArchived" ==> Field(r, k) == Field(event, k)
  {
    event["id" := JStr(key)]["isArchived" := Or(Field(event, "isArchived"), Some(JBool(false))).value]
  }

  predicate OwnedBy(event: Record, userId: Value) {
    StrictEq(Field(event, "ownerId"), userId)
  }

  /** The events of `keys` whose `ownerId` is `userId`, listed in key order. */
  function Owned(keys: seq<string>, records: map<string, Record>, userId: Value): seq<Record>
    requires forall k :: k in keys ==> k in records
    decreases |keys|
  {
    if |keys| == 0 then []
    else
      var k := keys[|keys| - 1];
      var prior := Owned(keys[..|keys| - 1], records, userId);
      if OwnedBy(records[k], userId) then prior + [Listed(k, records[k])] else prior
  }

  /** The listing holds exactly the owned events, each under its own key, and no more entries than there are events. */
  lemma {:induction false} OwnedExact(keys: seq<string>, records: map<string, Record>, userId: Value, x: Record)
    requires forall k :: k in keys ==> k in records
    ensures x in Owned(keys, records, userId) <==>
              exists i :: 0 <= i < |keys| && OwnedBy(records[keys[i]], userId) && x == Listed(keys[i], records[keys[i]])
    ensures |Owned(keys, records, userId)| <= |keys|
    decreases |keys|
  {
    if |keys| > 0 {
      var n := |keys| - 1;
      OwnedExact(keys[..n], records, userId, x);
      assert forall i :: 0 <= i < n ==> keys[..n][i] == keys[i];
      if x in Owned(keys, records, userId) && x !in Owned(keys[..n], records, userId) {
        assert OwnedBy(records[keys[n]], userId) && x == Listed(keys[n], records[keys[n]]);
      }
    }
  }

  /**
   * What `events` holds after `loadEvents`: reading `user.id` happens in the callback, so with no
   * stored events it never throws and the list is empty; otherwise a missing user makes it throw, and
   * the previous list stays.
   */
  function AfterLoad(c: Collection, user: Value, prior: seq<Record>): seq<Record>
    requires Collections.Wf(c)
  {
    if |c.keys| == 0 then []
    else
      match Prop(user, "id")
      case Thrown => prior
      case Ok(userId) => Owned(c.keys, c.records, userId)
  }

  /** `events.filter(event => !event.isArchived)` */
  function ActiveEvents(events: seq<Record>): (r: seq<Record>)
    ensures forall x :: x in r <==> x in events && !Truthy(Field(x, "isArchived"))
    decreases |events|
  {
    if |events| == 0 then []
    else (if Truthy(Field(events[0], "isArchived")) then [] else [events[0]]) + ActiveEvents(events[1..])
  }

  /** `events.filter(event => event.isArchived)` */
  function ArchivedEvents(events: seq<Record>): (r: seq<Record>)
    ensures forall x :: x in r <==> x in events && Truthy(Field(x, "isArchived"))
    decreases |events|
  {
    if |events| == 0 then []
    else (if Truthy(Field(events[0], "isArchived")) then [events[0]] else []) + ArchivedEvents(events[1..])
  }

  /** The two tabs partition the list: together they hold every event exactly as often as the list does. */
  lemma {:induction false} TabsPartition(events: seq<Record>)
    ensures multiset(ActiveEvents(events)) + multiset(ArchivedEvents(events)) == multiset(events)
    ensures |ActiveEvents(events)| + |ArchivedEvents(events)| == |events|
    decreases |events|
  {
    if |events| > 0 {
      TabsPartition(events[1..]);
      assert events == [events[0]] + events[1..];
    }
  }

  /** The stored map after `allEvents[eventId] = {...allEvents[eventId], isArchived}`, applied only to a stored event. */
  function SetArchived(c: Collection, eventId: string, archived: bool): (d: Collection)
    requires Collections.Wf(c)
    ensures Collections.Wf(d)
  {
    if eventId in c.records then Put(c, eventId, c.records[eventId]["isArchived" := JBool(archived)]) else c
  }

  /**
   * Archiving (or unarchiving) sets the flag on that event and keeps its other fields; no other event
   * changes, the key order is kept, and an id that is not stored changes nothing.
   */
  lemma SetArchivedEffect(c: Collection, eventId: string, archived: bool, k: string)
    requires Collections.Wf(c)
    ensures SetArchived(c, eventId, archived).keys == c.keys
    ensures eventId in c.records ==>
              && eventId in SetArchived(c, eventId, archived).records
              && Field(SetArchived(c, eventId, archived).records[eventId], "isArchived") == Some(JBool(archived))
              && (k != "isArchived" ==> Field(SetArchived(c, eventId, archived).records[eventId], k) == Field(c.records[eventId], k))
    ensures k != eventId ==> Get(SetArchived(c, eventId, archived), k) == Get(c, k)
    ensures eventId !in c.records ==> SetArchived(c, eventId, archived) == c
  {
  }

  /** Archiving twice stores the same as archiving once, and the last of archive and unarchive wins. */
  lemma SetArchivedIdempotent(c: Collection, eventId: string, first: bool, second: bool)
    requires Collections.Wf(c)
    ensures SetArchived(SetArchived(c, eventId, first), eventId, second) == SetArchived(c, eventId, second)
  {
    if eventId in c.records {
      assert c.records[eventId]["isArchived" := JBool(first)]["isArchived" := JBool(second)] ==
             c.records[eventId]["isArchived" := JBool(second)];
    }
  }

  class MyEventsScreen {
    const storage: LocalStorage
    /** The `user` prop. */
    const user: Value
    var events: seq<Record>
    var loading: bool

    constructor (storage: LocalStorage, user: Value)
      ensures this.storage == storage && this.user == user && events == [] && loading
    {
      this.storage := storage;
      this.user := user;
      events := [];
      loading := true;
    }

    /** `loadEvents`: the `forEach` over the stored entries, pushing each owned event. */
    method LoadEvents()
      requires storage.Valid()
      modifies this`events, this`loading
      ensures events == AfterLoad(storage.events, user, old(events)) && !loading
    {
      var allEvents := storage.events;
      var userId := Prop(user, "id");
      if |allEvents.keys| > 0 && userId.Thrown? {
        // the first callback throws; the catch leaves `events` as it was
        loading := false;
        return;
      }
      var userEvents: seq<Record> := [];
      var i := 0;
      while i < |allEvents.keys|
        invariant 0 <= i <= |allEvents.keys|
        invariant userId.Ok? || i == 0
        invariant userEvents == if i == 0 then [] else Owned(allEvents.keys[..i], allEvents.records, userId.value)
      {
        var eventId := allEvents.keys[i];
        var event := allEvents.records[eventId];
        assert allEvents.keys[..i + 1][..i] == allEvents.keys[..i];
        if OwnedBy(event, userId.value) {
          userEvents := userEvents + [Listed(eventId, event)];
        }
        i := i + 1;
      }
      assert allEvents.keys[..|allEvents.keys|] == allEvents.keys;
      events := userEvents;
      loading := false;
    }

    /** `handleArchiveEvent` (`archived`) and `handleUnarchiveEvent` (`!archived`). */
    method SetArchive(eventId: string, archived: bool)
      requires storage.Valid()
      modifies storage`events, this`events, this`loading
      ensures storage.Valid()
      ensures eventId !in old(storage.events.records) || storage.full ==>
                storage.events == old(storage.events) && events == old(events) && loading == old(loading)
      ensures eventId in old(storage.events.records) && !storage.full ==>
                && storage.events == SetArchived(old(storage.events), eventId, archived)
                && events == AfterLoad(storage.events, user, old(events)) && !loading
    {
      var allEvents := storage.events;
      if eventId in allEvents.records {
        allEvents := Put(allEvents, eventId, allEvents.records[eventId]["isArchived" := JBool(archived)]);
        if storage.full {
          return;
        }
        storage.events := allEvents;
        LoadEvents();
      }
    }

    method HandleArchiveEvent(eventId: string)
      requires storage.Valid()
      modifies storage`events, this`events, this`loading
      ensures storage.Valid()
      ensures eventId !in old(storage.events.records) || storage.full ==>
                storage.events == old(storage.events) && events == old(events) && loading == old(loading)
      ensures eventId in old(storage.events.records) && !storage.full ==>
                && storage.events == SetArchived(old(storage.events), eventId, true)
                && events == AfterLoad(storage.events, user, old(events)) && !loading
    {
      SetArchive(eventId, true);
    }

    method HandleUnarchiveEvent(eventId: string)
      requires storage.Valid()
      modifies storage`events, this`events, this`loading
      ensures storage.Valid()
      ensures eventId !in old(storage.events.records) || storage.full ==>
                storage.events == old(storage.events) && events == old(events) && loading == old(loading)
      ensures eventId in old(storage.events.records) && !storage.full ==>
                && storage.events == SetArchived(old(storage.events), eventId, false)
                && events == AfterLoad(storage.events, user, old(events)) && !loading
    {
      SetArchive(eventId, false);
    }

    /** `handleDeleteEvent`; `confirmed` is the answer to the confirmation prompt. */
    method HandleDeleteEvent(eventId: string, confirmed: bool)
      requires storage.Valid()
      modifies storage`events, this`events, this`loading
      ensures storage.Valid()
      ensures !confirmed || storage.full ==>
                storage.events == old(storage.events) && events == old(events) && loading == old(loading)
      ensures confirmed && !storage.full ==>
                && storage.events == Remove(old(storage.events), eventId)
                && events == AfterLoad(storage.events, user, old(events)) && !loading
    {
      if confirmed {
        var allEvents := Remove(storage.events, eventId);
        if storage.full {
          return;
        }
        storage.events := allEvents;
        LoadEvents();
      }
    }
  }
}
