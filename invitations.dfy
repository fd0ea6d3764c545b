/**
 * The invitations screen: every stored event whose guest list holds a guest with the signed-in
 * user's email, and the RSVP that sets that guest's status.
 */
module Invitations {
  import opened Wrappers
  import opened JsValues
  import opened Collections
  import opened Browser

  /** `guest.email === user.email`, evaluated in that order; either read may throw. */
  function Matches(guest: Json, user: Value): Result<bool> {
    match (Prop(Some(guest), "email"), Prop(user, "email"))
    case (Ok(mine), Ok(theirs)) => Ok(StrictEq(mine, theirs))
    case _ => Thrown
  }

  /** `guests.find(guest => guest.email === user.email)` */
  function FindGuest(guests: seq<Json>, user: Value): (r: Result<Value>)
    ensures r.Ok? && r.value.Some? ==> r.value.value in guests && Matches(r.value.value, user) == Ok(true)
    decreases |guests|
  {
    if |guests| == 0 then Ok(None)
    else
      match Matches(guests[0], user)
      case Thrown => Thrown
      case Ok(true) => Ok(Some(guests[0]))
      case Ok(false) => FindGuest(guests[1..], user)
  }

  /** `find` answers the first matching guest: every guest before it is checked and does not match. */
  lemma {:induction false} FindGuestFirst(guests: seq<Json>, user: Value)
    ensures var r := FindGuest(guests, user);
      && (r.Ok? && r.value.Some? ==>
            exists i :: 0 <= i < |guests| && guests[i] == r.value.value &&
              forall j :: 0 <= j < i ==> Matches(guests[j], user) == Ok(false))
      && (r == Ok(None) <==> forall j :: 0 <= j < |guests| ==> Matches(guests[j], user) == Ok(false))
    decreases |guests|
  {
    if |guests| > 0 && Matches(guests[0], user) == Ok(false) {
      FindGuestFirst(guests[1..], user);
      var r := FindGuest(guests[1..], user);
      if r.Ok? && r.value.Some? {
        var i :| 0 <= i < |guests[1..]| && guests[1..][i] == r.value.value &&
                 forall j :: 0 <= j < i ==> Matches(guests[1..][j], user) == Ok(false);
        assert guests[i + 1] == r.value.value;
        forall j | 0 <= j < i + 1 ensures Matches(guests[j], user) == Ok(false) {
          if j > 0 { assert guests[j] == guests[1..][j - 1]; }
        }
      }
      assert forall j :: 1 <= j < |guests| ==> guests[j] == guests[1..][j - 1];
    }
  }

  /** `{...event, invitation: guestInvitation, eventId}` */
  function Invitation(key: string, event: Record, guest: Json): (r: Record)
    ensures Field(r, "invitation") == Some(guest) && Field(r, "eventId") == Some(JStr(key))
    ensures forall k :: k != "invitation" && k != "eventId" ==> Field(r, k) == Field(event, k)
  {
    event["invitation" := guest]["eventId" := JStr(key)]
  }

  /**
   * One step of the `forEach`: nothing without a truthy `guests`; a `guests` that is not an array has
   * no `find` and throws; otherwise the invitation of the first matching guest, if that guest is truthy.
   * The event's key is the one `Object.keys(allEvents).find(id => allEvents[id] === event)` finds:
   * within one parse, only that entry is the same object.
   */
  function Step(key: string, event: Record, user: Value): Result<Option<Record>> {
    var guests := Field(event, "guests");
    if !Truthy(guests) then Ok(None)
    else if !guests.value.JArr? then Thrown
    else
      match FindGuest(guests.value.items, user)
      case Thrown => Thrown
      case Ok(found) => if Truthy(found) then Ok(Some(Invitation(key, event, found.value))) else Ok(None)
  }

  /** The invitations for the events under `keys`, in key order, or the exception one of them throws. */
  function Collect(keys: seq<string>, records: map<string, Record>, user: Value): Result<seq<Record>>
    requires forall k :: k in keys ==> k in records
    decreases |keys|
  {
    if |keys| == 0 then Ok([])
    else
      var k := keys[|keys| - 1];
      match Collect(keys[..|keys| - 1], records, user)
      case Thrown => Thrown
      case Ok(prior) =>
        match Step(k, records[k], user)
        case Thrown => Thrown
        case Ok(None) => Ok(prior)
        case Ok(Some(inv)) => Ok(prior + [inv])
  }

  /**
   * When no event throws, the invitations are exactly the events with a guest list holding a guest
   * with the user's email, each carrying the first such guest and its own key.
   */
  lemma {:induction false} CollectExact(keys: seq<string>, records: map<string, Record>, user: Value, x: Record)
    requires forall k :: k in keys ==> k in records
    requires Collect(keys, records, user).Ok?
    ensures x in Collect(keys, records, user).value <==>
              exists i :: 0 <= i < |keys| && Step(keys[i], records[keys[i]], user) == Ok(Some(x))
    decreases |keys|
  {
    if |keys| > 0 {
      var n := |keys| - 1;
      CollectExact(keys[..n], records, user, x);
      assert forall i :: 0 <= i < n ==> keys[..n][i] == keys[i];
      if x in Collect(keys, records, user).value && x !in Collect(keys[..n], records, user).value {
        assert Step(keys[n], records[keys[n]], user) == Ok(Some(x));
      }
    }
  }

  /** What a step yields, spelled out: an invitation exactly for a guest list with a first matching guest. */
  lemma StepExact(key: string, event: Record, user: Value, x: Record)
    ensures Step(key, event, user) == Ok(Some(x)) <==>
              && "guests" in event && event["guests"].JArr?
              && FindGuest(event["guests"].items, user).Ok?
              && Truthy(FindGuest(event["guests"].items, user).value)
              && x == Invitation(key, event, FindGuest(event["guests"].items, user).value.value)
  {
  }

  /** `guests.map(guest => guest.email === user.email ? {...guest, status: response} : guest)` */
  function Responded(guests: seq<Json>, user: Value, response: string): (r: Result<seq<Json>>)
    ensures r.Ok? ==> |r.value| == |guests|
    ensures r.Ok? ==> forall i :: 0 <= i < |guests| ==>
              r.value[i] == if Matches(guests[i], user) == Ok(true)
                            then JObj(Spread(Some(guests[i]))["status" := JStr(response)])
                            else guests[i]
    decreases |guests|
  {
    if |guests| == 0 then Ok([])
    else
      match Matches(guests[0], user)
      case Thrown => Thrown
      case Ok(m) =>
        match Responded(guests[1..], user, response)
        case Thrown => Thrown
        case Ok(rest) =>
          var g := if m then JObj(Spread(Some(guests[0]))["status" := JStr(response)]) else guests[0];
          assert forall i :: 1 <= i < |guests| ==> ([g] + rest)[i] == rest[i - 1] && guests[i] == guests[1..][i - 1];
          Ok([g] + rest)
  }

  /** `event && event.guests`: the event is stored and has a truthy guest list. */
  predicate HasGuests(c: Collection, eventId: string) {
    eventId in c.records && Truthy(Field(c.records[eventId], "guests"))
  }

  /**
   * The stored map after `handleResponse`, or `Thrown` (nothing written): nothing is written when the
   * event is missing or has no truthy `guests`.
   */
  function AfterResponse(c: Collection, eventId: string, user: Value, response: string): (r: Result<Collection>)
    requires Collections.Wf(c)
    ensures r.Ok? ==> Collections.Wf(r.value)
  {
    if !HasGuests(c, eventId) then Ok(c)
    else
      var event := c.records[eventId];
      var guests := event["guests"];
      if !guests.JArr? then Thrown
      else
        match Responded(guests.items, user, response)
        case Thrown => Thrown
        case Ok(updated) => Ok(Put(c, eventId, event["guests" := JArr(updated)]))
  }

  /** Only `allEvents[eventId]` changes, and of it only the guest list, whose length is kept. */
  lemma AfterResponseFrames(c: Collection, eventId: string, user: Value, response: string, k: string)
    requires Collections.Wf(c)
    requires AfterResponse(c, eventId, user, response).Ok?
    ensures var d := AfterResponse(c, eventId, user, response).value;
      && d.keys == c.keys
      && (k != eventId ==> Get(d, k) == Get(c, k))
      && (eventId in c.records && k != "guests" ==> Field(d.records[eventId], k) == Field(c.records[eventId], k))
      && (eventId in c.records && Truthy(Field(c.records[eventId], "guests")) ==>
            d.records[eventId]["guests"].JArr? && |d.records[eventId]["guests"].items| == |c.records[eventId]["guests"].items|)
  {
  }

  class InvitationsScreen {
    const storage: LocalStorage
    /** The `user` prop. */
    const user: Value
    var invitations: seq<Record>
    var loading: bool

    constructor (storage: LocalStorage, user: Value)
      ensures this.storage == storage && this.user == user && invitations == [] && loading
    {
      this.storage := storage;
      this.user := user;
      invitations := [];
      loading := true;
    }

    /** `loadInvitations`: an exception leaves the previous list. */
    method LoadInvitations()
      requires storage.Valid()
      modifies this`invitations, this`loading
      ensures var r := Collect(storage.events.keys, storage.events.records, user);
        invitations == (if r.Ok? then r.value else old(invitations)) && !loading
    {
      var allEvents := storage.events;
      var userInvitations: seq<Record> := [];
      var i := 0;
      while i < |allEvents.keys|
        invariant 0 <= i <= |allEvents.keys|
        invariant Collect(allEvents.keys[..i], allEvents.records, user) == Ok(userInvitations)
      {
        var key := allEvents.keys[i];
        assert allEvents.keys[..i + 1][..i] == allEvents.keys[..i];
        var step := Step(key, allEvents.records[key], user);
        if step.Thrown? {
          assert Collect(allEvents.keys[..i + 1], allEvents.records, user).Thrown?;
          CollectThrows(allEvents.keys, allEvents.records, user, i + 1);
          assert allEvents.keys[..|allEvents.keys|] == allEvents.keys;
          loading := false;
          return;
        }
        if step.value.Some? {
          userInvitations := userInvitations + [step.value.value];
        }
        i := i + 1;
      }
      assert allEvents.keys[..|allEvents.keys|] == allEvents.keys;
      invitations := userInvitations;
      loading := false;
    }

    /** `handleResponse(eventId, response)`: write back the event with the updated guests, then reload. */
    method HandleResponse(eventId: string, response: string)
      requires storage.Valid()
      modifies storage`events, this`invitations, this`loading
      ensures storage.Valid()
      ensures var r := AfterResponse(old(storage.events), eventId, user, response);
        if r.Thrown? || storage.full || !HasGuests(old(storage.events), eventId) then storage.events == old(storage.events) && invitations == old(invitations) && loading == old(loading)
        else
          var c := Collect(storage.events.keys, storage.events.records, user);
          storage.events == r.value && invitations == (if c.Ok? then c.value else old(invitations)) && !loading
    {
      var allEvents := storage.events;
      if !HasGuests(allEvents, eventId) {
        return;
      }
      var event := allEvents.records[eventId];
      var guests := event["guests"];
      if !guests.JArr? {
        return;
      }
      var updated := Responded(guests.items, user, response);
      if updated.Thrown? {
        return;
      }
      allEvents := Put(allEvents, eventId, event["guests" := JArr(updated.value)]);
      if storage.full {
        return;
      }
      storage.events := allEvents;
      LoadInvitations();
    }
  }

  /** Once one prefix throws, every longer one does. */
  lemma {:induction false} CollectThrows(keys: seq<string>, records: map<string, Record>, user: Value, n: nat)
    requires forall k :: k in keys ==> k in records
    requires n <= |keys| && Collect(keys[..n], records, user).Thrown?
    ensures Collect(keys, records, user).Thrown?
    decreases |keys| - n
  {
    if n < |keys| {
      assert keys[..n + 1][..n] == keys[..n];
      CollectThrows(keys, records, user, n + 1);
    } else {
      assert keys[..n] == keys;
    }
  }
}
