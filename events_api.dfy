/**
 * The serverless `/api/events` function over the table backend: GET by `eventId` or by `userId`,
 * POST `{eventId, eventData}`, DELETE by `eventId`.
 */
module EventsApi {
  import opened Wrappers
  import opened JsValues
  import opened Collections
  import opened RecordStore
  import opened Http
  import opened TableBackend

  /** The response the function sends, and the tables after it. */
  function Respond(t: Tables, f: Faults, req: Request, now: string): (Response, Tables) {
    match req.verb
    case OPTIONS => (Preflight, t)
    case GET =>
      var eventId := QueryString(req, "eventId");
      var userId := QueryString(req, "userId");
      if eventId.Some? then (Send(200, Lookup(ReadSnapshot(t, f).events, eventId.value)), t)
      else if userId.Some? then (Send(200, JArr(OwnerListing(ReadSnapshot(t, f).events, userId.value))), t)
      else (Send(400, ErrorJson("eventId or userId is required")), t)
    case POST =>
      // `const { eventId, eventData } = req.body` throws on a missing or null body
      (match (Prop(req.body, "eventId"), Prop(req.body, "eventData"))
      case (Ok(eventId), Ok(eventData)) =>
        if !Truthy(eventId) || !Truthy(eventData) then
          (Send(400, ErrorJson("eventId and eventData are required")), t)
        else
          var saved := SaveEvent(ReadSnapshot(t, f), ValueString(eventId), eventData, now);
          var (ok, t') := WriteOutcome(t, f, saved);
          (if ok then Send(200, SuccessJson) else Send(500, ErrorJson("Failed to save event")), t')
      case _ => (Send(500, ErrorJson("Internal server error")), t))
    case DELETE =>
      var eventId := QueryString(req, "eventId");
      if eventId.None? then (Send(400, ErrorJson("eventId is required")), t)
      else
        var (ok, t') := WriteOutcome(t, f, DropEvent(ReadSnapshot(t, f), eventId.value));
        (if ok then Send(200, SuccessJson) else Send(500, ErrorJson("Failed to delete event")), t')
    case _ => (Send(405, ErrorJson("Method not allowed")), t)
  }

  /** The function as written, step by step against the database. */
  method Handle(db: Database, req: Request, now: string) returns (res: Response)
    requires db.Valid()
    modifies db`tables
    ensures db.Valid()
    ensures (res, db.tables) == Respond(old(db.tables), db.faults, req, now)
  {
    if req.verb == OPTIONS {
      return Preflight;
    }
    if req.verb == GET {
      var eventId := QueryString(req, "eventId");
      var userId := QueryString(req, "userId");
      if eventId.Some? {
        var data := db.ReadData();
        res := Send(200, Lookup(data.events, eventId.value));
      } else if userId.Some? {
        var data := db.ReadData();
        res := Send(200, JArr(OwnerListing(data.events, userId.value)));
      } else {
        res := Send(400, ErrorJson("eventId or userId is required"));
      }
    } else if req.verb == POST {
      var eventId := Prop(req.body, "eventId");
      var eventData := Prop(req.body, "eventData");
      if eventId.Thrown? || eventData.Thrown? {
        return Send(500, ErrorJson("Internal server error"));
      }
      if !Truthy(eventId.value) || !Truthy(eventData.value) {
        return Send(400, ErrorJson("eventId and eventData are required"));
      }
      var data := db.ReadData();
      data := SaveEvent(data, ValueString(eventId.value), eventData.value, now);
      var ok := db.WriteData(data);
      res := if ok then Send(200, SuccessJson) else Send(500, ErrorJson("Failed to save event"));
    } else if req.verb == DELETE {
      var eventId := QueryString(req, "eventId");
      if eventId.None? {
        return Send(400, ErrorJson("eventId is required"));
      }
      var data := db.ReadData();
      data := DropEvent(data, eventId.value);
      var ok := db.WriteData(data);
      res := if ok then Send(200, SuccessJson) else Send(500, ErrorJson("Failed to delete event"));
    } else {
      res := Send(405, ErrorJson("Method not allowed"));
    }
  }

  /** Every response, the preflight included, carries the three CORS headers. */
  lemma EveryResponseHasCors(t: Tables, f: Faults, req: Request, now: string)
    ensures Respond(t, f, req, now).0.headers == ApiHeaders
  {
    if req.verb == POST {
      match (Prop(req.body, "eventId"), Prop(req.body, "eventData"))
      case (Ok(eventId), Ok(eventData)) =>
        if Truthy(eventId) && Truthy(eventData) {
          var saved := SaveEvent(ReadSnapshot(t, f), ValueString(eventId), eventData, now);
          var (ok, t') := WriteOutcome(t, f, saved);
          assert Respond(t, f, req, now).0 == if ok then Send(200, SuccessJson) else Send(500, ErrorJson("Failed to save event"));
        }
      case _ =>
    } else if req.verb == DELETE && QueryString(req, "eventId").Some? {
      var (ok, t') := WriteOutcome(t, f, DropEvent(ReadSnapshot(t, f), QueryString(req, "eventId").value));
      assert Respond(t, f, req, now).0 == if ok then Send(200, SuccessJson) else Send(500, ErrorJson("Failed to delete event"));
    }
  }

  /** A preflight answers 200 with no body and leaves the tables alone. */
  lemma PreflightTouchesNothing(t: Tables, f: Faults, req: Request, now: string)
    requires req.verb == OPTIONS
    ensures Respond(t, f, req, now) == (Response(200, ApiHeaders, NoBody), t)
  {
  }

  /**
   * A GET never writes. With an `eventId` it answers that event's row data or `null`, whatever
   * `userId` says; with only a `userId` it answers the owner listing; with neither it answers 400.
   * A failed table query still answers 200: `null` for an id and `[]` for a listing.
   */
  lemma GetAnswers(t: Tables, f: Faults, req: Request, now: string, id: string)
    requires UniqueIds(t.users) && UniqueIds(t.events)
    requires req.verb == GET
    ensures Respond(t, f, req, now).1 == t
    ensures (f.usersQueryFails || f.eventsQueryFails) && QueryString(req, "eventId") == Some(id) ==>
              Respond(t, f, req, now).0 == Send(200, JNull)
    ensures (f.usersQueryFails || f.eventsQueryFails) && QueryString(req, "eventId").None? &&
            QueryString(req, "userId") == Some(id) ==>
              Respond(t, f, req, now).0 == Send(200, JArr([]))
    ensures !f.usersQueryFails && !f.eventsQueryFails && QueryString(req, "eventId") == Some(id) ==>
              Respond(t, f, req, now).0 ==
                Send(200, if RowData(t.events, id).Some? then JObj(RowData(t.events, id).value) else JNull)
    ensures QueryString(req, "eventId").None? && QueryString(req, "userId") == Some(id) ==>
              Respond(t, f, req, now).0 == Send(200, JArr(OwnerListing(ReadSnapshot(t, f).events, id)))
    ensures Respond(t, f, req, now).0 == Send(400, ErrorJson("eventId or userId is required")) <==>
              QueryString(req, "eventId").None? && QueryString(req, "userId").None?
  {
    ReadSnapshotExact(t, f, id);
    if QueryString(req, "eventId").Some? || QueryString(req, "userId").Some? {
      assert Respond(t, f, req, now).0.status == 200;
    }
  }

  /**
   * A POST without a body, or with a `null` one, throws while destructuring and answers 500; a body
   * whose `eventId` or `eventData` is falsy answers 400. Neither touches the tables.
   */
  lemma PostGuards(t: Tables, f: Faults, req: Request, now: string)
    requires req.verb == POST
    ensures req.body.None? || req.body == Some(JNull) ==>
              Respond(t, f, req, now) == (Send(500, ErrorJson("Internal server error")), t)
    ensures req.body.Some? && req.body.value.JObj? &&
            (!Truthy(Field(req.body.value.fields, "eventId")) || !Truthy(Field(req.body.value.fields, "eventData"))) ==>
              Respond(t, f, req, now) == (Send(400, ErrorJson("eventId and eventData are required")), t)
  {
  }

  /** A DELETE without an `eventId` answers 400 and touches nothing. */
  lemma DeleteGuard(t: Tables, f: Faults, req: Request, now: string)
    requires req.verb == DELETE && QueryString(req, "eventId").None?
    ensures Respond(t, f, req, now) == (Send(400, ErrorJson("eventId is required")), t)
  {
  }

  /** PUT and every method other than GET, POST, DELETE and the preflight answer 405 and change nothing. */
  lemma OtherMethodsRefused(t: Tables, f: Faults, req: Request, now: string)
    requires req.verb != GET && req.verb != POST && req.verb != DELETE && req.verb != OPTIONS
    ensures Respond(t, f, req, now) == (Send(405, ErrorJson("Method not allowed")), t)
  {
  }

  /**
   * A POST of `{eventId, eventData}` either answers 500 `Failed to save event`, exactly when the
   * service refuses an upsert of the snapshot it writes back, or succeeds; after a success, a read finds the stamped `eventData` under `String(eventId)` and every other event as
   * it was read before.
   */
  lemma PostStoresEvent(t: Tables, f: Faults, req: Request, now: string, m: Record, k: string)
    requires UniqueIds(t.users) && UniqueIds(t.events)
    requires !f.usersQueryFails && !f.eventsQueryFails
    requires req.verb == POST && req.body == Some(JObj(m))
    requires Truthy(Field(m, "eventId")) && Truthy(Field(m, "eventData"))
    ensures var (res, t') := Respond(t, f, req, now);
            var key := ValueString(Field(m, "eventId"));
            var saved := SaveEvent(ReadSnapshot(t, f), key, Field(m, "eventData"), now);
      && (res == Send(200, SuccessJson) || res == Send(500, ErrorJson("Failed to save event")))
      && (res.status == 200 <==> (forall u :: u in saved.users.keys ==> (UsersTable, u) !in f.rejected) &&
                                 (forall e :: e in saved.events.keys ==> (EventsTable, e) !in f.rejected))
      && (res.status == 200 ==> Get(ReadSnapshot(t', f).events, key) == Some(Stamped(Field(m, "eventData"), now)))
      && (res.status == 200 && k != key ==> Get(ReadSnapshot(t', f).events, k) == Get(ReadSnapshot(t, f).events, k))
  {
    var key := ValueString(Field(m, "eventId"));
    var saved := SaveEvent(ReadSnapshot(t, f), key, Field(m, "eventData"), now);
    var (ok, t') := WriteOutcome(t, f, saved);
    assert Respond(t, f, req, now) == (if ok then Send(200, SuccessJson) else Send(500, ErrorJson("Failed to save event")), t');
    WriteOutcomeExact(t, f, saved, k);
    WriteOutcomeExact(t, f, saved, key);
    ReadSnapshotExact(t, f, k);
    ReadSnapshotExact(t', f, k);
    ReadSnapshotExact(t', f, key);
  }

  /**
   * As written, a DELETE never removes the row: the snapshot it writes back lacks the event, but
   * `writeData` only upserts, so the row stays. With no refusal it answers
   * `{success: true}`, and a GET afterwards still finds the event.
   */
  lemma DeleteLeavesEvent(t: Tables, f: Faults, req: Request, now: string, id: string)
    requires UniqueIds(t.users) && UniqueIds(t.events)
    requires !f.usersQueryFails && !f.eventsQueryFails
    requires req.verb == DELETE && QueryString(req, "eventId") == Some(id)
    ensures var (res, t') := Respond(t, f, req, now);
      && (f.rejected == {} ==> res == Send(200, SuccessJson))
      && Lookup(ReadSnapshot(t', f).events, id) == Lookup(ReadSnapshot(t, f).events, id)
  {
    var dropped := DropEvent(ReadSnapshot(t, f), id);
    var (ok, t') := WriteOutcome(t, f, dropped);
    WriteOutcomeExact(t, f, dropped, id);
    ReadSnapshotExact(t, f, id);
    ReadSnapshotExact(t', f, id);
  }

  /** The corrected function: a DELETE with an id deletes that row instead of rewriting the snapshot. */
  function RespondFixed(t: Tables, f: Faults, req: Request, now: string): (Response, Tables) {
    var eventId := QueryString(req, "eventId");
    if req.verb == DELETE && eventId.Some? then
      if (EventsTable, eventId.value) in f.rejected then (Send(500, ErrorJson("Failed to delete event")), t)
      else (Send(200, SuccessJson), t.(events := DeleteRow(t.events, eventId.value)))
    else Respond(t, f, req, now)
  }

  method HandleFixed(db: Database, req: Request, now: string) returns (res: Response)
    requires db.Valid()
    modifies db`tables
    ensures db.Valid()
    ensures (res, db.tables) == RespondFixed(old(db.tables), db.faults, req, now)
  {
    var eventId := QueryString(req, "eventId");
    if req.verb == DELETE && eventId.Some? {
      var ok := db.Delete(EventsTable, eventId.value);
      res := if ok then Send(200, SuccessJson) else Send(500, ErrorJson("Failed to delete event"));
    } else {
      res := Handle(db, req, now);
    }
  }

  /**
   * With the correction, a DELETE that succeeds removes the event: a GET afterwards answers `null`,
   * and every other event and every user reads as before.
   */
  lemma FixedDeleteRemovesEvent(t: Tables, f: Faults, req: Request, now: string, id: string, k: string)
    requires UniqueIds(t.users) && UniqueIds(t.events)
    requires !f.usersQueryFails && !f.eventsQueryFails
    requires req.verb == DELETE && QueryString(req, "eventId") == Some(id)
    ensures var (res, t') := RespondFixed(t, f, req, now);
      && (res == Send(200, SuccessJson) <==> (EventsTable, id) !in f.rejected)
      && (res.status == 200 ==> Lookup(ReadSnapshot(t', f).events, id) == JNull)
      && (k != id ==> Lookup(ReadSnapshot(t', f).events, k) == Lookup(ReadSnapshot(t, f).events, k))
      && ReadSnapshot(t', f).users == ReadSnapshot(t, f).users
  {
    var (res, t') := RespondFixed(t, f, req, now);
    DeleteRowData(t.events, id, id);
    DeleteRowData(t.events, id, k);
    ReadSnapshotExact(t, f, id);
    ReadSnapshotExact(t, f, k);
    ReadSnapshotExact(t', f, id);
    ReadSnapshotExact(t', f, k);
  }
}
