/** The serverless `/api/users` function over the table backend: GET by `userId`, POST `{userId, userData}`. */
module UsersApi {
  import opened Wrappers
  import opened JsValues
  import opened Collections
  import opened RecordStore
  import opened Http
  import opened TableBackend

  /** The response the function sends, and the tables after it. */
  function Respond(t: Tables, f: Faults, req: Request, now: string): (Response, Tables) {
    match req.verb
    case OPTIONS => (Preflight, t)
    case GET =>
      var userId := QueryString(req, "userId");
      if userId.None? then (Send(400, ErrorJson("userId is required")), t)
      else (Send(200, Lookup(ReadSnapshot(t, f).users, userId.value)), t)
    case POST =>
      // `const { userId, userData } = req.body` throws on a missing or null body
      (match (Prop(req.body, "userId"), Prop(req.body, "userData"))
      case (Ok(userId), Ok(userData)) =>
        if !Truthy(userId) || !Truthy(userData) then
          (Send(400, ErrorJson("userId and userData are required")), t)
        else
          var saved := SaveUser(ReadSnapshot(t, f), ValueString(userId), userData, now);
          var (ok, t') := WriteOutcome(t, f, saved);
          (if ok then Send(200, SuccessJson) else Send(500, ErrorJson("Failed to save data")), t')
      case _ => (Send(500, ErrorJson("Internal server error")), t))
    case _ => (Send(405, ErrorJson("Method not allowed")), t)
  }

  /** The function as written, step by step against the database. */
  method Handle(db: Database, req: Request, now: string) returns (res: Response)
    requires db.Valid()
    modifies db`tables
    ensures db.Valid()
    ensures (res, db.tables) == Respond(old(db.tables), db.faults, req, now)
  {
    if req.verb == OPTIONS {
      return Preflight;
    }
    if req.verb == GET {
      var userId := QueryString(req, "userId");
      if userId.None? {
        return Send(400, ErrorJson("userId is required"));
      }
      var data := db.ReadData();
      res := Send(200, Lookup(data.users, userId.value));
    } else if req.verb == POST {
      var userId := Prop(req.body, "userId");
      var userData := Prop(req.body, "userData");
      if userId.Thrown? || userData.Thrown? {
        return Send(500, ErrorJson("Internal server error"));
      }
      if !Truthy(userId.value) || !Truthy(userData.value) {
        return Send(400, ErrorJson("userId and userData are required"));
      }
      var data := db.ReadData();
      data := SaveUser(data, ValueString(userId.value), userData.value, now);
      var ok := db.WriteData(data);
      res := if ok then Send(200, SuccessJson) else Send(500, ErrorJson("Failed to save data"));
    } else {
      res := Send(405, ErrorJson("Method not allowed"));
    }
  }

  /**
   * A POST without a body, or with a `null` one, throws while destructuring and answers 500; a body
   * whose `userId` or `userData` is falsy answers 400. Neither touches the tables.
   */
  lemma PostGuards(t: Tables, f: Faults, req: Request, now: string)
    requires req.verb == POST
    ensures req.body.None? || req.body == Some(JNull) ==>
              Respond(t, f, req, now) == (Send(500, ErrorJson("Internal server error")), t)
    ensures req.body.Some? && req.body.value.JObj? &&
            (!Truthy(Field(req.body.value.fields, "userId")) || !Truthy(Field(req.body.value.fields, "userData"))) ==>
              Respond(t, f, req, now) == (Send(400, ErrorJson("userId and userData are required")), t)
  {
  }

  /** Only GET, POST and the preflight are served; DELETE and PUT answer 405 and change nothing. */
  lemma OtherMethodsRefused(t: Tables, f: Faults, req: Request, now: string)
    requires req.verb != GET && req.verb != POST && req.verb != OPTIONS
    ensures Respond(t, f, req, now) == (Send(405, ErrorJson("Method not allowed")), t)
  {
  }

  /**
   * A POST of `{userId, userData}` either answers 500 `Failed to save data`, exactly when the
   * service refuses an upsert of the snapshot it writes back, or succeeds; after a success, a read finds the stamped `userData` under `String(userId)`, every other user as it was
   * read before, and every event as before.
   */
  lemma PostStoresUser(t: Tables, f: Faults, req: Request, now: string, m: Record, k: string)
    requires UniqueIds(t.users) && UniqueIds(t.events)
    requires !f.usersQueryFails && !f.eventsQueryFails
    requires req.verb == POST && req.body == Some(JObj(m))
    requires Truthy(Field(m, "userId")) && Truthy(Field(m, "userData"))
    ensures var (res, t') := Respond(t, f, req, now);
            var key := ValueString(Field(m, "userId"));
            var saved := SaveUser(ReadSnapshot(t, f), key, Field(m, "userData"), now);
      && (res == Send(200, SuccessJson) || res == Send(500, ErrorJson("Failed to save data")))
      && (res.status == 200 <==> (forall u :: u in saved.users.keys ==> (UsersTable, u) !in f.rejected) &&
                                 (forall e :: e in saved.events.keys ==> (EventsTable, e) !in f.rejected))
      && (res.status == 200 ==> Get(ReadSnapshot(t', f).users, key) == Some(Stamped(Field(m, "userData"), now)))
      && (res.status == 200 && k != key ==> Get(ReadSnapshot(t', f).users, k) == Get(ReadSnapshot(t, f).users, k))
      && (res.status == 200 ==> Get(ReadSnapshot(t', f).events, k) == Get(ReadSnapshot(t, f).events, k))
  {
    var key := ValueString(Field(m, "userId"));
    var saved := SaveUser(ReadSnapshot(t, f), key, Field(m, "userData"), now);
    var (ok, t') := WriteOutcome(t, f, saved);
    assert Respond(t, f, req, now) == (if ok then Send(200, SuccessJson) else Send(500, ErrorJson("Failed to save data")), t');
    WriteOutcomeExact(t, f, saved, k);
    WriteOutcomeExact(t, f, saved, key);
    ReadSnapshotExact(t, f, k);
    ReadSnapshotExact(t', f, k);
    ReadSnapshotExact(t', f, key);
  }

  /**
   * A GET for a present `userId` answers that user's row data, and `null` when no row has that id
   * or when a table query fails.
   */
  lemma GetAnswersRow(t: Tables, f: Faults, req: Request, now: string, id: string)
    requires UniqueIds(t.users) && UniqueIds(t.events)
    requires req.verb == GET && QueryString(req, "userId") == Some(id)
    ensures f.usersQueryFails || f.eventsQueryFails ==> Respond(t, f, req, now).0 == Send(200, JNull)
    ensures !f.usersQueryFails && !f.eventsQueryFails && RowData(t.users, id).Some? ==>
              Respond(t, f, req, now).0 == Send(200, JObj(RowData(t.users, id).value))
    ensures !f.usersQueryFails && !f.eventsQueryFails && RowData(t.users, id).None? ==>
              Respond(t, f, req, now).0 == Send(200, JNull)
  {
    ReadSnapshotExact(t, f, id);
  }

  /** A preflight answers 200 with no body and leaves the tables alone. */
  lemma PreflightTouchesNothing(t: Tables, f: Faults, req: Request, now: string)
    requires req.verb == OPTIONS
    ensures Respond(t, f, req, now) == (Response(200, ApiHeaders, NoBody), t)
  {
  }

  /** A GET reads without writing, and always names the user it was asked for or is refused with 400. */
  lemma GetReadsOnly(t: Tables, f: Faults, req: Request, now: string)
    requires req.verb == GET
    ensures Respond(t, f, req, now).1 == t
    ensures QueryString(req, "userId").None? <==> Respond(t, f, req, now).0 == Send(400, ErrorJson("userId is required"))
  {
    if QueryString(req, "userId").Some? {
      assert Respond(t, f, req, now).0.status == 200;
    }
  }
}
