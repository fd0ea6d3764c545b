/**
 * The Express development server's record routes over the data file. Each handler reads the whole
 * document, changes one record and writes the whole document back.
 */
module ExpressServer {
  import opened Wrappers
  import opened JsValues
  import opened Collections
  import opened RecordStore
  import opened Http
  import opened FileBackend

  /** `cors()` with its defaults adds this header to every response. */
  const CorsHeaders: map<string, string> := map["Access-Control-Allow-Origin" := "*"]

  /** `res.json(value)` */
  function Ok(value: Json): Response {
    Response(200, CorsHeaders, JsonBody(value))
  }

  /** `res.status(500).json({error: message})` */
  function Failure(message: string): Response {
    Response(500, CorsHeaders, JsonBody(ErrorJson(message)))
  }

  /** `GET /api/user/:userId`: the stored record, or `null` when there is none. */
  method GetUser(file: DataFile, userId: string) returns (res: Response)
    requires file.Valid()
    ensures res == Ok(Lookup(Loaded(file.state).users, userId))
  {
    var data := file.ReadData();
    res := Ok(Lookup(data.users, userId));
  }

  /**
   * `POST /api/user/:userId`: store the body, stamped with the current time, under the user id, and
   * answer `{success: true}`; a failed write answers 500 and leaves the file as it was.
   */
  method PostUser(file: DataFile, userId: string, body: Json, now: string) returns (res: Response)
    requires file.Valid()
    modifies file`state
    ensures file.Valid()
    ensures !file.writeFails ==>
              file.state == Holds(SaveUser(Loaded(old(file.state)), userId, Some(body), now)) && res == Ok(SuccessJson)
    ensures file.writeFails ==> file.state == old(file.state) && res == Failure("Failed to save data")
  {
    var data := file.ReadData();
    data := SaveUser(data, userId, Some(body), now);
    var ok := file.WriteData(data);
    if ok {
      res := Ok(SuccessJson);
    } else {
      res := Failure("Failed to save data");
    }
  }

  /** `GET /api/event/:eventId`: the stored record, or `null` when there is none. */
  method GetEvent(file: DataFile, eventId: string) returns (res: Response)
    requires file.Valid()
    ensures res == Ok(Lookup(Loaded(file.state).events, eventId))
  {
    var data := file.ReadData();
    res := Ok(Lookup(data.events, eventId));
  }

  /** `POST /api/event/:eventId`: as for users, on the events collection. */
  method PostEvent(file: DataFile, eventId: string, body: Json, now: string) returns (res: Response)
    requires file.Valid()
    modifies file`state
    ensures file.Valid()
    ensures !file.writeFails ==>
              file.state == Holds(SaveEvent(Loaded(old(file.state)), eventId, Some(body), now)) && res == Ok(SuccessJson)
    ensures file.writeFails ==> file.state == old(file.state) && res == Failure("Failed to save event")
  {
    var data := file.ReadData();
    data := SaveEvent(data, eventId, Some(body), now);
    var ok := file.WriteData(data);
    if ok {
      res := Ok(SuccessJson);
    } else {
      res := Failure("Failed to save event");
    }
  }

  /** `GET /api/user/:userId/events`: the user's events as `{id, ...event}`, in enumeration order. */
  method ListUserEvents(file: DataFile, userId: string) returns (res: Response)
    requires file.Valid()
    ensures res == Ok(JArr(OwnerListing(Loaded(file.state).events, userId)))
  {
    var data := file.ReadData();
    res := Ok(JArr(OwnerListing(data.events, userId)));
  }

  /**
   * `DELETE /api/event/:eventId`: drop the event and write the document back; deleting an id that is
   * not stored still rewrites the file and answers success.
   */
  method DeleteEvent(file: DataFile, eventId: string) returns (res: Response)
    requires file.Valid()
    modifies file`state
    ensures file.Valid()
    ensures !file.writeFails ==>
              file.state == Holds(DropEvent(Loaded(old(file.state)), eventId)) && res == Ok(SuccessJson)
    ensures file.writeFails ==> file.state == old(file.state) && res == Failure("Failed to delete event")
  {
    var data := file.ReadData();
    data := DropEvent(data, eventId);
    var ok := file.WriteData(data);
    if ok {
      res := Ok(SuccessJson);
    } else {
      res := Failure("Failed to delete event");
    }
  }

  /**
   * Because an unreadable file reads as empty, a successful POST over it writes a document whose only
   * record is the new one: every record the file held is lost.
   */
  lemma PostOverUnreadableFile(userId: string, body: Json, now: string)
    ensures var t := SaveUser(Loaded(Unreadable), userId, Some(body), now);
      t.users.keys == [userId] && t.events == EmptyCollection
  {
    EmptyWf();
  }

  /** On the document the server writes, a GET after a successful POST answers the stamped body. */
  lemma PostThenGet(f: FileState, userId: string, body: Json, now: string)
    requires f.Holds? ==> RecordStore.Wf(f.document)
    ensures Lookup(Loaded(Holds(SaveUser(Loaded(f), userId, Some(body), now))).users, userId) ==
            JObj(Stamped(Some(body), now))
  {
  }

  /** A GET after a successful DELETE answers `null`. */
  lemma DeleteThenGet(f: FileState, eventId: string)
    requires f.Holds? ==> RecordStore.Wf(f.document)
    ensures Lookup(Loaded(Holds(DropEvent(Loaded(f), eventId))).events, eventId) == JNull
  {
  }
}
