/**
 * The cross-device sync service: one sync record per device under `birthdayAppSyncData`, the time of
 * the last sync under `birthdayAppLastSync`, and a per-user map under `birthdayAppGlobalSync`.
 * `now` stands for `new Date().toISOString()` and `clock` for `Date.now()`.
 */
module SyncService {
  import opened Wrappers
  import opened JsValues
  import opened Browser

  /** `{userId, data, timestamp, version}` as `JSON.stringify` stores it. */
  function SyncRecord(userId: Value, data: Value, now: string, clock: int): (r: Record)
    ensures Field(r, "userId") == userId && Field(r, "data") == data
    ensures Field(r, "timestamp") == Some(JStr(now)) && Field(r, "version") == Some(JNum(clock))
    ensures r.Keys <= {"userId", "data", "timestamp", "version"}
  {
    Serialized(map["userId" := userId, "data" := data, "timestamp" := Some(JStr(now)), "version" := Some(JNum(clock))])
  }

  /** `globalData[userId]` after an update: `{data, timestamp, version}`. */
  function GlobalEntry(data: Value, now: string, clock: int): Json {
    JObj(Serialized(map["data" := data, "timestamp" := Some(JStr(now)), "version" := Some(JNum(clock))]))
  }

  /**
   * `loadData(userId)`: the stored `data` when the stored `userId` is `userId`; `null` when nothing
   * is stored, the ids differ, or the stored value is `null` (reading its `userId` throws).
   */
  function LoadResult(stored: Option<Json>, userId: Value): Value {
    match stored
    case None => Some(JNull)
    case Some(parsed) =>
      if parsed == JNull then Some(JNull)
      else if StrictEq(Member(parsed, "userId"), userId) then Member(parsed, "data")
      else Some(JNull)
  }

  /** Whether the stored record belongs to `userId`. */
  predicate OwnedRecord(stored: Option<Json>, userId: Value) {
    stored.Some? && stored.value != JNull && StrictEq(Member(stored.value, "userId"), userId)
  }

  /** `exportData(userId)`: the stored record with `exportDate` and `deviceInfo` added, or `null`. */
  function ExportResult(stored: Option<Json>, userId: Value, now: string, device: Device): (r: Json)
    ensures !OwnedRecord(stored, userId) ==> r == JNull
    ensures OwnedRecord(stored, userId) ==> r.JObj?
    ensures OwnedRecord(stored, userId) ==>
              && Field(r.fields, "exportDate") == Some(JStr(now))
              && Field(r.fields, "deviceInfo") == Some(JObj(map["userAgent" := JStr(device.userAgent), "platform" := JStr(device.platform)]))
              && forall k :: k != "exportDate" && k != "deviceInfo" ==> Field(r.fields, k) == Field(Spread(stored), k)
  {
    if OwnedRecord(stored, userId) then
      JObj(Spread(stored)["exportDate" := JStr(now)]
                         ["deviceInfo" := JObj(map["userAgent" := JStr(device.userAgent), "platform" := JStr(device.platform)])])
    else JNull
  }

  /** `!importedData || !importedData.userId || !importedData.data` throws `Invalid import data`. */
  predicate ValidImport(imported: Value) {
    Truthy(imported) && Truthy(Member(imported.value, "userId")) && Truthy(Member(imported.value, "data"))
  }

  /** The number `a > b` converts a value to, where the model knows it: numbers, `null` as 0, booleans as 0 and 1. */
  function NumericValue(v: Value): Option<int> {
    match v
    case Some(JNum(n)) => Some(n)
    case Some(JNull) => Some(0)
    case Some(JBool(b)) => Some(if b then 1 else 0)
    case _ => None
  }

  /** `a > b`; a comparison with `NaN`, which is what `undefined` converts to, is false. */
  predicate Greater(a: Value, b: Value) {
    NumericValue(a).Some? && NumericValue(b).Some? && NumericValue(a).value > NumericValue(b).value
  }

  /**
   * Whether `importData` goes on to store: the input is valid, and either nothing is stored, or the
   * stored version is not newer, or the user confirmed the replacement. A stored `null` makes
   * `current.version` throw, so the import fails.
   */
  predicate ImportProceeds(current: Option<Json>, imported: Value, confirmed: bool) {
    && ValidImport(imported)
    && (current.Some? ==>
          current.value != JNull &&
          (Greater(Member(current.value, "version"), Member(imported.value, "version")) ==> confirmed))
  }

  /** `{...importedData, timestamp, version, importedFrom}` */
  function ImportedRecord(imported: Json, now: string, clock: int): (r: Record)
    ensures Field(r, "timestamp") == Some(JStr(now)) && Field(r, "version") == Some(JNum(clock))
    ensures Field(r, "importedFrom") == Or(OptionalProp(Member(imported, "deviceInfo"), "platform"), Some(JStr("Unknown device")))
    ensures forall k :: k !in {"timestamp", "version", "importedFrom"} ==> Field(r, k) == Field(Spread(Some(imported)), k)
  {
    var from := Or(OptionalProp(Member(imported, "deviceInfo"), "platform"), Some(JStr("Unknown device")));
    Spread(Some(imported))["timestamp" := JStr(now)]["version" := JNum(clock)]["importedFrom" := from.value]
  }

  /** `getLastSyncInfo()`: all four fields may be `undefined`; `lastSync` is `null` when that key is unset. */
  datatype SyncInfo = SyncInfo(lastSync: Value, version: Value, timestamp: Value, importedFrom: Value)

  class DataSyncService {
    const storage: LocalStorage

    constructor (storage: LocalStorage)
      ensures this.storage == storage
    {
      this.storage := storage;
    }

    /**
     * `saveData`: store the sync record and the sync time, then update the user's global entry;
     * `false`, with nothing stored, when storage refuses the write.
     */
    method SaveData(userId: Value, data: Value, now: string, clock: int) returns (ok: bool)
      modifies storage`syncData, storage`lastSync, storage`globalSync
      ensures ok == !storage.full
      ensures ok ==> && storage.syncData == Some(JObj(SyncRecord(userId, data, now, clock)))
                     && storage.lastSync == Some(now)
                     && storage.globalSync == old(storage.globalSync)[ValueString(userId) := GlobalEntry(data, now, clock)]
      ensures !ok ==> unchanged(storage)
    {
      if storage.full {
        return false;
      }
      storage.syncData := Some(JObj(SyncRecord(userId, data, now, clock)));
      storage.lastSync := Some(now);
      UpdateGlobalStorage(userId, data, now, clock);
      return true;
    }

    /** `updateGlobalStorage`: only the entry under `String(userId)` changes; a refused write is swallowed. */
    method UpdateGlobalStorage(userId: Value, data: Value, now: string, clock: int)
      modifies storage`globalSync
      ensures storage.full ==> storage.globalSync == old(storage.globalSync)
      ensures !storage.full ==> storage.globalSync == old(storage.globalSync)[ValueString(userId) := GlobalEntry(data, now, clock)]
    {
      if !storage.full {
        var globalData := storage.globalSync;
        globalData := globalData[ValueString(userId) := GlobalEntry(data, now, clock)];
        storage.globalSync := globalData;
      }
    }

    method LoadData(userId: Value) returns (r: Value)
      ensures r == LoadResult(storage.syncData, userId)
    {
      var stored := storage.syncData;
      if stored.None? || stored.value == JNull {
        return Some(JNull);
      }
      if StrictEq(Member(stored.value, "userId"), userId) {
        return Member(stored.value, "data");
      }
      return Some(JNull);
    }

    method ExportData(userId: Value, now: string, device: Device) returns (r: Json)
      ensures r == ExportResult(storage.syncData, userId, now, device)
    {
      var stored := storage.syncData;
      if stored.Some? && stored.value != JNull && StrictEq(Member(stored.value, "userId"), userId) {
        var deviceInfo := map["userAgent" := JStr(device.userAgent), "platform" := JStr(device.platform)];
        r := JObj(Spread(stored)["exportDate" := JStr(now)]["deviceInfo" := JObj(deviceInfo)]);
      } else {
        r := JNull;
      }
    }

    /**
     * `importData`: `confirmed` is the answer the user would give to the replace-newer-data prompt.
     * On success the record and the sync time are stored; otherwise storage is left as it was.
     */
    method ImportData(imported: Value, confirmed: bool, now: string, clock: int) returns (ok: bool)
      modifies storage`syncData, storage`lastSync
      ensures ok == (ImportProceeds(old(storage.syncData), imported, confirmed) && !storage.full)
      ensures ok ==> storage.syncData == Some(JObj(ImportedRecord(imported.value, now, clock))) && storage.lastSync == Some(now)
      ensures !ok ==> unchanged(storage)
    {
      if !Truthy(imported) || !Truthy(Member(imported.value, "userId")) || !Truthy(Member(imported.value, "data")) {
        return false;
      }
      var current := storage.syncData;
      if current.Some? {
        if current.value == JNull {
          return false;
        }
        if Greater(Member(current.value, "version"), Member(imported.value, "version")) && !confirmed {
          return false;
        }
      }
      if storage.full {
        return false;
      }
      storage.syncData := Some(JObj(ImportedRecord(imported.value, now, clock)));
      storage.lastSync := Some(now);
      return true;
    }

    method GetLastSyncInfo() returns (r: Option<SyncInfo>)
      ensures storage.syncData.None? || storage.syncData == Some(JNull) ==> r.None?
      ensures storage.syncData.Some? && storage.syncData != Some(JNull) ==>
                var parsed := storage.syncData.value;
                r == Some(SyncInfo(if storage.lastSync.Some? then Some(JStr(storage.lastSync.value)) else Some(JNull),
                                   Member(parsed, "version"), Member(parsed, "timestamp"), Member(parsed, "importedFrom")))
    {
      var lastSync := if storage.lastSync.Some? then Some(JStr(storage.lastSync.value)) else Some(JNull);
      var stored := storage.syncData;
      if stored.None? || stored.value == JNull {
        return None;
      }
      var parsed := stored.value;
      r := Some(SyncInfo(lastSync, Member(parsed, "version"), Member(parsed, "timestamp"), Member(parsed, "importedFrom")));
    }
  }

  /**
   * What `saveData` stores, `loadData` gives back to the same user, provided the id is a primitive
   * (an object id is never `===` to itself across a parse); any other primitive id gets `null`.
   */
  lemma SaveThenLoad(userId: Value, data: Value, now: string, clock: int, other: Value)
    requires userId.None? || IsPrimitive(userId.value)
    ensures LoadResult(Some(JObj(SyncRecord(userId, data, now, clock))), userId) == data
    ensures other != userId ==> LoadResult(Some(JObj(SyncRecord(userId, data, now, clock))), other) == Some(JNull)
  {
  }

  /**
   * Exporting the stored record on one device and importing it on a device with no sync record
   * succeeds, after which the second device loads the same data for the same user and records
   * where it came from.
   */
  lemma ExportThenImport(stored: Json, userId: Json, now: string, device: Device, later: string, clock: int)
    requires stored.JObj? && Member(stored, "userId") == Some(userId) && IsPrimitive(userId) && Truthy(Some(userId))
    requires Truthy(Member(stored, "data"))
    ensures var exported := ExportResult(Some(stored), Some(userId), now, device);
            var imported := ImportedRecord(exported, later, clock);
      && ImportProceeds(None, Some(exported), false)
      && LoadResult(Some(JObj(imported)), Some(userId)) == LoadResult(Some(stored), Some(userId))
      && Field(imported, "importedFrom") == Some(JStr(if device.platform == "" then "Unknown device" else device.platform))
  {
    var exported := ExportResult(Some(stored), Some(userId), now, device);
    assert Member(exported, "userId") == Some(userId);
    assert Member(exported, "data") == Member(stored, "data");
    assert Member(exported, "deviceInfo") == Some(JObj(map["userAgent" := JStr(device.userAgent), "platform" := JStr(device.platform)]));
  }

  /**
   * An invalid input never stores; nor does an input older than what is stored unless the user
   * confirms; an input with no version at all, or an equal or newer one, always proceeds.
   */
  lemma ImportGuards(current: Option<Json>, imported: Value, confirmed: bool)
    ensures !ValidImport(imported) ==> !ImportProceeds(current, imported, confirmed)
    ensures ValidImport(imported) && current.Some? && current.value != JNull &&
            Greater(Member(current.value, "version"), Member(imported.value, "version")) ==>
              (ImportProceeds(current, imported, confirmed) <==> confirmed)
    ensures ValidImport(imported) && current.Some? && current.value != JNull &&
            NumericValue(Member(imported.value, "version")).None? ==>
              ImportProceeds(current, imported, confirmed)
  {
  }
}
