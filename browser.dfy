/** The browser's `localStorage`, holding the client's keys as the values they parse to. */
module Browser {
  import opened Wrappers
  import opened JsValues
  import opened Collections

  /** `navigator.userAgent` and `navigator.platform`. */
  datatype Device = Device(userAgent: string, platform: string)

  class LocalStorage {
    /** The quota is exhausted: every `setItem` throws and stores nothing. */
    const full: bool
    /** `birthdayAppSyncData`; absent is `None`. */
    var syncData: Option<Json>
    /** `birthdayAppLastSync` */
    var lastSync: Option<string>
    /** `birthdayAppGlobalSync`, which reads as `{}` while absent. */
    var globalSync: Record
    /** `birthdayAppEvents`, which reads as `{}` while absent. */
    var events: Collection
    /** `birthdayAppUsers`, which reads as `[]` while absent. */
    var users: seq<Record>
    /** `birthdayAppCurrentUser` */
    var currentUser: Option<Record>
    /** `birthdayAppData_<id>`, one entry per user id. */
    var userData: map<string, Record>

    ghost predicate Valid()
      reads this
    {
      Collections.Wf(events)
    }

    /** A fresh profile: no key is set. */
    constructor (full: bool)
      ensures Valid() && this.full == full
      ensures syncData == None && lastSync == None && globalSync == map[] && events == EmptyCollection
      ensures users == [] && currentUser == None && userData == map[]
    {
      this.full := full;
      syncData := None;
      lastSync := None;
      globalSync := map[];
      events := EmptyCollection;
      users := [];
      currentUser := None;
      userData := map[];
      EmptyWf();
    }
  }
}
