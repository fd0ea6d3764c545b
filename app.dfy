/** The root component's state: who is signed in and the event data the screens edit. */
module App {
  import opened Wrappers
  import opened JsValues
  import opened Browser

  /** The initial `eventData` state, which logging out restores. */
  const DefaultEventData: Record :=
    map["guests" := JArr([]), "wishlist" := JArr([]),
        "location" := JObj(map["name" := JStr(""), "address" := JStr(""), "date" := JStr(""), "time" := JStr("")]),
        "photos" := JArr([])]

  /** `{...eventData, ...newData}` */
  function Merged(eventData: Record, newData: Record): (r: Record)
    ensures forall k :: k in newData ==> Field(r, k) == Some(newData[k])
    ensures forall k :: k !in newData ==> Field(r, k) == Field(eventData, k)
    ensures r.Keys == eventData.Keys + newData.Keys
  {
    eventData + newData
  }

  /** The key suffix of `birthdayAppData_${user.id}`. */
  function DataKey(user: Record): string {
    ValueString(Field(user, "id"))
  }

  /** A shallow merge is idempotent: applying the same update twice is applying it once. */
  lemma MergedIdempotent(eventData: Record, newData: Record)
    ensures Merged(Merged(eventData, newData), newData) == Merged(eventData, newData)
  {
  }

  class AppComponent {
    const storage: LocalStorage
    /** The `user` state; `None` is `null`. */
    var user: Option<Record>
    var eventData: Record

    constructor (storage: LocalStorage)
      ensures this.storage == storage && user.None? && eventData == DefaultEventData
    {
      this.storage := storage;
      user := None;
      eventData := DefaultEventData;
    }

    /**
     * `loadDataFromStorage` as a closure created when `seen` was the `user` state: nothing happens
     * without a user, and a saved entry for that user replaces the event data.
     */
    method LoadDataFromStorage(seen: Option<Record>)
      modifies this`eventData
      ensures seen.Some? && DataKey(seen.value) in storage.userData ==> eventData == storage.userData[DataKey(seen.value)]
      ensures seen.None? || DataKey(seen.value) !in storage.userData ==> eventData == old(eventData)
    {
      if seen.Some? {
        var key := DataKey(seen.value);
        if key in storage.userData {
          eventData := storage.userData[key];
        }
      }
    }

    /**
     * The mount effect as written: the user saved in `birthdayAppCurrentUser` becomes the state,
     * but `loadDataFromStorage` is the closure of the first render, which still sees `user` as it was.
     */
    method Mount()
      modifies this`user, this`eventData
      ensures storage.currentUser.Some? ==> user == storage.currentUser
      ensures storage.currentUser.None? ==> user == old(user)
      ensures old(user).None? ==> eventData == old(eventData)
    {
      var seen := user;
      var saved := storage.currentUser;
      if saved.Some? {
        user := saved;
        LoadDataFromStorage(seen);
      }
    }

    /** The mount effect loading the data of the user it restores. */
    method MountFixed()
      modifies this`user, this`eventData
      ensures storage.currentUser.Some? ==> user == storage.currentUser
      ensures storage.currentUser.None? ==> user == old(user) && eventData == old(eventData)
      ensures var u := storage.currentUser;
        u.Some? && DataKey(u.value) in storage.userData ==> eventData == storage.userData[DataKey(u.value)]
      ensures var u := storage.currentUser;
        u.Some? && DataKey(u.value) !in storage.userData ==> eventData == old(eventData)
    {
      var saved := storage.currentUser;
      if saved.Some? {
        user := saved;
        LoadDataFromStorage(saved);
      }
    }

    /**
     * `updateEventData`: the state becomes the merge, and with a user signed in it is also saved
     * under that user's key; a refused `setItem` is caught, so the state changes regardless.
     */
    method UpdateEventData(newData: Record)
      modifies this`eventData, storage`userData
      ensures eventData == Merged(old(eventData), newData)
      ensures user.Some? && !storage.full ==> storage.userData == old(storage.userData)[DataKey(user.value) := eventData]
      ensures user.None? || storage.full ==> storage.userData == old(storage.userData)
    {
      var updated := Merged(eventData, newData);
      eventData := updated;
      if user.Some? && !storage.full {
        storage.userData := storage.userData[DataKey(user.value) := updated];
      }
    }

    /** `handleLogin`: the user becomes the state and their saved data, if any, is loaded. */
    method HandleLogin(userData: Record)
      modifies this`user, this`eventData
      ensures user == Some(userData)
      ensures DataKey(userData) in storage.userData ==> eventData == storage.userData[DataKey(userData)]
      ensures DataKey(userData) !in storage.userData ==> eventData == old(eventData)
    {
      user := Some(userData);
      var key := DataKey(userData);
      if key in storage.userData {
        eventData := storage.userData[key];
      }
    }

    /** `handleLogout`: no user and the default event data; what was saved stays saved. */
    method HandleLogout()
      modifies this`user, this`eventData
      ensures user.None? && eventData == DefaultEventData
    {
      user := None;
      eventData := DefaultEventData;
    }
  }

  /**
   * A reload with a signed-in user whose event data holds a guest, followed by one edit of the
   * wishlist, through the mount effect as written: the saved guest list is overwritten with the
   * default empty one.
   */
  method ReloadThenEdit() returns (savedGuests: Json, storedGuests: Json)
    ensures savedGuests == JArr([JStr("Anna")]) && storedGuests == JArr([])
  {
    var storage := new LocalStorage(false);
    var signedIn: Record := map["id" := JStr("1")];
    storage.currentUser := Some(signedIn);
    storage.userData := map["1" := DefaultEventData["guests" := JArr([JStr("Anna")])]];
    savedGuests := storage.userData["1"]["guests"];
    var app := new AppComponent(storage);
    app.Mount();
    app.UpdateEventData(map["wishlist" := JArr([])]);
    assert DataKey(signedIn) == "1";
    storedGuests := storage.userData["1"]["guests"];
  }

  /** The same reload and edit through the corrected mount effect: the saved guest stays. */
  method ReloadThenEditFixed() returns (savedGuests: Json, storedGuests: Json)
    ensures savedGuests == JArr([JStr("Anna")]) && storedGuests == savedGuests
  {
    var storage := new LocalStorage(false);
    var signedIn: Record := map["id" := JStr("1")];
    storage.currentUser := Some(signedIn);
    storage.userData := map["1" := DefaultEventData["guests" := JArr([JStr("Anna")])]];
    savedGuests := storage.userData["1"]["guests"];
    var app := new AppComponent(storage);
    assert DataKey(signedIn) == "1";
    app.MountFixed();
    app.UpdateEventData(map["wishlist" := JArr([])]);
    storedGuests := storage.userData["1"]["guests"];
  }
}
