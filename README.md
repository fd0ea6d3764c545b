# Birthday planner: verified data rules

This project models the data handling underneath a birthday-event planner, and proves it correct.
The app has two sides:

- A **server**. An Express app keeps every user and event in one JSON file. Two serverless
  functions, `/api/events` and `/api/users`, keep them in two remote tables through upserts.
- A **browser client**. It keeps its own copies in `localStorage`: a sync record, the events, the
  user list and each user's event data. Its screens transform guest lists and wishlists.

The model is split into Dafny modules that follow the program:

| module | models |
|---|---|
| `JsValues`, `Collections`, `Wrappers` | JavaScript values as the code sees them, and objects used as ordered dictionaries. Covers `undefined`, `null`, truthiness, `===`, `{...spread}`, `String(v)`, and `JSON.stringify` dropping `undefined` fields. |
| `RecordStore` | The `{users, events}` snapshot, and the rules every backend and handler shares: replace a record with the payload plus `lastUpdated`, look up or answer `null`, delete by key, and list by owner. |
| `FileBackend` | The JSON data file: `readData` and `writeData` of `server/index.js`. |
| `TableBackend` | The remote tables of `server/database-supabase.js`. `readData` reduces rows into dictionaries; `writeData` upserts one row at a time and aborts early. |
| `Http`, `ExpressServer`, `EventsApi`, `UsersApi` | Requests, responses and the route handlers. |
| `Browser` | `localStorage`, one field per key the client uses. |
| `SyncService`, `MyEvents`, `Invitations`, `Auth`, `YandexAuth`, `App` | The client's stores and screens that update `localStorage` in place. |
| `EventData`, `Wishlist`, `Dashboard` | The pure wishlist transforms and the dashboard counts. |

### How side effects are modelled

- **Stateful objects are classes.** The data file, the table database, `localStorage`, the sync
  service and the React components that write to storage all become classes. Their methods
  `modify` exactly what the source writes.
- **Loops stay loops.** The sequential upserts and the client's `forEach` collections are `while`
  loops. An invariant ties each loop to a recursive specification function, and lemmas prove
  what the source promises about that function.
- **Outside inputs are parameters.** The clock (`Date.now()`, `toISOString()`), `window.confirm`,
  `navigator` and the Yandex profile are passed in.
- **Failures are oracles.**
  - Data file: `writeFails`.
  - Tables: a query failure flag per table, and the set of `(table, id)` upserts the service
    refuses.
  - `localStorage`: `full`, under which every `setItem` throws, as when the quota is exceeded.

## Model

| member | source | states |
|---|---|---|
| `RecordStore.Stamped` | server/index.js:92-95 | The stored record holds every field of the payload, plus a `lastUpdated` equal to now, which overrides one the payload carries. |
| `RecordStore.WriteReplaces` | server/index.js:92-95 | A POST replaces the record: what is stored afterwards does not depend on the prior record, and a prior field the payload lacks is gone. |
| `RecordStore.Lookup` | server/index.js:80 | A lookup answers `null` exactly when the id is absent, and otherwise the stored record. |
| `RecordStore.SaveUser` | server/index.js:92-95 | Only `users[userId]` changes, to the stamped payload. Every other user and the events are unchanged. |
| `RecordStore.SaveEvent` | server/index.js:124-127 | Only `events[eventId]` changes, to the stamped payload. Every other event and the users are unchanged. |
| `RecordStore.DropEvent` | server/index.js:198 | The event is absent afterwards, and everything else is unchanged. Deleting a missing id changes nothing. |
| `RecordStore.OwnerView` | server/index.js:146 | `{id, ...event}` carries the key as `id` unless the stored event has its own `id`, which wins. Other fields are the event's. |
| `RecordStore.ListOwned` | server/index.js:144-146 | The owner listing has at most one entry per stored event. |
| `RecordStore.ListOwnedExact` | server/index.js:144-146 | An entry is in the listing exactly when it is the view of an event whose `ownerId` is `userId`. |
| `RecordStore.ListOwnedLength` | server/index.js:144-146 | The listing holds one entry per owned event: none is duplicated and none is dropped. |
| `RecordStore.ListOwnedAppend` | server/index.js:144-146 | The listing keeps enumeration order. |
| `FileBackend.Loaded` | server/index.js:50-61 | What the server reads from the file is always a well-formed snapshot. |
| `FileBackend.DataFile.ReadData` | server/index.js:50-61 | A missing or unreadable file reads as `{users: {}, events: {}}`; otherwise the read gives the stored document. |
| `FileBackend.DataFile.WriteData` | server/index.js:64-72 | Answers `false` exactly when the write fails, leaving the file as it was. Otherwise answers `true`, and the file holds the snapshot. |
| `ExpressServer.GetUser` | server/index.js:77-86 | Answers 200 with the stored user, or `null` for an absent id. |
| `ExpressServer.PostUser` | server/index.js:89-106 | On a good write the file holds the snapshot with that user replaced, and the answer is `{success: true}`. On a failed write nothing changes and the answer is 500 'Failed to save data'. |
| `ExpressServer.GetEvent` | server/index.js:109-118 | Answers 200 with the stored event, or `null`. |
| `ExpressServer.PostEvent` | server/index.js:121-138 | Like `PostUser`, for `events[eventId]`, with 'Failed to save event'. |
| `ExpressServer.ListUserEvents` | server/index.js:141-153 | Answers the owner listing of the events read from the file. |
| `ExpressServer.DeleteEvent` | server/index.js:195-209 | Writes the snapshot without the event, even for a missing id. Answers `{success: true}`, or 500 'Failed to delete event' with the file unchanged. |
| `ExpressServer.PostOverUnreadableFile` | server/index.js:50-61 | An unreadable file reads as empty, so a POST over it writes a document holding that one user and nothing else. |
| `ExpressServer.PostThenGet` | server/index.js:77-106 | A GET after a successful POST answers the stamped body. |
| `ExpressServer.DeleteThenGet` | server/index.js:195-209 | A GET after a successful DELETE answers `null`. |
| `TableBackend.FoldGet` | server/database-supabase.js:50-58 | The reduce maps each row's id to its `data` column, added to what the accumulator held. |
| `TableBackend.FoldKeys` | server/database-supabase.js:50-58 | The resulting dictionary enumerates the ids in row order. |
| `TableBackend.TabulateExact` | server/database-supabase.js:50-58 | For rows with distinct ids, the dictionary holds exactly each row's `data` under its `id`, in row order. |
| `TableBackend.ReadSnapshotExact` | server/database-supabase.js:25-70 | If either query fails the result is `{users: {}, events: {}}`, never a partial result. Otherwise both tables are read row by row. |
| `TableBackend.Database.ReadData` | server/database-supabase.js:25-70 | `readData` answers the snapshot of the current tables under the query faults. |
| `TableBackend.Upsert` | server/database-supabase.js:81-85 | An upsert keeps row ids unique. It adds a row only when the id is new, and yields no row other than the old rows and the new one. |
| `TableBackend.UpsertRowData` | server/database-supabase.js:81-85 | After an upsert the id's `data` is the new one, and every other id's is unchanged. |
| `TableBackend.UpsertAll` | server/database-supabase.js:78-91 | The first `n` upserts of a collection keep row ids unique. |
| `TableBackend.UpsertAllRowData` | server/database-supabase.js:78-107 | After the first `n` upserts, exactly those keys carry the snapshot's records; every other row is as before. |
| `TableBackend.Accepted` | server/database-supabase.js:87-90 | The number of upserts that succeed before the first refusal is at most the number of keys. |
| `TableBackend.AcceptedAt` | server/database-supabase.js:87-90 | The loop stops exactly at the first refused key. |
| `TableBackend.AcceptedAll` | server/database-supabase.js:109-110 | Every upsert succeeds exactly when no key is refused. |
| `TableBackend.Database.UpsertEach` | server/database-supabase.js:78-107 | The loop upserts keys in enumeration order up to the first refusal, and returns how many succeeded. The other table is untouched. |
| `TableBackend.Database.WriteData` | server/database-supabase.js:73-115 | Users and then events are written, as `WriteOutcome` describes. A refused user skips every event. |
| `TableBackend.WriteOutcomeExact` | server/database-supabase.js:73-115 | `writeData` answers `true` exactly when no key of the snapshot is refused. Then every snapshot key holds its record. After an abort, the keys before the refused one hold their records and every later key keeps its old data; a refused user leaves the events table untouched. A row is never removed, and an id not in the snapshot keeps its data. |
| `TableBackend.DeleteRow` | api/events.js:62-65 | A row delete keeps ids unique and adds no row. |
| `TableBackend.DeleteRowData` | api/events.js:62-65 | After a row delete the id has no data, and every other id keeps its data. |
| `TableBackend.Database.Delete` | api/events.js:62-65 | The delete succeeds exactly when the table does not refuse that id. Success removes that row; failure changes nothing. |
| `Http.QueryString` | api/events.js:18 | A query parameter counts as given exactly when it is present and non-empty. |
| `EventsApi.Handle` | api/events.js:4-78 | The handler's response and the tables it leaves are those of `Respond`, which the lemmas below characterise. |
| `EventsApi.EveryResponseHasCors` | api/events.js:6-8 | Every response carries the three CORS headers. |
| `EventsApi.PreflightTouchesNothing` | api/events.js:10-13 | OPTIONS answers 200 with an empty body and no table changes. |
| `EventsApi.GetAnswers` | api/events.js:16-35 | A GET never writes. `eventId` wins over `userId` and answers the row's data or `null`; `userId` alone answers the owner listing. When a table query fails it still answers 200, with `null` for an id and `[]` for a listing. 400 'eventId or userId is required' comes exactly when neither is given. |
| `EventsApi.PostGuards` | api/events.js:36-41 | A missing or `null` body throws and answers 500. A falsy `eventId` or `eventData` answers 400 before anything is read. Neither changes the tables. |
| `EventsApi.PostStoresEvent` | api/events.js:43-54 | A valid POST answers `{success: true}` or 500 'Failed to save event', and 500 exactly when the service refuses an upsert of the snapshot written back. After success a read finds the stamped `eventData` under `String(eventId)`, and every other event as before. |
| `EventsApi.DeleteGuard` | api/events.js:57-60 | A DELETE without an `eventId` answers 400 'eventId is required' and leaves the tables unchanged. |
| `EventsApi.OtherMethodsRefused` | api/events.js:71-73 | PUT and every method other than GET, POST, DELETE and OPTIONS answer 405 'Method not allowed' without touching the tables. |
| `EventsApi.DeleteLeavesEvent` | api/events.js:55-70 | As written, a DELETE with no refusal answers `{success: true}`, yet a GET afterwards still finds the event. |
| `EventsApi.HandleFixed` | api/events.js:55-70 | The corrected handler behaves as `RespondFixed`: a DELETE with an id deletes that row. |
| `EventsApi.FixedDeleteRemovesEvent` | api/events.js:62-70 | With the correction, a DELETE succeeds exactly when the row delete is not refused. Afterwards the event reads `null`, and every other event and every user reads as before. |
| `UsersApi.Handle` | api/users.js:4-52 | The handler's response and tables are those of `Respond`. |
| `UsersApi.PreflightTouchesNothing` | api/users.js:10-13 | OPTIONS answers 200 with an empty body and no table changes. |
| `UsersApi.GetReadsOnly` | api/users.js:16-25 | A GET never writes, and answers 400 'userId is required' exactly when `userId` is missing. |
| `UsersApi.GetAnswersRow` | api/users.js:23-25 | A GET answers the user's row data, or `null` when no row has that id or when a table query fails. |
| `UsersApi.PostGuards` | api/users.js:28-31 | A missing or `null` body throws and answers 500 'Internal server error'. A falsy `userId` or `userData` answers 400 'userId and userData are required' before anything is read. Neither changes the tables. |
| `UsersApi.PostStoresUser` | api/users.js:33-44 | A valid POST answers `{success: true}` or 500 'Failed to save data', and 500 exactly when the service refuses an upsert of the snapshot written back. After success the stamped `userData` is under `String(userId)`, and other users and all events read as before. |
| `UsersApi.OtherMethodsRefused` | api/users.js:45-47 | DELETE, PUT and every other method answer 405 'Method not allowed' without touching the tables. |
| `SyncService.SyncRecord` | src/services/sync.js:13-18 | The sync record holds exactly `userId`, `data`, `timestamp` and `version`; `undefined` fields are dropped. |
| `SyncService.DataSyncService.SaveData` | src/services/sync.js:11-33 | With storage available it stores the sync record, the last-sync time and the user's global entry, and answers `true`. A refused write answers `false` and changes nothing. |
| `SyncService.DataSyncService.UpdateGlobalStorage` | src/services/sync.js:53-65 | Only the `String(userId)` entry of the global map changes. |
| `SyncService.DataSyncService.LoadData` | src/services/sync.js:36-50 | Answers the stored `data` only when the stored `userId` is `===` the argument, and `null` otherwise. |
| `SyncService.ExportResult` | src/services/sync.js:68-89 | Export answers `null` when nothing is stored or the ids differ. Otherwise it answers every stored field plus `exportDate` and `deviceInfo`. |
| `SyncService.DataSyncService.ExportData` | src/services/sync.js:68-89 | `exportData` answers `ExportResult` of what is stored. |
| `SyncService.ImportedRecord` | src/services/sync.js:113-118 | The stored import keeps the imported fields, with a fresh `timestamp` and `version`, and `importedFrom` set to `deviceInfo.platform` or 'Unknown device'. |
| `SyncService.DataSyncService.ImportData` | src/services/sync.js:92-129 | Import answers `true` exactly when the input is valid, the version check passes or is confirmed, and storage accepts the write. Then it stores the imported record; otherwise nothing changes. |
| `SyncService.DataSyncService.GetLastSyncInfo` | src/services/sync.js:132-151 | Answers `null` with no usable sync record; otherwise the stored version, timestamp and origin, plus `lastSync`. |
| `SyncService.SaveThenLoad` | src/services/sync.js:11-50 | Loading what was just saved gives back the data for the same user, and `null` for another. |
| `SyncService.ExportThenImport` | src/services/sync.js:68-129 | An export imported on a device with no sync record is accepted and loads the same data for the same user. It records the exporting platform. |
| `SyncService.ImportGuards` | src/services/sync.js:94-110 | An invalid input never imports. An older input imports only when confirmed, and one without a numeric version always passes the version check. |
| `MyEvents.Listed` | src/components/MyEvents.js:32-36 | A listed event carries its storage key as `id`, `isArchived` defaulting to `false`, and its other fields unchanged. |
| `MyEvents.OwnedExact` | src/components/MyEvents.js:30-38 | The list holds exactly the stored events whose `ownerId` is `user.id`, each listed under its own key, and no more entries than there are events. |
| `MyEvents.MyEventsScreen.LoadEvents` | src/components/MyEvents.js:24-46 | The loop yields the owner-filtered list. With no stored events the list is empty. A missing user throws, which keeps the previous list; either way loading ends. |
| `MyEvents.ActiveEvents` | src/components/MyEvents.js:87 | The active tab holds exactly the events whose `isArchived` is falsy. |
| `MyEvents.ArchivedEvents` | src/components/MyEvents.js:88 | The archived tab holds exactly the events whose `isArchived` is truthy. |
| `MyEvents.TabsPartition` | src/components/MyEvents.js:87-88 | The two tabs together are a permutation of the events: each event is in exactly one. |
| `MyEvents.SetArchivedEffect` | src/components/MyEvents.js:51-53 | Archiving an existing event sets `isArchived` and keeps its other fields and every other event. A missing id changes nothing. |
| `MyEvents.SetArchivedIdempotent` | src/components/MyEvents.js:52 | Archiving twice equals archiving once, and the last of two flags wins. |
| `MyEvents.MyEventsScreen.SetArchive` | src/components/MyEvents.js:48-72 | Stores the event with the flag set and reloads. A missing id, or storage refusing the write, changes nothing. |
| `MyEvents.MyEventsScreen.HandleArchiveEvent` | src/components/MyEvents.js:48-59 | `SetArchive` with `true`. |
| `MyEvents.MyEventsScreen.HandleUnarchiveEvent` | src/components/MyEvents.js:61-72 | `SetArchive` with `false`. |
| `MyEvents.MyEventsScreen.HandleDeleteEvent` | src/components/MyEvents.js:74-85 | After confirmation the key is removed (a no-op for a missing one) and the list reloads. Refusing confirmation, or a refused write, changes nothing. |
| `Invitations.FindGuest` | src/components/Invitations.js:25-27 | A found guest is in the list and has the user's email. |
| `Invitations.FindGuestFirst` | src/components/Invitations.js:25-27 | The found guest is the first that matches. No guest is found exactly when none matches. |
| `Invitations.Invitation` | src/components/Invitations.js:29-33 | An invitation is the event plus its first matching guest and the key it is stored under. |
| `Invitations.StepExact` | src/components/Invitations.js:24-34 | An event yields an invitation exactly when it has a guest list with a guest whose email is the user's. |
| `Invitations.CollectExact` | src/components/Invitations.js:23-35 | When nothing throws, the invitations are exactly those of the events that yield one. |
| `Invitations.CollectThrows` | src/components/Invitations.js:23-39 | An exception at any event aborts the whole collection. |
| `Invitations.InvitationsScreen.LoadInvitations` | src/components/Invitations.js:17-44 | The loop yields the collected invitations, or keeps the previous list when one event throws; loading ends. |
| `Invitations.Responded` | src/components/Invitations.js:56-60 | Every guest with the user's email gets the response as its status. The other guests and the guest count are unchanged. |
| `Invitations.AfterResponseFrames` | src/components/Invitations.js:55-63 | Only `allEvents[eventId]` changes, and within it only its guest list, whose length is kept. |
| `Invitations.InvitationsScreen.HandleResponse` | src/components/Invitations.js:50-70 | Writes the responded event and reloads. A missing event, one without guests, an exception or a refused write changes nothing. |
| `Wishlist.AddItem` | src/components/Wishlist.js:24-31 | Appends exactly one item with the form's fields, an id from the clock and an empty `selectedBy`; existing items are unchanged. |
| `Wishlist.WithoutItem` | src/components/Wishlist.js:45 | The filtered wishlist is never longer than the original. |
| `Wishlist.WithoutItemExact` | src/components/Wishlist.js:45 | Removes every item with the id, and only those. |
| `Wishlist.WithoutItemAppend` | src/components/Wishlist.js:45 | The filter keeps the order of the rest. |
| `Wishlist.DeleteItem` | src/components/Wishlist.js:42-52 | A delete happens exactly when confirmed. |
| `Wishlist.WithoutGuest` | src/components/Wishlist.js:60 | Removes every occurrence of the guest, and leaves a list without them unchanged. |
| `Wishlist.Toggle` | src/components/Wishlist.js:58-64 | A guest already selecting is removed (every occurrence) and no one else; otherwise the guest is appended. |
| `Wishlist.ToggleTwice` | src/components/Wishlist.js:60-63 | For a guest not yet selecting, toggling twice restores `selectedBy`. |
| `Wishlist.WithoutGuestAppend` | src/components/Wishlist.js:60 | Removing a guest just appended gives back the list. |
| `Wishlist.Select` | src/components/Wishlist.js:56-67 | Only items with the id are toggled; the list length and every other item are unchanged. |
| `Wishlist.SelectTwice` | src/components/Wishlist.js:56-67 | Selecting twice for a guest not yet selecting restores the wishlist. |
| `Wishlist.GuestName` | src/components/Wishlist.js:76-79 | 'Неизвестный гость' when no guest has the id, otherwise the first such guest's name. |
| `Wishlist.SelectedCount` | src/components/Wishlist.js:115 | The selected count is at most the wishlist length. |
| `Wishlist.CountsCoverWishlist` | src/components/Wishlist.js:115-127 | The selected count plus the available count is the wishlist length. |
| `Dashboard.StatusCount` | client/src/components/Dashboard.js:18-20 | A status count is at most the number of guests. |
| `Dashboard.StatusCountAppend` | client/src/components/Dashboard.js:18-20 | Counts add up over concatenated guest lists. |
| `Dashboard.StatusCountsBounded` | client/src/components/Dashboard.js:18-20 | Confirmed, pending and declined sum to at most the guest count, and to exactly it when every status is one of the three. |
| `Dashboard.Stats` | client/src/components/Dashboard.js:23-73 | The stats list always has seven entries. |
| `Dashboard.StatsConsistent` | client/src/components/Dashboard.js:16-73 | The seven entries, in order, carry the fixed titles and the guest total, the three status counts, the wishlist length, the selected gifts and the photo count. The selected gifts never exceed the wishlist. |
| `Auth.FindByCredentialsExact` | src/components/Auth.js:29-31 | Sign-in finds a user exactly when one has both the email and the password, and it is the first such user. |
| `Auth.RegisterExact` | src/components/Auth.js:40-66 | Registration succeeds exactly when the passwords agree, are at least 6 long and the email is new. The mismatch is reported before the length. The new user carries the form's fields, and appending it keeps emails unique. |
| `Auth.AuthScreen.SignIn` | src/components/Auth.js:23-37 | A match becomes the current user and is passed to `onLogin`. No match sets 'Неверный email или пароль'. Neither changes the user list. |
| `Auth.AuthScreen.SignUp` | src/components/Auth.js:38-71 | A refused registration shows its message and changes nothing. An accepted one appends exactly one user, makes it current and passes it to `onLogin`. |
| `YandexAuth.ProfileUser` | src/components/YandexAuth.js:38-46 | The user built from the profile: the name falls back from `real_name` to `display_name` to `login`. The avatar URL is built only with an avatar id; provider is 'yandex' and `yandexId` is the profile id. |
| `YandexAuth.FindLinked` | src/components/YandexAuth.js:50 | Finds the first user whose `yandexId` is `===` the profile id, or -1 when none is. |
| `YandexAuth.LinkedExact` | src/components/YandexAuth.js:52-58 | A linked entry is merged in place, with the profile's fields winning and the length unchanged. Otherwise the profile is appended; every other entry is unchanged. |
| `YandexAuth.SecondSignInAddsNoUser` | src/components/YandexAuth.js:49-58 | Signing in again with the same account adds no second entry. |
| `YandexAuth.YandexSignIn.ProfileReceived` | src/components/YandexAuth.js:37-64 | Stores the linked user list and, as the current user, the new user object rather than the merged entry, then calls `onLogin`. A refused write changes nothing. |
| `App.Merged` | src/App.js:81 | Keys in the update override, and keys absent from it are kept. |
| `App.MergedIdempotent` | src/App.js:81 | Applying the same update twice is applying it once. |
| `App.AppComponent.UpdateEventData` | src/App.js:80-93 | The state becomes the merge. It is saved under `birthdayAppData_<user.id>` only when a user is set and storage accepts it. |
| `App.AppComponent.LoadDataFromStorage` | src/App.js:44-59 | Does nothing while the user it sees is `null`. Otherwise saved data for that user replaces the event data. |
| `App.AppComponent.HandleLogin` | src/App.js:106-121 | The user becomes current; the user's saved data, if any, replaces the event data wholesale, and otherwise the data is kept. |
| `App.AppComponent.HandleLogout` | src/App.js:123-131 | No user, and the default event data: empty guests, wishlist and photos, and an all-empty location. |
| `App.AppComponent.Mount` | src/App.js:35-42 | As written, a saved user is restored, but the event data is left as it was. |
| `App.AppComponent.MountFixed` | src/App.js:35-42 | With the correction, the restored user's saved data is loaded. |
| `App.ReloadThenEdit` | src/App.js:35-93 | As written, a reload followed by one wishlist edit replaces the saved guest list with an empty one. |
| `App.ReloadThenEditFixed` | src/App.js:35-93 | With the corrected mount, the same reload and edit keep the saved guests. |

## Left out

- JsValues.Json: numbers are integers (`JNum(n: int)`). Fractional numbers, `NaN` and `Infinity` are not represented, so `String(1.5)` for a numeric id used as a key, and `>` between fractional `version` values in the import check, are not modelled.
- SyncService.DataSyncService.SaveData, SyncService.DataSyncService.UpdateGlobalStorage: one `now` and one `clock` stand for every clock read in a call. The source reads the clock separately for the record's `timestamp` and `version`, for `lastSync` and for the global entry, so those values may differ slightly.
- Uploads, static files, the production routes, `app.listen` and the health route of `server/index.js`: file and framework wiring.
- The Supabase client construction, environment checks and `initializeTables`. The tables are an abstract row list with failure oracles.
- The `updated_at` column written beside each row's `data`: it is never read back.
- Malformed JSON documents and non-object stored values: storage is modelled as structured values.
- JavaScript's enumeration of integer-like keys before other keys. Dictionaries enumerate in insertion order.
- Prototype names such as `constructor` used as keys; `Field` sees only own fields.
- Uncaught paths answering 500 'Internal server error' other than a missing request body. They cannot arise over structured values.
- Partial quota failures: with `full`, every `setItem` throws. A storage that accepts the first write and refuses the second is not modelled.
- `Greater`: the version check compares as numbers only when both sides are numbers, null or booleans. Other operand types, where JavaScript would convert strings, count as not greater.
- The base64 sync link (`generateExportQR`, `generateSyncURL`, `checkSyncFromURL`), locale date formatting, and JSON text round-trips.
- The Yandex SDK, the profile `fetch` and the React rendering, routing and icons of every component. The profile arrives as a parameter.
- `App.AppComponent.HandleLogin`: takes the user as stored, with `undefined` fields dropped. Reading any field gives the same value as on the original object.
- Concurrency: interleaved requests with last writer wins, and several state updates within one React render.
- The `Wishlist` and `Dashboard` modules work on typed guests and items rather than raw JSON. A guest or item missing a field, which the source would read as `undefined`, is not modelled.
- `client/src/App.js`: demo data around the same shallow merge as `src/App.js`.
- `src/components/DataSync.js`, `Guests.js`, `Location.js`, `Navbar.js`, `UserMenu.js`, `client/src/components/Photos.js`, `src/services/api.js` and the deployment scripts: UI or network calls.

## Findings

| source | as written | input that shows it | evidently intended | confidence | as-written member | corrected member |
|---|---|---|---|---|---|---|
| api/events.js:62-65 with server/database-supabase.js:78-107 | DELETE removes the event from the snapshot it read and writes that snapshot back. But `writeData` only upserts the rows still present, so the event's row stays. | A stored event `e1` and `DELETE /api/events?eventId=e1` with no refused upsert: the answer is `{success: true}`, and a GET of `e1` still returns it. | The row is deleted, so a later GET answers `null`. | not executed | `EventsApi.DeleteLeavesEvent` | `EventsApi.FixedDeleteRemovesEvent` |
| src/App.js:35-59 | The mount effect calls `loadDataFromStorage` right after `setUser`. The closure still sees the first render's `user`, which is `null`, so a restored user's saved data is never loaded. The next `updateEventData` then overwrites that data with the defaults plus the edit. | A stored user `{id: "1"}` whose saved data has `guests: ["Anna"]`; reload, then add to the wishlist: the saved guests become `[]`. | The restored user's saved data is loaded on mount. | not executed | `App.ReloadThenEdit` | `App.ReloadThenEditFixed` |

The corrected delete issues a per-row delete rather than making `writeData` mirror the snapshot.
`readData` answers an empty snapshot when a query fails, so a mirroring write could erase every row.
