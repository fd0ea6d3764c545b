/** Sign-in through Yandex ID: the profile it returns becomes a user in `birthdayAppUsers`. */
module YandexAuth {
  import opened Wrappers
  import opened JsValues
  import opened Browser

  const AvatarPrefix := "https://avatars.yandex.net/get-yapic/"
  const AvatarSuffix := "/islands-200"

  /** The user object built from the profile `info` fetched from `login.yandex.ru/info`. */
  function ProfileUser(info: Record, now: string): (u: map<string, Value>)
    ensures u.Keys == {"id", "name", "email", "avatar", "provider", "yandexId", "createdAt"}
    ensures u["id"] == Field(info, "id") && u["yandexId"] == Field(info, "id")
    ensures u["email"] == Field(info, "default_email")
    ensures u["provider"] == Some(JStr("yandex")) && u["createdAt"] == Some(JStr(now))
    ensures Truthy(Field(info, "real_name")) ==> u["name"] == Field(info, "real_name")
    ensures !Truthy(Field(info, "real_name")) && Truthy(Field(info, "display_name")) ==> u["name"] == Field(info, "display_name")
    ensures !Truthy(Field(info, "real_name")) && !Truthy(Field(info, "display_name")) ==> u["name"] == Field(info, "login")
    ensures Truthy(Field(info, "default_avatar_id")) ==>
              u["avatar"] == Some(JStr(AvatarPrefix + ValueString(Field(info, "default_avatar_id")) + AvatarSuffix))
    ensures !Truthy(Field(info, "default_avatar_id")) ==> u["avatar"] == Some(JNull)
  {
    var avatarId := Field(info, "default_avatar_id");
    map["id" := Field(info, "id"),
        "name" := Or(Or(Field(info, "real_name"), Field(info, "display_name")), Field(info, "login")),
        "email" := Field(info, "default_email"),
        "avatar" := if Truthy(avatarId) then Some(JStr(AvatarPrefix + ValueString(avatarId) + AvatarSuffix)) else Some(JNull),
        "provider" := Some(JStr("yandex")),
        "yandexId" := Field(info, "id"),
        "createdAt" := Some(JStr(now))]
  }

  predicate LinkedTo(u: Record, id: Value) {
    StrictEq(Field(u, "yandexId"), id)
  }

  /** `users.findIndex(u => u.yandexId === id)` */
  function FindLinked(users: seq<Record>, id: Value): (r: int)
    ensures -1 <= r < |users|
    ensures r >= 0 ==> LinkedTo(users[r], id) && forall j :: 0 <= j < r ==> !LinkedTo(users[j], id)
    ensures r < 0 ==> forall j :: 0 <= j < |users| ==> !LinkedTo(users[j], id)
    decreases |users|
  {
    if |users| == 0 then -1
    else if LinkedTo(users[0], id) then 0
    else
      var r := FindLinked(users[1..], id);
      if r < 0 then -1 else r + 1
  }

  /** The stored user list after a Yandex sign-in: the linked entry is merged with the profile, or the profile is appended. */
  function Linked(users: seq<Record>, user: map<string, Value>): seq<Record>
    requires "yandexId" in user
  {
    var i := FindLinked(users, user["yandexId"]);
    if i >= 0 then users[i := MergeSerialized(users[i], user)] else users + [Serialized(user)]
  }

  /**
   * An account linked before keeps its place and its other fields while the profile's fields
   * overwrite theirs; otherwise the profile is added at the end and nothing else moves.
   */
  lemma LinkedExact(users: seq<Record>, info: Record, now: string)
    ensures var user := ProfileUser(info, now);
      var i := FindLinked(users, Field(info, "id"));
      var after := Linked(users, user);
      && (i >= 0 ==> |after| == |users| && (forall j :: 0 <= j < |users| && j != i ==> after[j] == users[j])
                     && (forall k :: k in user ==> Field(after[i], k) == user[k])
                     && (forall k :: k !in user ==> Field(after[i], k) == Field(users[i], k)))
      && (i < 0 ==> after == users + [Serialized(user)])
  {
  }

  /**
   * Signing in again with the same Yandex account updates the entry the first sign-in made
   * instead of adding another one (for an id that `===` compares by value).
   */
  lemma {:induction false} SecondSignInAddsNoUser(users: seq<Record>, info: Record, now: string, later: string)
    requires StrictEq(Field(info, "id"), Field(info, "id"))
    ensures var once := Linked(users, ProfileUser(info, now));
      |Linked(once, ProfileUser(info, later))| == |once|
  {
    var user := ProfileUser(info, now);
    var id := Field(info, "id");
    var once := Linked(users, user);
    var i := FindLinked(users, id);
    var at := if i >= 0 then i else |users|;
    assert Field(once[at], "yandexId") == id by {
      if i < 0 {
        assert once[at] == Serialized(user);
      }
    }
    assert LinkedTo(once[at], id);
    assert FindLinked(once, ProfileUser(info, later)["yandexId"]) >= 0;
  }

  class YandexSignIn {
    const storage: LocalStorage

    constructor (storage: LocalStorage)
      ensures this.storage == storage
    {
      this.storage := storage;
    }

    /**
     * The `.then(userInfo => …)` step once the profile has arrived. A refused `setItem` rejects
     * the promise, whose `.catch` only logs, so nothing is stored and `onLogin` is not called.
     */
    method ProfileReceived(info: Record, now: string) returns (loggedIn: Option<map<string, Value>>)
      modifies storage`users, storage`currentUser
      ensures storage.full ==> unchanged(storage) && loggedIn.None?
      ensures !storage.full ==>
                && storage.users == Linked(old(storage.users), ProfileUser(info, now))
                && storage.currentUser == Some(Serialized(ProfileUser(info, now)))
                && loggedIn == Some(ProfileUser(info, now))
    {
      var user := ProfileUser(info, now);
      var users := storage.users;
      var i := FindLinked(users, Field(info, "id"));
      if i >= 0 {
        users := users[i := MergeSerialized(users[i], user)];
      } else {
        users := users + [Serialized(user)];
      }
      if storage.full {
        return None;
      }
      storage.users := users;
      storage.currentUser := Some(Serialized(user));
      loggedIn := Some(user);
    }
  }
}
