/** Email and password sign-in and registration against the user list in `birthdayAppUsers`. */
module Auth {
  import opened Wrappers
  import opened JsValues
  import opened Browser

  const WrongCredentials := "Неверный email или пароль"
  const PasswordsDiffer := "Пароли не совпадают"
  const PasswordTooShort := "Пароль должен содержать минимум 6 символов"
  const EmailTaken := "Пользователь с таким email уже существует"

  /** `s.length`: JavaScript counts UTF-16 code units, two for a character outside the basic plane. */
  function Utf16Length(s: string): nat
    decreases |s|
  {
    if |s| == 0 then 0 else (if s[0] as int > 0xFFFF then 2 else 1) + Utf16Length(s[1..])
  }

  predicate HasCredentials(u: Record, email: string, password: string) {
    StrictEq(Field(u, "email"), Some(JStr(email))) && StrictEq(Field(u, "password"), Some(JStr(password)))
  }

  predicate HasEmail(u: Record, email: string) {
    StrictEq(Field(u, "email"), Some(JStr(email)))
  }

  /** `users.find(u => u.email === email && u.password === password)` */
  function FindByCredentials(users: seq<Record>, email: string, password: string): (r: Option<Record>)
    decreases |users|
  {
    if |users| == 0 then None
    else if HasCredentials(users[0], email, password) then Some(users[0])
    else FindByCredentials(users[1..], email, password)
  }

  /** Sign-in finds a user exactly when one has both the email and the password, and it is the first such user. */
  lemma {:induction false} FindByCredentialsExact(users: seq<Record>, email: string, password: string)
    ensures FindByCredentials(users, email, password).None? <==> forall u :: u in users ==> !HasCredentials(u, email, password)
    ensures FindByCredentials(users, email, password).Some? ==>
              exists i :: 0 <= i < |users| && users[i] == FindByCredentials(users, email, password).value &&
                HasCredentials(users[i], email, password) && forall j :: 0 <= j < i ==> !HasCredentials(users[j], email, password)
    decreases |users|
  {
    if |users| > 0 && !HasCredentials(users[0], email, password) {
      FindByCredentialsExact(users[1..], email, password);
      assert forall u :: u in users ==> u == users[0] || u in users[1..];
      if FindByCredentials(users, email, password).Some? {
        var i :| 0 <= i < |users[1..]| && users[1..][i] == FindByCredentials(users, email, password).value &&
                 HasCredentials(users[1..][i], email, password) &&
                 forall j :: 0 <= j < i ==> !HasCredentials(users[1..][j], email, password);
        assert users[i + 1] == users[1..][i];
        forall j | 0 <= j < i + 1 ensures !HasCredentials(users[j], email, password) {
          if j > 0 { assert users[j] == users[1..][j - 1]; }
        }
      }
    }
  }

  /** `users.find(u => u.email === email)` found someone. */
  predicate EmailRegistered(users: seq<Record>, email: string) {
    exists u :: u in users && HasEmail(u, email)
  }

  /** No two users share an email address. */
  ghost predicate UniqueEmails(users: seq<Record>) {
    forall i, j, e :: 0 <= i < j < |users| && HasEmail(users[i], e) ==> !HasEmail(users[j], e)
  }

  /** The outcome of a registration: the message it shows, or the user it creates. */
  datatype Registration = Refused(message: string) | Registered(user: Record)

  /** `{id: Date.now().toString(), name, email, password, createdAt}` */
  function NewUser(name: string, email: string, password: string, clock: int, now: string): Record {
    map["id" := JStr(NumberString(clock)), "name" := JStr(name), "email" := JStr(email),
        "password" := JStr(password), "createdAt" := JStr(now)]
  }

  /** The registration branch of `handleSubmit`, guard by guard in source order. */
  function Register(users: seq<Record>, name: string, email: string, password: string, confirmPassword: string,
                    clock: int, now: string): Registration
  {
    if password != confirmPassword then Refused(PasswordsDiffer)
    else if Utf16Length(password) < 6 then Refused(PasswordTooShort)
    else if EmailRegistered(users, email) then Refused(EmailTaken)
    else Registered(NewUser(name, email, password, clock, now))
  }

  /**
   * Registration succeeds exactly when the passwords agree, are at least 6 long and the email is
   * new; the mismatch is reported before the length. A new user carries the form's fields, and
   * appending it keeps the emails unique.
   */
  lemma RegisterExact(users: seq<Record>, name: string, email: string, password: string, confirmPassword: string,
                      clock: int, now: string)
    ensures var r := Register(users, name, email, password, confirmPassword, clock, now);
      && (r.Registered? <==> password == confirmPassword && Utf16Length(password) >= 6 && !EmailRegistered(users, email))
      && (password != confirmPassword ==> r == Refused(PasswordsDiffer))
      && (password == confirmPassword && Utf16Length(password) < 6 ==> r == Refused(PasswordTooShort))
      && (r.Registered? ==> Field(r.user, "name") == Some(JStr(name)) && Field(r.user, "email") == Some(JStr(email))
                            && Field(r.user, "password") == Some(JStr(password)))
      && (r.Registered? && UniqueEmails(users) ==> UniqueEmails(users + [r.user]))
  {
    var r := Register(users, name, email, password, confirmPassword, clock, now);
    if r.Registered? && UniqueEmails(users) {
      var all := users + [r.user];
      forall i, j, e | 0 <= i < j < |all| && HasEmail(all[i], e) ensures !HasEmail(all[j], e) {
        if j == |users| {
          assert all[i] in users;
          assert HasEmail(r.user, e) ==> e == email;
        } else {
          assert all[i] == users[i] && all[j] == users[j];
        }
      }
    }
  }

  class AuthScreen {
    const storage: LocalStorage
    /** The error message shown under the form; `''` for none. */
    var error: string

    constructor (storage: LocalStorage)
      ensures this.storage == storage && error == ""
    {
      this.storage := storage;
      error := "";
    }

    /**
     * The sign-in branch of `handleSubmit`; `loggedIn` is the user passed to `onLogin`. A refused
     * `setItem` throws out of the handler before `onLogin`.
     */
    method SignIn(email: string, password: string) returns (loggedIn: Option<Record>)
      modifies this`error, storage`currentUser
      ensures storage.users == old(storage.users)
      ensures var found := FindByCredentials(storage.users, email, password);
        && (found.None? ==> error == WrongCredentials && storage.currentUser == old(storage.currentUser) && loggedIn.None?)
        && (found.Some? && storage.full ==> error == "" && storage.currentUser == old(storage.currentUser) && loggedIn.None?)
        && (found.Some? && !storage.full ==> error == "" && storage.currentUser == found && loggedIn == found)
    {
      error := "";
      var users := storage.users;
      var user := FindByCredentials(users, email, password);
      if user.Some? {
        if storage.full {
          return None;
        }
        storage.currentUser := user;
        loggedIn := user;
      } else {
        error := WrongCredentials;
        loggedIn := None;
      }
    }

    /** The registration branch of `handleSubmit`. */
    method SignUp(name: string, email: string, password: string, confirmPassword: string, clock: int, now: string)
      returns (loggedIn: Option<Record>)
      modifies this`error, storage`users, storage`currentUser
      ensures var r := Register(old(storage.users), name, email, password, confirmPassword, clock, now);
        && (r.Refused? ==> error == r.message && unchanged(storage) && loggedIn.None?)
        && (r.Registered? && storage.full ==> error == "" && unchanged(storage) && loggedIn.None?)
        && (r.Registered? && !storage.full ==>
              && error == ""
              && storage.users == old(storage.users) + [r.user]
              && storage.currentUser == Some(r.user)
              && loggedIn == Some(r.user))
    {
      error := "";
      if password != confirmPassword {
        error := PasswordsDiffer;
        return None;
      }
      if Utf16Length(password) < 6 {
        error := PasswordTooShort;
        return None;
      }
      var users := storage.users;
      if EmailRegistered(users, email) {
        error := EmailTaken;
        return None;
      }
      var newUser := NewUser(name, email, password, clock, now);
      users := users + [newUser];
      if storage.full {
        return None;
      }
      storage.users := users;
      storage.currentUser := Some(newUser);
      loggedIn := Some(newUser);
    }
  }
}
