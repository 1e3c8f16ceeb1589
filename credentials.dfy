/**
 * The account screens' writes to the "user_credentials" file: registering
 * (RegisterActivity.kt), logging in (LoginActivity.kt), and logging out, renaming,
 * choosing or removing the profile picture and deleting the account
 * (ProfileActivity.kt).
 *
 * Usernames are keys of the same map as the two reserved keys `logged_in_user` and
 * `profile_picture_uri`, and passwords are stored as given.
 */
module Credentials {
  import opened Wrappers
  import opened Storage
  import opened Session

  /** What the register button did. */
  datatype RegisterOutcome =
    | Registered        // "Registration successful"
    | EmptyField        // "Please fill in all fields": nothing written
    | PasswordMismatch  // "Passwords do not match": nothing written

  /**
   * The register button: every field must be non-empty and the password must equal its
   * confirmation; then `putString(username, password)`, replacing any earlier password
   * under that name. Registering does not log in.
   */
  method Register(prefs: Preferences, username: string, password: string, confirm: string)
    returns (outcome: RegisterOutcome)
    modifies prefs
    ensures outcome == EmptyField <==> username == "" || password == "" || confirm == ""
    ensures outcome == PasswordMismatch <==>
      username != "" && password != "" && confirm != "" && password != confirm
    ensures outcome == Registered ==> prefs.credentials == old(prefs.credentials)[username := password]
    ensures outcome != Registered ==> prefs.credentials == old(prefs.credentials)
    ensures prefs.reports == old(prefs.reports) && prefs.theme == old(prefs.theme)
  {
    if username != "" && password != "" && confirm != "" {
      if password == confirm {
        prefs.credentials := prefs.credentials[username := password];
        outcome := Registered;
      } else {
        outcome := PasswordMismatch;
      }
    } else {
      outcome := EmptyField;
    }
  }

  /** `getString(username, null)` is not null and equals the typed password exactly. */
  predicate PasswordMatches(credentials: map<string, string>, username: string, password: string)
  {
    username in credentials && credentials[username] == password
  }

  /**
   * The login button: when the stored value under the username equals the password,
   * `logged_in_user` becomes the username (replacing any current session); otherwise
   * "Invalid credentials" and nothing is written.
   */
  method Login(prefs: Preferences, username: string, password: string) returns (ok: bool)
    modifies prefs
    ensures ok <==> PasswordMatches(old(prefs.credentials), username, password)
    ensures ok ==> prefs.credentials == old(prefs.credentials)[LoggedInUserKey := username]
    ensures ok ==> SessionOf(prefs.credentials) == LoggedIn(username)
    ensures !ok ==> prefs.credentials == old(prefs.credentials)
    ensures prefs.reports == old(prefs.reports) && prefs.theme == old(prefs.theme)
  {
    var saved := if username in prefs.credentials then Some(prefs.credentials[username]) else None;
    ok := saved.Some? && saved.value == password;
    if ok {
      prefs.credentials := prefs.credentials[LoggedInUserKey := username];
    }
  }

  /** The credential file after logout: both reserved keys gone, every other entry kept. */
  function LoggedOut(credentials: map<string, string>): (c: map<string, string>)
    ensures LoggedInUserKey !in c && ProfilePictureKey !in c
    ensures forall k :: k != LoggedInUserKey && k != ProfilePictureKey ==> (k in c <==> k in credentials)
    ensures forall k :: k in c ==> k in credentials && c[k] == credentials[k]
  {
    credentials - {LoggedInUserKey, ProfilePictureKey}
  }

  /** The logout button: `remove("logged_in_user")` and `remove("profile_picture_uri")`. */
  method Logout(prefs: Preferences)
    modifies prefs
    ensures prefs.credentials == LoggedOut(old(prefs.credentials))
    ensures prefs.reports == old(prefs.reports) && prefs.theme == old(prefs.theme)
  {
    prefs.credentials := prefs.credentials - {LoggedInUserKey};
    prefs.credentials := prefs.credentials - {ProfilePictureKey};
  }

  /** The credential file without its profile picture entry; every other entry kept. */
  function WithoutPicture(credentials: map<string, string>): (c: map<string, string>)
    ensures ProfilePictureKey !in c
    ensures forall k :: k != ProfilePictureKey ==> (k in c <==> k in credentials)
    ensures forall k :: k in c ==> k in credentials && c[k] == credentials[k]
  {
    credentials - {ProfilePictureKey}
  }

  /** `removeProfilePicture`: only `profile_picture_uri` is removed. */
  method RemoveProfilePicture(prefs: Preferences)
    modifies prefs
    ensures prefs.credentials == WithoutPicture(old(prefs.credentials))
    ensures ProfilePicture(prefs.credentials) == PlaceholderPicture(Prometheus)
    ensures prefs.reports == old(prefs.reports) && prefs.theme == old(prefs.theme)
  {
    prefs.credentials := prefs.credentials - {ProfilePictureKey};
  }

  /**
   * The image picker's result: a chosen URI is stored under `profile_picture_uri`;
   * cancelling (no URI) changes nothing.
   */
  method OnImageSelected(prefs: Preferences, uri: Option<string>)
    modifies prefs
    ensures uri.Some? ==> prefs.credentials == old(prefs.credentials)[ProfilePictureKey := uri.value]
    ensures uri.Some? ==> ProfilePicture(prefs.credentials) == UriPicture(uri.value)
    ensures uri.None? ==> prefs.credentials == old(prefs.credentials)
    ensures prefs.reports == old(prefs.reports) && prefs.theme == old(prefs.theme)
  {
    if uri.Some? {
      prefs.credentials := prefs.credentials[ProfilePictureKey := uri.value];
    }
  }

  /**
   * The change-info sheet's save button: a non-empty name replaces `logged_in_user`;
   * the password entry stays under the old name. An empty name is rejected.
   */
  method ChangeUsername(prefs: Preferences, newName: string) returns (ok: bool)
    modifies prefs
    ensures ok <==> newName != ""
    ensures ok ==> prefs.credentials == old(prefs.credentials)[LoggedInUserKey := newName]
    ensures !ok ==> prefs.credentials == old(prefs.credentials)
    ensures prefs.reports == old(prefs.reports) && prefs.theme == old(prefs.theme)
  {
    ok := newName != "";
    if ok {
      prefs.credentials := prefs.credentials[LoggedInUserKey := newName];
    }
  }

  /** `deleteAccount`: the whole credential file is cleared, every user's entry included. */
  method DeleteAccount(prefs: Preferences)
    modifies prefs
    ensures prefs.credentials == map[]
    ensures SessionOf(prefs.credentials) == Guest
    ensures prefs.reports == old(prefs.reports) && prefs.theme == old(prefs.theme)
  {
    prefs.credentials := map[];
  }

  /** A registered user can log in with the password just registered, and only with it. */
  lemma RegisteredCanLogIn(credentials: map<string, string>, username: string, password: string, other: string)
    ensures PasswordMatches(credentials[username := password], username, other) <==> other == password
  {
  }

  /** Registering a name that is not the session key leaves the session as it was. */
  lemma RegisterDoesNotLogIn(credentials: map<string, string>, username: string, password: string)
    requires username != LoggedInUserKey
    ensures SessionOf(credentials[username := password]) == SessionOf(credentials)
  {
  }

  /**
   * Usernames share the key space with the reserved keys: registering the name
   * "logged_in_user" makes its password the session user, and registering
   * "profile_picture_uri" makes its password the stored picture.
   */
  lemma RegisterReservedNames(credentials: map<string, string>, password: string)
    ensures SessionOf(credentials[LoggedInUserKey := password]) == LoggedIn(password)
    ensures ProfilePicture(credentials[ProfilePictureKey := password]) == UriPicture(password)
  {
  }

  /**
   * In a session, the name "logged_in_user" logs in with the current user's name as its
   * password, and the session user then becomes "logged_in_user".
   */
  lemma SessionKeyLogsIn(credentials: map<string, string>)
    requires LoggedInUserKey in credentials
    ensures PasswordMatches(credentials, LoggedInUserKey, credentials[LoggedInUserKey])
    ensures SessionOf(credentials[LoggedInUserKey := LoggedInUserKey]) == LoggedIn(LoggedInUserKey)
  {
  }

  /** Logout ends the session and keeps every account's password. */
  lemma LogoutKeepsAccounts(credentials: map<string, string>, username: string, password: string)
    requires username != LoggedInUserKey && username != ProfilePictureKey
    ensures SessionOf(LoggedOut(credentials)) == Guest
    ensures PasswordMatches(LoggedOut(credentials), username, password) <==>
            PasswordMatches(credentials, username, password)
  {
  }

  /**
   * Renaming moves only the session: the old name still logs in with its password, and
   * a new name that was never registered has no password at all.
   */
  lemma RenameKeepsPasswordUnderOldName(credentials: map<string, string>, oldName: string,
                                        newName: string, password: string)
    requires oldName != LoggedInUserKey && PasswordMatches(credentials, oldName, password)
    requires newName !in credentials && newName != LoggedInUserKey
    ensures SessionOf(credentials[LoggedInUserKey := newName]) == LoggedIn(newName)
    ensures PasswordMatches(credentials[LoggedInUserKey := newName], oldName, password)
    ensures !PasswordMatches(credentials[LoggedInUserKey := newName], newName, password)
    ensures newName !in credentials[LoggedInUserKey := newName]
  {
  }

  /** After the account is deleted, nobody can log in. */
  lemma DeletedAccountsCannotLogIn(username: string, password: string)
    ensures !PasswordMatches(map[], username, password)
  {
  }
}
