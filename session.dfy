/**
 * The session as every screen derives it from the "user_credentials" file: logged in
 * as the value under `logged_in_user` when that key is present, a guest otherwise;
 * and the texts and images the screens choose from it.
 */
module Session {
  import opened Storage

  datatype Session = Guest | LoggedIn(user: string)

  /** `getString("logged_in_user", null)`, read as a session. */
  function SessionOf(credentials: map<string, string>): (s: Session)
    ensures s.LoggedIn? <==> LoggedInUserKey in credentials
    ensures s.LoggedIn? ==> s.user == credentials[LoggedInUserKey]
  {
    if LoggedInUserKey in credentials then LoggedIn(credentials[LoggedInUserKey]) else Guest
  }

  const WelcomePrefix: string := "Welcome, "

  /** MainActivity's `updateWelcomeText`. */
  function WelcomeText(s: Session): string
  {
    match s
    case LoggedIn(user) => WelcomePrefix + user
    case Guest => WelcomePrefix + "Guest"
  }

  /** SettingsActivity's login card title. */
  function LoginTitle(s: Session): string
  {
    match s
    case LoggedIn(user) => WelcomePrefix + user
    case Guest => "Login"
  }

  /** ProfileActivity's `getString("logged_in_user", "Username")`. */
  function DisplayedUsername(credentials: map<string, string>): string
  {
    if LoggedInUserKey in credentials then credentials[LoggedInUserKey] else "Username"
  }

  /** The two placeholder images of the settings login card. */
  datatype Placeholder = Prometheus | Stelle

  /** `if (isLoggedIn) R.drawable.prometheus else R.drawable.stelle`. */
  function PlaceholderFor(s: Session): Placeholder
  {
    if s.LoggedIn? then Prometheus else Stelle
  }

  /** What a profile image view shows: the stored picture URI, or a drawable placeholder. */
  datatype Picture = UriPicture(uri: string) | PlaceholderPicture(placeholder: Placeholder)

  /**
   * ProfileActivity's `updateProfileUI` picture: the stored URI when there is one, the
   * `prometheus` drawable otherwise (whatever the session).
   */
  function ProfilePicture(credentials: map<string, string>): (p: Picture)
    ensures p.UriPicture? <==> ProfilePictureKey in credentials
    ensures p.UriPicture? ==> p.uri == credentials[ProfilePictureKey]
    ensures p.PlaceholderPicture? ==> p.placeholder == Prometheus
  {
    if ProfilePictureKey in credentials then UriPicture(credentials[ProfilePictureKey])
    else PlaceholderPicture(Prometheus)
  }

  /** The welcome text names the logged-in user: different users get different texts. */
  lemma WelcomeTextNamesUser(u: string, v: string)
    ensures WelcomeText(LoggedIn(u)) == WelcomeText(LoggedIn(v)) <==> u == v
  {
    if WelcomeText(LoggedIn(u)) == WelcomeText(LoggedIn(v)) {
      assert u == WelcomeText(LoggedIn(u))[|WelcomePrefix|..];
      assert v == WelcomeText(LoggedIn(v))[|WelcomePrefix|..];
    }
  }

  /**
   * The welcome text cannot tell a guest from a user who registered the name "Guest";
   * the settings title can, since a guest sees "Login".
   */
  lemma GuestNamedGuest()
    ensures WelcomeText(LoggedIn("Guest")) == WelcomeText(Guest)
    ensures LoginTitle(LoggedIn("Guest")) != LoginTitle(Guest)
  {
  }

  /** The session and the profile's displayed username agree on who is logged in. */
  lemma DisplayedUsernameOfSession(credentials: map<string, string>)
    ensures SessionOf(credentials).LoggedIn? ==>
      DisplayedUsername(credentials) == SessionOf(credentials).user
    ensures SessionOf(credentials).Guest? ==> DisplayedUsername(credentials) == "Username"
  {
  }
}
