/**
 * The settings screen (SettingsActivity.kt): the theme switch and its flag in
 * "theme_prefs", clearing the report file, and the login card's title and picture,
 * whose unreadable picture URI is removed from the credential file.
 */
module Settings {
  import opened Wrappers
  import opened Storage
  import opened Session
  import opened Credentials

  /** `getBoolean("is_dark_mode", false)`: the switch's initial state. */
  function ThemeSwitchChecked(theme: map<string, bool>): (checked: bool)
    ensures DarkModeKey in theme ==> checked == theme[DarkModeKey]
    ensures DarkModeKey !in theme ==> !checked
  {
    if DarkModeKey in theme then theme[DarkModeKey] else false
  }

  /** The switch's listener: `putBoolean("is_dark_mode", isChecked)`. */
  method OnThemeToggled(prefs: Preferences, checked: bool)
    modifies prefs
    ensures prefs.theme == old(prefs.theme)[DarkModeKey := checked]
    ensures ThemeSwitchChecked(prefs.theme) == checked
    ensures prefs.reports == old(prefs.reports) && prefs.credentials == old(prefs.credentials)
  {
    prefs.theme := prefs.theme[DarkModeKey := checked];
  }

  /** The "Clear" button of the clear-report-data dialog: the report file is emptied. */
  method ClearReportData(prefs: Preferences)
    modifies prefs
    ensures prefs.reports == map[]
    ensures ReadReportList(prefs.reports) == Loaded([])
    ensures prefs.credentials == old(prefs.credentials) && prefs.theme == old(prefs.theme)
  {
    prefs.reports := map[];
  }

  /**
   * The login card's picture: the stored URI when the image view can read it, the
   * session's placeholder otherwise (no URI, or reading it threw a SecurityException).
   */
  function CardPicture(credentials: map<string, string>, readable: bool): (p: Picture)
    ensures p.UriPicture? <==> ProfilePictureKey in credentials && readable
    ensures p.UriPicture? ==> p.uri == credentials[ProfilePictureKey]
    ensures p.PlaceholderPicture? ==> p.placeholder == PlaceholderFor(SessionOf(credentials))
  {
    if ProfilePictureKey in credentials && readable then UriPicture(credentials[ProfilePictureKey])
    else PlaceholderPicture(PlaceholderFor(SessionOf(credentials)))
  }

  /**
   * `updateLoginSettingUI` with `setProfileImageWithFallback`: the title follows the
   * session; a stored URI that cannot be read is removed and the placeholder shown.
   * `readable` stands for whether `setImageURI` succeeds on the stored URI.
   */
  method UpdateLoginSettingUI(prefs: Preferences, readable: bool)
    returns (title: string, picture: Picture)
    modifies prefs
    ensures title == LoginTitle(SessionOf(old(prefs.credentials)))
    ensures picture == CardPicture(old(prefs.credentials), readable)
    ensures ProfilePictureKey in old(prefs.credentials) && !readable ==>
      prefs.credentials == WithoutPicture(old(prefs.credentials))
    ensures ProfilePictureKey !in old(prefs.credentials) || readable ==>
      prefs.credentials == old(prefs.credentials)
    ensures SessionOf(prefs.credentials) == SessionOf(old(prefs.credentials))
    ensures prefs.reports == old(prefs.reports) && prefs.theme == old(prefs.theme)
  {
    var loggedInUser := if LoggedInUserKey in prefs.credentials then Some(prefs.credentials[LoggedInUserKey]) else None;
    var isLoggedIn := LoggedInUserKey in prefs.credentials;
    var placeholder := if isLoggedIn then Prometheus else Stelle;
    if ProfilePictureKey in prefs.credentials {
      if readable {
        picture := UriPicture(prefs.credentials[ProfilePictureKey]);
      } else {
        prefs.credentials := prefs.credentials - {ProfilePictureKey};
        picture := PlaceholderPicture(placeholder);
      }
    } else {
      picture := PlaceholderPicture(placeholder);
    }
    if loggedInUser.Some? {
      title := WelcomePrefix + loggedInUser.value;
    } else {
      title := "Login";
    }
  }

  /**
   * The fallback settles in one step: after an unreadable URI was removed, the next
   * refresh shows the same placeholder and writes nothing, since no URI is left.
   */
  lemma FallbackSettles(credentials: map<string, string>, readable: bool)
    ensures var after := if ProfilePictureKey in credentials && !readable then WithoutPicture(credentials) else credentials;
      CardPicture(after, readable) == CardPicture(credentials, readable) &&
      (ProfilePictureKey !in after || readable)
  {
  }

  /** The card's placeholder tells a session from a guest; the profile screen's does not. */
  lemma PlaceholdersDiffer(credentials: map<string, string>)
    requires ProfilePictureKey !in credentials
    ensures CardPicture(credentials, true) == PlaceholderPicture(Prometheus) <==> LoggedInUserKey in credentials
    ensures ProfilePicture(credentials) == PlaceholderPicture(Prometheus)
  {
  }
}
