/**
 * The app's three preference files and the report-list load/save protocol every screen
 * repeats.
 *
 * Android's SharedPreferences are modelled as one object holding three finite maps, one
 * per file: "reports" (only `report_list` is ever written there by the screens),
 * "user_credentials" (usernames mapped to passwords, plus two reserved keys) and
 * "theme_prefs" (the `is_dark_mode` flag). Each write is immediate and atomic.
 */
module Storage {
  import opened Wrappers
  import opened ReportModel
  import opened ReportCodec

  /** Key of the report list in the "reports" file. */
  const ReportListKey: string := "report_list"
  /** Key of the current session's username in the "user_credentials" file. */
  const LoggedInUserKey: string := "logged_in_user"
  /** Key of the profile picture URI in the "user_credentials" file. */
  const ProfilePictureKey: string := "profile_picture_uri"
  /** Key of the theme flag in the "theme_prefs" file. */
  const DarkModeKey: string := "is_dark_mode"

  class Preferences {
    /** The "reports" preference file. */
    var reports: map<string, string>
    /** The "user_credentials" preference file. */
    var credentials: map<string, string>
    /** The "theme_prefs" preference file. */
    var theme: map<string, bool>

    /** A fresh install: all three files empty. */
    constructor ()
      ensures reports == map[] && credentials == map[] && theme == map[]
    {
      reports, credentials, theme := map[], map[], map[];
    }
  }

  /** The outcome of reading the report list: the list, or text Gson cannot parse. */
  datatype LoadResult = Loaded(list: seq<Report>) | Unparsable

  /**
   * `Gson().fromJson(getString("report_list", null), ...) ?: emptyList()`: an absent
   * entry reads as the empty list; a present one is decoded, or is unparsable.
   */
  function ReadReportList(file: map<string, string>): (r: LoadResult)
    ensures ReportListKey !in file ==> r == Loaded([])
    ensures ReportListKey in file ==>
      (r.Loaded? <==> Decode(file[ReportListKey]).Some?) &&
      (r.Loaded? ==> Decode(file[ReportListKey]) == Some(r.list))
  {
    if ReportListKey !in file then Loaded([])
    else
      match Decode(file[ReportListKey])
      case Some(list) => Loaded(list)
      case None => Unparsable
  }

  /**
   * `putString("report_list", Gson().toJson(reports))`: the whole list replaces the
   * stored one; every other entry of the file is kept.
   */
  function WriteReportList(file: map<string, string>, list: seq<Report>): (file': map<string, string>)
    ensures ReportListKey in file'
    ensures forall k :: k != ReportListKey ==> (k in file' <==> k in file)
    ensures forall k :: k in file && k != ReportListKey ==> file'[k] == file[k]
  {
    file[ReportListKey := Encode(list)]
  }

  /** Loading after a save gives back exactly the saved list. */
  lemma LoadAfterSave(file: map<string, string>, list: seq<Report>)
    ensures ReadReportList(WriteReportList(file, list)) == Loaded(list)
  {
    DecodeEncode(list);
  }

  /**
   * Last writer wins: a save replaces the whole list, so whatever an earlier save
   * stored, a later one from a stale copy is all that can be loaded afterwards.
   */
  lemma LastWriterWins(file: map<string, string>, earlier: seq<Report>, later: seq<Report>)
    ensures ReadReportList(WriteReportList(WriteReportList(file, earlier), later)) == Loaded(later)
  {
    LoadAfterSave(WriteReportList(file, earlier), later);
  }

  /** A file that was cleared reads as the empty list. */
  lemma LoadCleared()
    ensures ReadReportList(map[]) == Loaded([])
  {
  }
}
