# Pile Locator 2000: a model of the report store and its screens

This project models, in Dafny, the stored data of the Pile Locator 2000 Android app and
every screen action that reads or writes it.

- **The report record** (`Report.kt`): a datatype of seven fields. `status` defaults to
  "Pending" and is the only field the app changes.
- **The three preference files** ("reports", "user_credentials", "theme_prefs"): one
  `Preferences` object holding three finite maps. Each write is immediate and atomic.
- **The stored report list** under `report_list`. Every screen repeats the same protocol:
  load the whole list (absent = empty), change it, write the whole list back. The JSON
  text Gson writes is replaced by a small text codec whose round trip is proved. So
  "load after save gives the saved list" is a theorem here, not an assumption.
- **The report screens** are classes with their activities' fields:
  - `ReportActivity` appends a validated report;
  - `ReportDetailActivity` finds a report by id, then marks it finished or removes it;
  - `ManagerActivity` reloads and shows the empty state;
  - `MainActivity` replaces the map's markers with one per stored report.

  The Kotlin `report` alias into the detail screen's list is modelled as a position in
  that list.
- **The read-side projections**: markers, list rows, dimmed/highlighted decisions, the
  empty-state flag, and the greeting, button and title choices that depend on the session.
- **The account and settings actions**, modelled as methods on the preference files:
  - register, login, logout, rename, profile picture and account deletion;
  - the theme flag and clearing the report data;
  - the settings card's picture fallback.

  The session is Guest or LoggedIn, read from `logged_in_user`. Usernames share one key
  space with the reserved keys `logged_in_user` and `profile_picture_uri`.
- **The debug backup**:
  - export builds one object from both files;
  - import works file by file: clear, then write every entry's `toString()`.

  It is modelled stage by stage, including what a failure part-way leaves behind.
- **Runs over several screens**: the lost update of a stale detail screen, the same steps
  taken one after another, and an end-to-end run (save, map, mark, list, delete).

Inputs that come from outside the app are parameters of the model:
- the clock value stamped on a new report;
- the photo file URI, or its absence;
- the location fixes and the location permission;
- whether an image URI can be read;
- the image picker's result;
- the backup document as Gson parsed it.

## Model

| member | source | states |
|---|---|---|
| ReportModel.NewReport | app/src/main/java/com/hanashiro/pilelocator2000/Report.kt:18-26 | A report built without a status has status "Pending" and carries exactly the six given fields. |
| ReportModel.WithStatus | app/src/main/java/com/hanashiro/pilelocator2000/Report.kt:25 | Assigning `status` changes the status only; id, coordinates, photo, description and trash type are kept. |
| ReportModel.WithSameStatus | app/src/main/java/com/hanashiro/pilelocator2000/Report.kt:25 | Assigning a report its own status gives back the same report. |
| ReportModel.ReportEquality | app/src/main/java/com/hanashiro/pilelocator2000/Report.kt:18-26 | Two reports are equal iff all seven fields are equal (data-class equality). |
| ReportCodec.DecodeEncode | app/src/main/java/com/hanashiro/pilelocator2000/ReportActivity.kt:276-283 | Decoding the text written for any list of reports gives back that list exactly (the `toJson`/`fromJson` round trip). |
| ReportCodec.DecodeCanonical | app/src/main/java/com/hanashiro/pilelocator2000/ReportActivity.kt:276-278 | Any text that decodes is exactly the encoding of the list it decodes to, so every other text is rejected rather than read as some list. |
| ReportCodec.NotAList | app/src/main/java/com/hanashiro/pilelocator2000/ReportActivity.kt:276-278 | The text "[" (an unterminated array) is rejected. |
| Storage.ReadReportList | app/src/main/java/com/hanashiro/pilelocator2000/ReportDetailActivity.kt:105-111 | An absent `report_list` reads as the empty list; a present one is the decoded list, or unparsable exactly when decoding fails. |
| Storage.WriteReportList | app/src/main/java/com/hanashiro/pilelocator2000/ReportDetailActivity.kt:116-121 | Saving sets `report_list` and keeps every other entry of the "reports" file. |
| Storage.LoadAfterSave | app/src/main/java/com/hanashiro/pilelocator2000/ReportDetailActivity.kt:105-121 | Loading right after saving a list gives back exactly that list. |
| Storage.LastWriterWins | app/src/main/java/com/hanashiro/pilelocator2000/ReportDetailActivity.kt:116-121 | After two saves only the later list can be loaded, whatever the earlier one held. |
| Storage.LoadCleared | app/src/main/java/com/hanashiro/pilelocator2000/SettingsActivity.kt:195-197 | A cleared "reports" file reads as the empty list. |
| ReportLists.FindById | app/src/main/java/com/hanashiro/pilelocator2000/ReportDetailActivity.kt:61 | `find { it.id == id }` gives the first position holding the id, and none exactly when no report has it. |
| ReportLists.FindByIdAfterAppend | app/src/main/java/com/hanashiro/pilelocator2000/ReportDetailActivity.kt:57-61 | Appending reports never changes a lookup that already succeeds. |
| ReportLists.RemoveFirst | app/src/main/java/com/hanashiro/pilelocator2000/ReportDetailActivity.kt:82 | `remove(x)` leaves a list without `x` unchanged and otherwise shortens it by exactly one. |
| ReportLists.RemoveFirstAt | app/src/main/java/com/hanashiro/pilelocator2000/ReportDetailActivity.kt:82 | The element `remove(x)` drops is the first one equal to `x`; the others keep their order. |
| ReportLists.RemoveFound | app/src/main/java/com/hanashiro/pilelocator2000/ReportDetailActivity.kt:81-83 | Removing the found report drops exactly its position, since no earlier report can equal it. |
| ReportLists.MarkFinishedAt | app/src/main/java/com/hanashiro/pilelocator2000/ReportDetailActivity.kt:74 | Marking position `k` finished sets that report's status to "Finished" and keeps its other fields and every other report. |
| ReportLists.MarkFinishedIdempotent | app/src/main/java/com/hanashiro/pilelocator2000/ReportDetailActivity.kt:73-76 | Marking the same report finished twice gives the same list as once. |
| ReportLists.MarkFinishedIsOneWay | app/src/main/java/com/hanashiro/pilelocator2000/ReportDetailActivity.kt:73-86 | A finished report stays finished, and no report becomes "Pending" by being marked. |
| ReportLists.MarkFinishedKeepsFirst | app/src/main/java/com/hanashiro/pilelocator2000/ReportDetailActivity.kt:73-76 | After marking, the shown position is still the first with its id. |
| ReportLists.FindOwnId | app/src/main/java/com/hanashiro/pilelocator2000/ReportDetailActivity.kt:61 | With distinct ids, looking up a report's id finds that very report. |
| ReportLists.SharedIdFindsEarlier | app/src/main/java/com/hanashiro/pilelocator2000/ReportDetailActivity.kt:61 | Ids are not checked; when two reports share one, the lookup finds the earlier. |
| ReportScreen.ReportActivity.constructor | app/src/main/java/com/hanashiro/pilelocator2000/ReportActivity.kt:48-50 | A fresh form has no photo and its marker at (0.0, 0.0). |
| ReportScreen.ReportActivity.UpdateMarkerPosition | app/src/main/java/com/hanashiro/pilelocator2000/ReportActivity.kt:157-159 | A map tap moves the coordinates to the tapped point and keeps the photo. |
| ReportScreen.ReportActivity.GetLocation | app/src/main/java/com/hanashiro/pilelocator2000/ReportActivity.kt:245-260 | The GPS fix, else the network fix, moves the marker; without permission or a fix nothing changes. |
| ReportScreen.ReportActivity.DispatchTakePictureIntent | app/src/main/java/com/hanashiro/pilelocator2000/ReportActivity.kt:193-210 | When the image file could be created its URI becomes the photo; otherwise nothing changes. |
| ReportScreen.ReportActivity.SaveReport | app/src/main/java/com/hanashiro/pilelocator2000/ReportActivity.kt:265-288 | Rejected, with the store unchanged, iff there is no photo, no description or no trash type; otherwise the stored list (absent = empty) gains exactly one report at its end, stamped with the clock value, the form's fields and "Pending"; the other files are unchanged. |
| ReportDetail.ReportDetailActivity.constructor | app/src/main/java/com/hanashiro/pilelocator2000/ReportDetailActivity.kt:56-61 | The local list is the stored list (absent = empty) and the shown report is the first with the requested id (default -1), or none. |
| ReportDetail.ReportDetailActivity.MarkFinished | app/src/main/java/com/hanashiro/pilelocator2000/ReportDetailActivity.kt:73-78 | With a shown report, its status becomes "Finished" in the local list and the whole list is saved; with none, nothing is written. |
| ReportDetail.ReportDetailActivity.Delete | app/src/main/java/com/hanashiro/pilelocator2000/ReportDetailActivity.kt:81-86 | With a shown report, exactly its position is removed, the rest keep their order, and the whole list is saved. |
| ReportDetail.ReportDetailActivity.SaveReports | app/src/main/java/com/hanashiro/pilelocator2000/ReportDetailActivity.kt:116-121 | The entire local copy replaces the stored list; loading then gives the local copy. |
| Manager.ManagerActivity.constructor | app/src/main/java/com/hanashiro/pilelocator2000/ManagerActivity.kt:30-56 | The screen opens with the stored list and the empty view shown iff it is empty. |
| Manager.ManagerActivity.LoadReports | app/src/main/java/com/hanashiro/pilelocator2000/ManagerActivity.kt:61-67 | The local list is replaced wholesale by the stored list, in stored order (absent = empty). |
| Manager.ManagerActivity.UpdateEmptyView | app/src/main/java/com/hanashiro/pilelocator2000/ManagerActivity.kt:72-80 | Exactly one of list and empty view is visible, the empty view iff there are no reports. |
| Manager.ManagerActivity.Resume | app/src/main/java/com/hanashiro/pilelocator2000/ManagerActivity.kt:85-90 | Every resume reloads from the store and recomputes the empty state. |
| Manager.ManagerActivity.OnRowClick | app/src/main/java/com/hanashiro/pilelocator2000/ManagerActivity.kt:47-51 | Clicking row `i` hands the id of report `i` to the detail screen. |
| ReportAdapter.ItemCount | app/src/main/java/com/hanashiro/pilelocator2000/ReportAdapter.kt:44 | The row count is the list length; zero iff the list is empty. |
| ReportAdapter.BoundReport | app/src/main/java/com/hanashiro/pilelocator2000/ReportAdapter.kt:36-38 | The row at a valid position is bound to the report at that position of the list, and a click on it hands back that same report (see `ReportAdapter.Clicked`). |
| ReportAdapter.Clicked | app/src/main/java/com/hanashiro/pilelocator2000/ReportAdapter.kt:93 | A click hands back exactly the report bound to that row. |
| ReportAdapter.Fold | app/src/main/java/com/hanashiro/pilelocator2000/ReportAdapter.kt:73 | Case folding maps each lower-case ASCII letter to its upper-case letter and leaves every other character as it is. |
| ReportAdapter.FoldEqual | app/src/main/java/com/hanashiro/pilelocator2000/ReportAdapter.kt:73 | Two characters fold alike iff they are equal or the same ASCII letter in the other case. |
| ReportAdapter.EqualsIgnoreCaseMeans | app/src/main/java/com/hanashiro/pilelocator2000/ReportAdapter.kt:73 | `equals(ignoreCase = true)` holds iff the lengths agree and each pair of characters is equal or the same ASCII letter in the other case. |
| ReportAdapter.EqualsIgnoreCaseIsEquivalence | app/src/main/java/com/hanashiro/pilelocator2000/ReportAdapter.kt:73 | Comparing while ignoring case is reflexive, symmetric and transitive. |
| ReportAdapter.DimmedInAnyCase | app/src/main/java/com/hanashiro/pilelocator2000/ReportAdapter.kt:73-77 | A row is dimmed iff its status spells "Finished" with each letter in either case; "FINISHED" and "finished" are such statuses. |
| ReportAdapter.NewReportNotDimmed | app/src/main/java/com/hanashiro/pilelocator2000/ReportAdapter.kt:73-77 | A new report ("Pending") is not dimmed. |
| ReportAdapter.MarkedFinishedIsDimmed | app/src/main/java/com/hanashiro/pilelocator2000/ReportAdapter.kt:73-77 | The report just marked finished is dimmed. |
| ReportAdapter.MarkFinishedKeepsHighlight | app/src/main/java/com/hanashiro/pilelocator2000/ReportAdapter.kt:80-90 | Marking finished never changes whether a row is highlighted. |
| ReportAdapter.Background | app/src/main/java/com/hanashiro/pilelocator2000/ReportAdapter.kt:80-90 | The hazard tint is chosen iff the trash type is "Hazardous" ignoring case, else the theme default, in the current theme. |
| MainMap.Markers | app/src/main/java/com/hanashiro/pilelocator2000/MainActivity.kt:210-216 | One marker per report. |
| MainMap.MarkerAt | app/src/main/java/com/hanashiro/pilelocator2000/MainActivity.kt:211-214 | Marker `i` stands at report `i`'s coordinates, is titled with its description and has the one report icon. |
| MainMap.MarkersSnoc | app/src/main/java/com/hanashiro/pilelocator2000/MainActivity.kt:210-216 | Each loop pass appends the next report's marker. |
| MainMap.WithoutMarkers | app/src/main/java/com/hanashiro/pilelocator2000/MainActivity.kt:208 | `removeAll { it is Marker }` leaves no marker. |
| MainMap.WithoutMarkersKeeps | app/src/main/java/com/hanashiro/pilelocator2000/MainActivity.kt:208 | An overlay survives the removal iff it was there and is not a marker. |
| MainMap.WithoutMarkersAppend | app/src/main/java/com/hanashiro/pilelocator2000/MainActivity.kt:208 | Removing markers from two lists joined is joining the two lists with markers removed. |
| MainMap.WithoutMarkersOfMarkers | app/src/main/java/com/hanashiro/pilelocator2000/MainActivity.kt:208-216 | Removing markers from a list of report markers leaves nothing. |
| MainMap.WithoutMarkersIdempotent | app/src/main/java/com/hanashiro/pilelocator2000/MainActivity.kt:208 | Removing markers twice is removing them once. |
| MainMap.ReloadIdempotent | app/src/main/java/com/hanashiro/pilelocator2000/MainActivity.kt:201-217 | Loading the same list twice gives the same overlays as loading it once: no duplicate markers, other overlays kept. |
| MainMap.MainActivity.constructor | app/src/main/java/com/hanashiro/pilelocator2000/MainActivity.kt:59-123 | The map opens with the greeting and buttons of the session and the my-location overlay followed by one marker per stored report. |
| MainMap.MainActivity.LoadReports | app/src/main/java/com/hanashiro/pilelocator2000/MainActivity.kt:201-217 | The overlays become the old non-marker overlays followed by one marker per stored report, in order; an unreadable list leaves them as they were. |
| MainMap.MainActivity.UpdateButtonStates | app/src/main/java/com/hanashiro/pilelocator2000/MainActivity.kt:143-150 | Both buttons are enabled iff `logged_in_user` is present. |
| MainMap.MainActivity.UpdateWelcomeText | app/src/main/java/com/hanashiro/pilelocator2000/MainActivity.kt:129-138 | The greeting is "Welcome, <user>" in a session and "Welcome, Guest" otherwise. |
| MainMap.MainActivity.Resume | app/src/main/java/com/hanashiro/pilelocator2000/MainActivity.kt:222-230 | A resume recomputes greeting and buttons from the stores, and replaces the markers with the stored list's iff it reads; otherwise the overlays are unchanged. |
| Session.SessionOf | app/src/main/java/com/hanashiro/pilelocator2000/MainActivity.kt:143-146 | The session is a login iff `logged_in_user` is present, as the user stored there. |
| Session.WelcomeTextNamesUser | app/src/main/java/com/hanashiro/pilelocator2000/MainActivity.kt:133-134 | Different users get different greetings. |
| Session.GuestNamedGuest | app/src/main/java/com/hanashiro/pilelocator2000/SettingsActivity.kt:136-152 | A user named "Guest" is greeted like a guest on the map, but the settings title tells them apart ("Login"). |
| Session.DisplayedUsernameOfSession | app/src/main/java/com/hanashiro/pilelocator2000/ProfileActivity.kt:125 | The profile shows the session user, and "Username" without a session. |
| Session.ProfilePicture | app/src/main/java/com/hanashiro/pilelocator2000/ProfileActivity.kt:122-133 | The profile shows the stored picture URI when there is one, the `prometheus` placeholder otherwise. |
| Credentials.Register | app/src/main/java/com/hanashiro/pilelocator2000/RegisterActivity.kt:29-54 | Rejected with the store unchanged iff a field is empty, or the password differs from its confirmation; otherwise the username maps to the password (overwriting), nothing else changes and registering does not log the new user in. |
| Credentials.Login | app/src/main/java/com/hanashiro/pilelocator2000/LoginActivity.kt:24-48 | Succeeds iff a value is stored under the username and equals the password; then `logged_in_user` becomes the username and nothing else changes; on failure nothing changes. |
| Credentials.LoggedOut | app/src/main/java/com/hanashiro/pilelocator2000/ProfileActivity.kt:82-86 | Logout removes `logged_in_user` and `profile_picture_uri` and keeps every other entry. |
| Credentials.Logout | app/src/main/java/com/hanashiro/pilelocator2000/ProfileActivity.kt:80-95 | The credential file becomes its logged-out form; the other files are unchanged. |
| Credentials.WithoutPicture | app/src/main/java/com/hanashiro/pilelocator2000/ProfileActivity.kt:154-156 | Removing the picture deletes only `profile_picture_uri`. |
| Credentials.RemoveProfilePicture | app/src/main/java/com/hanashiro/pilelocator2000/ProfileActivity.kt:154-159 | Only `profile_picture_uri` is removed, and the placeholder is shown. |
| Credentials.OnImageSelected | app/src/main/java/com/hanashiro/pilelocator2000/ProfileActivity.kt:31-43 | A chosen URI is stored under `profile_picture_uri` and shown; no URI changes nothing. |
| Credentials.ChangeUsername | app/src/main/java/com/hanashiro/pilelocator2000/ProfileActivity.kt:176-189 | Succeeds iff the name is non-empty; then only `logged_in_user` is rewritten. |
| Credentials.DeleteAccount | app/src/main/java/com/hanashiro/pilelocator2000/ProfileActivity.kt:211-221 | The whole credential file is cleared, other users included, and the session ends. |
| Credentials.RegisteredCanLogIn | app/src/main/java/com/hanashiro/pilelocator2000/RegisterActivity.kt:40 | After registering, the name logs in with the new password and no other. |
| Credentials.RegisterDoesNotLogIn | app/src/main/java/com/hanashiro/pilelocator2000/RegisterActivity.kt:38-41 | Registering an ordinary name leaves the session as it was. |
| Credentials.RegisterReservedNames | app/src/main/java/com/hanashiro/pilelocator2000/RegisterActivity.kt:40 | Registering "logged_in_user" or "profile_picture_uri" overwrites the session user or the picture with the password. |
| Credentials.SessionKeyLogsIn | app/src/main/java/com/hanashiro/pilelocator2000/LoginActivity.kt:30-37 | In a session, the name "logged_in_user" logs in with the current user's name as password. |
| Credentials.LogoutKeepsAccounts | app/src/main/java/com/hanashiro/pilelocator2000/ProfileActivity.kt:82-86 | Logout ends the session and keeps every account's password. |
| Credentials.RenameKeepsPasswordUnderOldName | app/src/main/java/com/hanashiro/pilelocator2000/ProfileActivity.kt:177-188 | After a rename the old name still logs in with its password and an unregistered new name has no password. |
| Credentials.DeletedAccountsCannotLogIn | app/src/main/java/com/hanashiro/pilelocator2000/ProfileActivity.kt:211-213 | After the account is deleted nobody can log in. |
| Settings.ThemeSwitchChecked | app/src/main/java/com/hanashiro/pilelocator2000/SettingsActivity.kt:62-63 | The switch starts at the stored `is_dark_mode`, false when absent. |
| Settings.OnThemeToggled | app/src/main/java/com/hanashiro/pilelocator2000/SettingsActivity.kt:65-69 | Toggling stores `is_dark_mode` = the new state, so the switch reads it back; other files unchanged. |
| Settings.ClearReportData | app/src/main/java/com/hanashiro/pilelocator2000/SettingsActivity.kt:195-198 | The "reports" file is emptied, so a load yields the empty list; other files unchanged. |
| Settings.CardPicture | app/src/main/java/com/hanashiro/pilelocator2000/SettingsActivity.kt:158-173 | The card shows the stored URI iff there is one and it can be read, else `prometheus` in a session and `stelle` for a guest. |
| Settings.UpdateLoginSettingUI | app/src/main/java/com/hanashiro/pilelocator2000/SettingsActivity.kt:124-173 | The title is "Welcome, <user>" or "Login"; an unreadable stored URI is removed, and otherwise the store is untouched. |
| Settings.FallbackSettles | app/src/main/java/com/hanashiro/pilelocator2000/SettingsActivity.kt:162-169 | After an unreadable URI is removed, the next refresh shows the same picture and removes nothing. |
| Settings.PlaceholdersDiffer | app/src/main/java/com/hanashiro/pilelocator2000/SettingsActivity.kt:159-160 | Without a picture, the card's placeholder tells a session from a guest, the profile's does not. |
| Backup.SectionEntries | app/src/main/java/com/hanashiro/pilelocator2000/DebugActivity.kt:95 | A missing or null member is the empty map; a member that is not an object fails the cast. |
| Backup.Rendered | app/src/main/java/com/hanashiro/pilelocator2000/DebugActivity.kt:96-99 | Every entry is written as its `toString()`, or the section fails iff some value is null. |
| Backup.PutAll | app/src/main/java/com/hanashiro/pilelocator2000/DebugActivity.kt:96-99 | The put loop writes exactly what `Rendered` gives, whatever the order of the entries. |
| Backup.ImportInto | app/src/main/java/com/hanashiro/pilelocator2000/DebugActivity.kt:86-115 | Import succeeds iff the backup is an object whose two sections both import; a non-object fails with both files untouched; a failing "reports" stage leaves that file empty and the credentials untouched; a failing "user_credentials" stage keeps the imported reports and leaves that file empty. |
| Backup.Import | app/src/main/java/com/hanashiro/pilelocator2000/DebugActivity.kt:86-115 | The two stages in order leave the files `ImportInto` gives; the theme file is untouched. |
| Backup.StringEntries | app/src/main/java/com/hanashiro/pilelocator2000/DebugActivity.kt:76 | A file's entries as string values, same keys. |
| Backup.Export | app/src/main/java/com/hanashiro/pilelocator2000/DebugActivity.kt:74-78 | The export has exactly the members "reports" and "user_credentials", each the full file. |
| Backup.RenderedStrings | app/src/main/java/com/hanashiro/pilelocator2000/DebugActivity.kt:96-99 | String values are written back as they were. |
| Backup.ImportOfExportRestores | app/src/main/java/com/hanashiro/pilelocator2000/DebugActivity.kt:74-107 | Importing an export restores both files exactly, whatever they held in between. |
| Backup.MissingReportsEmptiesReports | app/src/main/java/com/hanashiro/pilelocator2000/DebugActivity.kt:93-99 | A missing "reports" member leaves the report file empty in every outcome. |
| Backup.MissingCredentialsEmptiesCredentials | app/src/main/java/com/hanashiro/pilelocator2000/DebugActivity.kt:101-107 | A missing "user_credentials" member leaves no account once the reports stage succeeded. |
| Backup.NullReportEntryLosesReports | app/src/main/java/com/hanashiro/pilelocator2000/DebugActivity.kt:93-99 | For any backup whose "reports" member is not a map or holds a null value, the import fails after the clear: every stored report is lost, credentials untouched. |
| Backup.CredentialStageFailure | app/src/main/java/com/hanashiro/pilelocator2000/DebugActivity.kt:101-114 | For any backup whose reports import and whose "user_credentials" member is not a map or holds a null value, the imported reports stay and the credential file is left empty. |
| Scenarios.MarkFinishedKeepsIds | app/src/main/java/com/hanashiro/pilelocator2000/ReportDetailActivity.kt:74 | Marking finished keeps every position's id. |
| Scenarios.LostUpdate | app/src/main/java/com/hanashiro/pilelocator2000/ReportDetailActivity.kt:105-121 | A detail screen opened before a report is saved writes back its stale copy on "Mark as Finished": the saved report is lost. |
| Scenarios.SequentialUseKeeps | app/src/main/java/com/hanashiro/pilelocator2000/ReportActivity.kt:276-284 | Saved first and marked afterwards, the new report is kept at the end of the list. |
| Scenarios.SaveMarkDelete | app/src/main/java/com/hanashiro/pilelocator2000/ReportActivity.kt:265-288 | Save, map, mark and delete on a fresh install: one marker at the report, the row reads "Finished", nothing is left. |
| Scenarios.MarkThenDelete | app/src/main/java/com/hanashiro/pilelocator2000/ReportDetailActivity.kt:73-86 | Mark then delete on the only report: the list screen shows it finished, then the store is empty. |
| Scenarios.EndToEnd | app/src/main/java/com/hanashiro/pilelocator2000/ReportAdapter.kt:73-90 | For report 1000 at (48.85, 2.29): one marker there, a dimmed, unhighlighted "Finished" row, then an empty store. |

## Left out

- Views, toasts, dialogs, bottom sheets, toolbars, intents and activity navigation, insets and lifecycle wiring: lifecycle callbacks appear as explicit constructor, `LoadReports` and `Resume` calls.
- Map rendering: osmdroid tiles, the `Marker` objects' drawing, the dark-mode `ColorMatrix`, GPS accuracy text, card colours and alpha values. Only the overlay list and the dim/highlight decisions are modelled.
- Floating point: latitude and longitude are opaque `Degrees` values (the IEEE bits), only copied; no arithmetic or range check is made on them, and `DecimalFormat` output is not modelled.
- Gson's JSON text. The report list is stored through a concrete text codec with a proved round trip and a proof that only its encodings decode, and the backup is given as the maps Gson parses it into. The model does not claim Gson's field defaults on decode: a JSON report without `status` would get `null`, not "Pending". Decoding failures are the `Unparsable` outcome.
- A Gson exception in `loadReports` or `saveReport` is uncaught and ends the screen. The model records the state just before:
  - nothing is written;
  - the manager and detail screens are left with their cleared list;
  - the map's overlays are untouched, since parsing comes before `removeAll`.
- `Report.id` is a Kotlin `Long`; the model uses unbounded integers, since ids are only copied and compared, never computed.
- ReportAdapter.Fold: folds ASCII letters only, while `equals(ignoreCase = true)` also matches some non-ASCII letters; the dim and highlight decisions are therefore exact only for ASCII statuses and trash types.
- Camera, FileProvider and temp-file creation, `LocationManager`, and the permission flows: their outcomes are parameters (`DispatchTakePictureIntent`, `GetLocation`, `UpdateLoginSettingUI`). `takePersistableUriPermission` failing is not modelled.
- Asynchronous `apply()` and the on-disk files: each write is immediate and atomic.
- Content-resolver streams of the backup: an export that cannot be written, and an import stream that cannot be opened, are not modelled. `Export` is the document written, as it would be read back.
- The debug screen's "check credentials" dialog only displays the credential file; it changes nothing and is not modelled.
- `AppCompatDelegate.setDefaultNightMode` and the activity recreation after a theme toggle: only the stored flag is modelled.
- PermissionsActivity.kt and AboutActivity.kt: they do not touch the stores.

Behaviour of the code worth noting:
- Delete removes the first report equal to the shown one, not every report with its id.
- Account deletion clears the whole credential file, not one user's entries.
- An unparsable stored list ends the screen rather than being reported as an error.
- Import clears each file before reading its new contents, rather than validating first.
