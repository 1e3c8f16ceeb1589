/**
 * The new-report screen (ReportActivity.kt): it keeps the photo URI and the marker
 * coordinates as fields, and its save button validates the form, loads the stored list,
 * appends one report and writes the whole list back.
 */
module ReportScreen {
  import opened Wrappers
  import opened ReportModel
  import opened Storage

  /** What pressing "save" did. */
  datatype SaveOutcome =
    | Saved(report: Report)  // the list was written with `report` appended
    | MissingFields          // "Please fill out all fields": nothing written
    | StoredListUnparsable   // Gson threw while reading the stored list: nothing written

  class ReportActivity {
    /** `currentPhotoUri`, as the string `toString()` gives; none until a photo file exists. */
    var photoUri: Option<string>
    /** `currentLatitude` and `currentLongitude`. */
    var latitude: Degrees
    var longitude: Degrees

    /** A fresh screen: no photo, marker at (0.0, 0.0). */
    constructor ()
      ensures photoUri == None && latitude == Zero && longitude == Zero
    {
      photoUri, latitude, longitude := None, Zero, Zero;
    }

    /** `updateMarkerPosition`: a tap on the map (or a known location) moves the marker. */
    method UpdateMarkerPosition(lat: Degrees, lon: Degrees)
      modifies this
      ensures latitude == lat && longitude == lon
      ensures photoUri == old(photoUri)
    {
      latitude, longitude := lat, lon;
    }

    /**
     * `getLocation`: the last GPS fix, else the last network fix, moves the marker; with
     * neither, or without the location permission, nothing changes.
     */
    method GetLocation(permitted: bool, gps: Option<(Degrees, Degrees)>,
                       network: Option<(Degrees, Degrees)>)
      modifies this
      ensures photoUri == old(photoUri)
      ensures permitted && gps.Some? ==> latitude == gps.value.0 && longitude == gps.value.1
      ensures permitted && gps.None? && network.Some? ==>
        latitude == network.value.0 && longitude == network.value.1
      ensures !permitted || (gps.None? && network.None?) ==>
        latitude == old(latitude) && longitude == old(longitude)
    {
      if permitted {
        var location := if gps.Some? then gps else network;
        if location.Some? {
          UpdateMarkerPosition(location.value.0, location.value.1);
        }
      }
    }

    /**
     * `dispatchTakePictureIntent`: when the temporary image file could be created, its
     * URI becomes `currentPhotoUri` before the camera is launched, whatever the camera
     * then does; when creating it failed, nothing changes.
     */
    method DispatchTakePictureIntent(created: Option<string>)
      modifies this
      ensures photoUri == if created.Some? then created else old(photoUri)
      ensures latitude == old(latitude) && longitude == old(longitude)
    {
      if created.Some? {
        photoUri := created;
      }
    }

    /**
     * `saveReport`: rejects the form when there is no photo, no description or no trash
     * type; otherwise loads the stored list (absent = empty), appends a report stamped
     * with the clock value `now` and the current form, and writes the whole list back.
     * No check is made on the coordinates or on ids already in the list.
     */
    method SaveReport(prefs: Preferences, description: string, trashType: string, now: int)
      returns (outcome: SaveOutcome)
      modifies prefs
      ensures outcome.MissingFields? <==> photoUri.None? || description == "" || trashType == ""
      ensures outcome.StoredListUnparsable? <==>
        !outcome.MissingFields? && ReadReportList(old(prefs.reports)).Unparsable?
      ensures !outcome.Saved? ==> prefs.reports == old(prefs.reports)
      ensures outcome.Saved? ==>
        outcome.report == NewReport(now, latitude, longitude, photoUri.value, description, trashType) &&
        prefs.reports ==
          WriteReportList(old(prefs.reports), ReadReportList(old(prefs.reports)).list + [outcome.report])
      ensures outcome.Saved? ==>
        ReadReportList(prefs.reports) == Loaded(ReadReportList(old(prefs.reports)).list + [outcome.report])
      ensures prefs.credentials == old(prefs.credentials) && prefs.theme == old(prefs.theme)
    {
      if photoUri.None? || description == "" || trashType == "" {
        return MissingFields;
      }
      var loaded := ReadReportList(prefs.reports);
      if loaded.Unparsable? {
        return StoredListUnparsable;
      }
      var reports := loaded.list;
      var newReport := NewReport(now, latitude, longitude, photoUri.value, description, trashType);
      reports := reports + [newReport];
      prefs.reports := WriteReportList(prefs.reports, reports);
      LoadAfterSave(old(prefs.reports), reports);
      outcome := Saved(newReport);
    }
  }
}
