/**
 * The map screen (MainActivity.kt): on creation and on every resume it drops every
 * marker from the map's overlay list and adds one marker per stored report; its
 * report and manager buttons are enabled only in a session, and it greets the user.
 */
module MainMap {
  import opened ReportModel
  import opened Storage
  import opened Session

  /** `R.drawable.outline_borg_24`, the only icon a report marker gets. */
  datatype Icon = ReportPin

  /** What the map's overlay list holds: report markers and the my-location overlay. */
  datatype Overlay =
    | Marker(latitude: Degrees, longitude: Degrees, title: string, icon: Icon)
    | MyLocation

  /** The marker made for one report: at its coordinates, titled with its description. */
  function MarkerFor(r: Report): Overlay
  {
    Marker(r.latitude, r.longitude, r.description, ReportPin)
  }

  /** One marker per report, in list order. */
  function Markers(rs: seq<Report>): (ms: seq<Overlay>)
    ensures |ms| == |rs|
  {
    if rs == [] then [] else Markers(rs[..|rs| - 1]) + [MarkerFor(rs[|rs| - 1])]
  }

  /**
   * The marker at position `i` belongs to the report at position `i`: it stands at that
   * report's coordinates, carries its description, and has the one report icon whatever
   * the report's status or trash type.
   */
  lemma {:induction false} MarkerAt(rs: seq<Report>, i: nat)
    requires i < |rs|
    ensures Markers(rs)[i].Marker?
    ensures Markers(rs)[i].latitude == rs[i].latitude && Markers(rs)[i].longitude == rs[i].longitude
    ensures Markers(rs)[i].title == rs[i].description && Markers(rs)[i].icon == ReportPin
  {
    if i < |rs| - 1 {
      MarkerAt(rs[..|rs| - 1], i);
    }
  }

  /** Markers are added one report at a time. */
  lemma MarkersSnoc(rs: seq<Report>, j: nat)
    requires j < |rs|
    ensures Markers(rs[..j + 1]) == Markers(rs[..j]) + [MarkerFor(rs[j])]
  {
    assert rs[..j + 1][..j] == rs[..j];
  }

  /** `overlays.removeAll { it is Marker }`: the other overlays, in their order. */
  function WithoutMarkers(os: seq<Overlay>): (r: seq<Overlay>)
    ensures forall i :: 0 <= i < |r| ==> !r[i].Marker?
    ensures |r| <= |os|
  {
    if os == [] then []
    else WithoutMarkers(os[..|os| - 1]) + (if os[|os| - 1].Marker? then [] else [os[|os| - 1]])
  }

  /** Exactly the overlays that are not markers survive the removal. */
  lemma {:induction false} WithoutMarkersKeeps(os: seq<Overlay>, o: Overlay)
    ensures o in WithoutMarkers(os) <==> o in os && !o.Marker?
  {
    if os != [] {
      var front := os[..|os| - 1];
      WithoutMarkersKeeps(front, o);
      assert os == front + [os[|os| - 1]];
    }
  }

  lemma {:induction false} WithoutMarkersAppend(a: seq<Overlay>, b: seq<Overlay>)
    ensures WithoutMarkers(a + b) == WithoutMarkers(a) + WithoutMarkers(b)
    decreases |b|
  {
    if b != [] {
      var b' := b[..|b| - 1];
      assert (a + b)[..|a + b| - 1] == a + b';
      WithoutMarkersAppend(a, b');
    } else {
      assert a + b == a;
    }
  }

  lemma {:induction false} WithoutMarkersOfMarkers(rs: seq<Report>)
    ensures WithoutMarkers(Markers(rs)) == []
  {
    if rs != [] {
      WithoutMarkersOfMarkers(rs[..|rs| - 1]);
      WithoutMarkersAppend(Markers(rs[..|rs| - 1]), [MarkerFor(rs[|rs| - 1])]);
      assert [MarkerFor(rs[|rs| - 1])][..0] == [];
    }
  }

  lemma {:induction false} WithoutMarkersIdempotent(os: seq<Overlay>)
    ensures WithoutMarkers(WithoutMarkers(os)) == WithoutMarkers(os)
    decreases |os|
  {
    if os != [] {
      var last := os[|os| - 1];
      var front := os[..|os| - 1];
      WithoutMarkersIdempotent(front);
      var tail := if last.Marker? then [] else [last];
      WithoutMarkersAppend(WithoutMarkers(front), tail);
      if !last.Marker? {
        assert tail[..0] == [];
      }
    }
  }

  /**
   * Reloading is idempotent: a second load of the same list yields the same overlays,
   * with no duplicate markers, and keeps the overlays that are not markers.
   */
  lemma ReloadIdempotent(os: seq<Overlay>, rs: seq<Report>)
    ensures WithoutMarkers(WithoutMarkers(os) + Markers(rs)) + Markers(rs) ==
            WithoutMarkers(os) + Markers(rs)
  {
    WithoutMarkersAppend(WithoutMarkers(os), Markers(rs));
    WithoutMarkersIdempotent(os);
    WithoutMarkersOfMarkers(rs);
  }

  class MainActivity {
    var overlays: seq<Overlay>
    var reportEnabled: bool
    var managerEnabled: bool
    var welcomeText: string

    /**
     * `onCreate`: greeting and buttons from the session, the my-location overlay added to
     * an empty map, then `loadReports`.
     */
    constructor (prefs: Preferences)
      ensures welcomeText == WelcomeText(SessionOf(prefs.credentials))
      ensures reportEnabled == managerEnabled == SessionOf(prefs.credentials).LoggedIn?
      ensures ReadReportList(prefs.reports).Loaded? ==>
        overlays == [MyLocation] + Markers(ReadReportList(prefs.reports).list)
      ensures ReadReportList(prefs.reports).Unparsable? ==> overlays == [MyLocation]
    {
      overlays, reportEnabled, managerEnabled, welcomeText := [], false, false, "";
      new;
      UpdateWelcomeText(prefs);
      UpdateButtonStates(prefs);
      overlays := overlays + [MyLocation];
      assert WithoutMarkers(overlays) == [MyLocation] by {
        assert overlays[..0] == [];
      }
      var ok := LoadReports(prefs);
    }

    /**
     * `loadReports`: read the stored list (absent = empty); when it reads, remove every
     * marker, then add one marker per report. When Gson throws, the overlays are untouched.
     */
    method LoadReports(prefs: Preferences) returns (ok: bool)
      modifies this
      ensures ok <==> ReadReportList(prefs.reports).Loaded?
      ensures ok ==> overlays == WithoutMarkers(old(overlays)) + Markers(ReadReportList(prefs.reports).list)
      ensures !ok ==> overlays == old(overlays)
      ensures reportEnabled == old(reportEnabled) && managerEnabled == old(managerEnabled)
      ensures welcomeText == old(welcomeText)
    {
      var loaded := ReadReportList(prefs.reports);
      if loaded.Unparsable? {
        return false;
      }
      var reports := loaded.list;

      // `overlays.removeAll { it is Marker }`
      var kept := WithoutMarkers(overlays);
      var added := kept;
      for j := 0 to |reports|
        invariant added == kept + Markers(reports[..j])
        modifies {}
      {
        MarkersSnoc(reports, j);
        added := added + [MarkerFor(reports[j])];
      }
      assert reports[..|reports|] == reports;
      overlays := added;
      ok := true;
    }

    /** `updateButtonStates`: both buttons are enabled iff someone is logged in. */
    method UpdateButtonStates(prefs: Preferences)
      modifies this
      ensures reportEnabled == managerEnabled == SessionOf(prefs.credentials).LoggedIn?
      ensures reportEnabled <==> LoggedInUserKey in prefs.credentials
      ensures overlays == old(overlays) && welcomeText == old(welcomeText)
    {
      var isLoggedIn := LoggedInUserKey in prefs.credentials;
      reportEnabled := isLoggedIn;
      managerEnabled := isLoggedIn;
    }

    /** `updateWelcomeText`: "Welcome, <user>" in a session, "Welcome, Guest" otherwise. */
    method UpdateWelcomeText(prefs: Preferences)
      modifies this
      ensures welcomeText == WelcomeText(SessionOf(prefs.credentials))
      ensures overlays == old(overlays)
      ensures reportEnabled == old(reportEnabled) && managerEnabled == old(managerEnabled)
    {
      if LoggedInUserKey in prefs.credentials {
        welcomeText := WelcomePrefix + prefs.credentials[LoggedInUserKey];
      } else {
        welcomeText := WelcomePrefix + "Guest";
      }
    }

    /** `onResume`: greeting, buttons and markers are all recomputed from the stores. */
    method Resume(prefs: Preferences) returns (ok: bool)
      modifies this
      ensures welcomeText == WelcomeText(SessionOf(prefs.credentials))
      ensures reportEnabled == managerEnabled == SessionOf(prefs.credentials).LoggedIn?
      ensures ok <==> ReadReportList(prefs.reports).Loaded?
      ensures ok ==> overlays == WithoutMarkers(old(overlays)) + Markers(ReadReportList(prefs.reports).list)
      ensures !ok ==> overlays == old(overlays)
    {
      UpdateWelcomeText(prefs);
      UpdateButtonStates(prefs);
      ok := LoadReports(prefs);
    }
  }
}
