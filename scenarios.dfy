/**
 * Runs of several screens over one set of preference files, stated as methods that
 * allocate the files and the screens and call the screens' handlers in a given order.
 */
module Scenarios {
  import opened Wrappers
  import opened ReportModel
  import opened ReportLists
  import opened Storage
  import opened ReportScreen
  import opened ReportDetail
  import opened Manager
  import opened MainMap
  import ReportAdapter

  /** Positions keep their ids when a report is marked finished. */
  lemma MarkFinishedKeepsIds(rs: seq<Report>, k: nat, j: nat)
    requires k < |rs| && j < |rs|
    ensures MarkFinishedAt(rs, k)[j].id == rs[j].id
  {
  }

  /**
   * The lost update. The detail screen for report `id` loads the stored list; a report
   * is then saved from the new-report screen; then "Mark as Finished" is pressed. The
   * detail screen writes back its stale copy, so the saved report is gone.
   */
  method LostUpdate(stored: seq<Report>, id: int, photo: string, now: int)
    returns (appended: Report, final: seq<Report>)
    requires FindById(stored, id).Some?
    requires forall r :: r in stored ==> r.id != now
    ensures final == MarkFinishedAt(stored, FindById(stored, id).value)
    ensures appended.id == now && appended !in final
  {
    var prefs := new Preferences();
    prefs.reports := WriteReportList(prefs.reports, stored);
    LoadAfterSave(map[], stored);

    var detail := new ReportDetailActivity(prefs, Some(id));
    var form := new ReportActivity();
    form.DispatchTakePictureIntent(Some(photo));
    var outcome := form.SaveReport(prefs, "bottle", "Recyclable", now);
    appended := outcome.report;

    detail.MarkFinished(prefs);
    final := ReadReportList(prefs.reports).list;

    forall j | 0 <= j < |final|
      ensures final[j] != appended
    {
      MarkFinishedKeepsIds(stored, FindById(stored, id).value, j);
      assert stored[j] in stored;
    }
  }

  /**
   * The same two actions one after the other: the report is saved first and the detail
   * screen opened afterwards, so its copy holds the new report and nothing is lost.
   */
  method SequentialUseKeeps(stored: seq<Report>, id: int, photo: string, now: int)
    returns (appended: Report, final: seq<Report>)
    requires FindById(stored, id).Some?
    ensures final == MarkFinishedAt(stored + [appended], FindById(stored, id).value)
    ensures appended.id == now && final[|stored|] == appended
  {
    var prefs := new Preferences();
    prefs.reports := WriteReportList(prefs.reports, stored);
    LoadAfterSave(map[], stored);

    var form := new ReportActivity();
    form.DispatchTakePictureIntent(Some(photo));
    var outcome := form.SaveReport(prefs, "bottle", "Recyclable", now);
    appended := outcome.report;

    var k := FindById(stored, id).value;
    var current := stored + [appended];
    assert ReadReportList(prefs.reports) == Loaded(current);
    var detail := new ReportDetailActivity(prefs, Some(id));
    FindByIdAfterAppend(stored, [appended], id);
    assert detail.reports == current && detail.shown == Some(k);
    detail.MarkFinished(prefs);
    final := ReadReportList(prefs.reports).list;
    assert final == MarkFinishedAt(current, k);
    assert final[|stored|] == current[|stored|];
  }

  /**
   * A fresh install: a report is saved at (`latitude`, `longitude`); the map shows one
   * marker there; the detail screen marks it finished and the list shows it dimmed;
   * the detail screen deletes it and the stored list is empty again.
   */
  method SaveMarkDelete(id: int, latitude: Degrees, longitude: Degrees, photo: string,
                        description: string, trashType: string)
    returns (overlays: seq<Overlay>, rows: seq<Report>, afterDelete: LoadResult)
    requires description != "" && trashType != ""
    ensures overlays == [MyLocation, Marker(latitude, longitude, description, ReportPin)]
    ensures |rows| == 1 && rows[0].id == id && rows[0].status == Finished
    ensures rows[0] == WithStatus(NewReport(id, latitude, longitude, photo, description, trashType), Finished)
    ensures afterDelete == Loaded([])
  {
    var prefs := new Preferences();
    var form := new ReportActivity();
    form.UpdateMarkerPosition(latitude, longitude);
    form.DispatchTakePictureIntent(Some(photo));
    var outcome := form.SaveReport(prefs, description, trashType, id);
    var report := outcome.report;
    assert ReadReportList(prefs.reports) == Loaded([report]);

    var mainScreen := new MainActivity(prefs);
    overlays := mainScreen.overlays;
    assert Markers([report]) == [MarkerFor(report)];

    var detail := new ReportDetailActivity(prefs, Some(id));
    assert detail.reports == [report] && detail.shown == Some(0);
    rows, afterDelete := MarkThenDelete(prefs, detail);
  }

  /**
   * The detail screen showing the only stored report: "Mark as Finished", then the list
   * screen opened on the result, then "Delete Report".
   */
  method MarkThenDelete(prefs: Preferences, detail: ReportDetailActivity)
    returns (rows: seq<Report>, afterDelete: LoadResult)
    requires detail.Valid() && |detail.reports| == 1 && detail.shown == Some(0)
    modifies prefs, detail
    ensures rows == [WithStatus(old(detail.reports[0]), Finished)]
    ensures afterDelete == Loaded([])
  {
    detail.MarkFinished(prefs);
    var manager := new ManagerActivity(prefs);
    rows := manager.reports;

    detail.Delete(prefs);
    assert detail.reports == rows[..0] + rows[1..];
    afterDelete := ReadReportList(prefs.reports);
  }

  /** The IEEE 754 bits of 48.85 and 2.29. */
  const Latitude: Degrees := Degrees(0x4048_6CCC_CCCC_CCCD)
  const Longitude: Degrees := Degrees(0x4002_51EB_851E_B852)

  /**
   * The run above for report 1000, photo "p1", "bottle", "Recyclable" at (48.85, 2.29):
   * one marker at that position; the row then reads "Finished", is dimmed and is not
   * highlighted; nothing is left after the delete.
   */
  method EndToEnd() returns (overlays: seq<Overlay>, rows: seq<Report>, afterDelete: LoadResult)
    ensures overlays == [MyLocation, Marker(Latitude, Longitude, "bottle", ReportPin)]
    ensures |rows| == 1 && rows[0].id == 1000 && rows[0].status == Finished
    ensures ReportAdapter.Dimmed(rows[0]) && !ReportAdapter.Highlighted(rows[0])
    ensures afterDelete == Loaded([])
  {
    overlays, rows, afterDelete := SaveMarkDelete(1000, Latitude, Longitude, "p1", "bottle", "Recyclable");
    ReportAdapter.MarkedFinishedIsDimmed(rows, 0);
    assert |ReportAdapter.Hazardous| != |rows[0].trashType|;
  }
}
