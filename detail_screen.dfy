/**
 * The report detail screen (ReportDetailActivity.kt). It loads the whole stored list into
 * its own `reports` field, shows the first report with the requested id, and its two
 * buttons change that local copy (status set in place, or element removed) and write the
 * entire copy back.
 *
 * The Kotlin `report` variable is an alias of one element of `reports`; the model keeps
 * its position, `shown`. `shown == None` means no handler is installed: the report was
 * not found, the stored list could not be read, or the report was deleted and the screen
 * closed.
 */
module ReportDetail {
  import opened Wrappers
  import opened ReportModel
  import opened ReportLists
  import opened Storage

  /** `intent.getLongExtra("report_id", -1)`. */
  function RequestedId(extra: Option<int>): int {
    extra.GetOr(-1)
  }

  class ReportDetailActivity {
    var reportId: int
    var reports: seq<Report>
    var shown: Option<nat>

    /** The shown report is the first element of the local list carrying `reportId`. */
    ghost predicate Valid()
      reads this
    {
      shown.Some? ==> FirstWithItsId(reports, shown.value) && reports[shown.value].id == reportId
    }

    /**
     * `onCreate`: load the list (absent = empty) and find the requested id. When no
     * report has it, nothing is shown and the screen closes without writing. When the
     * stored text cannot be read, the cleared list stays empty (Gson throws).
     */
    constructor (prefs: Preferences, extra: Option<int>)
      ensures Valid()
      ensures reportId == RequestedId(extra)
      ensures ReadReportList(prefs.reports).Loaded? ==>
        reports == ReadReportList(prefs.reports).list && shown == FindById(reports, reportId)
      ensures ReadReportList(prefs.reports).Unparsable? ==> reports == [] && shown == None
    {
      reportId := RequestedId(extra);
      var loaded := ReadReportList(prefs.reports);
      if loaded.Loaded? {
        reports := loaded.list;
        shown := FindById(loaded.list, RequestedId(extra));
      } else {
        reports := [];
        shown := None;
      }
    }

    /**
     * The "Mark as Finished" handler: sets the shown report's status to "Finished" in the
     * local list and writes the whole list. Other reports and other fields are kept.
     */
    method MarkFinished(prefs: Preferences)
      requires Valid()
      modifies this, prefs
      ensures Valid() && reportId == old(reportId) && shown == old(shown)
      ensures old(shown).None? ==> reports == old(reports) && prefs.reports == old(prefs.reports)
      ensures old(shown).Some? ==>
        reports == MarkFinishedAt(old(reports), old(shown).value) &&
        prefs.reports == WriteReportList(old(prefs.reports), reports) &&
        ReadReportList(prefs.reports) == Loaded(reports)
      ensures prefs.credentials == old(prefs.credentials) && prefs.theme == old(prefs.theme)
    {
      if shown.Some? {
        var k := shown.value;
        MarkFinishedKeepsFirst(reports, k);
        reports := MarkFinishedAt(reports, k);
        SaveReports(prefs);
      }
    }

    /**
     * The "Delete Report" handler: `reports.remove(report)` drops the first element equal
     * to the shown report, which is exactly the shown position; the rest keep their
     * order, the whole list is written, and the screen closes.
     */
    method Delete(prefs: Preferences)
      requires Valid()
      modifies this, prefs
      ensures Valid() && reportId == old(reportId) && shown == None
      ensures old(shown).None? ==> reports == old(reports) && prefs.reports == old(prefs.reports)
      ensures old(shown).Some? ==>
        reports == old(reports)[..old(shown).value] + old(reports)[old(shown).value + 1..] &&
        prefs.reports == WriteReportList(old(prefs.reports), reports) &&
        ReadReportList(prefs.reports) == Loaded(reports)
      ensures prefs.credentials == old(prefs.credentials) && prefs.theme == old(prefs.theme)
    {
      if shown.Some? {
        var k := shown.value;
        RemoveFound(reports, k);
        reports := RemoveFirst(reports, reports[k]);
        SaveReports(prefs);
        shown := None;
      }
    }

    /** `saveReports`: the entire local copy replaces the stored list. */
    method SaveReports(prefs: Preferences)
      modifies prefs
      ensures prefs.reports == WriteReportList(old(prefs.reports), reports)
      ensures ReadReportList(prefs.reports) == Loaded(reports)
      ensures prefs.credentials == old(prefs.credentials) && prefs.theme == old(prefs.theme)
    {
      prefs.reports := WriteReportList(prefs.reports, reports);
      LoadAfterSave(old(prefs.reports), reports);
    }
  }
}
