/**
 * The management screen (ManagerActivity.kt): its `reports` field is cleared and
 * refilled from the store on creation and on every resume, and exactly one of the list
 * and the "no reports" view is visible.
 */
module Manager {
  import opened ReportModel
  import opened Storage
  import ReportAdapter

  class ManagerActivity {
    var reports: seq<Report>
    var listVisible: bool
    var emptyVisible: bool
    /** The stored text could not be read: Gson threw after the list was cleared. */
    var crashed: bool

    /** Exactly one view is visible, the empty one iff there are no reports. */
    ghost predicate Valid()
      reads this
    {
      !crashed ==> emptyVisible == (reports == []) && listVisible == !emptyVisible
    }

    /** `onCreate`: load, then `updateEmptyView`. */
    constructor (prefs: Preferences)
      ensures Valid()
      ensures crashed <==> ReadReportList(prefs.reports).Unparsable?
      ensures reports == if crashed then [] else ReadReportList(prefs.reports).list
    {
      var loaded := ReadReportList(prefs.reports);
      reports := if loaded.Loaded? then loaded.list else [];
      crashed := loaded.Unparsable?;
      new;
      if !crashed {
        UpdateEmptyView();
      }
    }

    /** `loadReports`: the local list is replaced wholesale by the stored one, in stored order. */
    method LoadReports(prefs: Preferences) returns (ok: bool)
      modifies this
      ensures ok <==> ReadReportList(prefs.reports).Loaded?
      ensures reports == if ok then ReadReportList(prefs.reports).list else []
      ensures listVisible == old(listVisible) && emptyVisible == old(emptyVisible)
      ensures crashed == old(crashed)
    {
      reports := [];
      var loaded := ReadReportList(prefs.reports);
      ok := loaded.Loaded?;
      if ok {
        reports := reports + loaded.list;
      }
    }

    /** `updateEmptyView`: list visible iff there is a report, empty view otherwise. */
    method UpdateEmptyView()
      modifies this
      ensures emptyVisible == (reports == []) && listVisible == !emptyVisible
      ensures reports == old(reports) && crashed == old(crashed)
    {
      if reports == [] {
        listVisible, emptyVisible := false, true;
      } else {
        listVisible, emptyVisible := true, false;
      }
    }

    /** `onResume`: every return to the screen reloads and recomputes the empty state. */
    method Resume(prefs: Preferences)
      requires !crashed
      modifies this
      ensures Valid()
      ensures crashed <==> ReadReportList(prefs.reports).Unparsable?
      ensures reports == if crashed then [] else ReadReportList(prefs.reports).list
    {
      var ok := LoadReports(prefs);
      if ok {
        UpdateEmptyView();
      } else {
        crashed := true;
      }
    }

    /**
     * A row click: the adapter hands back that row's report, and its id goes to the
     * detail screen as the "report_id" extra.
     */
    method OnRowClick(position: nat) returns (reportId: int)
      requires position < ReportAdapter.ItemCount(reports)
      ensures reportId == reports[position].id
    {
      var report := ReportAdapter.Clicked(reports, position);
      reportId := report.id;
    }
  }
}
