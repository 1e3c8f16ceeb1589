/**
 * The list rows of the management screen (ReportAdapter.kt): how many rows there are,
 * which report each row shows, which report a click hands back, and the two styling
 * decisions taken from a report's fields: dimmed when finished, highlighted when
 * hazardous. Colours and alpha values are presentation and are not modelled.
 */
module ReportAdapter {
  import opened ReportModel
  import opened ReportLists

  const Hazardous: string := "Hazardous"

  /** `getItemCount() = reports.size`. */
  function ItemCount(rs: seq<Report>): (n: nat)
    ensures n == 0 <==> rs == []
  {
    |rs|
  }

  /** `onBindViewHolder`: the row at `position` is bound to `reports[position]`. */
  function BoundReport(rs: seq<Report>, position: nat): (r: Report)
    requires position < ItemCount(rs)
    ensures r == rs[position]
    ensures r in rs
  {
    rs[position]
  }

  /** `itemView.setOnClickListener { onItemClick(report) }`: a click hands back the bound report. */
  function Clicked(rs: seq<Report>, position: nat): (r: Report)
    requires position < ItemCount(rs)
    ensures r == BoundReport(rs, position)
  {
    rs[position]
  }

  /**
   * The case folding of `String.equals(other, ignoreCase = true)` on ASCII letters:
   * a lower-case letter is compared as its upper-case form.
   */
  function Fold(c: char): (f: char)
    ensures !('a' <= f <= 'z')
    ensures 'A' <= c <= 'Z' || 'a' <= c <= 'z' ==> 'A' <= f <= 'Z'
    ensures 'a' <= c <= 'z' ==> f as int == c as int - 32
    ensures !('a' <= c <= 'z') ==> f == c
  {
    if 'a' <= c <= 'z' then (c as int - 32) as char else c
  }

  /** `a.equals(b, ignoreCase = true)`: same length, and equal characters up to case. */
  predicate EqualsIgnoreCase(a: string, b: string)
  {
    |a| == |b| && forall i :: 0 <= i < |a| ==> Fold(a[i]) == Fold(b[i])
  }

  /** A row is dimmed (alpha 0.5) when its status reads "Finished" in any case. */
  predicate Dimmed(r: Report)
  {
    EqualsIgnoreCase(r.status, Finished)
  }

  /** A row is highlighted (red tint) when its trash type reads "Hazardous" in any case. */
  predicate Highlighted(r: Report)
  {
    EqualsIgnoreCase(r.trashType, Hazardous)
  }

  /** The card background: a tint for hazardous reports, the theme default otherwise. */
  datatype CardBackground = HazardTint(dark: bool) | ThemeDefault(dark: bool)

  function Background(r: Report, darkMode: bool): (b: CardBackground)
    ensures b.HazardTint? <==> Highlighted(r)
    ensures b.dark == darkMode
  {
    if Highlighted(r) then HazardTint(darkMode) else ThemeDefault(darkMode)
  }

  /** Two characters are the same, or the same ASCII letter in the other case. */
  predicate SameIgnoringCase(x: char, y: char)
  {
    x == y ||
    ('a' <= x <= 'z' && y as int == x as int - 32) ||
    ('A' <= x <= 'Z' && y as int == x as int + 32)
  }

  /** Folding identifies exactly the pairs that differ at most in the case of a letter. */
  lemma FoldEqual(x: char, y: char)
    ensures Fold(x) == Fold(y) <==> SameIgnoringCase(x, y)
  {
  }

  /**
   * `equals(ignoreCase = true)` on ASCII: equal lengths, and at every position the same
   * character or the same letter in the other case.
   */
  lemma EqualsIgnoreCaseMeans(a: string, b: string)
    ensures EqualsIgnoreCase(a, b) <==>
      |a| == |b| && forall i :: 0 <= i < |a| ==> SameIgnoringCase(a[i], b[i])
  {
    forall i | 0 <= i < |a| && i < |b| {
      FoldEqual(a[i], b[i]);
    }
  }

  /** Comparing while ignoring case is an equivalence. */
  lemma EqualsIgnoreCaseIsEquivalence(a: string, b: string, c: string)
    ensures EqualsIgnoreCase(a, a)
    ensures EqualsIgnoreCase(a, b) ==> EqualsIgnoreCase(b, a)
    ensures EqualsIgnoreCase(a, b) && EqualsIgnoreCase(b, c) ==> EqualsIgnoreCase(a, c)
  {
  }

  /**
   * A row is dimmed exactly when its status spells "Finished" with each letter in either
   * case; "FINISHED" and "finished" are two such statuses.
   */
  lemma DimmedInAnyCase(r: Report)
    ensures Dimmed(r) <==>
      |r.status| == |Finished| && forall i :: 0 <= i < |Finished| ==> SameIgnoringCase(r.status[i], Finished[i])
    ensures Dimmed(r.(status := "FINISHED")) && Dimmed(r.(status := "finished"))
  {
    EqualsIgnoreCaseMeans(r.status, Finished);
    var upper := "FINISHED";
    var lower := "finished";
    assert forall i :: 0 <= i < 8 ==> Fold(upper[i]) == Fold(Finished[i]);
    assert forall i :: 0 <= i < 8 ==> Fold(lower[i]) == Fold(Finished[i]);
  }

  /** A newly created report (status "Pending") is not dimmed. */
  lemma NewReportNotDimmed(id: int, lat: Degrees, lon: Degrees, photo: string,
                           description: string, trashType: string)
    ensures !Dimmed(NewReport(id, lat, lon, photo, description, trashType))
  {
    assert |Pending| != |Finished|;
  }

  /** The report the detail screen has just marked finished is shown dimmed. */
  lemma MarkedFinishedIsDimmed(rs: seq<Report>, k: nat)
    requires k < |rs|
    ensures Dimmed(MarkFinishedAt(rs, k)[k])
  {
    EqualsIgnoreCaseIsEquivalence(Finished, Finished, Finished);
  }

  /** Marking finished never changes whether a row is highlighted. */
  lemma MarkFinishedKeepsHighlight(rs: seq<Report>, k: nat, j: nat)
    requires k < |rs| && j < |rs|
    ensures Highlighted(MarkFinishedAt(rs, k)[j]) == Highlighted(rs[j])
  {
  }
}
