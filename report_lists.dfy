/**
 * The list operations the report screens perform on their local copy of the stored
 * list: Kotlin's `find { it.id == id }`, the in-place `status = "Finished"` through the
 * found element, and `MutableList.remove(element)`.
 */
module ReportLists {
  import opened Wrappers
  import opened ReportModel

  /**
   * `reports.find { it.id == id }`, as the position of the element it returns: the
   * first report carrying `id`, or none when no report does.
   */
  function FindById(rs: seq<Report>, id: int): (r: Option<nat>)
    ensures r.Some? ==> r.value < |rs| && rs[r.value].id == id
    ensures r.Some? ==> forall j :: 0 <= j < r.value ==> rs[j].id != id
    ensures r.None? <==> forall j :: 0 <= j < |rs| ==> rs[j].id != id
  {
    if rs == [] then None
    else if rs[0].id == id then Some(0)
    else
      match FindById(rs[1..], id)
      case None => None
      case Some(k) => Some(k + 1)
  }

  /**
   * Appending reports never changes what a lookup that already succeeds finds: the
   * first report with an id stays the first one.
   */
  lemma {:induction false} FindByIdAfterAppend(rs: seq<Report>, more: seq<Report>, id: int)
    requires FindById(rs, id).Some?
    ensures FindById(rs + more, id) == FindById(rs, id)
  {
    if rs[0].id != id {
      assert (rs + more)[1..] == rs[1..] + more;
      FindByIdAfterAppend(rs[1..], more, id);
    }
  }

  /** Position `k` holds the first report with its id. */
  ghost predicate FirstWithItsId(rs: seq<Report>, k: nat)
  {
    k < |rs| && forall j :: 0 <= j < k ==> rs[j].id != rs[k].id
  }

  /**
   * `MutableList.remove(x)`: drops the first element equal to `x` (data-class
   * equality) and keeps the order of the rest; without such an element the list stays.
   */
  function RemoveFirst(rs: seq<Report>, x: Report): (r: seq<Report>)
    ensures x !in rs ==> r == rs
    ensures x in rs ==> |r| == |rs| - 1
  {
    if rs == [] then []
    else if rs[0] == x then rs[1..]
    else [rs[0]] + RemoveFirst(rs[1..], x)
  }

  /** The element `RemoveFirst` drops is the one at the first position holding `x`. */
  lemma {:induction false} RemoveFirstAt(rs: seq<Report>, x: Report, k: nat)
    requires k < |rs| && rs[k] == x && x !in rs[..k]
    ensures RemoveFirst(rs, x) == rs[..k] + rs[k + 1..]
  {
    if k > 0 {
      assert rs[0] in rs[..k];
      assert rs[1..][..k - 1] == rs[1..k];
      RemoveFirstAt(rs[1..], x, k - 1);
      assert rs[..k] == [rs[0]] + rs[1..k];
      assert rs[1..][k..] == rs[k + 1..];
    }
  }

  /** `report.status = "Finished"` on the element at position `k` of the list. */
  function MarkFinishedAt(rs: seq<Report>, k: nat): (r: seq<Report>)
    requires k < |rs|
    ensures |r| == |rs|
    ensures r[k] == WithStatus(rs[k], Finished)
    ensures forall j :: 0 <= j < |rs| && j != k ==> r[j] == rs[j]
  {
    rs[k := WithStatus(rs[k], Finished)]
  }

  /** Marking finished twice is the same as marking once. */
  lemma MarkFinishedIdempotent(rs: seq<Report>, k: nat)
    requires k < |rs|
    ensures MarkFinishedAt(MarkFinishedAt(rs, k), k) == MarkFinishedAt(rs, k)
  {
  }

  /** No report loses the status "Finished" and none is set to "Pending" by marking. */
  lemma MarkFinishedIsOneWay(rs: seq<Report>, k: nat, j: nat)
    requires k < |rs| && j < |rs|
    ensures rs[j].status == Finished ==> MarkFinishedAt(rs, k)[j].status == Finished
    ensures MarkFinishedAt(rs, k)[j].status == Pending ==> j != k && rs[j].status == Pending
  {
  }

  /** Marking finished changes no id, so the first report with an id stays the first. */
  lemma MarkFinishedKeepsFirst(rs: seq<Report>, k: nat)
    requires FirstWithItsId(rs, k)
    ensures FirstWithItsId(MarkFinishedAt(rs, k), k)
  {
    var r := MarkFinishedAt(rs, k);
    forall j | 0 <= j < k
      ensures r[j].id != r[k].id
    {
      assert r[j] == rs[j];
    }
  }

  /**
   * Removing the element found by id removes exactly that position: no earlier element
   * can be equal to it, since no earlier element has its id.
   */
  lemma RemoveFound(rs: seq<Report>, k: nat)
    requires FirstWithItsId(rs, k)
    ensures RemoveFirst(rs, rs[k]) == rs[..k] + rs[k + 1..]
  {
    assert rs[k] !in rs[..k] by {
      forall j | 0 <= j < k
        ensures rs[..k][j] != rs[k]
      {
        assert rs[j].id != rs[k].id;
      }
    }
    RemoveFirstAt(rs, rs[k], k);
  }

  /** Every report in the store has its own id. */
  ghost predicate UniqueIds(rs: seq<Report>)
  {
    forall i, j :: 0 <= i < j < |rs| ==> rs[i].id != rs[j].id
  }

  /** With distinct ids, looking up a report's id finds that very report. */
  lemma FindOwnId(rs: seq<Report>, i: nat)
    requires UniqueIds(rs) && i < |rs|
    ensures FindById(rs, rs[i].id) == Some(i)
  {
  }

  /**
   * Ids are not checked for uniqueness; when two reports share one, looking up the
   * second report's id finds the first.
   */
  lemma SharedIdFindsEarlier(a: Report, b: Report)
    requires a.id == b.id
    ensures FindById([a, b], b.id) == Some(0)
  {
  }
}
