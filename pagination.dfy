/**
 * The pager under the product table: the row of page buttons (numbers and
 * ellipses) built from the current page and the page count, and the
 * Previous/Next buttons around it.
 */
module Pagination {
  import opened Wrappers

  /** What one button in the row shows: a page number or `'...'`. */
  datatype PageButton = Page(number: int) | Ellipsis

  /** A rendered button: whether it is disabled and which page its click requests, if any. */
  datatype Control = Control(disabled: bool, request: Option<int>)

  /** `Math.min(totalPages, 5)` as an array length (a negative length gives no buttons). */
  function ButtonCount(total: int): (r: nat)
    ensures r <= 5 && r <= (if total < 0 then 0 else total)
    ensures total >= 5 ==> r == 5
    ensures 0 <= total <= 5 ==> r == total
  {
    if total <= 0 then 0 else if total < 5 then total else 5
  }

  /** The button at index `i` of the row, by the conditional chain of the renderer. */
  function ButtonAt(current: int, total: int, i: int): PageButton {
    if total > 5 then
      if total <= 7 then Page(i + 1)
      else if current <= 3 then
        (if i < 4 then Page(i + 1) else if i == 4 then Ellipsis else Page(total))
      else if current >= total - 2 then
        (if i == 0 then Page(1) else if i == 1 then Ellipsis else Page(total - 4 + i))
      else
        (if i == 0 then Page(1) else if i == 1 then Ellipsis else if i == 3 then Ellipsis
         else if i == 4 then Page(total) else Page(current + i - 2))
    else Page(i + 1)
  }

  /** The row of page buttons for `currentPage` out of `totalPages`. */
  function PageButtons(current: int, total: int): (r: seq<PageButton>)
    ensures |r| == ButtonCount(total)
  {
    seq(ButtonCount(total), i requires 0 <= i < ButtonCount(total) => ButtonAt(current, total, i))
  }

  /** The pages `first`, `first + 1`, ..., `first + n - 1`. */
  function Consecutive(first: int, n: nat): (r: seq<PageButton>)
    ensures |r| == n
    ensures forall k :: 0 <= k < n ==> r[k] == Page(first + k)
  {
    seq(n, k requires 0 <= k < n => Page(first + k))
  }

  /** With at most seven pages the row is simply the first `min(totalPages, 5)` pages. */
  lemma FewPages(current: int, total: int)
    requires total <= 7
    ensures PageButtons(current, total) == Consecutive(1, ButtonCount(total))
  {
  }

  /** Near the start of many pages: `1 2 3 4 ...`. */
  lemma ManyPagesNearStart(current: int, total: int)
    requires total > 7 && current <= 3
    ensures PageButtons(current, total) == [Page(1), Page(2), Page(3), Page(4), Ellipsis]
  {
    var r := PageButtons(current, total);
    assert r[0] == Page(1) && r[1] == Page(2) && r[2] == Page(3) && r[3] == Page(4) && r[4] == Ellipsis;
  }

  /** Near the end of many pages: `1 ... T-2 T-1 T`. */
  lemma ManyPagesNearEnd(current: int, total: int)
    requires total > 7 && current > 3 && current >= total - 2
    ensures PageButtons(current, total) == [Page(1), Ellipsis, Page(total - 2), Page(total - 1), Page(total)]
  {
    var r := PageButtons(current, total);
    assert r[0] == Page(1) && r[1] == Ellipsis && r[2] == Page(total - 2) && r[3] == Page(total - 1) && r[4] == Page(total);
  }

  /** In the middle of many pages: `1 ... c ... T`. */
  lemma ManyPagesMiddle(current: int, total: int)
    requires total > 7 && 3 < current < total - 2
    ensures PageButtons(current, total) == [Page(1), Ellipsis, Page(current), Ellipsis, Page(total)]
  {
    var r := PageButtons(current, total);
    assert r[0] == Page(1) && r[1] == Ellipsis && r[2] == Page(current) && r[3] == Ellipsis && r[4] == Page(total);
  }

  /** With six or seven pages the last pages get no button: the row stops at 5. */
  lemma SixPagesShowFive(current: int)
    ensures PageButtons(current, 6) == [Page(1), Page(2), Page(3), Page(4), Page(5)]
    ensures Page(6) !in PageButtons(current, 6)
  {
    FewPages(current, 6);
  }

  /** The control rendered for a page button: an ellipsis is disabled and requests nothing. */
  function PageControl(b: PageButton): (c: Control)
    ensures c.disabled <==> b.Ellipsis?
    ensures c.request.Some? <==> b.Page?
    ensures b.Page? ==> c.request == Some(b.number)
  {
    Control(b == Ellipsis, if b.Page? then Some(b.number) else None)
  }

  /** The Previous button: disabled on page 1, otherwise requests the page before. */
  function PreviousControl(current: int): Control {
    Control(current == 1, Some(current - 1))
  }

  /** The Next button: disabled on the last page, otherwise requests the page after. */
  function NextControl(current: int, total: int): Control {
    Control(current == total, Some(current + 1))
  }

  /** The page a click on the control requests: none when it is disabled. */
  function Click(c: Control): (r: Option<int>)
    ensures c.disabled ==> r == None
    ensures !c.disabled ==> r == c.request
  {
    if c.disabled then None else c.request
  }

  /**
   * On a valid page, every button that reacts to a click requests a page in
   * `1..totalPages`; Previous reacts exactly when there is a page before, Next
   * exactly when there is a page after.
   */
  lemma NavigationStaysInRange(current: int, total: int)
    requires 1 <= current <= total
    ensures Click(PreviousControl(current)).Some? <==> current > 1
    ensures Click(NextControl(current, total)).Some? <==> current < total
    ensures forall p :: Click(PreviousControl(current)) == Some(p) ==> 1 <= p <= total
    ensures forall p :: Click(NextControl(current, total)) == Some(p) ==> 1 <= p <= total
    ensures forall k, p :: 0 <= k < |PageButtons(current, total)| && Click(PageControl(PageButtons(current, total)[k])) == Some(p)
              ==> 1 <= p <= total
  {
    NumbersInRange(current, total);
  }

  /** Every number shown in the row is a page that exists. */
  lemma {:induction false} NumbersInRange(current: int, total: int)
    requires 1 <= current <= total
    ensures forall k :: 0 <= k < |PageButtons(current, total)| && PageButtons(current, total)[k].Page?
              ==> 1 <= PageButtons(current, total)[k].number <= total
  {
    var r := PageButtons(current, total);
    forall k | 0 <= k < |r| && r[k].Page?
      ensures 1 <= r[k].number <= total
    {
      assert r[k] == ButtonAt(current, total, k);
    }
  }

  /** With no pages at all (an empty listing) Next stays enabled and requests page 2. */
  lemma NextEnabledOnEmptyListing()
    ensures PageButtons(1, 0) == []
    ensures Click(NextControl(1, 0)) == Some(2)
  {
  }
}
