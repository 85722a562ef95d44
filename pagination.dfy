/** The page arithmetic of the list endpoints, and the sort orders they
    select. Query values arrive already validated: a page or limit that is
    present is at least 1. */
module Pagination {
  import opened Common

  /** A requested page of rows: the page number, the rows per page and the
      number of rows skipped before it. */
  datatype Window = Window(page: int, limit: int, offset: int)

  datatype Meta = Meta(
    currentPage: int,
    itemsPerPage: int,
    totalItems: nat,
    totalPages: nat,
    hasNextPage: bool,
    hasPreviousPage: bool)

  /** The window of findAllComments, getUserNotifications and
      getUserComments: page defaults to 1, limit defaults to 20 and is capped
      at 100, and the offset skips the earlier pages. */
  function ListWindow(page: Option<int>, limit: Option<int>): (w: Window)
    requires page.Some? ==> page.value >= 1
    requires limit.Some? ==> limit.value >= 1
    ensures 1 <= w.page && 1 <= w.limit <= 100 && w.offset >= 0
    ensures w.page == page.GetOr(1)
    ensures limit.None? ==> w.limit == 20
    ensures limit.Some? ==> w.limit == Min(limit.value, 100)
    ensures w.offset == (w.page - 1) * w.limit
  {
    var p := page.GetOr(1);
    var l := Min(limit.GetOr(20), 100);
    Window(p, l, (p - 1) * l)
  }

  /** The pagination metadata of a window over totalItems rows. */
  function MetaFor(w: Window, totalItems: nat): (m: Meta)
    requires w.limit >= 1
  {
    var totalPages := CeilDiv(totalItems, w.limit);
    Meta(w.page, w.limit, totalItems, totalPages, w.page < totalPages, w.page > 1)
  }

  /** There is a next page exactly when rows remain after the current page;
      the pages hold every row, the last page is not empty, and there are no
      pages exactly when there are no rows. */
  lemma NextPageIffRowsRemain(w: Window, totalItems: nat)
    requires w.limit >= 1 && w.page >= 1
    ensures MetaFor(w, totalItems).hasNextPage <==> w.page * w.limit < totalItems
    ensures MetaFor(w, totalItems).totalPages * w.limit >= totalItems
    ensures MetaFor(w, totalItems).totalPages >= 1 ==> (MetaFor(w, totalItems).totalPages - 1) * w.limit < totalItems
    ensures MetaFor(w, totalItems).totalPages == 0 <==> totalItems == 0
  {
    var t := CeilDiv(totalItems, w.limit);
    if w.page < t {
      MulMonotone(w.page, t - 1, w.limit);
    } else {
      MulMonotone(t, w.page, w.limit);
    }
    if t >= 1 {
      MulMonotone(0, t - 1, w.limit);
    }
  }

  /** The rows of one page: skip offset rows, then take at most take. */
  function PageOf<T>(rows: seq<T>, offset: nat, take: nat): (r: seq<T>)
    ensures |r| == Max(0, Min(|rows|, offset + take) - offset)
    ensures forall i :: 0 <= i < |r| ==> r[i] == rows[offset + i]
  {
    if offset >= |rows| then []
    else rows[offset..Min(|rows|, offset + take)]
  }

  /** Consecutive list pages are adjacent: page p + 1 starts at the row right
      after page p ends, so no row is skipped or shown twice. */
  lemma ListPagesAdjacent(page: int, limit: Option<int>)
    requires page >= 1
    requires limit.Some? ==> limit.value >= 1
    ensures ListWindow(Some(page + 1), limit).offset
            == ListWindow(Some(page), limit).offset + ListWindow(Some(page), limit).limit
  {
  }

  /** The window of findReplies: page and limit default to 1 and 20 only
      when absent; the rows taken are capped at 50, but the offset uses the
      uncapped limit. */
  function ReplyWindow(page: Option<int>, limit: Option<int>): (w: Window)
    requires page.Some? ==> page.value >= 1
    requires limit.Some? ==> limit.value >= 1
    ensures 1 <= w.limit <= 50 && w.offset >= 0
    ensures w.offset == (page.GetOr(1) - 1) * limit.GetOr(20)
    ensures w.limit == Min(limit.GetOr(20), 50)
  {
    var p := page.GetOr(1);
    var l := limit.GetOr(20);
    Window(p, Min(l, 50), (p - 1) * l)
  }

  /** With a limit of at most 50 reply pages are adjacent; above 50, page 2
      starts beyond the end of page 1, so rows in between are never served. */
  lemma ReplyPagesGapAbove50(limit: int)
    requires limit >= 1
    ensures limit <= 50 ==> ReplyWindow(Some(2), Some(limit)).offset
                            == ReplyWindow(Some(1), Some(limit)).offset + ReplyWindow(Some(1), Some(limit)).limit
    ensures limit > 50 ==> ReplyWindow(Some(2), Some(limit)).offset
                           > ReplyWindow(Some(1), Some(limit)).offset + ReplyWindow(Some(1), Some(limit)).limit
  {
  }

  datatype Column = CreatedAt | TotalReplies

  datatype Direction = Asc | Desc

  datatype Order = Order(column: Column, direction: Direction)

  /** findAllComments: 'oldest' sorts by creation time ascending, anything
      else descending. */
  function CommentsOrder(sortBy: Option<string>): (o: Order)
    ensures o.column == CreatedAt
    ensures o.direction == Asc <==> sortBy == Some("oldest")
  {
    if sortBy == Some("oldest") then Order(CreatedAt, Asc) else Order(CreatedAt, Desc)
  }

  /** getUserComments: 'oldest' sorts by creation time ascending,
      'most_replies' by totalReplies descending, anything else by creation
      time descending. */
  function UserCommentsOrder(sortBy: Option<string>): (o: Order)
    ensures o.column == TotalReplies <==> sortBy == Some("most_replies")
    ensures o.direction == Asc <==> sortBy == Some("oldest")
  {
    match sortBy
    case Some("oldest") => Order(CreatedAt, Asc)
    case Some("most_replies") => Order(TotalReplies, Desc)
    case _ => Order(CreatedAt, Desc)
  }
}
