/**
 * The products dashboard: the paged, searchable product listing and the
 * admin-only delete dialog.
 */
module ProductsPage {
  import opened Wrappers
  import opened Strings
  import opened Seqs
  import opened DataTransformers
  import opened Backend

  /** `ITEMS_PER_PAGE`. */
  const ItemsPerPage: nat := 5

  /** `from`: the index of the first row requested for a page. */
  function RangeFrom(page: int): int {
    (page - 1) * ItemsPerPage
  }

  /** `to`: the index of the last row requested for a page (inclusive, as `range` takes it). */
  function RangeTo(page: int): int {
    RangeFrom(page) + ItemsPerPage - 1
  }

  /**
   * Page `p` asks for exactly five rows, `[(p-1)*5, p*5)`, and consecutive pages
   * tile the result: every row index lies in the range of exactly one page.
   */
  lemma PageRanges(page: int, row: nat)
    ensures RangeFrom(page) == (page - 1) * 5 && RangeTo(page) == page * 5 - 1
    ensures RangeTo(page) - RangeFrom(page) + 1 == ItemsPerPage
    ensures RangeFrom(page + 1) == RangeTo(page) + 1
    ensures RangeFrom(row / 5 + 1) <= row <= RangeTo(row / 5 + 1)
    ensures RangeFrom(page) <= row <= RangeTo(page) ==> page == row / 5 + 1
  {
  }

  /** `Math.ceil((count || 0) / ITEMS_PER_PAGE)`. */
  function TotalPages(count: Option<nat>): nat {
    (count.GetOr(0) + ItemsPerPage - 1) / ItemsPerPage
  }

  /** The page count is the ceiling: its pages hold every row, one page fewer would not, and no rows means no pages. */
  lemma TotalPagesIsCeiling(count: Option<nat>)
    ensures TotalPages(count) * ItemsPerPage >= count.GetOr(0)
    ensures TotalPages(count) > 0 ==> (TotalPages(count) - 1) * ItemsPerPage < count.GetOr(0)
    ensures TotalPages(count) == 0 <==> count.GetOr(0) == 0
  {
  }

  /** Every one of the `count` matching rows lies on some page `1..totalPages`. */
  lemma EveryRowHasAPage(count: nat, row: nat)
    requires row < count
    ensures 1 <= row / 5 + 1 <= TotalPages(Some(count))
    ensures RangeFrom(row / 5 + 1) <= row <= RangeTo(row / 5 + 1)
  {
    TotalPagesIsCeiling(Some(count));
    var t := TotalPages(Some(count));
    assert t * 5 >= count;
  }

  /** The filter both the count query and the data query carry. */
  datatype SearchMode =
    | AllProducts
    | IdEquals(id: string)
    | NameLike(pattern: string)

  /**
   * The search-mode choice: no filter for a blank query, an exact id match when
   * the query reads as a number (`numeric` stands for `!isNaN(Number(query))`),
   * otherwise a case-insensitive `%query%` match on the name. The untrimmed
   * query is what is sent.
   */
  function SearchFilter(query: string, numeric: bool): (f: SearchMode)
    ensures f.AllProducts? <==> IsBlank(query)
    ensures f.IdEquals? <==> !IsBlank(query) && numeric
    ensures f.IdEquals? ==> f.id == query
    ensures f.NameLike? ==> f.pattern == "%" + query + "%"
  {
    if IsBlank(query) then AllProducts
    else if numeric then IdEquals(query)
    else NameLike("%" + query + "%")
  }

  /** One `order` clause; `nullsFirst == None` leaves the null placement to the backend. */
  datatype Ordering = Ordering(column: string, ascending: bool, nullsFirst: Option<bool>)

  /** Newest update first (rows without one last), then newest creation first. */
  const ProductOrder: seq<Ordering> :=
    [Ordering("lastUpdated", false, Some(false)), Ordering("created_at", false, None)]

  /** The data query: filter, order and the inclusive row range. */
  datatype DataQuery = DataQuery(filter: SearchMode, order: seq<Ordering>, from: int, to: int)

  /** The data query for a page and a search (the count query carries the same filter). */
  function ProductQuery(page: int, query: string, numeric: bool): (q: DataQuery)
    ensures q.filter == SearchFilter(query, numeric)
    ensures q.to - q.from + 1 == ItemsPerPage && q.from == (page - 1) * ItemsPerPage
    ensures q.order == ProductOrder
  {
    DataQuery(SearchFilter(query, numeric), ProductOrder, RangeFrom(page), RangeTo(page))
  }

  /** The products whose id is not `id`, in their order. */
  function WithoutProduct(products: seq<UiProduct>, id: string): (r: seq<UiProduct>)
    ensures forall k :: 0 <= k < |r| ==> r[k].id != id
    ensures forall k :: 0 <= k < |products| && products[k].id != id ==> products[k] in r
    ensures IsSubsequence(r, products)
  {
    FilterIsSubsequence((p: UiProduct) => p.id != id, products);
    Filter((p: UiProduct) => p.id != id, products)
  }

  /** The rows of a page, converted for display. */
  function ToUiProducts(rows: seq<DbProduct>): seq<UiProduct> {
    seq(|rows|, k requires 0 <= k < |rows| => ToUiProduct(rows[k]))
  }

  /**
   * The early returns of `formatLastUpdated`: "N/A" for a missing or empty
   * value, "Not available" for that literal; `None` for every other value,
   * which goes on to date formatting.
   */
  function FormatLastUpdatedEarly(s: Option<string>): (r: Option<string>)
    ensures !Truthy(s) ==> r == Some("N/A")
    ensures s == Some("Not available") ==> r == Some("Not available")
    ensures Truthy(s) && s != Some("Not available") ==> r == None
  {
    if !Truthy(s) then Some("N/A")
    else if s.value == "Not available" then Some("Not available")
    else None
  }

  /** The page's state fields. */
  class ProductsPage {
    var searchQuery: string
    var products: seq<UiProduct>
    var loading: bool
    var error: Option<string>
    var currentPage: int
    var totalPages: int
    var productToDelete: Option<string>
    var showDeleteConfirm: bool

    constructor ()
      ensures searchQuery == "" && products == [] && loading && error == None
      ensures currentPage == 1 && totalPages == 1
      ensures productToDelete == None && !showDeleteConfirm
    {
      searchQuery := "";
      products := [];
      loading := true;
      error := None;
      currentPage := 1;
      totalPages := 1;
      productToDelete := None;
      showDeleteConfirm := false;
    }

    /**
     * `fetchProducts`, given the backend's replies to the count query and the
     * data query. Returns the filter of the count query and the data query it
     * sends, if any. The count failing stops before the data query.
     */
    method FetchProducts(isAuthChecking: bool, numeric: bool,
                         countReply: Reply<Option<nat>>, dataReply: Reply<Option<seq<DbProduct>>>)
      returns (countFilter: Option<SearchMode>, dataQuery: Option<DataQuery>)
      modifies this
      ensures isAuthChecking ==> countFilter == None && dataQuery == None
      ensures isAuthChecking ==> unchanged(this)
      ensures !isAuthChecking ==> countFilter == Some(SearchFilter(searchQuery, numeric)) && !loading
      ensures !isAuthChecking && countReply.Err? ==>
                dataQuery == None && totalPages == old(totalPages) && products == old(products)
                && error == Some(ErrorText(countReply, "Failed to fetch products"))
      ensures !isAuthChecking && countReply.Ok? ==>
                totalPages == TotalPages(countReply.data)
                && dataQuery == Some(ProductQuery(currentPage, searchQuery, numeric))
      ensures !isAuthChecking && countReply.Ok? && dataReply.Err? ==>
                products == old(products) && error == Some(ErrorText(dataReply, "Failed to fetch products"))
      ensures !isAuthChecking && countReply.Ok? && dataReply.Ok? ==>
                error == None
                && products == (if dataReply.data.Some? then ToUiProducts(dataReply.data.value) else old(products))
      ensures searchQuery == old(searchQuery) && currentPage == old(currentPage)
      ensures productToDelete == old(productToDelete) && showDeleteConfirm == old(showDeleteConfirm)
    {
      countFilter, dataQuery := None, None;
      if isAuthChecking {
        return;
      }
      loading := true;
      var query, page := searchQuery, currentPage;
      var err: Option<string> := None;
      var pages, rows := totalPages, products;
      countFilter := Some(SearchFilter(query, numeric));
      if countReply.Err? {
        err := Some(ErrorText(countReply, "Failed to fetch products"));
      } else {
        pages := TotalPages(countReply.data);
        dataQuery := Some(ProductQuery(page, query, numeric));
        if dataReply.Err? {
          err := Some(ErrorText(dataReply, "Failed to fetch products"));
        } else if dataReply.data.Some? {
          rows := ToUiProducts(dataReply.data.value);
        }
      }
      error, totalPages, products, loading := err, pages, rows, false;
    }

    /** `handleSearch`: a new search text always starts again from page 1. */
    method HandleSearch(value: string)
      modifies this
      ensures searchQuery == value && currentPage == 1
      ensures products == old(products) && totalPages == old(totalPages) && error == old(error)
      ensures productToDelete == old(productToDelete) && showDeleteConfirm == old(showDeleteConfirm)
      ensures loading == old(loading)
    {
      searchQuery := value;
      currentPage := 1;
    }

    /** The pager's `onPageChange`, which is `setCurrentPage`. */
    method PageChange(page: int)
      modifies this`currentPage
      ensures currentPage == page
    {
      currentPage := page;
    }

    /** `handleDeleteClick`: remembers the product and opens the dialog. */
    method HandleDeleteClick(productId: string)
      modifies this`productToDelete, this`showDeleteConfirm
      ensures productToDelete == Some(productId) && showDeleteConfirm
    {
      productToDelete := Some(productId);
      showDeleteConfirm := true;
    }

    /**
     * `handleConfirmDelete`, given the signed-in role and the backend's reply to
     * the delete. Only an admin with a pending product issues the delete; on
     * success exactly the products with that id leave the list and the dialog
     * closes; on failure the error is shown and the dialog stays.
     */
    method HandleConfirmDelete(role: Option<string>, reply: Reply<()>) returns (request: Option<Request>)
      modifies this
      ensures !Truthy(old(productToDelete)) || role != Some("admin") ==> request == None && unchanged(this)
      ensures Truthy(old(productToDelete)) && role == Some("admin") ==>
                request == Some(DeleteProduct(old(productToDelete).value))
      ensures Truthy(old(productToDelete)) && role == Some("admin") && reply.Ok? ==>
                products == WithoutProduct(old(products), old(productToDelete).value)
                && !showDeleteConfirm && productToDelete == None && error == old(error)
      ensures Truthy(old(productToDelete)) && role == Some("admin") && reply.Err? ==>
                products == old(products) && showDeleteConfirm == old(showDeleteConfirm)
                && productToDelete == old(productToDelete)
                && error == Some(ErrorText(reply, "Failed to delete product"))
      ensures searchQuery == old(searchQuery) && currentPage == old(currentPage)
      ensures totalPages == old(totalPages) && loading == old(loading)
    {
      request := None;
      if !Truthy(productToDelete) || role != Some("admin") {
        return;
      }
      var id := productToDelete.value;
      request := Some(DeleteProduct(id));
      match reply {
        case Ok(_) =>
          products := WithoutProduct(products, id);
          showDeleteConfirm := false;
          productToDelete := None;
        case Err(_) =>
          error := Some(ErrorText(reply, "Failed to delete product"));
      }
    }

    /** `handleCancelDelete`. */
    method HandleCancelDelete()
      modifies this`productToDelete, this`showDeleteConfirm
      ensures productToDelete == None && !showDeleteConfirm
    {
      showDeleteConfirm := false;
      productToDelete := None;
    }
  }
}
