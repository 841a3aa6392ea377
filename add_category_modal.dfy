/** The "add category" dialog: validation, the insert, and the update of the page's list. */
module AddCategoryModal {
  import opened Wrappers
  import opened Strings
  import opened Catalog
  import opened Backend
  import opened CategoriesPage

  /** A `Categories` row as returned by the insert. */
  datatype CategoryRow = CategoryRow(id: string, categoryName: string, categoryDescription: Option<string>)

  /** The local category built from the inserted row: no questions, description defaulted to "". */
  function NewCategory(row: CategoryRow): (c: Category)
    ensures c.id == row.id && c.name == row.categoryName && c.questions == []
    ensures Truthy(row.categoryDescription) ==> Some(c.description) == row.categoryDescription
    ensures !Truthy(row.categoryDescription) ==> c.description == ""
  {
    Category(row.id, row.categoryName, OrElse(row.categoryDescription, ""), [])
  }

  /** A new category adds no questions to the total. */
  lemma NewCategoryTotal(cats: seq<Category>, row: CategoryRow)
    ensures TotalQuestions(cats + [NewCategory(row)]) == TotalQuestions(cats)
  {
    assert (cats + [NewCategory(row)])[..|cats|] == cats;
  }

  /** The dialog's own fields; the list, the expansion map and the open flag belong to `page`. */
  class AddCategoryModal {
    const page: CategoriesPage
    var loading: bool
    var newCategoryName: string
    var newCategoryDescription: string

    constructor (page: CategoriesPage)
      ensures this.page == page && !loading && newCategoryName == "" && newCategoryDescription == ""
    {
      this.page := page;
      loading := false;
      newCategoryName := "";
      newCategoryDescription := "";
    }

    /**
     * `handleCreateCategory`, given the backend's reply to the insert. A blank
     * name is rejected before any request (and the fields are left as they are);
     * otherwise one insert is sent, a returned row is appended to the page's list
     * and expanded and the dialog closes, and the fields are cleared whatever
     * the reply.
     */
    method HandleCreateCategory(reply: Reply<seq<CategoryRow>>) returns (request: Option<Request>)
      modifies this, page
      ensures IsBlank(old(newCategoryName)) ==> request == None && unchanged(this) && unchanged(page)
      ensures !IsBlank(old(newCategoryName)) ==>
                request == Some(InsertCategory(old(newCategoryName), old(newCategoryDescription)))
                && newCategoryName == "" && newCategoryDescription == "" && !loading
                && page.searchQuery == old(page.searchQuery)
      ensures !IsBlank(old(newCategoryName)) && reply.Ok? && |reply.data| > 0 ==>
                page.categories == old(page.categories) + [NewCategory(reply.data[0])]
                && page.expanded == Expand(old(page.expanded), reply.data[0].id)
                && !page.showAddModal
      ensures !IsBlank(old(newCategoryName)) && !(reply.Ok? && |reply.data| > 0) ==>
                page.categories == old(page.categories) && page.expanded == old(page.expanded)
                && page.showAddModal == old(page.showAddModal)
    {
      request := None;
      if IsBlank(newCategoryName) {
        return;
      }
      loading := true;
      request := Some(InsertCategory(newCategoryName, newCategoryDescription));
      if reply.Ok? && |reply.data| > 0 {
        var row := reply.data[0];
        page.categories := page.categories + [NewCategory(row)];
        page.expanded := Expand(page.expanded, row.id);
        page.showAddModal := false;
      }
      loading := false;
      newCategoryName := "";
      newCategoryDescription := "";
    }
  }
}
