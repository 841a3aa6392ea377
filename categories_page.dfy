/**
 * The categories dashboard: the local category list with per-category
 * expansion, the question count, and the add/delete question handlers.
 */
module CategoriesPage {
  import opened Strings
  import opened Catalog

  /** The page's state fields. */
  class CategoriesPage {
    var categories: seq<Category>
    var searchQuery: string
    var expanded: Expansion
    var showAddModal: bool

    /** The page starts on the given categories, every one of them expanded. */
    constructor (initial: seq<Category>)
      ensures categories == initial && expanded == ExpandAll(initial)
      ensures forall i :: 0 <= i < |initial| ==> IsExpanded(expanded, initial[i].id)
      ensures searchQuery == "" && !showAddModal
    {
      categories := initial;
      expanded := ExpandAll(initial);
      searchQuery := "";
      showAddModal := false;
    }

    /** `totalQuestions`. */
    function TotalQuestionCount(): nat
      reads this
    {
      TotalQuestions(categories)
    }

    /** `handleSearch`. */
    method HandleSearch(value: string)
      modifies this`searchQuery
      ensures searchQuery == value
    {
      searchQuery := value;
    }

    /** `toggleCategory`: only the given category's flag flips. */
    method ToggleCategory(categoryId: string)
      modifies this`expanded
      ensures expanded == Toggle(old(expanded), categoryId)
      ensures IsExpanded(expanded, categoryId) == !IsExpanded(old(expanded), categoryId)
      ensures forall k :: k != categoryId ==> IsExpanded(expanded, k) == IsExpanded(old(expanded), k)
    {
      expanded := Toggle(expanded, categoryId);
    }

    /**
     * `handleAddQuestion`: the question, with the id `q<now>` taken from the
     * clock, goes to the end of the matching category, which is then expanded.
     */
    method HandleAddQuestion(categoryId: string, question: string, answers: seq<string>, now: nat)
      modifies this`categories, this`expanded
      ensures categories == AddQuestion(old(categories), categoryId, Question("q" + NatToString(now), question, answers))
      ensures expanded == Expand(old(expanded), categoryId)
      ensures TotalQuestionCount() == old(TotalQuestionCount()) + CountWithId(old(categories), categoryId)
    {
      var q := Question("q" + NatToString(now), question, answers);
      AddQuestionTotal(categories, categoryId, q);
      categories := AddQuestion(categories, categoryId, q);
      expanded := Expand(expanded, categoryId);
    }

    /** `handleDeleteQuestion`: drops the questions with that id from the matching category only. */
    method HandleDeleteQuestion(categoryId: string, questionId: string)
      modifies this`categories
      ensures categories == DeleteQuestion(old(categories), categoryId, questionId)
      ensures TotalQuestionCount() + CountQuestionsWithId(old(categories), categoryId, questionId)
              == old(TotalQuestionCount())
    {
      DeleteQuestionTotal(categories, categoryId, questionId);
      categories := DeleteQuestion(categories, categoryId, questionId);
    }
  }
}
