/**
 * The local category list shared by the categories page and the question and
 * category modals, the pure updates they apply to it, and the per-category
 * expansion map.
 */
module Catalog {
  import opened Strings
  import opened Seqs

  datatype Question = Question(id: string, question: string, answers: seq<string>)

  datatype Category = Category(id: string, name: string, description: string, questions: seq<Question>)

  /** `answers.filter((a) => a.trim())`: the answers that are not blank, in their original order. */
  function NonBlankAnswers(answers: seq<string>): (r: seq<string>)
    ensures |r| <= |answers|
    ensures forall k :: 0 <= k < |r| ==> !IsBlank(r[k]) && r[k] in answers
    ensures forall k :: 0 <= k < |answers| && !IsBlank(answers[k]) ==> answers[k] in r
    ensures IsSubsequence(r, answers)
  {
    FilterIsSubsequence((a: string) => !IsBlank(a), answers);
    Filter((a: string) => !IsBlank(a), answers)
  }

  /** `categories.map(...)` appending `q` to the questions of every category with id `categoryId`. */
  function AddQuestion(cats: seq<Category>, categoryId: string, q: Question): (r: seq<Category>)
    ensures |r| == |cats|
    ensures forall i :: 0 <= i < |cats| && cats[i].id != categoryId ==> r[i] == cats[i]
    ensures forall i :: 0 <= i < |cats| && cats[i].id == categoryId ==>
              r[i] == cats[i].(questions := cats[i].questions + [q])
  {
    seq(|cats|, i requires 0 <= i < |cats| =>
      if cats[i].id == categoryId then cats[i].(questions := cats[i].questions + [q]) else cats[i])
  }

  /** The questions of `qs` whose id is not `questionId`. */
  function WithoutQuestion(qs: seq<Question>, questionId: string): (r: seq<Question>)
    ensures forall k :: 0 <= k < |r| ==> r[k].id != questionId
    ensures forall k :: 0 <= k < |qs| && qs[k].id != questionId ==> qs[k] in r
    ensures IsSubsequence(r, qs)
  {
    FilterIsSubsequence((q: Question) => q.id != questionId, qs);
    Filter((q: Question) => q.id != questionId, qs)
  }

  /** `categories.map(...)` dropping the questions with id `questionId` from every category with id `categoryId`. */
  function DeleteQuestion(cats: seq<Category>, categoryId: string, questionId: string): (r: seq<Category>)
    ensures |r| == |cats|
    ensures forall i :: 0 <= i < |cats| && cats[i].id != categoryId ==> r[i] == cats[i]
    ensures forall i :: 0 <= i < |cats| && cats[i].id == categoryId ==>
              r[i] == cats[i].(questions := WithoutQuestion(cats[i].questions, questionId))
  {
    seq(|cats|, i requires 0 <= i < |cats| =>
      if cats[i].id == categoryId then cats[i].(questions := WithoutQuestion(cats[i].questions, questionId))
      else cats[i])
  }

  /** Replaces text and answers of the questions with id `questionId`; every other question is kept. */
  function EditQuestion(qs: seq<Question>, questionId: string, text: string, answers: seq<string>): (r: seq<Question>)
    ensures |r| == |qs|
    ensures forall k :: 0 <= k < |qs| && qs[k].id != questionId ==> r[k] == qs[k]
    ensures forall k :: 0 <= k < |qs| && qs[k].id == questionId ==>
              r[k] == Question(questionId, text, answers)
  {
    seq(|qs|, k requires 0 <= k < |qs| =>
      if qs[k].id == questionId then qs[k].(question := text, answers := answers) else qs[k])
  }

  /** The two nested `map`s of the edit modal: only the edited question inside the selected category changes. */
  function EditQuestionIn(cats: seq<Category>, categoryId: string, questionId: string, text: string,
                          answers: seq<string>): (r: seq<Category>)
    ensures |r| == |cats|
    ensures forall i :: 0 <= i < |cats| && cats[i].id != categoryId ==> r[i] == cats[i]
    ensures forall i :: 0 <= i < |cats| && cats[i].id == categoryId ==>
              r[i] == cats[i].(questions := EditQuestion(cats[i].questions, questionId, text, answers))
  {
    seq(|cats|, i requires 0 <= i < |cats| =>
      if cats[i].id == categoryId then cats[i].(questions := EditQuestion(cats[i].questions, questionId, text, answers))
      else cats[i])
  }

  /** `categories.reduce((acc, c) => acc + c.questions.length, 0)`. */
  function TotalQuestions(cats: seq<Category>): nat {
    if cats == [] then 0 else TotalQuestions(cats[..|cats| - 1]) + |cats[|cats| - 1].questions|
  }

  /** The number of categories whose id is `categoryId`. */
  function CountWithId(cats: seq<Category>, categoryId: string): nat {
    if cats == [] then 0
    else CountWithId(cats[..|cats| - 1], categoryId) + (if cats[|cats| - 1].id == categoryId then 1 else 0)
  }

  /** Adding a question raises the total by one for each category that has the target id. */
  lemma {:induction false} AddQuestionTotal(cats: seq<Category>, categoryId: string, q: Question)
    ensures TotalQuestions(AddQuestion(cats, categoryId, q)) == TotalQuestions(cats) + CountWithId(cats, categoryId)
    decreases |cats|
  {
    if cats != [] {
      var n := |cats|;
      var r := AddQuestion(cats, categoryId, q);
      assert r[..n - 1] == AddQuestion(cats[..n - 1], categoryId, q);
      AddQuestionTotal(cats[..n - 1], categoryId, q);
    }
  }

  /** The number of questions in `qs` whose id is `questionId`. */
  function QuestionsWithId(qs: seq<Question>, questionId: string): nat
    decreases |qs|
  {
    if qs == [] then 0 else (if qs[0].id == questionId then 1 else 0) + QuestionsWithId(qs[1..], questionId)
  }

  /** Removing the questions with an id shortens the list by exactly their number. */
  lemma {:induction false} WithoutQuestionLength(qs: seq<Question>, questionId: string)
    ensures |WithoutQuestion(qs, questionId)| + QuestionsWithId(qs, questionId) == |qs|
  {
    var p := (q: Question) => q.id != questionId;
    FilterLength(p, qs, questionId);
  }

  /** `WithoutQuestionLength` for any predicate that rejects exactly the questions with the id. */
  lemma {:induction false} FilterLength(p: Question -> bool, qs: seq<Question>, questionId: string)
    requires forall q :: p(q) == (q.id != questionId)
    ensures |Filter(p, qs)| + QuestionsWithId(qs, questionId) == |qs|
    decreases |qs|
  {
    if qs != [] {
      FilterLength(p, qs[1..], questionId);
    }
  }

  /** The number of questions with id `questionId` held by the categories with id `categoryId`. */
  function CountQuestionsWithId(cats: seq<Category>, categoryId: string, questionId: string): nat {
    if cats == [] then 0
    else CountQuestionsWithId(cats[..|cats| - 1], categoryId, questionId)
         + (if cats[|cats| - 1].id == categoryId then QuestionsWithId(cats[|cats| - 1].questions, questionId) else 0)
  }

  /** Deleting a question lowers the total by exactly the number of matching questions in the matching categories. */
  lemma {:induction false} DeleteQuestionTotal(cats: seq<Category>, categoryId: string, questionId: string)
    ensures TotalQuestions(DeleteQuestion(cats, categoryId, questionId)) + CountQuestionsWithId(cats, categoryId, questionId)
            == TotalQuestions(cats)
    decreases |cats|
  {
    if cats != [] {
      var n := |cats|;
      var r := DeleteQuestion(cats, categoryId, questionId);
      assert r[..n - 1] == DeleteQuestion(cats[..n - 1], categoryId, questionId);
      DeleteQuestionTotal(cats[..n - 1], categoryId, questionId);
      WithoutQuestionLength(cats[n - 1].questions, questionId);
    }
  }

  /** Deleting a freshly added question, whose id was not yet used in the category, restores the list. */
  lemma AddThenDelete(cats: seq<Category>, categoryId: string, q: Question)
    requires forall i, k :: 0 <= i < |cats| && cats[i].id == categoryId && 0 <= k < |cats[i].questions|
               ==> cats[i].questions[k].id != q.id
    ensures DeleteQuestion(AddQuestion(cats, categoryId, q), categoryId, q.id) == cats
  {
    var r := DeleteQuestion(AddQuestion(cats, categoryId, q), categoryId, q.id);
    forall i | 0 <= i < |cats| ensures r[i] == cats[i] {
      if cats[i].id == categoryId {
        var qs := cats[i].questions;
        var p := (x: Question) => x.id != q.id;
        FilterAppend(p, qs, [q]);
        FilterKeepsAll(p, qs);
        assert Filter(p, [q]) == [];
        assert WithoutQuestion(qs + [q], q.id) == qs;
      }
    }
  }

  /** Which categories are shown expanded, by category id. */
  type Expansion = map<string, bool>

  /** `expandedCategories[id]` read as a condition: a missing key counts as collapsed. */
  predicate IsExpanded(m: Expansion, id: string) {
    id in m && m[id]
  }

  /** `categories.reduce((acc, c) => ({ ...acc, [c.id]: true }), {})`: every category expanded. */
  function ExpandAll(cats: seq<Category>): (m: Expansion)
    ensures forall id :: id in m <==> exists i :: 0 <= i < |cats| && cats[i].id == id
    ensures forall id :: id in m ==> m[id]
  {
    if cats == [] then map[]
    else
      var m := ExpandAll(cats[..|cats| - 1])[cats[|cats| - 1].id := true];
      assert forall i :: 0 <= i < |cats| - 1 ==> cats[..|cats| - 1][i] == cats[i];
      m
  }

  /** `{ ...prev, [id]: !prev[id] }`: flips one category; a missing key becomes expanded. */
  function Toggle(m: Expansion, id: string): (r: Expansion)
    ensures IsExpanded(r, id) == !IsExpanded(m, id)
    ensures r.Keys == m.Keys + {id}
    ensures forall k :: k in m && k != id ==> r[k] == m[k]
  {
    m[id := !IsExpanded(m, id)]
  }

  /** `{ ...prev, [id]: true }`. */
  function Expand(m: Expansion, id: string): (r: Expansion)
    ensures IsExpanded(r, id)
    ensures r.Keys == m.Keys + {id}
    ensures forall k :: k in m && k != id ==> r[k] == m[k]
  {
    m[id := true]
  }

  /**
   * Toggling twice restores whether every category is shown expanded; the map
   * itself comes back unchanged when the key was already present.
   */
  lemma ToggleTwice(m: Expansion, id: string)
    ensures forall k :: IsExpanded(Toggle(Toggle(m, id), id), k) == IsExpanded(m, k)
    ensures id in m ==> Toggle(Toggle(m, id), id) == m
  {
  }
}
