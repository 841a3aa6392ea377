/**
 * The "add question" wizard: step 0 edits the question and its answers, step
 * k (1 <= k <= number of answers) assigns products to answer k-1, and the
 * final action inserts the question, its non-blank answers and their product
 * links.
 */
module AddQuestionModal {
  import opened Wrappers
  import opened Strings
  import opened Seqs
  import opened Catalog
  import opened Backend

  /** `prevAnswers.filter((_, i) => i !== index)`: the element at position `i`, if any, is dropped. */
  function RemoveAt<T>(s: seq<T>, i: int): (r: seq<T>)
    ensures 0 <= i < |s| ==> |r| == |s| - 1
    ensures 0 <= i < |s| ==> forall k :: 0 <= k < i ==> r[k] == s[k]
    ensures 0 <= i < |s| ==> forall k :: i <= k < |r| ==> r[k] == s[k + 1]
    ensures !(0 <= i < |s|) ==> r == s
  {
    if 0 <= i < |s| then s[..i] + s[i + 1..] else s
  }

  /** `s.splice(i, 1)` on a copy: a negative start counts from the end, a start past the end removes nothing. */
  function SpliceOne<T>(s: seq<T>, i: int): (r: seq<T>)
    ensures 0 <= i ==> r == RemoveAt(s, i)
    ensures -|s| <= i < 0 ==> r == RemoveAt(s, |s| + i)
    ensures i < -|s| ==> r == RemoveAt(s, 0)
    ensures -|s| <= i < |s| || (i < 0 && s != []) <==> |r| == |s| - 1
  {
    var start := if i < 0 then (if |s| + i < 0 then 0 else |s| + i) else (if i < |s| then i else |s|);
    if start < |s| then s[..start] + s[start + 1..] else s
  }

  /** `prev[k] || []`: the product slots of answer `k` (an existing empty list is kept). */
  function ProductsAt(m: map<int, seq<string>>, k: int): (r: seq<string>)
    ensures k in m ==> r == m[k]
    ensures k !in m ==> r == []
  {
    if k in m then m[k] else []
  }

  /** A possibly undefined array or record element. */
  function Lookup(s: seq<string>, i: int): (r: Option<string>)
    ensures r.Some? <==> 0 <= i < |s|
    ensures r.Some? ==> r.value == s[i]
  {
    if 0 <= i < |s| then Some(s[i]) else None
  }

  /** `answerIdMap[k]`, possibly undefined. */
  function MappedId(m: map<int, string>, k: int): (r: Option<string>)
    ensures r.Some? <==> k in m
    ensures r.Some? ==> r.value == m[k]
  {
    if k in m then Some(m[k]) else None
  }

  /** `ids.filter(id => id && id !== "")`: the slots holding a product. */
  function ChosenProducts(productIds: seq<string>): (r: seq<string>)
    ensures forall k :: 0 <= k < |r| ==> r[k] != "" && r[k] in productIds
    ensures forall k :: 0 <= k < |productIds| && productIds[k] != "" ==> productIds[k] in r
  {
    Filter((p: string) => p != "", productIds)
  }

  /** The `Product_Answers` records of one answer: one per product, in order. */
  function AnswerLinks(answerId: string, productIds: seq<string>): (r: seq<Link>)
    ensures |r| == |productIds|
    ensures forall k :: 0 <= k < |r| ==> r[k] == Link(answerId, productIds[k])
  {
    seq(|productIds|, k requires 0 <= k < |productIds| => Link(answerId, productIds[k]))
  }

  /**
   * Whether the callback for the answer at `index` of the filtered list sends a
   * link insert: its own insert returned a row and `answerProducts[index]`
   * holds at least one product. The lookup uses the index in the filtered
   * list, not the answer's position in the form.
   */
  predicate SendsLinks(index: int, products: map<int, seq<string>>, reply: Reply<seq<string>>) {
    reply.Ok? && |reply.data| > 0 && index in products && |products[index]| > 0
    && ChosenProducts(products[index]) != []
  }

  /** The requests of the callback for the answer `text` at `index` of the filtered list. */
  function AnswerStep(questionId: string, text: string, index: int, products: map<int, seq<string>>,
                      reply: Reply<seq<string>>): (r: seq<Request>)
    ensures 1 <= |r| <= 2 && r[0] == InsertAnswer(questionId, text)
    ensures |r| == 2 <==> SendsLinks(index, products, reply)
    ensures |r| == 2 ==> r[1] == InsertLinks(AnswerLinks(reply.data[0], ChosenProducts(products[index])))
  {
    [InsertAnswer(questionId, text)]
    + (if SendsLinks(index, products, reply)
       then [InsertLinks(AnswerLinks(reply.data[0], ChosenProducts(products[index])))]
       else [])
  }

  /** The callback for the answer at `index` completes: its insert and, if sent, its link insert succeed. */
  predicate AnswerStored(index: int, products: map<int, seq<string>>, reply: Reply<seq<string>>,
                         linkReply: Reply<()>) {
    reply.Ok? && (SendsLinks(index, products, reply) ==> linkReply.Ok?)
  }

  /** The requests of the callbacks for the first `n` filtered answers, in order. */
  function AnswerRequests(questionId: string, texts: seq<string>, products: map<int, seq<string>>,
                          replies: nat -> Reply<seq<string>>, n: nat): (r: seq<Request>)
    requires n <= |texts|
    ensures n <= |r| <= 2 * n
  {
    if n == 0 then []
    else AnswerRequests(questionId, texts, products, replies, n - 1)
         + AnswerStep(questionId, texts[n - 1], n - 1, products, replies(n - 1))
  }

  /** Every answer callback completes, so `Promise.all` resolves. */
  predicate AllAnswersStored(texts: seq<string>, products: map<int, seq<string>>,
                             replies: nat -> Reply<seq<string>>, linkReplies: nat -> Reply<()>) {
    forall k: nat :: k < |texts| ==> AnswerStored(k, products, replies(k), linkReplies(k))
  }

  /** The texts of the answer inserts among `rs`, in order. */
  function InsertedAnswers(rs: seq<Request>): seq<string> {
    if rs == [] then []
    else (if rs[0].InsertAnswer? then [rs[0].answerText] else []) + InsertedAnswers(rs[1..])
  }

  lemma {:induction false} InsertedAnswersAppend(a: seq<Request>, b: seq<Request>)
    ensures InsertedAnswers(a + b) == InsertedAnswers(a) + InsertedAnswers(b)
  {
    if a != [] {
      assert (a + b)[1..] == a[1..] + b;
      InsertedAnswersAppend(a[1..], b);
    } else {
      assert a + b == b;
    }
  }

  /** One callback's requests insert exactly its own answer text. */
  lemma InsertedAnswersStep(questionId: string, text: string, index: int,
                            products: map<int, seq<string>>, reply: Reply<seq<string>>)
    ensures InsertedAnswers(AnswerStep(questionId, text, index, products, reply)) == [text]
  {
    var step := AnswerStep(questionId, text, index, products, reply);
    if |step| == 2 {
      assert step[1..][1..] == [];
      assert InsertedAnswers(step[1..]) == InsertedAnswers(step[1..][1..]);
    } else {
      assert step[1..] == [];
    }
  }

  /** The answer inserts are exactly the first `n` filtered answers, in order. */
  lemma {:induction false} AnswerRequestsInsertTexts(questionId: string, texts: seq<string>,
                                                     products: map<int, seq<string>>,
                                                     replies: nat -> Reply<seq<string>>, n: nat)
    requires n <= |texts|
    ensures InsertedAnswers(AnswerRequests(questionId, texts, products, replies, n)) == texts[..n]
  {
    if n > 0 {
      var prev := AnswerRequests(questionId, texts, products, replies, n - 1);
      var step := AnswerStep(questionId, texts[n - 1], n - 1, products, replies(n - 1));
      assert AnswerRequests(questionId, texts, products, replies, n) == prev + step;
      assert InsertedAnswers(prev) == texts[..n - 1] by {
        AnswerRequestsInsertTexts(questionId, texts, products, replies, n - 1);
      }
      assert InsertedAnswers(step) == [texts[n - 1]] by {
        InsertedAnswersStep(questionId, texts[n - 1], n - 1, products, replies(n - 1));
      }
      assert InsertedAnswers(prev + step) == InsertedAnswers(prev) + InsertedAnswers(step) by {
        InsertedAnswersAppend(prev, step);
      }
      assert texts[..n] == texts[..n - 1] + [texts[n - 1]];
    }
  }

  /** One callback inserts an answer of the new question and links only non-empty products of its own slot. */
  lemma AnswerStepLinks(questionId: string, text: string, index: int, products: map<int, seq<string>>,
                        reply: Reply<seq<string>>)
    ensures forall r :: r in AnswerStep(questionId, text, index, products, reply) ==>
              (r.InsertAnswer? && r.questionId == questionId) || r.InsertLinks?
    ensures forall r, l :: r in AnswerStep(questionId, text, index, products, reply) && r.InsertLinks? && l in r.links ==>
              l.productId != "" && index in products && l.productId in products[index]
  {
    var step := AnswerStep(questionId, text, index, products, reply);
    forall r | r in step
      ensures (r.InsertAnswer? && r.questionId == questionId) || r.InsertLinks?
    {
      var i :| 0 <= i < |step| && step[i] == r;
    }
    forall r, l | r in step && r.InsertLinks? && l in r.links
      ensures l.productId != "" && index in products && l.productId in products[index]
    {
      var i :| 0 <= i < |step| && step[i] == r;
      assert i == 1;
      var chosen := ChosenProducts(products[index]);
      var j :| 0 <= j < |r.links| && r.links[j] == l;
      assert l.productId == chosen[j];
    }
  }

  /**
   * Every request of the answer callbacks inserts an answer of the new
   * question, or links a product that is non-empty and was assigned to the
   * answer slot with the same filtered index.
   */
  lemma {:induction false} AnswerRequestsLinks(questionId: string, texts: seq<string>,
                                               products: map<int, seq<string>>,
                                               replies: nat -> Reply<seq<string>>, n: nat)
    requires n <= |texts|
    ensures forall r :: r in AnswerRequests(questionId, texts, products, replies, n) ==>
              (r.InsertAnswer? && r.questionId == questionId) || r.InsertLinks?
    ensures forall r, l :: r in AnswerRequests(questionId, texts, products, replies, n) && r.InsertLinks? && l in r.links ==>
              l.productId != "" && exists k :: 0 <= k < n && k in products && l.productId in products[k]
  {
    if n > 0 {
      AnswerRequestsLinks(questionId, texts, products, replies, n - 1);
      var prev := AnswerRequests(questionId, texts, products, replies, n - 1);
      var step := AnswerStep(questionId, texts[n - 1], n - 1, products, replies(n - 1));
      AnswerStepLinks(questionId, texts[n - 1], n - 1, products, replies(n - 1));
      assert AnswerRequests(questionId, texts, products, replies, n) == prev + step;
      forall r: Request | r in prev + step
        ensures (r.InsertAnswer? && r.questionId == questionId) || r.InsertLinks?
      {
        assert r in prev || r in step;
      }
      forall r: Request, l: Link | r in AnswerRequests(questionId, texts, products, replies, n) && r.InsertLinks? && l in r.links
        ensures l.productId != "" && exists k :: 0 <= k < n && k in products && l.productId in products[k]
      {
        AnswerRequestsLink(questionId, texts, products, replies, n, r, l);
      }
    }
  }

  /** One link of the answer callbacks' requests, as in `AnswerRequestsLinks`. */
  lemma {:induction false} AnswerRequestsLink(questionId: string, texts: seq<string>,
                                              products: map<int, seq<string>>,
                                              replies: nat -> Reply<seq<string>>, n: nat, r: Request, l: Link)
    requires 0 < n <= |texts|
    requires r in AnswerRequests(questionId, texts, products, replies, n) && r.InsertLinks? && l in r.links
    ensures l.productId != "" && exists k :: 0 <= k < n && k in products && l.productId in products[k]
    decreases n
  {
    var prev := AnswerRequests(questionId, texts, products, replies, n - 1);
    var step := AnswerStep(questionId, texts[n - 1], n - 1, products, replies(n - 1));
    assert AnswerRequests(questionId, texts, products, replies, n) == prev + step;
    if r in prev {
      AnswerRequestsLink(questionId, texts, products, replies, n - 1, r, l);
      var k :| 0 <= k < n - 1 && k in products && l.productId in products[k];
      assert 0 <= k < n;
    } else {
      AnswerStepLinks(questionId, texts[n - 1], n - 1, products, replies(n - 1));
      assert r in step && n - 1 in products && l.productId in products[n - 1];
    }
  }

  /**
   * The lookup by filtered index loses products: with a blank first answer,
   * the products assigned to the second one are looked up under index 0 and
   * no link is sent.
   */
  lemma FilteredIndexDropsLinks(questionId: string, answerId: string)
    ensures AnswerRequests(questionId, ["b"], map[1 := ["p"]], _ => Ok([answerId]), 1)
            == [InsertAnswer(questionId, "b")]
  {
    var products := map[1 := ["p"]];
    var replies: nat -> Reply<seq<string>> := _ => Ok([answerId]);
    assert !SendsLinks(0, products, replies(0));
    assert AnswerRequests(questionId, ["b"], products, replies, 1)
           == AnswerRequests(questionId, ["b"], products, replies, 0) + AnswerStep(questionId, "b", 0, products, replies(0));
  }

  /** The form `["", "b"]` has the single non-blank answer `"b"`, at filtered index 0. */
  lemma BlankFirstAnswerShifts()
    ensures NonBlankAnswers(["", "b"]) == ["b"]
  {
    var p := (a: string) => !IsBlank(a);
    TrimStripsSpace("");
    TrimStripsSpace("b");
    assert !p("") && p("b");
    assert Filter(p, ["", "b"]) == Filter(p, ["b"]);
    assert ["b"][1..] == [];
    assert Filter(p, ["b"]) == ["b"] + Filter(p, []);
  }

  /** The wizard's state fields; `show`, `selectedCategoryId` and `categories` stand for the parent's state set through its setters. */
  class AddQuestionModal {
    var show: bool
    var selectedCategoryId: Option<string>
    var categories: seq<Category>
    var questionName: string
    var answers: seq<string>
    var currentStep: int
    var answerProducts: map<int, seq<string>>
    var answerIdMap: map<int, string>
    var removedProductLinks: seq<Link>

    /**
     * The step counter is never negative. The bound `currentStep <= |answers|`
     * is not part of it: `HandleRemoveAnswer` would break it in general, and
     * only the form of step 0 offers the remove buttons
     * (src/components/AddQuestionModal.tsx:281-307), so the bound is kept as
     * the conditional promise of `HandleNextStep` instead.
     */
    ghost predicate Valid()
      reads this
    {
      0 <= currentStep
    }

    /** The state after `resetQuestionForm` (which also closes the dialog and clears the parent's selection). */
    predicate IsReset()
      reads this
    {
      questionName == "" && answers == [""] && answerProducts == map[] && answerIdMap == map[]
      && removedProductLinks == [] && currentStep == 0 && selectedCategoryId == None && !show
    }

    constructor (show: bool, selectedCategoryId: Option<string>, categories: seq<Category>)
      ensures Valid()
      ensures this.show == show && this.selectedCategoryId == selectedCategoryId && this.categories == categories
      ensures questionName == "" && answers == [""] && currentStep == 0
      ensures answerProducts == map[] && answerIdMap == map[] && removedProductLinks == []
    {
      this.show := show;
      this.selectedCategoryId := selectedCategoryId;
      this.categories := categories;
      questionName := "";
      answers := [""];
      currentStep := 0;
      answerProducts := map[];
      answerIdMap := map[];
      removedProductLinks := [];
    }

    /** `resetQuestionForm`. */
    method ResetQuestionForm()
      modifies this`questionName, this`answers, this`answerProducts, this`answerIdMap,
               this`removedProductLinks, this`currentStep, this`selectedCategoryId, this`show
      ensures Valid() && IsReset()
    {
      questionName := "";
      answers := [""];
      answerProducts := map[];
      removedProductLinks := [];
      currentStep := 0;
      selectedCategoryId := None;
      show := false;
      answerIdMap := map[];
    }

    /** `handleAddAnswer`: one empty answer at the end, with an empty product list under its index. */
    method HandleAddAnswer()
      modifies this`answers, this`answerProducts
      ensures answers == old(answers) + [""]
      ensures answerProducts == old(answerProducts)[|old(answers)| := []]
    {
      answerProducts := answerProducts[|answers| := []];
      answers := answers + [""];
    }

    /** `handlePreviousStep`: one step back, never below 0. */
    method HandlePreviousStep()
      requires Valid()
      modifies this`currentStep
      ensures Valid()
      ensures old(currentStep) > 0 ==> currentStep == old(currentStep) - 1
      ensures old(currentStep) == 0 ==> currentStep == 0
    {
      if currentStep > 0 {
        currentStep := currentStep - 1;
      }
    }

    /**
     * `handleNextStep`: step 0 advances only when some answer is non-blank,
     * step k > 0 only while k is below the number of answers.
     */
    method HandleNextStep()
      requires Valid()
      modifies this`currentStep
      ensures Valid()
      ensures old(currentStep) == 0 ==>
                currentStep == (if exists k :: 0 <= k < |answers| && !IsBlank(answers[k]) then 1 else 0)
      ensures old(currentStep) > 0 ==>
                currentStep == (if old(currentStep) < |answers| then old(currentStep) + 1 else old(currentStep))
      ensures old(currentStep) <= |answers| ==> currentStep <= |answers|
    {
      if currentStep == 0 {
        var texts := NonBlankAnswers(answers);
        if |texts| > 0 {
          assert !IsBlank(texts[0]) && texts[0] in answers;
          currentStep := 1;
        }
      } else if currentStep < |answers| {
        currentStep := currentStep + 1;
      }
    }

    /** `handleRemoveAnswer`: drops position `index` only; the product lists keep their keys, except `index` which goes. */
    method HandleRemoveAnswer(index: int)
      modifies this`answers, this`answerProducts
      ensures answers == RemoveAt(old(answers), index)
      ensures answerProducts == old(answerProducts) - {index}
      ensures forall k :: k != index && k in old(answerProducts) ==> k in answerProducts && answerProducts[k] == old(answerProducts)[k]
    {
      answers := RemoveAt(answers, index);
      answerProducts := answerProducts - {index};
    }

    /** `handleAnswerChange`, called for a listed answer. */
    method HandleAnswerChange(index: int, value: string)
      requires 0 <= index < |answers|
      modifies this`answers
      ensures answers == old(answers)[index := value]
    {
      answers := answers[index := value];
    }

    /** `handleAddProductToAnswer`: an empty slot at the end of the current answer's list (key `currentStep - 1`). */
    method HandleAddProductToAnswer()
      modifies this`answerProducts
      ensures answerProducts == old(answerProducts)[currentStep - 1 := ProductsAt(old(answerProducts), currentStep - 1) + [""]]
    {
      var k := currentStep - 1;
      answerProducts := answerProducts[k := ProductsAt(answerProducts, k) + [""]];
    }

    /**
     * `handleProductChange`, called for a listed slot: the slot takes the new
     * value; the old product is logged as a removed link only when it was
     * non-empty, differs from the new one and the answer has a mapped id.
     */
    method HandleProductChange(answerIndex: int, productIndex: int, value: string)
      requires 0 <= productIndex < |ProductsAt(answerProducts, answerIndex)|
      modifies this`answerProducts, this`removedProductLinks
      ensures var cur := ProductsAt(old(answerProducts), answerIndex);
              answerProducts == old(answerProducts)[answerIndex := cur[productIndex := value]]
      ensures var cur := ProductsAt(old(answerProducts), answerIndex);
              removedProductLinks == old(removedProductLinks)
                + (if cur[productIndex] != "" && cur[productIndex] != value && Truthy(MappedId(answerIdMap, answerIndex))
                   then [Link(answerIdMap[answerIndex], cur[productIndex])] else [])
      ensures answerIdMap == map[] ==> removedProductLinks == old(removedProductLinks)
    {
      var cur := ProductsAt(answerProducts, answerIndex);
      var mapped := MappedId(answerIdMap, answerIndex);
      if cur[productIndex] != "" && cur[productIndex] != value && Truthy(mapped) {
        removedProductLinks := removedProductLinks + [Link(mapped.value, cur[productIndex])];
      }
      answerProducts := answerProducts[answerIndex := cur[productIndex := value]];
    }

    /**
     * `handleRemoveProduct`: one slot is spliced out of the answer's list; its
     * product is logged as a removed link only when the slot held a product and
     * the answer has a mapped id.
     */
    method HandleRemoveProduct(answerIndex: int, productIndex: int)
      modifies this`answerProducts, this`removedProductLinks
      ensures var cur := ProductsAt(old(answerProducts), answerIndex);
              answerProducts == old(answerProducts)[answerIndex := SpliceOne(cur, productIndex)]
      ensures var cur := ProductsAt(old(answerProducts), answerIndex);
              removedProductLinks == old(removedProductLinks)
                + (if Truthy(Lookup(cur, productIndex)) && Truthy(MappedId(answerIdMap, answerIndex))
                   then [Link(answerIdMap[answerIndex], cur[productIndex])] else [])
      ensures answerIdMap == map[] ==> removedProductLinks == old(removedProductLinks)
    {
      var cur := ProductsAt(answerProducts, answerIndex);
      var slot := Lookup(cur, productIndex);
      var mapped := MappedId(answerIdMap, answerIndex);
      if Truthy(slot) && Truthy(mapped) {
        removedProductLinks := removedProductLinks + [Link(mapped.value, slot.value)];
      }
      answerProducts := answerProducts[answerIndex := SpliceOne(cur, productIndex)];
    }

    /**
     * The `Promise.all` over the filtered answers, run one callback after the
     * other: every callback sends its answer insert and, when it has products,
     * its link insert.
     */
    static method InsertAnswers(questionId: string, texts: seq<string>, products: map<int, seq<string>>,
                         replies: nat -> Reply<seq<string>>, linkReplies: nat -> Reply<()>)
      returns (requests: seq<Request>, stored: bool)
      ensures requests == AnswerRequests(questionId, texts, products, replies, |texts|)
      ensures stored <==> AllAnswersStored(texts, products, replies, linkReplies)
    {
      requests, stored := [], true;
      for i := 0 to |texts|
        invariant requests == AnswerRequests(questionId, texts, products, replies, i)
        invariant stored <==> forall k: nat :: k < i ==> AnswerStored(k, products, replies(k), linkReplies(k))
      {
        var reply := replies(i);
        requests := requests + AnswerStep(questionId, texts[i], i, products, reply);
        if !AnswerStored(i, products, reply, linkReplies(i)) {
          stored := false;
        }
      }
    }

    /**
     * `handleCreateQuestion`, given the backend's replies: the reply to the
     * question insert (the new rows' ids), and by filtered index the replies
     * to each answer insert and its link insert. Nothing happens without a
     * non-blank name and a selected category. Otherwise the question is
     * inserted under the untrimmed name, the non-blank answers follow, the
     * question joins the selected category when every insert succeeded and
     * there was an answer, and the form is reset whatever happened.
     */
    method HandleCreateQuestion(questionReply: Reply<seq<string>>, replies: nat -> Reply<seq<string>>,
                                linkReplies: nat -> Reply<()>)
      returns (requests: seq<Request>)
      requires Valid()
      modifies this
      ensures Valid()
      ensures IsBlank(old(questionName)) || !Truthy(old(selectedCategoryId)) ==> requests == [] && unchanged(this)
      ensures !IsBlank(old(questionName)) && Truthy(old(selectedCategoryId)) ==>
                requests == [InsertQuestion(old(questionName), old(selectedCategoryId).value)]
                            + (if questionReply.Ok? && |questionReply.data| > 0
                               then AnswerRequests(questionReply.data[0], NonBlankAnswers(old(answers)),
                                                   old(answerProducts), replies, |NonBlankAnswers(old(answers))|)
                               else [])
      ensures !IsBlank(old(questionName)) && Truthy(old(selectedCategoryId)) ==> IsReset()
      ensures !IsBlank(old(questionName)) && Truthy(old(selectedCategoryId)) ==>
                categories == if questionReply.Ok? && |questionReply.data| > 0 && NonBlankAnswers(old(answers)) != []
                                 && AllAnswersStored(NonBlankAnswers(old(answers)), old(answerProducts), replies, linkReplies)
                              then AddQuestion(old(categories), old(selectedCategoryId).value,
                                               Question(questionReply.data[0], old(questionName), NonBlankAnswers(old(answers))))
                              else old(categories)
    {
      requests := [];
      var name, category := questionName, selectedCategoryId;
      if IsBlank(name) || !Truthy(category) {
        return;
      }
      requests := [InsertQuestion(name, category.value)];
      var texts := NonBlankAnswers(answers);
      var products := answerProducts;
      if questionReply.Ok? && |questionReply.data| > 0 {
        var questionId := questionReply.data[0];
        var steps, stored := InsertAnswers(questionId, texts, products, replies, linkReplies);
        requests := requests + steps;
        if texts != [] && stored {
          categories := AddQuestion(categories, category.value, Question(questionId, name, texts));
        }
      }
      ResetQuestionForm();
    }
  }
}
