/**
 * The "add product" dialog: picking a duplicate-free list of answers to link,
 * and the insert of the product followed by its answer links.
 */
module AddProductModal {
  import opened Wrappers
  import opened Strings
  import opened Seqs
  import opened Backend

  /** An `Answers` row as the dialog fetches it. */
  datatype Answer = Answer(id: string, answerText: string, questionsId: string)

  /** A `Products` row as returned by the insert. */
  datatype ProductRow = ProductRow(id: string, productName: string)

  /** `answers.find((a) => a.id === id)` found something. */
  predicate IsKnownAnswer(answers: seq<Answer>, id: string) {
    exists k :: 0 <= k < |answers| && answers[k].id == id
  }

  /** The `Product_Answers` records for a new product: one per selected answer, in order. */
  function ProductLinks(productId: string, answerIds: seq<string>): (r: seq<Link>)
    ensures |r| == |answerIds|
    ensures forall k :: 0 <= k < |r| ==> r[k] == Link(answerIds[k], productId)
  {
    seq(|answerIds|, k requires 0 <= k < |answerIds| => Link(answerIds[k], productId))
  }

  /** The selected ids other than `answerId`, in order. */
  function WithoutAnswer(selected: seq<string>, answerId: string): (r: seq<string>)
    ensures answerId !in r
    ensures forall k :: 0 <= k < |selected| && selected[k] != answerId ==> selected[k] in r
    ensures IsSubsequence(r, selected)
    ensures NoDuplicates(selected) ==> NoDuplicates(r)
  {
    var p := (x: string) => x != answerId;
    FilterIsSubsequence(p, selected);
    if NoDuplicates(selected) then
      FilterNoDuplicates(p, selected);
      Filter(p, selected)
    else
      Filter(p, selected)
  }

  /** Whether creating the product runs to the end: a non-blank name, a returned row, and the links stored if any. */
  predicate Succeeded(name: string, productReply: Reply<seq<ProductRow>>, selected: seq<string>, linkReply: Reply<()>) {
    !IsBlank(name) && productReply.Ok? && |productReply.data| > 0 && (selected == [] || linkReply.Ok?)
  }

  /** The dialog's state fields; `open` stands for the parent's flag set through `onOpenChange`. */
  class AddProductModal {
    var open: bool
    var productName: string
    var answers: seq<Answer>
    var selectedAnswers: seq<string>
    var selectedAnswerId: string
    var loading: bool

    /** The selection never lists an answer twice. */
    ghost predicate Valid()
      reads this
    {
      NoDuplicates(selectedAnswers)
    }

    constructor (open: bool)
      ensures Valid() && this.open == open
      ensures productName == "" && answers == [] && selectedAnswers == [] && selectedAnswerId == "" && !loading
    {
      this.open := open;
      productName := "";
      answers := [];
      selectedAnswers := [];
      selectedAnswerId := "";
      loading := false;
    }

    /** `fetchAnswers`, given the backend's reply: `answersData || []` on success. */
    method FetchAnswers(reply: Reply<Option<seq<Answer>>>)
      requires Valid()
      modifies this`answers, this`loading
      ensures Valid() && !loading
      ensures reply.Ok? ==> answers == reply.data.GetOr([])
      ensures reply.Err? ==> answers == old(answers)
    {
      loading := true;
      if reply.Ok? {
        answers := reply.data.GetOr([]);
      }
      loading := false;
    }

    /** `resetForm`. */
    method ResetForm()
      modifies this`productName, this`selectedAnswers, this`selectedAnswerId
      ensures Valid()
      ensures productName == "" && selectedAnswers == [] && selectedAnswerId == ""
    {
      productName := "";
      selectedAnswers := [];
      selectedAnswerId := "";
    }

    /**
     * `handleAddAnswer`: a non-empty picked id not yet selected is appended when
     * it names a fetched answer, and the picker is cleared; any other pick
     * changes nothing.
     */
    method HandleAddAnswer()
      requires Valid()
      modifies this`selectedAnswers, this`selectedAnswerId
      ensures Valid()
      ensures old(selectedAnswerId) != "" && old(selectedAnswerId) !in old(selectedAnswers) ==>
                selectedAnswerId == ""
                && selectedAnswers == old(selectedAnswers)
                     + (if IsKnownAnswer(answers, old(selectedAnswerId)) then [old(selectedAnswerId)] else [])
      ensures old(selectedAnswerId) == "" || old(selectedAnswerId) in old(selectedAnswers) ==>
                selectedAnswerId == old(selectedAnswerId) && selectedAnswers == old(selectedAnswers)
    {
      if selectedAnswerId != "" && selectedAnswerId !in selectedAnswers {
        if IsKnownAnswer(answers, selectedAnswerId) {
          selectedAnswers := selectedAnswers + [selectedAnswerId];
        }
        selectedAnswerId := "";
      }
    }

    /** `handleRemoveAnswer`: every occurrence of the id goes, the others keep their order. */
    method HandleRemoveAnswer(answerId: string)
      requires Valid()
      modifies this`selectedAnswers
      ensures Valid()
      ensures selectedAnswers == WithoutAnswer(old(selectedAnswers), answerId)
    {
      selectedAnswers := WithoutAnswer(selectedAnswers, answerId);
    }

    /**
     * The `try` block of `handleCreateProduct` for the trimmed `name`: the product
     * insert, then the link insert when answers are selected; a complete success
     * closes the dialog and resets the form.
     */
    method StoreProduct(name: string, productReply: Reply<seq<ProductRow>>, linkReply: Reply<()>)
      returns (requests: seq<Request>, added: Option<ProductRow>)
      requires Valid()
      modifies this`open, this`productName, this`selectedAnswers, this`selectedAnswerId
      ensures Valid()
      ensures !(productReply.Ok? && |productReply.data| > 0) || old(selectedAnswers) == [] ==>
                requests == [InsertProduct(name)]
      ensures productReply.Ok? && |productReply.data| > 0 && old(selectedAnswers) != [] ==>
                requests == [InsertProduct(name), InsertLinks(ProductLinks(productReply.data[0].id, old(selectedAnswers)))]
      ensures var stored := productReply.Ok? && |productReply.data| > 0 && (old(selectedAnswers) == [] || linkReply.Ok?);
              && (stored ==> added == Some(productReply.data[0]) && !open
                             && productName == "" && selectedAnswers == [] && selectedAnswerId == "")
              && (!stored ==> added == None && open == old(open) && productName == old(productName)
                              && selectedAnswers == old(selectedAnswers) && selectedAnswerId == old(selectedAnswerId))
    {
      requests, added := [InsertProduct(name)], None;
      if productReply.Ok? && |productReply.data| > 0 {
        var row := productReply.data[0];
        var linked := true;
        var selected := selectedAnswers;
        if selected != [] {
          requests := requests + [InsertLinks(ProductLinks(row.id, selected))];
          linked := linkReply.Ok?;
        }
        if linked {
          added := Some(row);
          open, productName, selectedAnswers, selectedAnswerId := false, "", [], "";
        }
      }
    }

    /**
     * `handleCreateProduct`, given the backend's replies to the product insert and
     * to the link insert. Returns the requests sent, in order, and the row passed
     * to `onProductAdded`. A blank name sends nothing; the product is stored under
     * the trimmed name; the links carry the new product's id, one per selected
     * answer; only a complete success closes the dialog and resets the form.
     */
    method HandleCreateProduct(productReply: Reply<seq<ProductRow>>, linkReply: Reply<()>)
      returns (requests: seq<Request>, added: Option<ProductRow>)
      requires Valid()
      modifies this`open, this`productName, this`selectedAnswers, this`selectedAnswerId, this`loading
      ensures Valid()
      ensures IsBlank(old(productName)) ==> requests == [] && added == None && unchanged(this)
      ensures !IsBlank(old(productName)) ==> !loading
      ensures !IsBlank(old(productName)) && !(productReply.Ok? && |productReply.data| > 0) ==>
                requests == [InsertProduct(Trim(old(productName)))]
      ensures !IsBlank(old(productName)) && productReply.Ok? && |productReply.data| > 0 && old(selectedAnswers) == [] ==>
                requests == [InsertProduct(Trim(old(productName)))]
      ensures !IsBlank(old(productName)) && productReply.Ok? && |productReply.data| > 0 && old(selectedAnswers) != [] ==>
                requests == [InsertProduct(Trim(old(productName))),
                             InsertLinks(ProductLinks(productReply.data[0].id, old(selectedAnswers)))]
      ensures Succeeded(old(productName), productReply, old(selectedAnswers), linkReply) ==>
                added == Some(productReply.data[0]) && !open
                && productName == "" && selectedAnswers == [] && selectedAnswerId == ""
      ensures !Succeeded(old(productName), productReply, old(selectedAnswers), linkReply) ==>
                added == None && open == old(open) && productName == old(productName)
                && selectedAnswers == old(selectedAnswers) && selectedAnswerId == old(selectedAnswerId)
    {
      requests, added := [], None;
      var name := productName;
      if IsBlank(name) {
        return;
      }
      loading := true;
      requests, added := StoreProduct(Trim(name), productReply, linkReply);
      loading := false;
    }
  }
}
