/**
 * The "edit question" dialog and its update: the question text is written
 * first, then the answers are reconciled with the stored ones by exact
 * text, answers no longer present are deleted with their links, the links
 * the form recorded as removed are deleted one by one, and the links the
 * form holds that are not yet stored are inserted. Finally the edited
 * question is replaced in the local category list.
 */
module EditQuestionModal {
  import opened Wrappers
  import opened Strings
  import opened Seqs
  import opened Catalog
  import opened Backend

  // ---------------------------------------------------------------------
  // Matching the form's answers with the stored ones
  // ---------------------------------------------------------------------

  /** `existingAnswersArray.find((ea) => ea.answerText === text)`: the first stored answer with exactly that text. */
  function FindByText(existing: seq<AnswerRow>, text: string): (r: Option<AnswerRow>)
    ensures r.None? <==> forall k :: 0 <= k < |existing| ==> existing[k].answerText != text
    ensures r.Some? ==> r.value in existing && r.value.answerText == text
    ensures r.Some? ==> exists k :: 0 <= k < |existing| && existing[k] == r.value
                                   && forall j :: 0 <= j < k ==> existing[j].answerText != text
    decreases |existing|
  {
    if existing == [] then None
    else if existing[0].answerText == text then Some(existing[0])
    else
      var r := FindByText(existing[1..], text);
      if r.Some? then
        var k :| 0 <= k < |existing[1..]| && existing[1..][k] == r.value
                 && forall j :: 0 <= j < k ==> existing[1..][j].answerText != text;
        assert existing[k + 1] == r.value;
        assert forall j :: 0 <= j < k + 1 ==> existing[j].answerText != text by {
          forall j | 0 <= j < k + 1
            ensures existing[j].answerText != text
          {
            if j > 0 {
              assert existing[j] == existing[1..][j - 1];
            }
          }
        }
        r
      else r
  }

  /** `existingAnswersArray.map((a) => a.id)`. */
  function AnswerIds(existing: seq<AnswerRow>): (r: seq<string>)
    ensures |r| == |existing|
    ensures forall k :: 0 <= k < |r| ==> r[k] == existing[k].id
  {
    seq(|existing|, k requires 0 <= k < |existing| => existing[k].id)
  }

  /** The request sent for the current text: an update of the first stored answer with that text, else an insert. */
  function AnswerRequest(questionId: string, existing: seq<AnswerRow>, text: string): (r: Request)
    ensures FindByText(existing, text).Some? ==> r == UpdateAnswer(FindByText(existing, text).value.id, text)
    ensures FindByText(existing, text).None? ==> r == InsertAnswer(questionId, text)
    ensures r.UpdateAnswer? || r.InsertAnswer?
  {
    match FindByText(existing, text)
    case Some(row) => UpdateAnswer(row.id, text)
    case None => InsertAnswer(questionId, text)
  }

  /**
   * The id recorded for `text` in `updatedAnswerIds`: the reused stored
   * answer's id, or the first id the insert returned.
   */
  predicate IdFor(existing: seq<AnswerRow>, text: string, insertReply: Reply<seq<string>>, id: string) {
    match FindByText(existing, text)
    case Some(row) => id == row.id
    case None => insertReply.Ok? && |insertReply.data| > 0 && id == insertReply.data[0]
  }

  /** The state of the matching loop: `updatedAnswerIds`, the requests sent, and whether nothing has thrown. */
  datatype Matched = Matched(ids: seq<string>, requests: seq<Request>, ok: bool)

  /**
   * The matching loop over the first `n` current texts, given the reply to
   * the update or insert of each; it stops at the first failure (an error,
   * or an insert that returned no row).
   */
  function MatchAnswers(questionId: string, existing: seq<AnswerRow>, texts: seq<string>,
                        updates: nat -> Reply<()>, inserts: nat -> Reply<seq<string>>, n: nat): (m: Matched)
    requires n <= |texts|
    ensures |m.requests| <= n
    ensures m.ok ==> |m.ids| == n && |m.requests| == n
    ensures !m.ok ==> |m.requests| > 0
  {
    if n == 0 then Matched([], [], true)
    else
      var m := MatchAnswers(questionId, existing, texts, updates, inserts, n - 1);
      if !m.ok then m
      else
        var text := texts[n - 1];
        match FindByText(existing, text)
        case Some(row) =>
          var ok := updates(n - 1).Ok?;
          Matched(if ok then m.ids + [row.id] else m.ids, m.requests + [UpdateAnswer(row.id, text)], ok)
        case None =>
          var reply := inserts(n - 1);
          var ok := reply.Ok? && |reply.data| > 0;
          Matched(if ok then m.ids + [reply.data[0]] else m.ids, m.requests + [InsertAnswer(questionId, text)], ok)
  }

  /** The loop sends, for each text it reaches, the update of the stored answer with that text or else an insert. */
  lemma {:induction false} MatchAnswersRequests(questionId: string, existing: seq<AnswerRow>, texts: seq<string>,
                                                updates: nat -> Reply<()>, inserts: nat -> Reply<seq<string>>, n: nat)
    requires n <= |texts|
    ensures var m := MatchAnswers(questionId, existing, texts, updates, inserts, n);
            forall k :: 0 <= k < |m.requests| ==> m.requests[k] == AnswerRequest(questionId, existing, texts[k])
    decreases n
  {
    if n > 0 {
      MatchAnswersRequests(questionId, existing, texts, updates, inserts, n - 1);
      var prev := MatchAnswers(questionId, existing, texts, updates, inserts, n - 1);
      if prev.ok {
        var m := MatchAnswers(questionId, existing, texts, updates, inserts, n);
        assert m.requests == prev.requests + [AnswerRequest(questionId, existing, texts[n - 1])];
      }
    }
  }

  /** A completed loop records, for each text, the reused stored id or the id its insert returned. */
  lemma {:induction false} MatchAnswersIds(questionId: string, existing: seq<AnswerRow>, texts: seq<string>,
                                           updates: nat -> Reply<()>, inserts: nat -> Reply<seq<string>>, n: nat)
    requires n <= |texts|
    ensures var m := MatchAnswers(questionId, existing, texts, updates, inserts, n);
            m.ok ==> forall k :: 0 <= k < n ==> IdFor(existing, texts[k], inserts(k), m.ids[k])
    decreases n
  {
    if n > 0 {
      MatchAnswersIds(questionId, existing, texts, updates, inserts, n - 1);
      var prev := MatchAnswers(questionId, existing, texts, updates, inserts, n - 1);
      var m := MatchAnswers(questionId, existing, texts, updates, inserts, n);
      if m.ok {
        assert prev.ok;
        var found := FindByText(existing, texts[n - 1]);
        if found.None? {
          assert inserts(n - 1).Ok? && |inserts(n - 1).data| > 0;
        }
        var last := if found.Some? then found.value.id else inserts(n - 1).data[0];
        assert m.ids == prev.ids + [last];
        assert IdFor(existing, texts[n - 1], inserts(n - 1), last);
        forall k | 0 <= k < n
          ensures IdFor(existing, texts[k], inserts(k), m.ids[k])
        {
          if k < n - 1 {
            assert IdFor(existing, texts[k], inserts(k), prev.ids[k]);
            assert m.ids[k] == prev.ids[k];
          } else {
            assert m.ids[k] == last;
          }
        }
      }
    }
  }

  /** Once the loop has thrown, later texts change nothing. */
  lemma {:induction false} MatchAnswersStops(questionId: string, existing: seq<AnswerRow>, texts: seq<string>,
                                             updates: nat -> Reply<()>, inserts: nat -> Reply<seq<string>>,
                                             i: nat, j: nat)
    requires i <= j <= |texts|
    requires !MatchAnswers(questionId, existing, texts, updates, inserts, i).ok
    ensures MatchAnswers(questionId, existing, texts, updates, inserts, j)
            == MatchAnswers(questionId, existing, texts, updates, inserts, i)
    decreases j
  {
    if j > i {
      MatchAnswersStops(questionId, existing, texts, updates, inserts, i, j - 1);
    }
  }

  /** A completed loop sends an insert exactly when some current text has no stored answer. */
  lemma NoInsertsIffAllMatch(questionId: string, existing: seq<AnswerRow>, texts: seq<string>,
                             updates: nat -> Reply<()>, inserts: nat -> Reply<seq<string>>)
    requires MatchAnswers(questionId, existing, texts, updates, inserts, |texts|).ok
    ensures (forall k :: 0 <= k < |texts| ==> FindByText(existing, texts[k]).Some?)
            <==> (forall r :: r in MatchAnswers(questionId, existing, texts, updates, inserts, |texts|).requests ==>
                   !r.InsertAnswer?)
  {
    MatchAnswersRequests(questionId, existing, texts, updates, inserts, |texts|);
    var m := MatchAnswers(questionId, existing, texts, updates, inserts, |texts|);
    if forall r :: r in m.requests ==> !r.InsertAnswer? {
      forall k | 0 <= k < |texts|
        ensures FindByText(existing, texts[k]).Some?
      {
        assert m.requests[k] in m.requests;
      }
    }
  }

  // ---------------------------------------------------------------------
  // Deleting the answers that are gone
  // ---------------------------------------------------------------------

  /** `existingAnswersArray.filter((ea) => !currentAnswerTexts.includes(ea.answerText)).map((a) => a.id)`. */
  function AnswerIdsToDelete(existing: seq<AnswerRow>, texts: seq<string>): (r: seq<string>)
    ensures |r| <= |existing|
    ensures forall id :: id in r <==> exists k :: 0 <= k < |existing| && existing[k].id == id && existing[k].answerText !in texts
    decreases |existing|
  {
    if existing == [] then []
    else
      var rest := AnswerIdsToDelete(existing[1..], texts);
      assert forall k :: 1 <= k < |existing| ==> existing[k] == existing[1..][k - 1];
      (if existing[0].answerText !in texts then [existing[0].id] else []) + rest
  }

  /** No answer is deleted exactly when every stored text is still among the current texts. */
  lemma NoDeletesIffAllSurvive(existing: seq<AnswerRow>, texts: seq<string>)
    ensures AnswerIdsToDelete(existing, texts) == [] <==> forall k :: 0 <= k < |existing| ==> existing[k].answerText in texts
  {
    var r := AnswerIdsToDelete(existing, texts);
    if r != [] {
      assert r[0] in r;
    }
  }

  /** With distinct stored ids, the id a matched text reuses is never among the deleted ones. */
  lemma ReusedIdsNotDeleted(questionId: string, existing: seq<AnswerRow>, texts: seq<string>,
                            updates: nat -> Reply<()>, inserts: nat -> Reply<seq<string>>)
    requires NoDuplicates(AnswerIds(existing))
    requires MatchAnswers(questionId, existing, texts, updates, inserts, |texts|).ok
    ensures forall k :: 0 <= k < |texts| && FindByText(existing, texts[k]).Some? ==>
              MatchAnswers(questionId, existing, texts, updates, inserts, |texts|).ids[k] !in AnswerIdsToDelete(existing, texts)
  {
    MatchAnswersIds(questionId, existing, texts, updates, inserts, |texts|);
    var m := MatchAnswers(questionId, existing, texts, updates, inserts, |texts|);
    forall k | 0 <= k < |texts| && FindByText(existing, texts[k]).Some?
      ensures m.ids[k] !in AnswerIdsToDelete(existing, texts)
    {
      assert IdFor(existing, texts[k], inserts(k), m.ids[k]);
      FoundIdKept(existing, texts, k);
    }
  }

  /** With distinct stored ids, the stored answer found for a current text is not deleted. */
  lemma FoundIdKept(existing: seq<AnswerRow>, texts: seq<string>, k: nat)
    requires NoDuplicates(AnswerIds(existing))
    requires k < |texts| && FindByText(existing, texts[k]).Some?
    ensures FindByText(existing, texts[k]).value.id !in AnswerIdsToDelete(existing, texts)
  {
    var ids := AnswerIds(existing);
    var row := FindByText(existing, texts[k]).value;
    var a :| 0 <= a < |existing| && existing[a] == row;
    assert texts[k] in texts;
    forall b | 0 <= b < |existing| && existing[b].id == row.id
      ensures existing[b].answerText in texts
    {
      assert ids[b] == ids[a];
      assert b == a;
      assert existing[b].answerText == texts[k];
    }
  }

  /** The two deletes for the gone answers, links first; none when nothing is gone. */
  function DeleteRequests(answerIds: seq<string>): (r: seq<Request>)
    ensures answerIds == [] ==> r == []
    ensures answerIds != [] ==> r == [DeleteLinksOfAnswers(answerIds), DeleteAnswers(answerIds)]
  {
    if answerIds == [] then [] else [DeleteLinksOfAnswers(answerIds), DeleteAnswers(answerIds)]
  }

  // ---------------------------------------------------------------------
  // Removed and new product links
  // ---------------------------------------------------------------------

  /** One delete per recorded removed link, matched on both ids, in list order. */
  function RemovedLinkDeletes(removed: seq<Link>): (r: seq<Request>)
    ensures |r| == |removed|
    ensures forall k :: 0 <= k < |r| ==> r[k] == DeleteLink(removed[k])
  {
    seq(|removed|, k requires 0 <= k < |removed| => DeleteLink(removed[k]))
  }

  /** The links `productIds.forEach` pushes for one answer id: non-empty products not already stored, in order. */
  function KeyLinks(answerId: string, productIds: seq<string>, existingLinks: seq<Link>): seq<Link>
    decreases |productIds|
  {
    if productIds == [] then []
    else
      var last := productIds[|productIds| - 1];
      var init := productIds[..|productIds| - 1];
      assert productIds == init + [last];
      KeyLinks(answerId, init, existingLinks)
      + (if last != "" && Link(answerId, last) !in existingLinks then [Link(answerId, last)] else [])
  }

  /** One answer's pushed links are exactly its non-empty products that are not stored yet. */
  lemma {:induction false} KeyLinksMembers(answerId: string, productIds: seq<string>, existingLinks: seq<Link>)
    ensures forall l :: l in KeyLinks(answerId, productIds, existingLinks) <==>
              l.answerId == answerId && l.productId in productIds && l.productId != "" && l !in existingLinks
    decreases |productIds|
  {
    if productIds != [] {
      var last := productIds[|productIds| - 1];
      var init := productIds[..|productIds| - 1];
      assert productIds == init + [last];
      KeyLinksMembers(answerId, init, existingLinks);
    }
  }

  /**
   * The links pushed while walking `answerProducts` for the keys `0 .. n-1`
   * (other keys find no entry in `updatedAnswerIds`): for a key whose id is
   * defined and non-empty, that key's products.
   */
  function NewLinks(ids: seq<string>, products: map<int, seq<string>>, existingLinks: seq<Link>, n: nat): (r: seq<Link>)
    requires n <= |ids|
  {
    if n == 0 then []
    else NewLinks(ids, products, existingLinks, n - 1)
         + (if n - 1 in products && ids[n - 1] != "" then KeyLinks(ids[n - 1], products[n - 1], existingLinks) else [])
  }

  /** Every new link names a defined non-empty answer id of its key, a non-empty product of that key, and is not stored yet. */
  lemma {:induction false} NewLinksSound(ids: seq<string>, products: map<int, seq<string>>, existingLinks: seq<Link>, n: nat)
    requires n <= |ids|
    ensures forall l :: l in NewLinks(ids, products, existingLinks, n) ==>
              l.productId != "" && l !in existingLinks
              && exists k :: 0 <= k < n && k in products && ids[k] != "" && l.answerId == ids[k] && l.productId in products[k]
  {
    if n > 0 {
      NewLinksSound(ids, products, existingLinks, n - 1);
      if n - 1 in products && ids[n - 1] != "" {
        KeyLinksMembers(ids[n - 1], products[n - 1], existingLinks);
      }
    }
  }

  /** A non-empty product of key `k < n` with a non-empty id, not stored yet, is among the new links of the first `n` keys. */
  lemma {:induction false} NewLinksHas(ids: seq<string>, products: map<int, seq<string>>, existingLinks: seq<Link>,
                                       n: nat, k: nat, p: string)
    requires n <= |ids| && k < n && k in products && ids[k] != "" && p in products[k] && p != ""
    requires Link(ids[k], p) !in existingLinks
    ensures Link(ids[k], p) in NewLinks(ids, products, existingLinks, n)
    decreases n
  {
    if k < n - 1 {
      NewLinksHas(ids, products, existingLinks, n - 1, k, p);
      NewLinksGrow(ids, products, existingLinks, n, Link(ids[k], p));
    } else {
      NewLinksLastKey(ids, products, existingLinks, n, p);
    }
  }

  /** A non-empty product not stored yet of the last key `n - 1`, whose id is non-empty, is among the new links. */
  lemma NewLinksLastKey(ids: seq<string>, products: map<int, seq<string>>, existingLinks: seq<Link>, n: nat, p: string)
    requires 0 < n <= |ids| && n - 1 in products && ids[n - 1] != "" && p in products[n - 1] && p != ""
    requires Link(ids[n - 1], p) !in existingLinks
    ensures Link(ids[n - 1], p) in NewLinks(ids, products, existingLinks, n)
  {
    KeyLinksMembers(ids[n - 1], products[n - 1], existingLinks);
    assert Link(ids[n - 1], p) in KeyLinks(ids[n - 1], products[n - 1], existingLinks);
  }

  /** The new links of the first `n - 1` keys stay among those of the first `n`. */
  lemma NewLinksGrow(ids: seq<string>, products: map<int, seq<string>>, existingLinks: seq<Link>, n: nat, l: Link)
    requires 0 < n <= |ids| && l in NewLinks(ids, products, existingLinks, n - 1)
    ensures l in NewLinks(ids, products, existingLinks, n)
  {
  }

  /** Every non-empty product of a key with a non-empty id that is not stored yet becomes a new link. */
  lemma NewLinksComplete(ids: seq<string>, products: map<int, seq<string>>, existingLinks: seq<Link>, n: nat)
    requires n <= |ids|
    ensures forall k, p :: 0 <= k < n && k in products && ids[k] != "" && p in products[k] && p != ""
                           && Link(ids[k], p) !in existingLinks ==>
              Link(ids[k], p) in NewLinks(ids, products, existingLinks, n)
  {
    forall k, p | 0 <= k < n && k in products && ids[k] != "" && p in products[k] && p != ""
                  && Link(ids[k], p) !in existingLinks
      ensures Link(ids[k], p) in NewLinks(ids, products, existingLinks, n)
    {
      NewLinksHas(ids, products, existingLinks, n, k, p);
    }
  }

  /**
   * `answerProducts` is keyed by the answer's position in the form, but
   * `updatedAnswerIds` by its position among the non-blank answers: with a
   * blank first answer, the product given to the second answer is looked up
   * under the wrong key and no link is inserted for it.
   */
  lemma FormIndexLosesLinks(answerId: string)
    requires answerId != ""
    ensures NewLinks([answerId], map[1 := ["p"]], [], 1) == []
  {
  }

  /** The single insert of the new links; none when there are none. */
  function InsertRequests(links: seq<Link>): (r: seq<Request>)
    ensures links == [] ==> r == []
    ensures links != [] ==> r == [InsertLinks(links)]
  {
    if links == [] then [] else [InsertLinks(links)]
  }

  // ---------------------------------------------------------------------
  // The whole update
  // ---------------------------------------------------------------------

  /**
   * The backend's replies: to the question update, to the two selects, and,
   * by position among the current texts, to each answer update and insert.
   * The deletes and the link insert are not checked by the dialog.
   */
  datatype Replies = Replies(questionUpdate: Reply<()>, answers: Reply<Option<seq<AnswerRow>>>,
                             links: Reply<Option<seq<Link>>>, updates: nat -> Reply<()>,
                             inserts: nat -> Reply<seq<string>>)

  /** The requests sent, and whether the update ran to the end (and so updated the list and reset the form). */
  datatype Outcome = Outcome(requests: seq<Request>, updated: bool)

  /** The guard of `handleUpdateQuestion`. */
  predicate CanUpdate(name: string, categoryId: Option<string>, editing: Option<Question>) {
    !IsBlank(name) && Truthy(categoryId) && editing.Some?
  }

  /** The requests after a completed matching loop: answer deletes, removed-link deletes, new-link insert. */
  function Cleanup(existing: seq<AnswerRow>, texts: seq<string>, ids: seq<string>, products: map<int, seq<string>>,
                   removed: seq<Link>, existingLinks: seq<Link>): (r: seq<Request>)
    ensures |r| >= |removed|
  {
    DeleteRequests(AnswerIdsToDelete(existing, texts)) + RemovedLinkDeletes(removed)
    + InsertRequests(NewLinks(ids, products, existingLinks, |ids|))
  }

  /** The three requests sent before the matching loop. */
  function Reads(questionId: string, name: string, existing: seq<AnswerRow>): (r: seq<Request>)
    ensures |r| == 3 && r[0] == UpdateQuestion(questionId, name)
  {
    [UpdateQuestion(questionId, name), SelectAnswers(questionId), SelectLinks(AnswerIds(existing))]
  }

  /**
   * The part of the update after both selects, given the outcome `m` of the
   * matching loop over `texts`: the reads, the loop's requests and, if the
   * loop completed, the cleanup.
   */
  function Reconcile(questionId: string, name: string, existing: seq<AnswerRow>, texts: seq<string>, m: Matched,
                     products: map<int, seq<string>>, removed: seq<Link>, existingLinks: seq<Link>): (o: Outcome)
    ensures o.updated == m.ok
    ensures |o.requests| >= 3 && o.requests[0] == UpdateQuestion(questionId, name)
    ensures o.requests[1] == SelectAnswers(questionId) && o.requests[2] == SelectLinks(AnswerIds(existing))
  {
    Outcome(Reads(questionId, name, existing) + m.requests
            + (if m.ok then Cleanup(existing, texts, m.ids, products, removed, existingLinks) else []),
            m.ok)
  }

  /** The reconciliation `handleUpdateQuestion` performs, as the requests it sends and whether it completes. */
  function UpdatePlan(name: string, categoryId: Option<string>, editing: Option<Question>, answers: seq<string>,
                      products: map<int, seq<string>>, removed: seq<Link>, rs: Replies): (o: Outcome)
    ensures !CanUpdate(name, categoryId, editing) ==> o.requests == [] && !o.updated
    ensures CanUpdate(name, categoryId, editing) ==> |o.requests| >= 1 && o.requests[0] == UpdateQuestion(editing.value.id, name)
    ensures CanUpdate(name, categoryId, editing) && rs.questionUpdate.Err? ==> |o.requests| == 1 && !o.updated
    ensures o.updated ==> CanUpdate(name, categoryId, editing) && rs.questionUpdate.Ok? && rs.answers.Ok? && rs.links.Ok?
  {
    if !CanUpdate(name, categoryId, editing) then Outcome([], false)
    else
      var questionId := editing.value.id;
      if rs.questionUpdate.Err? then Outcome([UpdateQuestion(questionId, name)], false)
      else if rs.answers.Err? then Outcome([UpdateQuestion(questionId, name), SelectAnswers(questionId)], false)
      else
        var existing := rs.answers.data.GetOr([]);
        if rs.links.Err? then Outcome(Reads(questionId, name, existing), false)
        else
          var texts := NonBlankAnswers(answers);
          var r := Reconcile(questionId, name, existing, texts,
                             MatchAnswers(questionId, existing, texts, rs.updates, rs.inserts, |texts|),
                             products, removed, rs.links.data.GetOr([]));
          r
  }

  /** Once the question update and both selects succeed, the plan is the reconciliation after the matching loop. */
  lemma PlanIsReconcile(name: string, categoryId: Option<string>, editing: Option<Question>, answers: seq<string>,
                        products: map<int, seq<string>>, removed: seq<Link>, rs: Replies)
    requires CanUpdate(name, categoryId, editing) && rs.questionUpdate.Ok? && rs.answers.Ok? && rs.links.Ok?
    ensures var existing := rs.answers.data.GetOr([]);
            var texts := NonBlankAnswers(answers);
            UpdatePlan(name, categoryId, editing, answers, products, removed, rs)
            == Reconcile(editing.value.id, name, existing, texts,
                         MatchAnswers(editing.value.id, existing, texts, rs.updates, rs.inserts, |texts|),
                         products, removed, rs.links.data.GetOr([]))
  {
  }

  /** No request of `rq` deletes answers. */
  predicate NoAnswerDeletes(rq: seq<Request>) {
    forall k :: 0 <= k < |rq| ==> !rq[k].DeleteAnswers?
  }

  /** No request of `rq` inserts links. */
  predicate NoLinkInserts(rq: seq<Request>) {
    forall k :: 0 <= k < |rq| ==> !rq[k].InsertLinks?
  }

  /** Every `DeleteAnswers` request of `rq` comes right after the delete of the same answers' links. */
  predicate LinksFirst(rq: seq<Request>) {
    forall k :: 0 <= k < |rq| && rq[k].DeleteAnswers? ==> 0 < k && rq[k - 1] == DeleteLinksOfAnswers(rq[k].answerIds)
  }

  lemma LinksFirstAfter(pre: seq<Request>, c: seq<Request>)
    requires NoAnswerDeletes(pre) && LinksFirst(c)
    ensures LinksFirst(pre + c)
  {
    var all: seq<Request> := pre + c;
    forall k | 0 <= k < |all| && all[k].DeleteAnswers?
      ensures 0 < k && all[k - 1] == DeleteLinksOfAnswers(all[k].answerIds)
    {
      if k >= |pre| {
        assert all[k] == c[k - |pre|];
        assert all[k - 1] == c[k - |pre| - 1];
      }
    }
  }

  lemma NoLinkInsertsAppend(a: seq<Request>, b: seq<Request>)
    requires NoLinkInserts(a) && NoLinkInserts(b)
    ensures NoLinkInserts(a + b)
  {
    var all := a + b;
    forall k | 0 <= k < |all|
      ensures !all[k].InsertLinks?
    {
      if k >= |a| {
        assert all[k] == b[k - |a|];
      }
    }
  }

  /** Every request of `rq` updates or inserts an answer. */
  predicate AnswerWrites(rq: seq<Request>) {
    forall k :: 0 <= k < |rq| ==> rq[k].UpdateAnswer? || rq[k].InsertAnswer?
  }

  /** The matching loop only updates and inserts answers. */
  lemma MatchWrites(questionId: string, existing: seq<AnswerRow>, texts: seq<string>,
                    updates: nat -> Reply<()>, inserts: nat -> Reply<seq<string>>)
    ensures AnswerWrites(MatchAnswers(questionId, existing, texts, updates, inserts, |texts|).requests)
  {
    var ms := MatchAnswers(questionId, existing, texts, updates, inserts, |texts|).requests;
    MatchAnswersRequests(questionId, existing, texts, updates, inserts, |texts|);
    forall k | 0 <= k < |ms|
      ensures ms[k].UpdateAnswer? || ms[k].InsertAnswer?
    {
      assert ms[k] == AnswerRequest(questionId, existing, texts[k]);
    }
  }

  lemma WritesAfter(pre: seq<Request>, ms: seq<Request>)
    requires NoAnswerDeletes(pre) && NoLinkInserts(pre) && AnswerWrites(ms)
    ensures NoAnswerDeletes(pre + ms) && NoLinkInserts(pre + ms)
  {
    var all := pre + ms;
    forall k | 0 <= k < |all|
      ensures !all[k].DeleteAnswers? && !all[k].InsertLinks?
    {
      if k >= |pre| {
        assert all[k] == ms[k - |pre|];
      }
    }
  }

  /** The reads, followed by answer updates and inserts, never delete answers and never insert links. */
  lemma ReadsThenWrites(questionId: string, name: string, existing: seq<AnswerRow>, ms: seq<Request>)
    requires AnswerWrites(ms)
    ensures NoAnswerDeletes(Reads(questionId, name, existing) + ms)
    ensures NoLinkInserts(Reads(questionId, name, existing) + ms)
  {
    var pre := Reads(questionId, name, existing);
    assert NoAnswerDeletes(pre) && NoLinkInserts(pre);
    WritesAfter(pre, ms);
  }

  /** The link deletes and the link insert of the cleanup never delete answers; the deletes insert no links. */
  lemma LinkRequestsKeepAnswers(removed: seq<Link>, links: seq<Link>)
    ensures NoAnswerDeletes(RemovedLinkDeletes(removed) + InsertRequests(links))
    ensures NoLinkInserts(RemovedLinkDeletes(removed))
  {
    var del := RemovedLinkDeletes(removed);
    var all := del + InsertRequests(links);
    forall k | 0 <= k < |all|
      ensures !all[k].DeleteAnswers?
    {
      if k < |del| {
        assert all[k] == del[k];
      }
    }
  }

  /** The answer deletes put the delete of the links right before the delete of the answers. */
  lemma DeleteRequestsLinksFirst(answerIds: seq<string>, tail: seq<Request>)
    requires NoAnswerDeletes(tail)
    ensures LinksFirst(DeleteRequests(answerIds) + tail)
  {
    var d := DeleteRequests(answerIds);
    var all := d + tail;
    forall k | |d| <= k < |all|
      ensures !all[k].DeleteAnswers?
    {
      assert all[k] == tail[k - |d|];
    }
  }

  /** In the cleanup, the answer delete is the second request and follows the delete of its links. */
  lemma CleanupLinksFirst(existing: seq<AnswerRow>, texts: seq<string>, ids: seq<string>, products: map<int, seq<string>>,
                          removed: seq<Link>, existingLinks: seq<Link>)
    ensures LinksFirst(Cleanup(existing, texts, ids, products, removed, existingLinks))
  {
    var d := DeleteRequests(AnswerIdsToDelete(existing, texts));
    var del := RemovedLinkDeletes(removed);
    var ins := InsertRequests(NewLinks(ids, products, existingLinks, |ids|));
    assert Cleanup(existing, texts, ids, products, removed, existingLinks) == d + (del + ins);
    LinkRequestsKeepAnswers(removed, NewLinks(ids, products, existingLinks, |ids|));
    DeleteRequestsLinksFirst(AnswerIdsToDelete(existing, texts), del + ins);
  }

  /** Whatever the matching loop did, answers are only deleted right after the delete of their links. */
  lemma ReconcileLinksFirst(questionId: string, name: string, existing: seq<AnswerRow>, texts: seq<string>, m: Matched,
                            products: map<int, seq<string>>, removed: seq<Link>, existingLinks: seq<Link>)
    requires AnswerWrites(m.requests)
    ensures LinksFirst(Reconcile(questionId, name, existing, texts, m, products, removed, existingLinks).requests)
  {
    var pre := Reads(questionId, name, existing) + m.requests;
    var c := if m.ok then Cleanup(existing, texts, m.ids, products, removed, existingLinks) else [];
    ReadsThenWrites(questionId, name, existing, m.requests);
    CleanupLinksFirst(existing, texts, m.ids, products, removed, existingLinks);
    LinksFirstAfter(pre, c);
  }

  /** Whatever the replies, answers are only deleted right after the delete of their links. */
  lemma LinksDeletedBeforeAnswers(name: string, categoryId: Option<string>, editing: Option<Question>,
                                  answers: seq<string>, products: map<int, seq<string>>, removed: seq<Link>, rs: Replies)
    ensures LinksFirst(UpdatePlan(name, categoryId, editing, answers, products, removed, rs).requests)
  {
    if CanUpdate(name, categoryId, editing) && rs.questionUpdate.Ok? && rs.answers.Ok? && rs.links.Ok? {
      var existing := rs.answers.data.GetOr([]);
      var texts := NonBlankAnswers(answers);
      MatchWrites(editing.value.id, existing, texts, rs.updates, rs.inserts);
      ReconcileLinksFirst(editing.value.id, name, existing, texts,
                          MatchAnswers(editing.value.id, existing, texts, rs.updates, rs.inserts, |texts|),
                          products, removed, rs.links.data.GetOr([]));
    }
  }

  /** In `pre + d + deletes + ins`, the removed-link deletes sit just before `ins`. */
  lemma RunBeforeInsert(rq: seq<Request>, pre: seq<Request>, d: seq<Request>, removed: seq<Link>, ins: seq<Request>)
    requires rq == pre + ((d + RemovedLinkDeletes(removed)) + ins)
    ensures var j := |rq| - |removed| - |ins|;
            0 <= j && rq[j..j + |removed|] == RemovedLinkDeletes(removed)
  {
    var del := RemovedLinkDeletes(removed);
    assert rq == (pre + d) + del + ins;
    assert ((pre + d) + del + ins)[|pre + d|..|pre + d| + |del|] == del;
  }

  /** In `pre + d + deletes + insert`, the sequence ends with the insert if there is one, else inserts no links. */
  lemma EndsWithInsert(rq: seq<Request>, pre: seq<Request>, d: seq<Request>, removed: seq<Link>, links: seq<Link>)
    requires rq == pre + ((d + RemovedLinkDeletes(removed)) + InsertRequests(links))
    requires NoLinkInserts(pre) && NoLinkInserts(d)
    ensures links != [] ==> |rq| > 0 && rq[|rq| - 1] == InsertLinks(links)
    ensures links == [] ==> NoLinkInserts(rq)
  {
    LinkRequestsKeepAnswers(removed, links);
    if links == [] {
      NoLinkInsertsAppend(d, RemovedLinkDeletes(removed));
      assert rq == pre + (d + RemovedLinkDeletes(removed));
      NoLinkInsertsAppend(pre, d + RemovedLinkDeletes(removed));
    }
  }

  /** The requests of a completed reconciliation, part by part. */
  lemma CompletedReconcileParts(questionId: string, name: string, existing: seq<AnswerRow>, texts: seq<string>,
                                m: Matched, products: map<int, seq<string>>, removed: seq<Link>,
                                existingLinks: seq<Link>)
    requires m.ok
    ensures Reconcile(questionId, name, existing, texts, m, products, removed, existingLinks).requests
            == (Reads(questionId, name, existing) + m.requests)
               + ((DeleteRequests(AnswerIdsToDelete(existing, texts)) + RemovedLinkDeletes(removed))
                  + InsertRequests(NewLinks(m.ids, products, existingLinks, |m.ids|)))
  {
  }

  /**
   * A completed reconciliation deletes every recorded removed link, in list
   * order, as one consecutive run of requests just before the new-link insert.
   */
  lemma CompletedReconcileDeletesRemoved(questionId: string, name: string, existing: seq<AnswerRow>, texts: seq<string>,
                                         m: Matched, products: map<int, seq<string>>, removed: seq<Link>,
                                         existingLinks: seq<Link>)
    requires m.ok
    ensures var rq := Reconcile(questionId, name, existing, texts, m, products, removed, existingLinks).requests;
            var j := |rq| - |removed| - |InsertRequests(NewLinks(m.ids, products, existingLinks, |m.ids|))|;
            0 <= j && rq[j..j + |removed|] == RemovedLinkDeletes(removed)
  {
    var rq := Reconcile(questionId, name, existing, texts, m, products, removed, existingLinks).requests;
    var d := DeleteRequests(AnswerIdsToDelete(existing, texts));
    var ins := InsertRequests(NewLinks(m.ids, products, existingLinks, |m.ids|));
    var pre := Reads(questionId, name, existing) + m.requests;
    assert rq == pre + ((d + RemovedLinkDeletes(removed)) + ins) by {
      CompletedReconcileParts(questionId, name, existing, texts, m, products, removed, existingLinks);
    }
    RunBeforeInsert(rq, pre, d, removed, ins);
  }

  /** A completed reconciliation ends with the insert of the new links exactly when there are any. */
  lemma CompletedReconcileInsertsLinks(questionId: string, name: string, existing: seq<AnswerRow>, texts: seq<string>,
                                       m: Matched, products: map<int, seq<string>>, removed: seq<Link>,
                                       existingLinks: seq<Link>)
    requires m.ok && AnswerWrites(m.requests)
    ensures var rq := Reconcile(questionId, name, existing, texts, m, products, removed, existingLinks).requests;
            var links := NewLinks(m.ids, products, existingLinks, |m.ids|);
            (links != [] ==> rq[|rq| - 1] == InsertLinks(links)) && (links == [] ==> NoLinkInserts(rq))
  {
    var rq := Reconcile(questionId, name, existing, texts, m, products, removed, existingLinks).requests;
    var pre := Reads(questionId, name, existing) + m.requests;
    var d := DeleteRequests(AnswerIdsToDelete(existing, texts));
    var links := NewLinks(m.ids, products, existingLinks, |m.ids|);
    assert rq == pre + ((d + RemovedLinkDeletes(removed)) + InsertRequests(links)) by {
      CompletedReconcileParts(questionId, name, existing, texts, m, products, removed, existingLinks);
    }
    ReadsThenWrites(questionId, name, existing, m.requests);
    assert NoLinkInserts(d);
    EndsWithInsert(rq, pre, d, removed, links);
  }

  /** A link recorded as removed that is still stored is deleted and never re-inserted, even if the form lists it again. */
  lemma RemovedThenReAddedIsLost(ids: seq<string>, products: map<int, seq<string>>, removed: seq<Link>,
                                 existingLinks: seq<Link>, link: Link)
    requires link in removed && link in existingLinks
    ensures DeleteLink(link) in RemovedLinkDeletes(removed)
    ensures link !in NewLinks(ids, products, existingLinks, |ids|)
  {
    NewLinksSound(ids, products, existingLinks, |ids|);
    var k :| 0 <= k < |removed| && removed[k] == link;
    assert RemovedLinkDeletes(removed)[k] == DeleteLink(link);
  }

  // ---------------------------------------------------------------------
  // The dialog
  // ---------------------------------------------------------------------

  /**
   * The dialog's state fields; `open` stands for the parent's flag set
   * through `onOpenChange`, and `categories` for the dialog's copy of the
   * category list.
   */
  class EditQuestionModal {
    var open: bool
    var categories: seq<Category>
    var editingQuestion: Option<Question>
    var selectedCategoryId: Option<string>
    var questionName: string
    var answers: seq<string>
    var currentStep: int
    var removedProductLinks: seq<Link>
    var answerProducts: map<int, seq<string>>
    var answerIdMap: map<int, string>

    /** The state after `resetQuestionForm`. */
    predicate IsReset()
      reads this
    {
      questionName == "" && answers == [""] && answerProducts == map[] && answerIdMap == map[]
      && removedProductLinks == [] && currentStep == 0 && selectedCategoryId == None
      && editingQuestion == None && !open
    }

    /** The dialog as mounted with the parent's props. */
    constructor (open: bool, editing: Option<Question>, selectedCategoryId: Option<string>, categories: seq<Category>,
                 initialAnswerProducts: map<int, seq<string>>, initialAnswerIdMap: map<int, string>)
      ensures this.open == open && editingQuestion == editing && this.selectedCategoryId == selectedCategoryId
      ensures this.categories == categories
      ensures answerProducts == initialAnswerProducts && answerIdMap == initialAnswerIdMap
      ensures questionName == "" && answers == [""] && currentStep == 0 && removedProductLinks == []
    {
      this.open := open;
      editingQuestion := editing;
      this.selectedCategoryId := selectedCategoryId;
      this.categories := categories;
      answerProducts := initialAnswerProducts;
      answerIdMap := initialAnswerIdMap;
      questionName := "";
      answers := [""];
      currentStep := 0;
      removedProductLinks := [];
    }

    /** The effect run when the edited question changes: the form takes its text and answers (at least one slot). */
    method LoadEditingQuestion()
      modifies this`questionName, this`answers, this`currentStep, this`removedProductLinks
      ensures old(editingQuestion).Some? ==>
                questionName == editingQuestion.value.question
                && answers == (if editingQuestion.value.answers != [] then editingQuestion.value.answers else [""])
                && currentStep == 0 && removedProductLinks == []
      ensures old(editingQuestion).None? ==>
                questionName == old(questionName) && answers == old(answers)
                && currentStep == old(currentStep) && removedProductLinks == old(removedProductLinks)
    {
      if editingQuestion.Some? {
        var q := editingQuestion.value;
        questionName := q.question;
        answers := if q.answers != [] then q.answers else [""];
        currentStep := 0;
        removedProductLinks := [];
      }
    }

    /** `resetQuestionForm`. */
    method ResetQuestionForm()
      modifies this`questionName, this`answers, this`answerProducts, this`answerIdMap, this`removedProductLinks,
               this`currentStep, this`selectedCategoryId, this`editingQuestion, this`open
      ensures IsReset()
    {
      questionName := "";
      answers := [""];
      answerProducts := map[];
      answerIdMap := map[];
      removedProductLinks := [];
      currentStep := 0;
      selectedCategoryId := None;
      editingQuestion := None;
      open := false;
    }

    /** The step-3 loop: one update or insert per current text, stopping at the first failure. */
    static method MatchExistingAnswers(questionId: string, existing: seq<AnswerRow>, texts: seq<string>,
                                       updates: nat -> Reply<()>, inserts: nat -> Reply<seq<string>>)
      returns (ids: seq<string>, requests: seq<Request>, ok: bool)
      ensures Matched(ids, requests, ok) == MatchAnswers(questionId, existing, texts, updates, inserts, |texts|)
    {
      ids, requests, ok := [], [], true;
      var i := 0;
      while i < |texts| && ok
        invariant 0 <= i <= |texts|
        invariant Matched(ids, requests, ok) == MatchAnswers(questionId, existing, texts, updates, inserts, i)
      {
        var text := texts[i];
        var found := FindByText(existing, text);
        if found.Some? {
          requests := requests + [UpdateAnswer(found.value.id, text)];
          ok := updates(i).Ok?;
          if ok {
            ids := ids + [found.value.id];
          }
        } else {
          requests := requests + [InsertAnswer(questionId, text)];
          var reply := inserts(i);
          ok := reply.Ok? && |reply.data| > 0;
          if ok {
            ids := ids + [reply.data[0]];
          }
        }
        i := i + 1;
      }
      if !ok {
        MatchAnswersStops(questionId, existing, texts, updates, inserts, i, |texts|);
      }
    }

    /** The step-5 loop: one delete per recorded removed link; a failed delete is only logged. */
    static method DeleteRemovedLinks(removed: seq<Link>) returns (requests: seq<Request>)
      ensures requests == RemovedLinkDeletes(removed)
    {
      requests := [];
      for i := 0 to |removed|
        invariant |requests| == i
        invariant forall k :: 0 <= k < i ==> requests[k] == DeleteLink(removed[k])
      {
        requests := requests + [DeleteLink(removed[i])];
      }
    }

    /** The step-6 walk over `answerProducts`, pushing each new link. */
    static method CollectNewLinks(ids: seq<string>, products: map<int, seq<string>>, existingLinks: seq<Link>)
      returns (links: seq<Link>)
      ensures links == NewLinks(ids, products, existingLinks, |ids|)
    {
      links := [];
      for key := 0 to |ids|
        invariant links == NewLinks(ids, products, existingLinks, key)
      {
        if key in products && ids[key] != "" {
          var answerId := ids[key];
          var productIds := products[key];
          var pushed := [];
          for j := 0 to |productIds|
            invariant pushed == KeyLinks(answerId, productIds[..j], existingLinks)
          {
            var productId := productIds[j];
            assert productIds[..j + 1][..j] == productIds[..j];
            if productId != "" && Link(answerId, productId) !in existingLinks {
              pushed := pushed + [Link(answerId, productId)];
            }
          }
          assert productIds[..|productIds|] == productIds;
          links := links + pushed;
        }
      }
    }

    /**
     * `handleUpdateQuestion`, given the backend's replies. It sends the
     * requests of the plan in order; when the plan completes, the edited
     * question gets the new text and the non-blank answers inside the
     * selected category and the form is reset; otherwise nothing changes.
     */
    method HandleUpdateQuestion(rs: Replies) returns (requests: seq<Request>)
      modifies this
      ensures requests == UpdatePlan(old(questionName), old(selectedCategoryId), old(editingQuestion), old(answers),
                                     old(answerProducts), old(removedProductLinks), rs).requests
      ensures UpdatePlan(old(questionName), old(selectedCategoryId), old(editingQuestion), old(answers),
                         old(answerProducts), old(removedProductLinks), rs).updated ==>
                IsReset()
                && categories == EditQuestionIn(old(categories), old(selectedCategoryId).value, old(editingQuestion).value.id,
                                                old(questionName), NonBlankAnswers(old(answers)))
      ensures !UpdatePlan(old(questionName), old(selectedCategoryId), old(editingQuestion), old(answers),
                          old(answerProducts), old(removedProductLinks), rs).updated ==>
                unchanged(this)
    {
      requests := [];
      var name, categoryId, editing := questionName, selectedCategoryId, editingQuestion;
      var current, products, removed := answers, answerProducts, removedProductLinks;
      if !CanUpdate(name, categoryId, editing) {
        return;
      }
      var questionId := editing.value.id;
      requests := [UpdateQuestion(questionId, name)];
      if rs.questionUpdate.Err? {
        return;
      }
      requests := [UpdateQuestion(questionId, name), SelectAnswers(questionId)];
      if rs.answers.Err? {
        return;
      }
      var existing := rs.answers.data.GetOr([]);
      var texts := NonBlankAnswers(current);
      requests := Reads(questionId, name, existing);
      if rs.links.Err? {
        return;
      }
      PlanIsReconcile(name, categoryId, editing, current, products, removed, rs);
      var ok;
      requests, ok := SaveAnswers(questionId, name, categoryId.value, existing, texts, rs.links.data.GetOr([]),
                                  rs.updates, rs.inserts);
    }

    /**
     * The update from the matching loop on, for the current non-blank
     * `texts`: after the reads, it sends the loop's requests and, when the
     * loop completes, the cleanup, then replaces the question in the
     * selected category and resets the form; otherwise nothing changes.
     */
    method SaveAnswers(questionId: string, name: string, categoryId: string, existing: seq<AnswerRow>,
                       texts: seq<string>, existingLinks: seq<Link>,
                       updates: nat -> Reply<()>, inserts: nat -> Reply<seq<string>>)
      returns (requests: seq<Request>, ok: bool)
      modifies this
      ensures var o := Reconcile(questionId, name, existing, texts,
                                 MatchAnswers(questionId, existing, texts, updates, inserts, |texts|),
                                 old(answerProducts), old(removedProductLinks), existingLinks);
              requests == o.requests && ok == o.updated
      ensures ok ==> IsReset() && categories == EditQuestionIn(old(categories), categoryId, questionId, name, texts)
      ensures !ok ==> unchanged(this)
    {
      var products, removed := answerProducts, removedProductLinks;
      requests := Reads(questionId, name, existing);
      var ids, answerRequests;
      ids, answerRequests, ok := MatchExistingAnswers(questionId, existing, texts, updates, inserts);
      requests := requests + answerRequests;
      if !ok {
        return;
      }
      var cleanup := DeleteRequests(AnswerIdsToDelete(existing, texts));
      var deletes := DeleteRemovedLinks(removed);
      var newLinks := CollectNewLinks(ids, products, existingLinks);
      CompletedReconcileParts(questionId, name, existing, texts, Matched(ids, answerRequests, ok), products, removed,
                              existingLinks);
      requests := requests + (cleanup + deletes + InsertRequests(newLinks));
      categories := EditQuestionIn(categories, categoryId, questionId, name, texts);
      ResetQuestionForm();
    }
  }
}
