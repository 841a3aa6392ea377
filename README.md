# Srch Admin Panel — a Dafny model of the dashboard's local logic

The Srch admin dashboard manages a product catalog on a hosted backend. The
catalog has categories, questions under categories, answers under questions,
and `Product_Answers` links between answers and products. This project models
the part of the dashboard that decides, on the client, what to write and what
to show. It covers:

- the reconciliation the "edit question" dialog performs when a question is
  saved: answers are matched by text, gone answers are deleted with their
  links, recorded link removals are deleted, and new links are inserted;
- the step-by-step "add question" wizard and the inserts it plans;
- the pager's button window and its Previous/Next controls, and the product
  listing's row ranges, page count and search filter;
- the list reducers of the categories, users and products pages and of the
  "add category" and "add product" dialogs;
- the row-to-UI product transformer.

A remote table is never modelled. Each remote call becomes a `Request` value
(`backend.dfy`): a method returns the requests it would send, in order. The
backend's answers are parameters: a `Reply` (`Ok(data)` or `Err(message)`),
or a function from the loop position to a `Reply` where a loop sends one
request per element. React state becomes the fields of a class, one class per
page or dialog. A handler becomes a method with `modifies` that states the
whole new state. Loops become `while`/`for` loops proved against recursive
specification functions.

Modules, one per source file plus shared helpers:

| file | module | models |
|---|---|---|
| `wrappers.dfy` | `Wrappers` | `Option` |
| `strings.dfy` | `Strings` | `trim`, truthiness, `||` defaults, `toLowerCase`, `includes`, `String(n)` |
| `seqs.dfy` | `Seqs` | `Array.prototype.filter`, subsequences, duplicate-free lists |
| `backend.dfy` | `Backend` | links, answer rows, replies, requests, error texts |
| `catalog.dfy` | `Catalog` | categories and questions with the pure list updates the pages share |
| `pagination.dfy` | `Pagination` | `src/components/ui/Pagination.tsx` |
| `transformers.dfy` | `DataTransformers` | `src/utils/dataTransformers.ts` |
| `products_page.dfy` | `ProductsPage` | `src/app/dashboard/products/page.tsx` |
| `users_page.dfy` | `UsersPage` | `src/app/dashboard/users/page.tsx` |
| `categories_page.dfy` | `CategoriesPage` | `src/app/dashboard/categories/page.tsx` |
| `add_category_modal.dfy` | `AddCategoryModal` | `src/components/AddCategoryModal.tsx` |
| `add_product_modal.dfy` | `AddProductModal` | `src/components/AddProductModal.tsx` |
| `add_question_modal.dfy` | `AddQuestionModal` | `src/components/AddQuestionModal.tsx` |
| `edit_question_modal.dfy` | `EditQuestionModal` | `src/components/EditQuestionModal.tsx` |

Behaviour of the code that a reader of the design might not expect, modelled
as written and shown by lemmas:

- The edit dialog looks up `answerProducts` (keyed by the answer's position
  in the form) with the position among the non-blank answers
  (`FormIndexLosesLinks`). The add wizard does the same (`FilteredIndexDropsLinks`).
- A link that is recorded as removed but is still stored is deleted, and it is
  not inserted again even when the form lists it again (`RemovedThenReAddedIsLost`).
- In the add wizard, `answerIdMap` is only ever reset to `{}`. So
  `handleProductChange` and `handleRemoveProduct` never record a removed link
  there (the `answerIdMap == map[]` clauses).
- `handleCreateCategory`, `handleCreateQuestion` and `handleCreateProduct`
  return before their `try` on a blank name. On that path nothing is reset,
  because the `finally` block is never reached.
- The users page's confirm-delete without a pending user returns before its
  `finally` block, so the dialog stays open.
- The edit dialog resets its form only when the update ran to the end. A failure
  leaves the form as it was.

## Model

| member | source | states |
|---|---|---|
| Strings.TrimStart | src/components/AddProductModal.tsx:98-106 | the result is a suffix of the input; every dropped character is white space; the result does not start with white space |
| Strings.TrimEnd | src/components/AddProductModal.tsx:98-106 | the result is a prefix of the input; every dropped character is white space; the result does not end with white space |
| Strings.Trim | src/components/AddProductModal.tsx:98 | `trim()` is never longer than its input; `TrimStripsSpace` states what it removes |
| Strings.IsBlank | src/components/AddProductModal.tsx:98 | the blank guard `!s.trim()`: every character is white space; `TrimStripsSpace` proves it is exactly `Trim(s) == ""` |
| Strings.TrimStripsSpace | src/components/AddProductModal.tsx:98 | `trim()` leaves no white space at either end, and it gives `""` exactly for white-space-only input; so the blank guard `!s.trim()` is `IsBlank` |
| Strings.OrElse | src/utils/dataTransformers.ts:27-33 | `o \|\| fallback` is `o` when `o` is a non-empty string, otherwise the fallback |
| Strings.Lower | src/app/dashboard/users/page.tsx:216-217 | lower-casing keeps the length and maps each character on its own |
| Strings.LowerIdempotent | src/app/dashboard/users/page.tsx:216-217 | lower-casing twice is lower-casing once |
| Strings.Contains | src/app/dashboard/users/page.tsx:216-217 | `includes` as a recursive search; `ContainsIffOccurs` proves it holds exactly when the needle occurs at some position |
| Strings.ContainsIffOccurs | src/app/dashboard/users/page.tsx:216-217 | `includes` holds exactly when the needle occurs at some position of the string |
| Strings.NatToString | src/app/dashboard/categories/page.tsx:102 | `String(n)` of a non-negative number is a non-empty string of decimal digits |
| Strings.IntToString | src/utils/dataTransformers.ts:26 | for an integer id `n` (as `String` prints integers of magnitude below 1e21 and up to 2^53 exactly), the result is a decimal numeral with a leading minus sign exactly for negative `n` |
| Strings.IntToStringInjective | src/utils/dataTransformers.ts:26 | `String(n)` reads back to `n`, so two rows with different numeric ids never get the same UI id |
| Seqs.Filter | src/components/EditQuestionModal.tsx:186 | `filter` keeps exactly the elements satisfying the predicate and is no longer than its input |
| Seqs.FilterIsSubsequence | src/components/EditQuestionModal.tsx:186 | `filter` keeps the order of the kept elements |
| Seqs.FilterNoDuplicates | src/components/AddProductModal.tsx:94 | filtering a duplicate-free list gives a duplicate-free list |
| Backend.ErrorText | src/app/dashboard/products/page.tsx:118-120 | the error shown is the error's message when it has one, otherwise the fixed fallback text |
| Backend.ErrorTextOr | src/app/dashboard/users/page.tsx:157-159 | the notification shows the error's message when it is non-empty, otherwise the fixed fallback text |
| Catalog.NonBlankAnswers | src/components/EditQuestionModal.tsx:186 | the current texts are exactly the form's answers that are not blank after trimming, in form order |
| Catalog.AddQuestion | src/app/dashboard/categories/page.tsx:105-120 | the question is appended to every category with the given id; every other category is unchanged |
| Catalog.WithoutQuestion | src/app/dashboard/categories/page.tsx:133-136 | exactly the questions with the id are dropped; the rest keep their order |
| Catalog.DeleteQuestion | src/app/dashboard/categories/page.tsx:129-140 | only the categories with the given id lose the questions with that id; the other categories are unchanged |
| Catalog.EditQuestion | src/components/EditQuestionModal.tsx:304-312 | the questions with the edited id get the new text and the current answers (id kept); all other questions are unchanged |
| Catalog.EditQuestionIn | src/components/EditQuestionModal.tsx:300-315 | only the selected category's questions are edited; every other category is unchanged |
| Catalog.TotalQuestions | src/app/dashboard/categories/page.tsx:87 | the `reduce` over the question counts; `AddQuestionTotal` and `DeleteQuestionTotal` state exactly how the handlers change it |
| Catalog.AddQuestionTotal | src/app/dashboard/categories/page.tsx:87 | after an add, `totalQuestions` grows by the number of categories with that id (by one for a unique id) |
| Catalog.WithoutQuestionLength | src/app/dashboard/categories/page.tsx:129-140 | filtering out a question id shortens a question list by exactly the number of questions with that id |
| Catalog.DeleteQuestionTotal | src/app/dashboard/categories/page.tsx:87 | after a delete, `totalQuestions` drops by exactly the number of questions with that id in the categories with that id (`CountQuestionsWithId`) |
| Catalog.AddThenDelete | src/app/dashboard/categories/page.tsx:100-140 | deleting a question just added, whose id was new, restores the category list |
| Catalog.ExpandAll | src/app/dashboard/categories/page.tsx:82-84 | the initial map has exactly the categories' ids as keys, all expanded |
| Catalog.Toggle | src/app/dashboard/categories/page.tsx:93-98 | the given category's flag flips; every other flag is unchanged |
| Catalog.Expand | src/app/dashboard/categories/page.tsx:123-126 | the given category becomes expanded; every other flag is unchanged |
| Catalog.ToggleTwice | src/app/dashboard/categories/page.tsx:93-98 | toggling twice restores every flag, and restores the map itself when the key was present |
| Pagination.ButtonCount | src/components/ui/Pagination.tsx:21 | `Math.min(totalPages, 5)` as a length: at most 5 and at most the page count, 5 from 5 pages on, the page count itself up to 5, none for a non-positive count |
| Pagination.ButtonAt | src/components/ui/Pagination.tsx:21-38 | the renderer's conditional chain for button `i`; `FewPages` and the three `ManyPages` lemmas state the row it produces in each case |
| Pagination.PageButtons | src/components/ui/Pagination.tsx:21 | there are `min(totalPages, 5)` buttons (none for a non-positive total) |
| Pagination.Consecutive | src/components/ui/Pagination.tsx:26 | the run of page buttons `first, first+1, …` |
| Pagination.FewPages | src/components/ui/Pagination.tsx:23-26 | with at most 7 pages the buttons are the pages `1..min(totalPages, 5)` in order |
| Pagination.ManyPagesNearStart | src/components/ui/Pagination.tsx:27-29 | with more than 7 pages and `currentPage <= 3` the buttons are `1, 2, 3, 4, …` |
| Pagination.ManyPagesNearEnd | src/components/ui/Pagination.tsx:30-32 | with more than 7 pages, `currentPage > 3` and `currentPage >= T-2` the buttons are `1, …, T-2, T-1, T` |
| Pagination.ManyPagesMiddle | src/components/ui/Pagination.tsx:33-35 | otherwise, with more than 7 pages, the buttons are `1, …, currentPage, …, T` |
| Pagination.SixPagesShowFive | src/components/ui/Pagination.tsx:21-26 | with exactly 6 pages only pages 1 to 5 get a button; page 6 has none |
| Pagination.PageControl | src/components/ui/Pagination.tsx:42-43 | an ellipsis is disabled and requests nothing; a number requests exactly its own page |
| Pagination.Click | src/components/ui/Pagination.tsx:12-18 | a click on a disabled button requests nothing; otherwise it requests the button's page |
| Pagination.PreviousControl | src/components/ui/Pagination.tsx:12-18 | the Previous button; `NavigationStaysInRange` proves it requests a page exactly when `currentPage > 1`, and then a page in `1..T` |
| Pagination.NextControl | src/components/ui/Pagination.tsx:57-63 | the Next button; `NavigationStaysInRange` proves it requests a page exactly when `currentPage < T`, and then a page in `1..T` |
| Pagination.NavigationStaysInRange | src/components/ui/Pagination.tsx:12-63 | Previous requests a page exactly when `currentPage > 1`, Next exactly when `currentPage < T`; for `1 <= currentPage <= T` every requested page lies in `1..T` |
| Pagination.NumbersInRange | src/components/ui/Pagination.tsx:21-38 | for `1 <= currentPage <= T` every numeric button lies in `1..T` |
| Pagination.NextEnabledOnEmptyListing | src/components/ui/Pagination.tsx:57-63 | with no pages there is no page button, yet Next is enabled and requests page 2 |
| DataTransformers.IdString | src/utils/dataTransformers.ts:26 | a text id is kept, and an integer id becomes a decimal string that reads back to the id (as `String` prints integers of magnitude below 1e21 and up to 2^53 exactly) |
| DataTransformers.ToUiProduct | src/utils/dataTransformers.ts:24-35 | the UI id is the id's string; name, description and creation date default to `""` when missing or empty; the image is kept only when non-empty; the category name is `""`; the update date falls back to the creation date, then to `""` |
| ProductsPage.RangeFrom | src/app/dashboard/products/page.tsx:59 | the first row index requested for a page; `PageRanges` states the ranges it opens |
| ProductsPage.RangeTo | src/app/dashboard/products/page.tsx:60 | the last row index requested for a page; `PageRanges` states that each range holds exactly 5 rows and the ranges tile the rows |
| ProductsPage.PageRanges | src/app/dashboard/products/page.tsx:40-60 | page p requests rows `(p-1)*5 … p*5-1`, exactly 5 rows; consecutive pages are adjacent; every row lies in exactly one page's range |
| ProductsPage.TotalPages | src/app/dashboard/products/page.tsx:86 | `Math.ceil((count \|\| 0) / 5)`; `TotalPagesIsCeiling` proves it is the least page count holding every row |
| ProductsPage.TotalPagesIsCeiling | src/app/dashboard/products/page.tsx:86 | `totalPages` is `ceil(count/5)` with a missing count read as 0: its pages hold every row, one page fewer would not, and there are no pages exactly when there are no rows |
| ProductsPage.EveryRowHasAPage | src/app/dashboard/products/page.tsx:59-86 | every matching row lies in the range of some page `1..totalPages` |
| ProductsPage.SearchFilter | src/app/dashboard/products/page.tsx:68-80 | no filter exactly for a blank query; an exact id match exactly for a non-blank numeric query; otherwise a name pattern `%query%` |
| ProductsPage.ProductQuery | src/app/dashboard/products/page.tsx:93-108 | the data query carries the same filter as the count query, the ordering by `lastUpdated` then `created_at` (both descending), and the 5-row range of the page |
| ProductsPage.WithoutProduct | src/app/dashboard/products/page.tsx:156 | exactly the products with that id leave the list; the others keep their order |
| ProductsPage.FormatLastUpdatedEarly | src/app/dashboard/products/page.tsx:170-175 | "N/A" for a missing or empty date, "Not available" for that literal; any other date goes on to formatting |
| ProductsPage.ProductsPage.constructor | src/app/dashboard/products/page.tsx:31-38 | the initial state: empty search and list, loading, page 1 of 1, no pending delete |
| ProductsPage.ProductsPage.FetchProducts | src/app/dashboard/products/page.tsx:50-124 | nothing while the session is being checked; otherwise the count query gets the search filter; a count error sets the error and stops; a count sets `ceil(count/5)` pages and sends the page's data query; a data error sets the error; rows replace the list converted by `dbToUiProduct`; loading ends; search, page and pending delete are untouched |
| ProductsPage.ProductsPage.HandleSearch | src/app/dashboard/products/page.tsx:126-129 | the search text is replaced and the page goes back to 1; nothing else changes |
| ProductsPage.ProductsPage.PageChange | src/app/dashboard/products/page.tsx:35 | the pager's callback sets the current page |
| ProductsPage.ProductsPage.HandleDeleteClick | src/app/dashboard/products/page.tsx:139-142 | the product becomes pending and the dialog opens |
| ProductsPage.ProductsPage.HandleConfirmDelete | src/app/dashboard/products/page.tsx:144-163 | nothing unless a product is pending and the role is exactly "admin"; otherwise one delete of that id; on success exactly that product leaves the list, the dialog closes and the pending id clears; on failure only the error is set |
| ProductsPage.ProductsPage.HandleCancelDelete | src/app/dashboard/products/page.tsx:165-168 | the pending id clears and the dialog closes |
| UsersPage.DeriveRole | src/app/dashboard/users/page.tsx:84 | the user-metadata role if non-empty, else the app-metadata role if non-empty, else "authenticated"; never empty |
| UsersPage.FormatUser | src/app/dashboard/users/page.tsx:81-89 | the listed user keeps the identity's id, email and dates, and takes the derived role |
| UsersPage.FilteredUsers | src/app/dashboard/users/page.tsx:214-221 | exactly the users whose lower-cased email or id contains the lower-cased query and whose role passes the role filter ("all" passes every role), in order |
| UsersPage.EmptySearchShowsAll | src/app/dashboard/users/page.tsx:214-221 | an empty search under the "all" filter lists every user |
| UsersPage.WithRole | src/app/dashboard/users/page.tsx:149-153 | the list keeps its length; the users with the id change only their role; every other user is unchanged |
| UsersPage.WithoutUser | src/app/dashboard/users/page.tsx:194 | exactly the users with that id leave the list; the others keep their order |
| UsersPage.UsersPage.constructor | src/app/dashboard/users/page.tsx:25-42 | the initial state: no users, empty search, "all" filter, role "authenticated" selected, no pending delete |
| UsersPage.UsersPage.Listed | src/app/dashboard/users/page.tsx:214-221 | the rendered list holds only users shown under the current search text and role filter, holds every such user, and is never longer than the list |
| UsersPage.UsersPage.HandleSetRole | src/app/dashboard/users/page.tsx:128-163 | one role request with the selected role; on success only the matching users take it, a success notice shows and editing ends; on failure the list is kept and the error shows; updating ends |
| UsersPage.UsersPage.HandleDeleteClick | src/app/dashboard/users/page.tsx:166-169 | the user becomes pending and the dialog opens |
| UsersPage.UsersPage.HandleConfirmDelete | src/app/dashboard/users/page.tsx:172-205 | nothing without a pending id; otherwise one delete request; on success exactly those users leave the list; whatever the reply the dialog closes and the pending id clears |
| UsersPage.UsersPage.HandleCancelDelete | src/app/dashboard/users/page.tsx:208-211 | the pending id clears and the dialog closes |
| CategoriesPage.CategoriesPage.constructor | src/app/dashboard/categories/page.tsx:80-85 | the page starts on the given categories, every one expanded |
| CategoriesPage.CategoriesPage.HandleSearch | src/app/dashboard/categories/page.tsx:89-91 | the search text is replaced |
| CategoriesPage.CategoriesPage.ToggleCategory | src/app/dashboard/categories/page.tsx:93-98 | only the given category's flag flips |
| CategoriesPage.CategoriesPage.HandleAddQuestion | src/app/dashboard/categories/page.tsx:100-127 | the question, with id `q` followed by the time, is appended to the matching category only; that category is expanded; the total grows accordingly |
| CategoriesPage.CategoriesPage.HandleDeleteQuestion | src/app/dashboard/categories/page.tsx:129-140 | the questions with that id leave the matching category only; `totalQuestions` drops by exactly their number |
| AddCategoryModal.NewCategory | src/components/AddCategoryModal.tsx:68-78 | the local category takes the row's id and name, has no questions, and its description defaults to "" |
| AddCategoryModal.NewCategoryTotal | src/components/AddCategoryModal.tsx:68-78 | appending a new category adds no questions to the total |
| AddCategoryModal.AddCategoryModal.constructor | src/components/AddCategoryModal.tsx:42-44 | the dialog starts with empty fields and not loading |
| AddCategoryModal.AddCategoryModal.HandleCreateCategory | src/components/AddCategoryModal.tsx:46-98 | a blank name sends nothing and changes nothing; otherwise one insert under the name as typed (not trimmed); on success exactly one category is appended, it is expanded and the dialog closes; on failure the list stays; after any insert attempt both fields are cleared |
| AddProductModal.ProductLinks | src/components/AddProductModal.tsx:115-119 | one link per selected answer, in order, each carrying the new product's id |
| AddProductModal.WithoutAnswer | src/components/AddProductModal.tsx:93-95 | every occurrence of the id goes, the other ids stay in order, and a duplicate-free selection stays duplicate-free |
| AddProductModal.AddProductModal.constructor | src/components/AddProductModal.tsx:47-51 | the dialog starts with an empty name, no answers, no selection and an empty picker |
| AddProductModal.AddProductModal.FetchAnswers | src/components/AddProductModal.tsx:60-75 | on success the answers become the fetched rows (none when the data is missing); on failure they stay; loading ends |
| AddProductModal.AddProductModal.ResetForm | src/components/AddProductModal.tsx:77-81 | the name, the selection and the picker are emptied |
| AddProductModal.AddProductModal.HandleAddAnswer | src/components/AddProductModal.tsx:83-91 | a non-empty picked id not yet selected is appended only when it names a fetched answer, and the picker is then cleared; any other pick changes nothing; the selection stays duplicate-free |
| AddProductModal.AddProductModal.HandleRemoveAnswer | src/components/AddProductModal.tsx:93-95 | the selection loses every occurrence of the id and stays duplicate-free |
| AddProductModal.AddProductModal.StoreProduct | src/components/AddProductModal.tsx:100-136 | the product insert, then the link insert when answers are selected; only a complete success reports the row, closes the dialog and resets the form; otherwise nothing changes |
| AddProductModal.AddProductModal.HandleCreateProduct | src/components/AddProductModal.tsx:97-142 | a blank name sends nothing; the product is stored under the trimmed name; its links carry the new id, one per selected answer; only a complete success closes and resets; loading ends |
| AddQuestionModal.RemoveAt | src/components/AddQuestionModal.tsx:196 | exactly position i goes and later elements shift left; an index outside the list changes nothing |
| AddQuestionModal.SpliceOne | src/components/AddQuestionModal.tsx:256 | `splice(i, 1)`: a negative start counts from the end, a start before the beginning removes the first element, a start past the end removes nothing |
| AddQuestionModal.ProductsAt | src/components/AddQuestionModal.tsx:179 | `prev[k] \|\| []`: the list stored under k, or none |
| AddQuestionModal.Lookup | src/components/AddQuestionModal.tsx:243 | an element exists exactly at the positions of the list |
| AddQuestionModal.MappedId | src/components/AddQuestionModal.tsx:224 | an id exists exactly for the keys of the map |
| AddQuestionModal.ChosenProducts | src/components/AddQuestionModal.tsx:125 | the non-empty product slots, and all of them |
| AddQuestionModal.AnswerLinks | src/components/AddQuestionModal.tsx:129-132 | one link per chosen product, in order, each carrying the new answer's id |
| AddQuestionModal.AnswerStep | src/components/AddQuestionModal.tsx:111-144 | one callback sends its answer insert, then a link insert exactly when the insert returned a row and the slot under the filtered index holds a product |
| AddQuestionModal.AnswerRequests | src/components/AddQuestionModal.tsx:111-146 | the callbacks for n answers send between n and 2n requests |
| AddQuestionModal.InsertedAnswersAppend | src/components/AddQuestionModal.tsx:111-146 | the answer inserts of two request runs are those of the first run followed by those of the second |
| AddQuestionModal.InsertedAnswersStep | src/components/AddQuestionModal.tsx:113-116 | one callback inserts exactly its own answer text |
| AddQuestionModal.AnswerRequestsInsertTexts | src/components/AddQuestionModal.tsx:108-146 | the answer inserts are exactly the non-blank answers, in order |
| AddQuestionModal.AnswerStepLinks | src/components/AddQuestionModal.tsx:111-141 | one callback inserts an answer of the new question, and links only non-empty products of its own slot |
| AddQuestionModal.AnswerRequestsLinks | src/components/AddQuestionModal.tsx:108-146 | every request inserts an answer of the new question or links a non-empty product assigned to a slot with a filtered index |
| AddQuestionModal.AnswerRequestsLink | src/components/AddQuestionModal.tsx:121-139 | one linked product is non-empty and was assigned to one of the slots reached |
| AddQuestionModal.FilteredIndexDropsLinks | src/components/AddQuestionModal.tsx:108-121 | with a blank first answer, the products given to the second are looked up under index 0 and no link is sent |
| AddQuestionModal.BlankFirstAnswerShifts | src/components/AddQuestionModal.tsx:108 | the form `["", "b"]` has the single non-blank answer "b" |
| AddQuestionModal.AddQuestionModal.constructor | src/components/AddQuestionModal.tsx:55-62 | the wizard starts on step 0 with one empty answer and empty maps and log |
| AddQuestionModal.AddQuestionModal.ResetQuestionForm | src/components/AddQuestionModal.tsx:64-74 | step 0, answers `[""]`, empty maps and log, no selected category, dialog closed |
| AddQuestionModal.AddQuestionModal.HandleAddAnswer | src/components/AddQuestionModal.tsx:76-82 | one empty answer is appended and the old length maps to an empty product list; nothing else changes |
| AddQuestionModal.AddQuestionModal.HandlePreviousStep | src/components/AddQuestionModal.tsx:84-88 | the step goes down by one only when positive, so it is never negative |
| AddQuestionModal.AddQuestionModal.HandleNextStep | src/components/AddQuestionModal.tsx:205-217 | from step 0 to 1 only when some answer is non-blank; from k > 0 to k+1 only when k is less than the number of answers; so the step never passes the number of answers |
| AddQuestionModal.AddQuestionModal.HandleRemoveAnswer | src/components/AddQuestionModal.tsx:195-203 | exactly position i leaves the answers; key i leaves the product map and the other keys are not renumbered |
| AddQuestionModal.AddQuestionModal.HandleAnswerChange | src/components/AddQuestionModal.tsx:187-193 | the answer at the index takes the new value |
| AddQuestionModal.AddQuestionModal.HandleAddProductToAnswer | src/components/AddQuestionModal.tsx:176-185 | the current answer's product list gains an empty slot at the end |
| AddQuestionModal.AddQuestionModal.HandleProductChange | src/components/AddQuestionModal.tsx:219-234 | the slot takes the value; the old product is logged as removed only when it was non-empty, differs and the answer has a mapped id |
| AddQuestionModal.AddQuestionModal.HandleRemoveProduct | src/components/AddQuestionModal.tsx:236-258 | exactly one slot is spliced out; its product is logged only when the slot held one and the answer has a mapped id |
| AddQuestionModal.AddQuestionModal.InsertAnswers | src/components/AddQuestionModal.tsx:111-146 | the callbacks, run in order, send the planned requests; the whole succeeds exactly when every callback stored its answer and links |
| AddQuestionModal.AddQuestionModal.HandleCreateQuestion | src/components/AddQuestionModal.tsx:90-174 | nothing without a non-blank name and a selected category; otherwise the question insert, then the answers' requests; the question joins the selected category only when there was an answer and every insert succeeded; the form is always reset |
| EditQuestionModal.FindByText | src/components/EditQuestionModal.tsx:207-209 | the first stored answer with exactly that text, or none exactly when no stored answer has it |
| EditQuestionModal.AnswerIds | src/components/EditQuestionModal.tsx:195-198 | the stored answers' ids, in order |
| EditQuestionModal.AnswerRequest | src/components/EditQuestionModal.tsx:213-231 | an update of the first stored answer with the text, else an insert under the question |
| EditQuestionModal.MatchAnswers | src/components/EditQuestionModal.tsx:205-234 | the loop sends at most one request per text; a completed loop has one id and one request per text; a failed one has sent something |
| EditQuestionModal.MatchAnswersRequests | src/components/EditQuestionModal.tsx:205-231 | the k-th request is the update or the insert for the k-th current text |
| EditQuestionModal.MatchAnswersIds | src/components/EditQuestionModal.tsx:221-233 | a completed loop records for each text the reused stored id or the id its insert returned, in order |
| EditQuestionModal.MatchAnswersStops | src/components/EditQuestionModal.tsx:220-229 | after the first failure, later texts add nothing |
| EditQuestionModal.NoInsertsIffAllMatch | src/components/EditQuestionModal.tsx:205-234 | a completed loop sends no insert exactly when every current text has a stored answer |
| EditQuestionModal.AnswerIdsToDelete | src/components/EditQuestionModal.tsx:237-239 | an id is deleted exactly when a stored answer with that id has a text missing from the current texts |
| EditQuestionModal.NoDeletesIffAllSurvive | src/components/EditQuestionModal.tsx:237-241 | no answer is deleted exactly when every stored text is still current |
| EditQuestionModal.ReusedIdsNotDeleted | src/components/EditQuestionModal.tsx:213-239 | with distinct stored ids, an id reused for a current text is never deleted |
| EditQuestionModal.FoundIdKept | src/components/EditQuestionModal.tsx:207-239 | with distinct stored ids, the answer found for a current text is not deleted |
| EditQuestionModal.DeleteRequests | src/components/EditQuestionModal.tsx:241-248 | no request when nothing is gone; otherwise the links of the gone answers are deleted, then the answers |
| EditQuestionModal.RemovedLinkDeletes | src/components/EditQuestionModal.tsx:255-269 | one delete per recorded removed link, matched on both ids, in list order |
| EditQuestionModal.KeyLinks | src/components/EditQuestionModal.tsx:281-290 | the links pushed for one answer; `KeyLinksMembers` states exactly which |
| EditQuestionModal.KeyLinksMembers | src/components/EditQuestionModal.tsx:281-290 | one answer's pushed links are exactly its non-empty products that are not stored yet |
| EditQuestionModal.NewLinks | src/components/EditQuestionModal.tsx:276-292 | the links the walk over the answer keys pushes; `NewLinksSound` and `NewLinksComplete` prove they are exactly the new ones |
| EditQuestionModal.NewLinksSound | src/components/EditQuestionModal.tsx:276-292 | every new link has a non-empty product, is not stored yet, and pairs the defined non-empty id at some key with a product of that key |
| EditQuestionModal.NewLinksHas | src/components/EditQuestionModal.tsx:276-292 | a non-empty product of a key with a non-empty id, not stored yet, becomes a new link |
| EditQuestionModal.NewLinksLastKey | src/components/EditQuestionModal.tsx:276-292 | the same for the last key walked |
| EditQuestionModal.NewLinksGrow | src/components/EditQuestionModal.tsx:276-292 | walking one more key keeps the links already pushed |
| EditQuestionModal.NewLinksComplete | src/components/EditQuestionModal.tsx:276-292 | every non-empty product of a key with a non-empty id that is not stored yet becomes a new link |
| EditQuestionModal.FormIndexLosesLinks | src/components/EditQuestionModal.tsx:276-280 | with a blank first answer, the product given to the second answer is looked up under the wrong key and is not linked |
| EditQuestionModal.InsertRequests | src/components/EditQuestionModal.tsx:294-297 | no insert when there are no new links; otherwise one insert of all of them |
| EditQuestionModal.Cleanup | src/components/EditQuestionModal.tsx:236-297 | the cleanup sends at least one delete per recorded removed link |
| EditQuestionModal.Reads | src/components/EditQuestionModal.tsx:170-198 | the question update is sent first, then the two selects |
| EditQuestionModal.Reconcile | src/components/EditQuestionModal.tsx:170-298 | the update completes exactly when the loop completed; the first three requests are the question update and the two selects |
| EditQuestionModal.UpdatePlan | src/components/EditQuestionModal.tsx:159-331 | nothing without a non-blank name, a category and an edited question; otherwise the question update comes first, and a failed question update stops everything; it completes only when the update and both selects succeeded |
| EditQuestionModal.PlanIsReconcile | src/components/EditQuestionModal.tsx:170-298 | once the question update and both selects succeed, the plan is the reconciliation of the current texts after the matching loop |
| EditQuestionModal.MatchWrites | src/components/EditQuestionModal.tsx:205-234 | the matching loop only updates and inserts answers |
| EditQuestionModal.ReadsThenWrites | src/components/EditQuestionModal.tsx:170-234 | before the cleanup no answer is deleted and no link is inserted |
| EditQuestionModal.LinkRequestsKeepAnswers | src/components/EditQuestionModal.tsx:250-297 | the link deletes and the link insert never delete answers |
| EditQuestionModal.DeleteRequestsLinksFirst | src/components/EditQuestionModal.tsx:241-248 | an answer delete comes right after the delete of the same answers' links |
| EditQuestionModal.CleanupLinksFirst | src/components/EditQuestionModal.tsx:236-297 | in the cleanup, answers are deleted only right after their links |
| EditQuestionModal.ReconcileLinksFirst | src/components/EditQuestionModal.tsx:170-298 | whatever the loop did, answers are deleted only right after their links |
| EditQuestionModal.LinksDeletedBeforeAnswers | src/components/EditQuestionModal.tsx:159-331 | whatever the replies, answers are deleted only right after the delete of their links |
| EditQuestionModal.CompletedReconcileParts | src/components/EditQuestionModal.tsx:170-298 | a completed update sends the reads, the loop's writes, the answer deletes, the removed-link deletes and the link insert, in that order |
| EditQuestionModal.CompletedReconcileDeletesRemoved | src/components/EditQuestionModal.tsx:250-270 | a completed update deletes every recorded removed link, in list order, as one run just before the link insert |
| EditQuestionModal.CompletedReconcileInsertsLinks | src/components/EditQuestionModal.tsx:272-297 | a completed update ends with the insert of the new links exactly when there are any, and inserts no link otherwise |
| EditQuestionModal.RemovedThenReAddedIsLost | src/components/EditQuestionModal.tsx:255-292 | a link recorded as removed that is still stored is deleted, and is never inserted again |
| EditQuestionModal.EditQuestionModal.constructor | src/components/EditQuestionModal.tsx:69-90 | the dialog starts with the parent's question, category, list and product maps, and an empty form |
| EditQuestionModal.EditQuestionModal.LoadEditingQuestion | src/components/EditQuestionModal.tsx:130-144 | with a question, the form takes its text and answers (one empty slot when it has none), step 0 and an empty removal log; without one nothing changes |
| EditQuestionModal.EditQuestionModal.ResetQuestionForm | src/components/EditQuestionModal.tsx:146-157 | empty name, answers `[""]`, empty maps and log, step 0, no category, no question, dialog closed |
| EditQuestionModal.EditQuestionModal.MatchExistingAnswers | src/components/EditQuestionModal.tsx:205-234 | the loop computes the matching loop's ids, requests and outcome, stopping at the first failure |
| EditQuestionModal.EditQuestionModal.DeleteRemovedLinks | src/components/EditQuestionModal.tsx:250-270 | the loop sends one delete per recorded removed link, in order, whatever each delete returns |
| EditQuestionModal.EditQuestionModal.CollectNewLinks | src/components/EditQuestionModal.tsx:272-292 | the walk pushes exactly the new links |
| EditQuestionModal.EditQuestionModal.HandleUpdateQuestion | src/components/EditQuestionModal.tsx:159-331 | the requests are the update plan's; when the plan completes, only the edited question in the selected category gets the new text and the non-blank answers, and the form is reset; otherwise nothing changes |
| EditQuestionModal.EditQuestionModal.SaveAnswers | src/components/EditQuestionModal.tsx:204-325 | from the loop on, the requests are the reconciliation's; on completion the list is updated and the form reset, otherwise nothing changes |

## Left out

- Backend semantics: what `ilike`, `range`, `order`, `eq` and `in` select, and the tables themselves, are not modelled. Queries are `Request` values and results are parameters.
- Network failures are abstract: any failure is an `Err` reply, and a thrown `TypeError` (such as reading `data[0]` of an empty result) is modelled as the same failure path.
- `Promise.all` in `handleCreateQuestion` runs its callbacks concurrently. The model runs them one after another, each answer insert followed by its link insert; the interleaving of requests is not captured.
- JavaScript `Number`/`isNaN` on the search text is the boolean parameter `numeric`.
- `toLowerCase` is modelled on ASCII letters only; `trim` strips a fixed set of white-space code points.
- `formatLastUpdated` beyond its two early returns, and `formatDate`/`toLocaleString` on the users page: date and locale formatting.
- `fetchUsers`: the HTTP request, JSON parsing and the fallback to the session's user; only the per-user record it builds is modelled.
- The notification timer (`setTimeout`), PDF export, JSX rendering, routing (`handleEdit`, `handleView`) and role-gated button visibility on every page.
- The edit dialog's `deletedAnswers` and `loading` state, which nothing reads, and its `onCategoriesChange` callback. Its prop-sync effects other than the initial mount and the editing-question effect are also left out.
- The current time in `handleAddQuestion` on the categories page is the parameter `now`.
- The session and authorization context, the auth API routes, image upload, the registration page and the other static or legacy pages and components are not part of this model.
- DataTransformers.IdString: numeric ids are modelled as mathematical integers; `String` of a JavaScript number beyond 2^53 or of magnitude 1e21 or more (exponent notation, rounded digits), or of a non-integer, is not captured.
- Strings.IntToString: models `String` on integers only; the exponent notation JavaScript uses from 1e21 on, the rounding of digits beyond 2^53 and fractional numbers are not captured.
- Strings.NatToString: the same limitation for the `Date.now()` value in question ids.
- ProductsPage.ProductsPage.FetchProducts: the effect that calls it and the session's `user` check in that effect are not modelled; the method is the function body.
