/**
 * The remote tables as the handlers see them: the rows they read, the
 * replies they receive and the requests they issue, in order. The hosted
 * backend itself is not modelled; a handler is given the replies it would
 * receive and returns the requests it would send.
 */
module Backend {
  import opened Wrappers
  import opened Strings

  /** A `Product_Answers` row. */
  datatype Link = Link(answerId: string, productId: string)

  /** An `Answers` row as selected by the edit modal (`id, answerText`). */
  datatype AnswerRow = AnswerRow(id: string, answerText: string)

  /** The reply to a request: rows (or a count), or an error with an optional message. */
  datatype Reply<T> = Ok(data: T) | Err(message: Option<string>)

  /** `err instanceof Error ? err.message : fallback`: the message whenever the error carries one. */
  function ErrorText<T>(reply: Reply<T>, fallback: string): (r: string)
    requires reply.Err?
    ensures reply.message.Some? ==> r == reply.message.value
    ensures reply.message.None? ==> r == fallback
  {
    reply.message.GetOr(fallback)
  }

  /** `err.message || fallback`: an empty message also falls back. */
  function ErrorTextOr<T>(reply: Reply<T>, fallback: string): (r: string)
    requires reply.Err?
    ensures Truthy(reply.message) ==> r == reply.message.value
    ensures !Truthy(reply.message) ==> r == fallback
  {
    OrElse(reply.message, fallback)
  }

  /** One call on the backend client, or on the dashboard's own user endpoints. */
  datatype Request =
    | InsertQuestion(questionText: string, categoryId: string)
    | UpdateQuestion(questionId: string, questionText: string)
    | SelectAnswers(questionId: string)
    | SelectLinks(answerIds: seq<string>)
    | UpdateAnswer(answerId: string, answerText: string)
    | InsertAnswer(questionId: string, answerText: string)
    | DeleteLinksOfAnswers(answerIds: seq<string>)
    | DeleteAnswers(answerIds: seq<string>)
    | DeleteLink(link: Link)
    | InsertLinks(links: seq<Link>)
    | InsertProduct(productName: string)
    | DeleteProduct(productId: string)
    | InsertCategory(categoryName: string, categoryDescription: string)
    | SetUserRole(userId: string, role: string)
    | DeleteUser(userId: string)
}
