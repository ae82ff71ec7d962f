/** The one HTTP shape the component consumes: a GET whose JSON body is read
    only when the response status is ok. */
module Http {
  import opened Wrappers

  /** What a single `fetch` followed by `response.json()` can produce:
      a body, a non-ok status, or a rejected promise carrying a message
      (network failure, unreadable JSON). */
  datatype Response<+T> = Ok(body: T) | NotOk | Thrown(message: string)

  /** The `if (!response.ok) throw new Error(notOk)` guard together with the
      enclosing `catch`: an ok body resolves, a non-ok status rejects with the
      fixed message, and a rejection keeps its own message. */
  function Settle<T>(response: Response<T>, notOk: string): (r: Result<T>)
    ensures r.Success? <==> response.Ok?
    ensures r.Success? ==> r.value == response.body
    ensures response.NotOk? ==> r.message == notOk
    ensures response.Thrown? ==> r.message == response.message
  {
    match response
    case Ok(body) => Success(body)
    case NotOk => Failure(notOk)
    case Thrown(m) => Failure(m)
  }
}
