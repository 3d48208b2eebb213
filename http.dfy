/** What a handler sends back: a status code and a body. */
module Http {
  import opened Wrappers
  import opened Aggregate

  datatype Body =
    | Text(message: string)
    | ListJson(list: Option<List>)   // `json(list)`; `null` when the store returned none
    | UserJson(user: User)
    | ErrorJson(error: string)       // `json({ error })`
    | Pending                        // `json(promise)`: a store call that was not awaited
    | Thrown                         // an exception, answered by the framework's default error handler
    | Empty

  datatype Response = Response(status: int, body: Body)

  /** An exception from an awaited store call: the default error handler answers 500. */
  const Uncaught := Response(500, Thrown)

  const InternalError := Response(500, ErrorJson("Internal server error"))
}
