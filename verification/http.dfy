/** Responses as the handlers build them, and exceptions that escape a
    handler uncaught (the framework answers those with a server error). */
module Http {
  import opened Records
  import opened Projections
  import opened Validation

  /** Messages more than one view sends. */
  const SerializerMistake := "Mistake on serializer"
  const UserNotFound := "User not found"

  /** The JSON body of a response. */
  datatype Body =
    | Message(message: string)                          // {"message": ...}
    | Error(error: string)                              // {"error": ...}
    | ErrorDetails(error: string, details: FieldErrors) // {"error": ..., "details": ...}
    | Errors(errors: FieldErrors)                       // {"errors": ...}
    | Detail(detail: string)                            // the framework's authentication failure body
    | Tokens(subject: UserId)                           // refresh and access token issued for this user
    | Info(info: MyInfo)
    | Listing(items: seq<ListItem>)
    | Retrieved(todo: TodoDetail)
    | Created(view: CreatedView)

  datatype Reply = Reply(status: nat, body: Body)

  datatype Exception =
    | AssertionError          // the bearer-prefix `assert`
    | KeyError                // a missing key read with `[...]`
    | MultipleObjectsReturned // `get(email=...)` matching several users
    | IntegrityError          // a todo whose owner row does not exist

  /** How a handler ends: with a response, or with an escaping exception. */
  datatype Completion = Responded(reply: Reply) | Raised(exception: Exception)

  /** What a handler produces: its outcome and the store afterwards. */
  datatype Handled = Handled(outcome: Completion, store: Store)

  function Respond(status: nat, body: Body, st: Store): Handled {
    Handled(Responded(Reply(status, body)), st)
  }
}
