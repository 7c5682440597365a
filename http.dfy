/** The response a handler sends, reduced to its status code. */
module Http {
  datatype Status =
    | Ok200
    | Created201
    | BadRequest400
    | Unauthorized401
    | NotFound404
      /** The async handler's promise rejects outside any `try`, so no response is sent. */
    | Unhandled
}
