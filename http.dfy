/** What a handler receives and answers: optional request fields, a status and a payload. */
module Http {
  import opened Wrappers
  import opened Store

  datatype Status = Ok | Created | BadRequest | Unauthorized | Forbidden | NotFound {
    /** The HTTP status code the handlers send. */
    function Code(): nat {
      match this
      case Ok => 200
      case Created => 201
      case BadRequest => 400
      case Unauthorized => 401
      case Forbidden => 403
      case NotFound => 404
    }
  }

  /** The JSON body: an `{ error }` object, a `{ message }` confirmation, or records. */
  datatype Payload =
    | ErrorBody
    | Confirmation
    | ProductBody(product: Product)
    | ProductList(products: set<Product>)
    | CommentBody(comment: Comment)
    | UserBody(user: User)

  datatype Response = Response(status: Status, body: Payload)

  /** A handler's answer together with the store it leaves behind. */
  datatype Outcome = Outcome(response: Response, tables: Tables)

  /**
   * A request body field, or the caller id `getAuth` yields, as JavaScript sees it:
   * `None` is `undefined`.
   */
  type Field = Option<string>

  /** JavaScript truthiness of a string: defined and not the empty string. */
  predicate Present(f: Field) {
    f.Some? && f.value != ""
  }

  function Fail(s: Status): Response {
    Response(s, ErrorBody)
  }
}
