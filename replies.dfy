/**
 * Where the two variants differ: the same lifecycle outcome is reported to
 * the client differently by the users service and by the contacts service.
 * Listing is reported identically by both (the list of rows) and is not
 * repeated here.
 */
module Replies {
  import opened Records

  datatype Payload =
    | NewId(id: int)           // {"id": ...}
    | Record(row: Row)         // {"id", "fullName", "email", "age"}
    | NoContent                // empty body
    | Message(text: string)    // {"message": ...}
    | Described(text: string)  // an error page from abort() with this description
    | ServerError              // an uncaught exception (IntegrityError, OverflowError, KeyError, ...)

  datatype Reply = Reply(status: int, payload: Payload)

  /** The users service. */
  function UserReply(o: Outcome): (r: Reply)
    ensures r.status < 400 <==> !o.Failed()
    ensures o.Created? ==> r.payload == NewId(o.id)
    ensures o.Updated? ==> r.payload == Record(o.row)
    ensures o == Deleted ==> r == Reply(204, NoContent)
  {
    match o
    case Created(id) => Reply(201, NewId(id))
    case Found(row) => Reply(200, Record(row))
    case Updated(row) => Reply(200, Record(row))
    case Deleted => Reply(204, NoContent)
    case InvalidInput => Reply(400, Described("Invalid data"))
    case NotFound => Reply(404, Described("User not found"))
    case MalformedBody => Reply(500, ServerError)
    case DuplicateKey => Reply(500, ServerError)
    case NullValue => Reply(500, ServerError)
    case OutOfRange => Reply(500, ServerError)
    case Full => Reply(500, ServerError)
  }

  /** The contacts service. */
  function ContactReply(o: Outcome): (r: Reply)
    ensures r.status < 400 <==> !o.Failed()
    ensures !o.Found? ==> r.payload.Message? || r.payload == ServerError
  {
    match o
    case Created(_) => Reply(201, Message("Contact added successfully!"))
    case Found(row) => Reply(200, Record(row))
    case Updated(_) => Reply(200, Message("Contact updated successfully!"))
    case Deleted => Reply(200, Message("Contact deleted successfully!"))
    case NotFound => Reply(404, Message("Contact not found!"))
    case InvalidInput => Reply(500, ServerError)
    case MalformedBody => Reply(500, ServerError)
    case DuplicateKey => Reply(500, ServerError)
    case NullValue => Reply(500, ServerError)
    case OutOfRange => Reply(500, ServerError)
    case Full => Reply(500, ServerError)
  }

  /**
   * Both variants succeed and fail on the same outcomes and report a found
   * record identically; a create that lacks a key is a client error in the
   * users service and a server error in the contacts service, and a delete
   * is 204 with no body in the users service but 200 with a message in the
   * contacts service.
   */
  lemma VariantsAgreeOnSuccess(o: Outcome)
    ensures UserReply(o).status < 400 <==> ContactReply(o).status < 400
    ensures o.Found? ==> UserReply(o) == ContactReply(o)
    ensures o == InvalidInput ==> UserReply(o).status == 400 && ContactReply(o).status == 500
    ensures o == Deleted ==> UserReply(o) == Reply(204, NoContent) && ContactReply(o).status == 200
                             && ContactReply(o).payload.Message?
  {
  }

  /** The contacts service never tells the caller which id a create assigned, nor the updated row. */
  lemma ContactRepliesHideResult(a: int, b: int, r1: Row, r2: Row)
    ensures ContactReply(Created(a)) == ContactReply(Created(b))
    ensures ContactReply(Updated(r1)) == ContactReply(Updated(r2))
  {
  }
}
