/** The HTTP statuses the handlers answer with, and the shape of an answer. */
module Http {
  import opened Js

  const OK := 200
  const Created := 201
  const BadRequest := 400
  const NotFound := 404
  /** Only reached in this model where a library or the database refuses an input. */
  const InternalError := 500

  /** A status and, on success, the JSON payload; error answers carry only a message. */
  datatype Reply<+T> = Reply(status: int, body: Option<T>)
}
