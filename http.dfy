/** HTTP responses of the REST routes: a status code and a JSON body. */
module Http {
  import opened Js

  datatype Body =
    | ErrorBody(error: string)                        // { error }
    | MessageBody(message: string)                    // { message }
    | LocatedBody(message: string, location: Object)  // { message, location }
    | CartBody(message: string, cart: Object)         // { message, cart }
    | Json(item: Object)                              // one serialised record
    | JsonList(items: seq<Object>)                    // an array of serialised records

  datatype Response = Response(status: nat, body: Body)

  function Fail(status: nat, error: string): Response
  {
    Response(status, ErrorBody(error))
  }

  const ServerError := Fail(500, "Server error")
}
