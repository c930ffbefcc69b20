/** The parts of an Express request that the middlewares read and write, and
    how a middleware ends: it calls `next()`, calls `next(err)`, or answers
    the request itself. Each middleware method returns exactly one `Next`,
    so `next` is called at most once on every path. */
module Requests {
  import opened Wrappers
  import opened Js
  import opened Http
  import opened ObjectIds

  class Request {
    /** `req.body` */
    var body: JsValue
    /** `req.user`, by the user's id */
    var user: Option<Id>
    /** The properties a param loader sets under a chosen key (`req[key]`). */
    var attached: map<string, JsValue>

    constructor(body0: JsValue, user0: Option<Id>)
      ensures body == body0 && user == user0 && attached == map[]
    {
      body := body0;
      user := user0;
      attached := map[];
    }
  }

  datatype Next =
    | Proceed                                            // next()
    | Forward(error: Error)                             // next(err)
    | Respond(status: int, code: string, message: string) // res.status(status).json({ code, message })
}
