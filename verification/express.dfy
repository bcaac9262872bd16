/**
 What a request gate sees of an Express request, and the ways a gate can
 end: calling `next()`, sending one JSON `{ message }` response, letting an
 exception escape, or returning having done neither.
 */
module Express {
  import opened JsValues
  import opened JsParseInt

  /**
   How a gate ends. `Fail` is an exception escaping the gate: a synchronous
   gate's exception is caught by Express's own error handling
   (a 500 response); an async gate's rejected promise is unhandled: the
   request gets no response, and on Node 15 or later the process exits. `Idle` is a gate that returns
   without calling `next()` and without responding.
   */
  datatype Outcome =
    | Next
    | Respond(status: nat, message: string)
    | Fail(error: string)
    | Idle

  /** The fields `checkValidUserEdit` copies into `req.userEdits`. */
  datatype UserEdits = UserEdits(email: JsVal, userLat: JsVal, userLong: JsVal)

  /** A decoded token payload: the signed claims plus the issue and expiry times jsonwebtoken adds. */
  datatype Claims = Claims(subject: JsVal, username: JsVal, iat: int, exp: int)

  /**
   A request: method (`verb`) and url as Express reports them, route parameters
   (always strings), the parsed JSON body, the Authorization header, and the
   two fields gates attach to the request.
   */
  datatype Request = Request(
    verb: string,
    url: string,
    params: map<string, string>,
    body: map<string, JsVal>,
    authorization: Option<string>,
    userEdits: Option<UserEdits>,
    decodedJwt: Option<Claims>)

  /** `req.body[name]`; an absent field reads as `undefined`. */
  function Field(req: Request, name: string): (v: JsVal)
    ensures name !in req.body ==> v == Undefined
  {
    if name in req.body then req.body[name] else Undefined
  }

  /** `req.params[name]`: a string, or `undefined` when the route has no such parameter. */
  function Param(req: Request, name: string): (v: JsVal)
    ensures v.Str? || v.Undefined?
    ensures v.Undefined? <==> name !in req.params
  {
    if name in req.params then Str(req.params[name]) else Undefined
  }

  /**
   `parseInt(req.params[name])`. `parseInt` converts its argument to a
   string first, so a missing parameter is read as the text "undefined",
   which holds no digit.
   */
  function ParamInt(req: Request, name: string): (n: Option<int>)
    ensures name !in req.params ==> n == None
    ensures name in req.params ==> n == ParseInt(req.params[name])
  {
    var text := if name in req.params then req.params[name] else "undefined";
    ParseIntWithoutDigits("undefined");
    ParseInt(text)
  }
}
