/** The session middleware in front of the protected routes: it reads the
    `token` cookie, has the token verified, and either puts the user id on
    the request and hands over to the next handler, or answers itself. */
module UserAuth {
  import opened Support
  import opened UserModel
  import opened AuthSpec

  /** What `jwt.verify(token, secret)` does with a token: throw (bad
      signature, expired token, malformed input) with a message, or return the
      decoded payload, whose `id` may be missing. */
  datatype Verification = Threw(error: string) | Decoded(id: Option<string>)

  /** The middleware's verdict: call `next()` with the user id on the request,
      or answer with a status and message. */
  datatype Decision = Proceed(userId: UserId) | Reject(status: nat, message: string)

  const Unauthorized := "Unauthorized access"

  /** `userAuth` as a decision. A missing token and a payload without an id
      give 401; a verification that throws gives 500 with the thrown message,
      never 401; only a payload with an id lets the request through. */
  function Authenticate(token: Option<string>, verify: string -> Verification): (d: Decision)
    ensures !Present(token) ==> d == Reject(401, Unauthorized)
    ensures Present(token) && verify(token.value).Threw? ==> d == Reject(500, verify(token.value).error)
    ensures Present(token) && verify(token.value).Decoded? && !Present(verify(token.value).id) ==>
              d == Reject(401, Unauthorized)
    ensures d.Proceed? <==> Present(token) && verify(token.value).Decoded? && Present(verify(token.value).id)
    ensures d.Proceed? ==> d.userId == verify(token.value).id.value && d.userId != ""
  {
    if !Present(token) then
      Reject(401, Unauthorized)
    else
      match verify(token.value)
      case Threw(error) => Reject(500, error)
      case Decoded(id) =>
        if Present(id) then Proceed(id.value) else Reject(401, Unauthorized)
  }

  /** The parts of an inbound request the middleware touches. */
  class Request {
    const token: Option<string>   // req.cookies.token
    var userId: Option<UserId>    // req.userId
    var nextCalls: nat            // how many times next() has been called

    constructor (token: Option<string>)
      ensures this.token == token && userId == None && nextCalls == 0
    {
      this.token := token;
      userId := None;
      nextCalls := 0;
    }
  }

  /** `userAuth(req, res, next)`: on success it writes `req.userId` and calls
      `next` once; otherwise the request is left as it was and `next` is not
      called. */
  method Middleware(req: Request, verify: string -> Verification) returns (d: Decision)
    modifies req
    ensures d == Authenticate(req.token, verify)
    ensures d.Proceed? ==> req.userId == Some(d.userId) && req.nextCalls == old(req.nextCalls) + 1
    ensures d.Reject? ==> req.userId == old(req.userId) && req.nextCalls == old(req.nextCalls)
  {
    if !Present(req.token) {
      return Reject(401, Unauthorized);
    }
    var decoded := verify(req.token.value);
    match decoded
    case Threw(error) =>
      return Reject(500, error);
    case Decoded(id) =>
      if Present(id) {
        req.userId := id;
      } else {
        return Reject(401, Unauthorized);
      }
    req.nextCalls := req.nextCalls + 1;
    d := Proceed(req.userId.value);
  }

  /** GET /api/auth/is-auth: the middleware, then `isAuthenticated`. */
  function IsAuthRoute(token: Option<string>, verify: string -> Verification): (r: Reply)
    ensures r.Ok() <==> Authenticate(token, verify).Proceed?
    ensures !r.Ok() ==> r.status == Authenticate(token, verify).status && r.cookie == Unchanged
  {
    match Authenticate(token, verify)
    case Proceed(_) => IsAuthenticated()
    case Reject(status, message) => Fail(status, message)
  }

  /** The token the client sends on its next request, after a reply's cookie
      effect; `sign` stands for `jwt.sign({id}, secret, {expiresIn: '7d'})`. */
  function ClientToken(before: Option<string>, c: Cookie, sign: UserId -> string): Option<string> {
    match c
    case Unchanged => before
    case SetSession(id) => Some(sign(id))
    case Cleared => None
  }

  /** Signing and verifying agree while a token is unexpired: a signed token
      is never empty and verifies to a payload carrying the id it was signed
      for. */
  ghost predicate SessionCodec(sign: UserId -> string, verify: string -> Verification) {
    forall id :: sign(id) != "" && verify(sign(id)) == Decoded(Some(id))
  }
}
