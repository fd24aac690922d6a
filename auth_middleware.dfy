/** The request gate of `backend/middleware/authMiddleware.js`: it requires
    an `Authorization` header starting with `"Bearer "`, verifies the second
    space-separated field with the access-token secret, and on success
    records the token's `id` and `role` on the request and passes it on.
    Its only inputs are the header and the verifier: the revocation
    blacklist takes no part in the decision. */
module AuthMiddleware {
  import opened Wrappers
  import opened Text
  import opened Jwt

  const BearerPrefix: string := "Bearer "

  /** `authHeader.split(" ")[1]`: for a header that starts with the
      prefix, the text after the first space up to the next space or the
      end of the header. */
  function TokenField(header: string): (r: string)
    requires StartsWith(header, BearerPrefix)
    ensures StartsWith(header[|BearerPrefix|..], r) && ' ' !in r
    ensures |BearerPrefix| + |r| == |header| || header[|BearerPrefix| + |r|] == ' '
  {
    var rest := header[|BearerPrefix|..];
    assert header == "Bearer" + [' '] + rest;
    SplitAtSeparator("Bearer", rest, ' ');
    SplitFirstPiece(rest, ' ');
    Split(header, ' ')[1]
  }

  /** The gate's verdict: a status with its message, or `next()` with the
      identity it attaches to the request. */
  datatype Outcome = Reject(status: int, message: string) | Next(userId: string, userRole: string)

  /** The decision of `authMiddleware`: 401 without a bearer header (and
      no verification), 403 when verification fails, otherwise `next`
      with the verified token's `id` and `role`. */
  function Decide(header: Option<string>, verify: Verifier): (r: Outcome)
    ensures header.None? || !StartsWith(header.value, BearerPrefix) ==> r == Reject(401, "Unauthorized")
    ensures r.Next? <==> header.Some? && StartsWith(header.value, BearerPrefix) && verify(TokenField(header.value)).Some?
    ensures r.Next? ==> verify(TokenField(header.value)) == Some(Claims(r.userId, r.userRole))
    ensures header.Some? && StartsWith(header.value, BearerPrefix) && verify(TokenField(header.value)).None? ==>
      r == Reject(403, "Access token expired or invalid")
    ensures r.Reject? ==> r.status == 401 || r == Reject(403, "Access token expired or invalid")
  {
    if header.None? || !StartsWith(header.value, BearerPrefix) then Reject(401, "Unauthorized")
    else
      match verify(TokenField(header.value))
      case None => Reject(403, "Access token expired or invalid")
      case Some(decoded) => Next(decoded.id, decoded.role)
  }

  /** The token a request carries is the header's second field; for
      `"Bearer abc"` it is `"abc"`. */
  lemma TokenFieldExample()
    ensures TokenField("Bearer abc") == "abc"
  {
    var h := "Bearer abc";
    var r := TokenField(h);
    assert h[|BearerPrefix|..] == "abc";
    assert r == "abc"[..|r|];
  }

  /** The request object as far as the gate reads and writes it. */
  class Request {
    var authorization: Option<string>
    var userId: Option<string>
    var userRole: Option<string>

    constructor (authorization: Option<string>)
      ensures this.authorization == authorization && userId == None && userRole == None
    {
      this.authorization := authorization;
      userId, userRole := None, None;
    }
  }

  /** `authMiddleware(req, res, next)`: decides as `Decide`; on `next` it
      has set `req.userId` and `req.userRole` from the decoded token, on a
      rejection the request is untouched. */
  method Authenticate(req: Request, verify: Verifier) returns (o: Outcome)
    modifies req
    ensures o == Decide(old(req.authorization), verify)
    ensures o.Next? ==> req.userId == Some(o.userId) && req.userRole == Some(o.userRole)
    ensures req.authorization == old(req.authorization)
    ensures o.Reject? ==> req.userId == old(req.userId) && req.userRole == old(req.userRole)
  {
    var authHeader := req.authorization;
    if authHeader.None? || !StartsWith(authHeader.value, BearerPrefix) {
      return Reject(401, "Unauthorized");
    }
    var token := TokenField(authHeader.value);
    var decoded := verify(token);
    if decoded.None? {
      return Reject(403, "Access token expired or invalid");
    }
    req.userId := Some(decoded.value.id);
    req.userRole := Some(decoded.value.role);
    o := Next(decoded.value.id, decoded.value.role);
  }
}
