/** The authentication gate in front of every task and profile route: it reads the
    bearer token, has it verified, and either records the verified claims on the
    request and passes it on, or answers 401 itself. */
module AuthMiddleware {
  import opened Wrappers
  import opened Text
  import opened Constants
  import opened Jwt
  import opened ErrorHandler

  /** The verified token payload: the user's id and e-mail. Ids are opaque, so they
      are natural numbers here. */
  datatype Claims = Claims(userId: nat, email: string)

  /** What token verification can throw: an `Error` with a message, or some value
      that is not an `Error`. */
  datatype Thrown = ErrorWithMessage(message: string) | NonError

  /** The outcome of verifying a token, supplied from outside: the JWT library, its
      secret and the clock are not part of this model. */
  datatype Verification = Verified(claims: Claims) | Failed(thrown: Thrown)

  /** The gate's decision: pass the request on with its claims, or answer it. */
  datatype GateOutcome = Proceed(claims: Claims) | Reject(response: ErrorResponse)

  /** What a protected controller raises when the request carries no claims. */
  const NotAuthenticated := AppError(UNAUTHORIZED, UNAUTHORIZED_CODE, "User not authenticated")

  const MissingTokenMessage := "Missing authorization token"
  const ExpiredMessage := "Token has expired. Please log in again."
  const MalformedMessage := "Invalid or malformed token"
  const InvalidMessage := "Invalid token"

  /** The 401 envelope the gate writes. */
  function Unauthorized(code: string, message: string): (r: ErrorResponse)
    ensures IsErrorEnvelope(r) && r.status == UNAUTHORIZED
    ensures ReportedError(r) == AppError(UNAUTHORIZED, code, message)
  {
    ErrorResponse(UNAUTHORIZED, false, ErrorBody(code, message, UNAUTHORIZED))
  }

  /** The code and message chosen in the catch block for what verification threw. */
  function FailureReason(t: Thrown): (string, string) {
    match t
    case NonError => (INVALID_TOKEN, InvalidMessage)
    case ErrorWithMessage(m) =>
      if Contains(m, "expired") then (TOKEN_EXPIRED, ExpiredMessage)
      else if Contains(m, "malformed") || Contains(m, "invalid") then (INVALID_TOKEN, MalformedMessage)
      else (INVALID_TOKEN, InvalidMessage)
  }

  /** What the gate does with a header, given how verification would answer. An
      empty token, which "Bearer " yields, counts as missing. */
  function GateDecision(authHeader: Option<string>, verify: string -> Verification): (r: GateOutcome)
    ensures r.Proceed? <==> var t := ExtractTokenFromHeader(authHeader);
                            t.Some? && t.value != "" && verify(t.value).Verified?
    ensures r.Proceed? ==> r.claims == verify(ExtractTokenFromHeader(authHeader).value).claims
    ensures r.Reject? ==> IsErrorEnvelope(r.response) && r.response.status == UNAUTHORIZED
    ensures ExtractTokenFromHeader(authHeader) == None ==>
              ReportedError(r.response) == AppError(UNAUTHORIZED, UNAUTHORIZED_CODE, MissingTokenMessage)
  {
    var token := ExtractTokenFromHeader(authHeader);
    if token == None || token.value == "" then Reject(Unauthorized(UNAUTHORIZED_CODE, MissingTokenMessage))
    else
      match verify(token.value)
      case Verified(claims) => Proceed(claims)
      case Failed(t) => Reject(Unauthorized(FailureReason(t).0, FailureReason(t).1))
  }

  /** An incoming request: its Authorization header and, once the gate has let it
      through, the verified claims. */
  class Request {
    var authorization: Option<string>
    var user: Option<Claims>

    constructor(authorization: Option<string>)
      ensures this.authorization == authorization && user == None
    {
      this.authorization := authorization;
      user := None;
    }
  }

  /** `authMiddleware`: on success set `req.user` and call `next` (reported as
      None: no response is written); otherwise answer with the 401 envelope and
      leave the request as it was. */
  method Authenticate(req: Request, verify: string -> Verification) returns (reply: Option<ErrorResponse>)
    modifies req`user
    ensures GateDecision(req.authorization, verify).Proceed? ==>
      reply == None && req.user == Some(GateDecision(req.authorization, verify).claims)
    ensures GateDecision(req.authorization, verify).Reject? ==>
      reply == Some(GateDecision(req.authorization, verify).response) && req.user == old(req.user)
  {
    var token := ExtractTokenFromHeader(req.authorization);
    if token == None || token.value == "" {
      reply := Some(Unauthorized(UNAUTHORIZED_CODE, MissingTokenMessage));
      return;
    }
    match verify(token.value)
    case Verified(payload) =>
      req.user := Some(payload);
      reply := None;
    case Failed(thrown) =>
      var code := INVALID_TOKEN;
      var message := InvalidMessage;
      if thrown.ErrorWithMessage? {
        if Contains(thrown.message, "expired") {
          code := TOKEN_EXPIRED;
          message := ExpiredMessage;
        } else if Contains(thrown.message, "malformed") || Contains(thrown.message, "invalid") {
          message := MalformedMessage;
        }
      }
      reply := Some(Unauthorized(code, message));
  }

  // ---------------------------------------------------------------------------
  // Properties of the decision

  /** Every rejection is a 401 envelope whose code is one of the three the gate
      uses, and it is exactly what the error handler would write for the same
      AppError. */
  lemma RejectionsAre401(authHeader: Option<string>, verify: string -> Verification)
    ensures var d := GateDecision(authHeader, verify);
      d.Reject? ==>
        && IsErrorEnvelope(d.response) && d.response.status == UNAUTHORIZED
        && d.response.error.code in {UNAUTHORIZED_CODE, TOKEN_EXPIRED, INVALID_TOKEN}
        && d.response == HandleError(App(ReportedError(d.response)))
  {
  }

  /** No usable token, whether the header is absent, empty, malformed or carries an
      empty token: 401 UNAUTHORIZED "Missing authorization token", decided without
      consulting verification. */
  lemma MissingTokenRejected(authHeader: Option<string>, verify: string -> Verification)
    requires ExtractTokenFromHeader(authHeader) in {None, Some("")}
    ensures GateDecision(authHeader, verify) == Reject(Unauthorized(UNAUTHORIZED_CODE, MissingTokenMessage))
  {
  }

  /** "Bearer " alone is rejected as a missing token. */
  lemma EmptyBearerRejected(verify: string -> Verification)
    ensures GateDecision(Some("Bearer "), verify) == Reject(Unauthorized(UNAUTHORIZED_CODE, MissingTokenMessage))
  {
    EmptyBearerToken();
  }

  /** A well-formed header whose token verifies lets the request through with
      exactly the verified claims. */
  lemma VerifiedTokenProceeds(token: string, verify: string -> Verification)
    requires ' ' !in token && token != ""
    requires verify(token).Verified?
    ensures GateDecision(Some(BearerHeader(token)), verify) == Proceed(verify(token).claims)
  {
    ExtractBearer(token);
  }

  /** An error mentioning "expired" gives TOKEN_EXPIRED, even when it also says
      "invalid" or "malformed". */
  lemma ExpiredTakesPrecedence(m: string)
    requires Contains(m, "expired")
    ensures FailureReason(ErrorWithMessage(m)) == (TOKEN_EXPIRED, ExpiredMessage)
  {
  }

  /** Every other failure is INVALID_TOKEN; the message says "malformed" exactly
      when the error mentions "malformed" or "invalid". */
  lemma OtherFailuresInvalid(t: Thrown)
    requires !(t.ErrorWithMessage? && Contains(t.message, "expired"))
    ensures FailureReason(t).0 == INVALID_TOKEN
    ensures FailureReason(t).1 == MalformedMessage
      <==> t.ErrorWithMessage? && (Contains(t.message, "malformed") || Contains(t.message, "invalid"))
    ensures FailureReason(t).1 in {MalformedMessage, InvalidMessage}
  {
  }
}
