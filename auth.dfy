/** The authentication gate: the bearer token is cut out of the Authorization
    header, verified, and either the request proceeds with `userId` attached or a
    401 reply is written. */
module Auth {
  import opened Options
  import opened Text
  import opened Crypto

  const BearerPrefix: string := "Bearer "
  const AuthenticationRequired: string := "Authentication required"
  const InvalidOrExpired: string := "Invalid or expired token"

  /** `authorization?.replace("Bearer ", "")`: the first occurrence of the prefix,
      wherever it is, is removed; a header without it is used verbatim. */
  function BearerToken(authorization: Option<string>): (r: Option<string>)
    ensures r.None? <==> authorization.None?
    ensures authorization.Some? && BearerPrefix <= authorization.value ==>
              r == Some(authorization.value[|BearerPrefix|..])
    ensures authorization.Some? && !Contains(authorization.value, BearerPrefix) ==> r == authorization
    ensures authorization.Some? && IndexOf(authorization.value, BearerPrefix).Some? ==>
              var i := IndexOf(authorization.value, BearerPrefix).value;
              r == Some(authorization.value[..i] + authorization.value[i + |BearerPrefix|..])
  {
    match authorization
    case None => None
    case Some(header) =>
      var stripped := ReplaceFirst(header, BearerPrefix, "");
      assert BearerPrefix <= header ==> stripped == header[|BearerPrefix|..] by {
        if BearerPrefix <= header {
          assert "" + header[|BearerPrefix|..] == header[|BearerPrefix|..];
        }
      }
      assert IndexOf(header, BearerPrefix).Some? ==>
               var i := IndexOf(header, BearerPrefix).value;
               stripped == header[..i] + header[i + |BearerPrefix|..] by {
        if IndexOf(header, BearerPrefix).Some? {
          var i := IndexOf(header, BearerPrefix).value;
          assert header[..i] + "" + header[i + |BearerPrefix|..] == header[..i] + header[i + |BearerPrefix|..];
        }
      }
      Some(stripped)
  }

  /** A well-formed header gives back exactly the token it carries. */
  lemma BearerRoundTrip(token: string)
    ensures BearerToken(Some(BearerPrefix + token)) == Some(token)
  {
    assert BearerPrefix <= BearerPrefix + token;
    assert (BearerPrefix + token)[|BearerPrefix|..] == token;
  }

  /** The prefix is removed where it first occurs, even after other text: a
      header "<text>Bearer <token>" whose text has no "B" gives "<text><token>". */
  lemma BearerAfterText(text: string, token: string)
    requires forall j :: 0 <= j < |text| ==> text[j] != 'B'
    ensures BearerToken(Some(text + BearerPrefix + token)) == Some(text + token)
  {
    var header := text + BearerPrefix + token;
    var n := |text|;
    assert header[n..n + |BearerPrefix|] == BearerPrefix;
    forall j | 0 <= j < n ensures !(BearerPrefix <= header[j..]) {
      assert header[j..][0] == text[j];
    }
    IndexOfFirst(header, BearerPrefix, n);
    assert header[..n] == text;
    assert header[n + |BearerPrefix|..] == token;
  }

  /** The token as JavaScript's truthiness sees it: absent and "" are both falsy. */
  function PresentedToken(authorization: Option<string>): (r: Option<string>)
    ensures r.Some? <==> BearerToken(authorization).Some? && BearerToken(authorization).value != ""
    ensures r.Some? ==> r == BearerToken(authorization)
  {
    var token := BearerToken(authorization);
    if token.Some? && token.value != "" then token else None
  }

  /** What a middleware decides for one request. */
  datatype Decision = Admit(userId: string) | Reject(message: string) | Proceed

  /** authMiddleware's decision: no token, then a token that does not verify, are
      rejected with their own messages; a verified token admits its user. */
  function RequiredGate(authorization: Option<string>, signer: TokenSigner, now: int): (r: Decision)
    ensures r.Proceed? == false
    ensures r == Reject(AuthenticationRequired) <==> PresentedToken(authorization).None?
    ensures r == Reject(InvalidOrExpired) <==>
              PresentedToken(authorization).Some? && VerifyToken(signer, PresentedToken(authorization).value, now).None?
    ensures r.Admit? ==>
              PresentedToken(authorization).Some? && VerifyToken(signer, PresentedToken(authorization).value, now) == Some(r.userId)
    ensures PresentedToken(authorization).Some? && VerifyToken(signer, PresentedToken(authorization).value, now).Some? ==>
              r == Admit(VerifyToken(signer, PresentedToken(authorization).value, now).value)
  {
    match PresentedToken(authorization)
    case None => Reject(AuthenticationRequired)
    case Some(token) =>
      match VerifyToken(signer, token, now)
      case None => Reject(InvalidOrExpired)
      case Some(userId) => Admit(userId)
  }

  /** optionalAuthMiddleware's decision: it never rejects, and admits exactly the
      requests authMiddleware admits, with the same user. */
  function OptionalGate(authorization: Option<string>, signer: TokenSigner, now: int): (r: Decision)
    ensures !r.Reject?
    ensures r.Admit? <==> RequiredGate(authorization, signer, now).Admit?
    ensures r.Admit? ==> r == RequiredGate(authorization, signer, now)
  {
    match PresentedToken(authorization)
    case None => Proceed
    case Some(token) =>
      match VerifyToken(signer, token, now)
      case None => Proceed
      case Some(userId) => Admit(userId)
  }

  /** A freshly issued token, sent as "Bearer <token>", admits its user until it
      expires and is rejected as invalid or expired afterwards. */
  lemma IssuedTokenAdmits(signer: TokenSigner, userId: string, issuedAt: int, now: int)
    requires signer.Sound()
    ensures var header := Some(BearerPrefix + GenerateToken(signer, userId, issuedAt));
            RequiredGate(header, signer, now)
              == if now < issuedAt + TokenLifetime then Admit(userId) else Reject(InvalidOrExpired)
  {
    var token := GenerateToken(signer, userId, issuedAt);
    BearerRoundTrip(token);
    assert PresentedToken(Some(BearerPrefix + token)) == Some(token);
  }

  /** The header "Bearer " with nothing after it counts as no token at all. */
  lemma EmptyBearerIsMissing(signer: TokenSigner, now: int)
    ensures RequiredGate(Some(BearerPrefix), signer, now) == Reject(AuthenticationRequired)
  {
    BearerRoundTrip("");
    assert BearerPrefix + "" == BearerPrefix;
  }

  /** A reply written with `res.status(status).json({ message })`. */
  datatype ErrorReply = ErrorReply(status: int, message: string)

  /** One request/response pair as the middlewares see it. */
  class Exchange {
    const authorization: Option<string>
    var userId: Option<string>
    var reply: Option<ErrorReply>
    var nextCalls: nat

    constructor (authorization: Option<string>)
      ensures this.authorization == authorization
      ensures userId == None && reply == None && nextCalls == 0
    {
      this.authorization := authorization;
      userId := None;
      reply := None;
      nextCalls := 0;
    }
  }

  /** Either writes a 401 with the gate's message and stops, or attaches the user
      id and calls `next` once without writing anything. */
  method AuthMiddleware(ex: Exchange, signer: TokenSigner, now: int)
    modifies ex
    ensures RequiredGate(ex.authorization, signer, now).Reject? ==>
              && ex.reply == Some(ErrorReply(401, RequiredGate(ex.authorization, signer, now).message))
              && ex.userId == old(ex.userId) && ex.nextCalls == old(ex.nextCalls)
    ensures RequiredGate(ex.authorization, signer, now).Admit? ==>
              && ex.userId == Some(RequiredGate(ex.authorization, signer, now).userId)
              && ex.reply == old(ex.reply) && ex.nextCalls == old(ex.nextCalls) + 1
  {
    var token := BearerToken(ex.authorization);
    if token.None? || token.value == "" {
      ex.reply := Some(ErrorReply(401, AuthenticationRequired));
      return;
    }
    var decoded := VerifyToken(signer, token.value, now);
    if decoded.None? {
      ex.reply := Some(ErrorReply(401, InvalidOrExpired));
      return;
    }
    ex.userId := decoded;
    ex.nextCalls := ex.nextCalls + 1;
  }

  /** Never writes a reply and always calls `next` once; attaches the user id only
      when the token verifies. */
  method OptionalAuthMiddleware(ex: Exchange, signer: TokenSigner, now: int)
    modifies ex
    ensures ex.reply == old(ex.reply) && ex.nextCalls == old(ex.nextCalls) + 1
    ensures OptionalGate(ex.authorization, signer, now).Admit? ==>
              ex.userId == Some(OptionalGate(ex.authorization, signer, now).userId)
    ensures OptionalGate(ex.authorization, signer, now).Proceed? ==> ex.userId == old(ex.userId)
  {
    var token := BearerToken(ex.authorization);
    if token.Some? && token.value != "" {
      var decoded := VerifyToken(signer, token.value, now);
      if decoded.Some? {
        ex.userId := decoded;
      }
    }
    ex.nextCalls := ex.nextCalls + 1;
  }
}
