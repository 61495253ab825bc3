/** `middleware.authenticateToken`: the bearer token is the second
    space-separated field of the `authorization` header. Checking the token's
    signature and expiry is done by a library outside this model and is a
    parameter here. */
module TokenAuth {
  import opened Wrappers
  import opened JsString

  datatype Extracted = NoToken | Token(value: string)

  /** `authHeader && authHeader.split(' ')[1]`, then `token == null`. An
      empty header is falsy, so `&&` yields the empty string itself, which is
      not null: it is passed on as the token. */
  function ExtractToken(authorization: Option<string>): (r: Extracted)
    ensures r == NoToken <==>
              authorization.None? || (authorization.value != "" && ' ' !in authorization.value)
    ensures r.Token? ==> ' ' !in r.value
    ensures authorization == Some("") ==> r == Token("")
  {
    match authorization
    case None => NoToken
    case Some(header) =>
      if header == "" then Token("")
      else
        var fields := Split(header, ' ');
        if |fields| < 2 then NoToken else Token(fields[1])
  }

  /** What the middleware decides: 401 when there is no token, 403 when the
      token does not verify, otherwise the request goes on. */
  datatype AuthOutcome = Unauthenticated | InvalidToken | Authenticated

  function AuthStatus(o: AuthOutcome): (code: nat)
    requires o != Authenticated
    ensures code == 401 <==> o == Unauthenticated
    ensures code == 403 <==> o == InvalidToken
  {
    match o
    case Unauthenticated => 401
    case InvalidToken => 403
  }

  /** `verifies` stands for `jwt.verify` with the server's secret. A request
      goes on exactly when the header yields a token that verifies; an empty
      header hands the empty string to the verifier. */
  function Authenticate(authorization: Option<string>, verifies: string -> bool): (r: AuthOutcome)
    ensures r == Unauthenticated <==>
              authorization.None? || (authorization.value != "" && ' ' !in authorization.value)
    ensures r == Authenticated <==> exists t :: ExtractToken(authorization) == Token(t) && verifies(t)
    ensures authorization == Some("") ==> (r == Authenticated <==> verifies(""))
  {
    match ExtractToken(authorization)
    case NoToken => Unauthenticated
    case Token(t) => if verifies(t) then Authenticated else InvalidToken
  }

  /** The token is the text between the first space of the header and the
      next space (or the end), so it never holds a space. */
  lemma TokenBetweenSpaces(header: string)
    requires header != "" && ' ' in header
    ensures var first := IndexOf(header, ' ');
            var after := header[first + 1..];
            ExtractToken(Some(header)) == Token(after[..IndexOf(after, ' ')])
  {
    SplitAtFirst(header, ' ');
    SplitAtFirst(header[IndexOf(header, ' ') + 1..], ' ');
  }

  /** With `Bearer <token>`, the token comes back unchanged. */
  lemma BearerRoundTrip(scheme: string, token: string)
    requires ' ' !in scheme && ' ' !in token
    ensures ExtractToken(Some(scheme + " " + token)) == Token(token)
  {
    SplitJoin([scheme, token], ' ');
    assert Join([scheme, token], ' ') == scheme + " " + token;
  }
}
