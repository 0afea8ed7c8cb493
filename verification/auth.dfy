/** The login gate. Token signing, decoding and the 30-minute expiry are
    reduced to an opaque validity test `tokenValid` supplied by the caller:
    it answers whether a token string decodes under the server key and has
    not expired. */
module Auth {
  import opened Model

  /** The body of a login request. */
  datatype Credentials = Credentials(user: string, password: string)

  /** The one operator account the login accepts. */
  const OperatorUser: string := "admin"
  const OperatorPassword: string := "1234"

  /** A successful login yields a token for `user`; otherwise 401. */
  datatype LoginResult = Issued(user: string) | Unauthorized

  /** Why a protected request was refused (both are 403). */
  datatype Denial = TokenMissing | TokenInvalid

  /** Exchange credentials for a token. `None` stands for a JSON body that
      is `null` or an empty object, which the handler refuses with 401. */
  function Login(auth: Option<Credentials>): (r: LoginResult)
    ensures r.Issued? <==> auth == Some(Credentials(OperatorUser, OperatorPassword))
    ensures r.Issued? ==> r.user == OperatorUser
  {
    match auth
    case None => Unauthorized
    case Some(c) =>
      if c.user == OperatorUser && c.password == OperatorPassword then Issued(c.user)
      else Unauthorized
  }

  /** The guard in front of every protected handler, reading the `token`
      query parameter. An empty parameter counts as missing, as Python's
      falsiness test treats it. `None` means the request may proceed. */
  function CheckToken(token: Option<string>, tokenValid: string -> bool): (denial: Option<Denial>)
    ensures denial.None? <==> token.Some? && token.value != [] && tokenValid(token.value)
    ensures denial == Some(TokenMissing) <==> token.None? || token.value == []
  {
    match token
    case None => Some(TokenMissing)
    case Some(t) =>
      if t == [] then Some(TokenMissing)
      else if !tokenValid(t) then Some(TokenInvalid)
      else None
  }
}
