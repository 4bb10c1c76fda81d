/** The records of the authorization server and the abstract view of its state. */
module Model {
  import opened Base

  // -------------------------------------------------------------------- tokens

  /**
   * A token string. Signing is deterministic, so a signed token is its claims, and two tokens
   * with the same claims are the same string. Every other string, in particular every random
   * one, is opaque.
   */
  datatype Token =
    | AccessJwt(iss: string, sub: string, aud: string, exp: int, iat: int, scope: string)
    | IdJwt(iss: string, sub: string, aud: string, exp: int, iat: int, authTime: int, nonce: Option<string>,
            email: Option<string>, emailVerified: Option<bool>, name: Option<string>)
    | Opaque(text: string)

  const ACCESS_EXPIRY: int := 7200 * SECOND
  const ID_TOKEN_EXPIRY: int := 3600 * SECOND
  const REFRESH_EXPIRY: int := 86400 * SECOND
  const CODE_EXPIRY: int := 60 * SECOND

  // ------------------------------------------------------------------- records

  datatype GrantType =
    | AuthorizationCodeGrant | PasswordGrant | ClientCredentialsGrant | RefreshTokenGrant | OtherGrant(name: string)

  datatype Client = Client(
    id: string, secret: string, redirectURIs: seq<string>, scopes: seq<string>, grants: seq<GrantType>)

  datatype User = User(id: string, username: string, passwordHash: string, email: string, name: string)

  datatype AuthCode = AuthCode(
    code: Token, clientID: string, userID: string, redirectURI: string, scope: string, nonce: string,
    challenge: string, challengeMethod: string, authTime: int)

  datatype TokenInfo = TokenInfo(
    accessToken: Token, refreshToken: Option<Token>, scope: string, userID: string, clientID: string)

  /** A stored record with its ExpiresAt instant. */
  datatype Entry<+V> = Entry(value: V, expiresAt: int)

  type Table<V> = map<Token, Entry<V>>

  datatype Users = Users(byID: map<string, User>, byUsername: map<string, User>)

  /** The contents of all stores. */
  datatype State = State(
    clients: map<string, Client>, users: Users,
    codes: Table<AuthCode>, access: Table<TokenInfo>, refresh: Table<TokenInfo>)

  /** What is fixed when the server starts. The hash functions are foreign code. */
  datatype Config = Config(
    issuer: string,
    s256: string -> string,
    passwordMatches: (string, string) -> bool,
    passwordGrantConfigured: bool)

  /** What one request observes of its surroundings: the clock, the random source and the signer. */
  datatype Env = Env(now: int, random: Option<string>, signsAccess: bool, signsId: bool)

  // --------------------------------------------------------- requests and answers

  datatype AuthorizeRequest = AuthorizeRequest(
    responseType: string, clientID: string, redirectURI: string, scope: string, state: string, nonce: string,
    challenge: string, challengeMethod: string, userID: string, authTime: int)

  datatype AuthorizeResult = AuthorizeResult(redirectURI: string, code: Token, state: string)

  datatype TokenRequest = TokenRequest(
    grantType: GrantType, clientID: string, clientSecret: string, code: Token, redirectURI: string, scope: string,
    username: string, password: string, refreshToken: Token, verifier: string)

  datatype TokenResponse = TokenResponse(
    accessToken: Token, expiresIn: int, refreshToken: Option<Token>, scope: string, idToken: Option<Token>)

  datatype Hint = RefreshTokenHint | AccessTokenHint | OtherHint(name: string)

  datatype UserInfo = UserInfo(sub: string, name: string, email: string, emailVerified: bool)

  /** One constructor for each place where a request is refused. */
  datatype Error =
    | AuthenticationFailed | ClientNotFound | TokenOfOtherClient
    | GrantNotAllowed | PasswordGrantNotConfigured | UnsupportedGrantType
    | RedirectNotRegistered | ChallengeMissing | ChallengeMethodNotS256 | UnsupportedResponseType
    | ScopeNotAllowed | CodeScopeNoLongerPermitted | OpenidForClientCredentials | ScopeExceedsGrant | OpenidRequired
    | CodeNotFound | CodeOfOtherClient | RedirectMismatch | PkceFailed | InvalidCredentials
    | RefreshTokenNotFound | RefreshTokenOfOtherClient
    | InvalidToken | TokenNotFoundOrRevoked | UserNotFound
    | SigningFailed | RandomFailed

  /** An error after the redirect URI has been accepted is reported through it. */
  datatype AuthorizeError = AuthorizeError(error: Error, redirectURI: string, state: string)
}
