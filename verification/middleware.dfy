/**
 * The non-throwing authentication middleware of the GraphQL endpoint: it turns an
 * optional `Authorization` header into `req.isAuth` and `req.userId` and always
 * hands the request on, leaving every authorisation decision to the resolvers.
 */
module Middleware {
  import opened Wrappers
  import opened Codec

  /** The secret tokens are verified with. */
  const Secret: string := "somesupersecretsecret"

  /** `req.isAuth` and `req.userId` after the middleware has run. */
  datatype AuthContext = AuthContext(isAuth: bool, userId: Option<nat>)

  /**
   * The token `jwt.verify` is given: the second space-separated segment of a present,
   * non-empty header. None where jsonwebtoken throws before verifying: no such
   * segment (`undefined`) or an empty one ('jwt must be provided').
   */
  function BearerToken(header: Option<string>): (t: Option<string>)
    ensures t.Some? ==> header.Some? && t.value != [] && ' ' !in t.value
    ensures header.None? || header == Some("") ==> t.None?
    ensures header.Some? && ' ' !in header.value ==> t.None?
  {
    if header.None? || header.value == "" then None
    else
      var parts := Split(header.value, ' ');
      if |parts| < 2 || parts[1] == "" then None else Some(parts[1])
  }

  /** `"<scheme> <token>"` yields the token whenever neither part holds a space. */
  lemma LemmaBearerToken(scheme: string, token: string)
    requires ' ' !in scheme && ' ' !in token && token != []
    ensures BearerToken(Some(scheme + " " + token)) == Some(token)
  {
    var parts := [scheme, token];
    assert Join(parts, ' ') == scheme + " " + token by {
      assert parts[1..] == [token];
    }
    LemmaSplitJoin(parts, ' ');
  }

  /**
   * Every header is the space-join of its own segments (`Codec.Split`), so this fixes
   * `BearerToken` on all headers: the token is the second segment, and there is none
   * when the header has a single segment or the second one is empty.
   */
  lemma LemmaBearerTokenSegments(parts: seq<string>)
    requires |parts| >= 1
    requires forall i :: 0 <= i < |parts| ==> ' ' !in parts[i]
    requires Join(parts, ' ') != ""
    ensures BearerToken(Some(Join(parts, ' '))) == if |parts| < 2 || parts[1] == "" then None else Some(parts[1])
  {
    LemmaSplitJoin(parts, ' ');
  }

  /**
   * `isAuth(req, res, next)`: every path yields a context, so the request always
   * continues. Only a token that verifies authenticates, and then `userId` is the
   * decoded one; on every other path `userId` keeps its prior value.
   */
  function IsAuth(x: Externals, header: Option<string>, prior: Option<nat>): (ctx: AuthContext)
    ensures header.None? || header == Some("") ==> ctx == AuthContext(false, prior)
    ensures ctx.isAuth <==> BearerToken(header).Some? && x.verify(Secret, BearerToken(header).value).Some?
    ensures ctx.isAuth ==> ctx.userId == Some(x.verify(Secret, BearerToken(header).value).value.userId)
    ensures !ctx.isAuth ==> ctx.userId == prior
  {
    var token := BearerToken(header);
    if token.None? then AuthContext(false, prior)
    else
      var decoded := x.verify(Secret, token.value);
      if decoded.None? then AuthContext(false, prior)
      else AuthContext(true, Some(decoded.value.userId))
  }

  /** A header carrying a token signed with the middleware's secret authenticates its signer. */
  lemma LemmaSignedTokenAuthenticates(x: Externals, scheme: string, c: Claims, prior: Option<nat>)
    requires TokenSound(x) && ' ' !in scheme
    ensures IsAuth(x, Some(scheme + " " + x.sign(Secret, c)), prior) == AuthContext(true, Some(c.userId))
  {
    LemmaBearerToken(scheme, x.sign(Secret, c));
  }

  /** Under a secret-binding codec a token signed with any other secret leaves the caller anonymous. */
  lemma LemmaForeignTokenRejected(x: Externals, scheme: string, secret: string, c: Claims, prior: Option<nat>)
    requires TokenSound(x) && SecretBinding(x) && ' ' !in scheme && secret != Secret
    ensures IsAuth(x, Some(scheme + " " + x.sign(secret, c)), prior) == AuthContext(false, prior)
  {
    LemmaBearerToken(scheme, x.sign(secret, c));
  }
}
