/**
 * The token issuer (SimpleJWT's `RefreshToken.for_user`). Signing, expiry and
 * the token identifier are not modelled: a token is the pair of claims the
 * login rule depends on, its type and the user id it is bound to.
 */
module Tokens {

  datatype TokenType = Access | Refresh

  datatype Token = Token(tokenType: TokenType, userId: int)

  /** The access/refresh pair issued for one user. */
  datatype TokenPair = TokenPair(access: Token, refresh: Token)

  /** A refresh token for the user and the access token derived from it, which copies its user claim. */
  function ForUser(userId: int): (pair: TokenPair)
    ensures pair.access.tokenType == Access && pair.refresh.tokenType == Refresh
    ensures pair.access.userId == userId && pair.refresh.userId == userId
  {
    var refresh := Token(Refresh, userId);
    TokenPair(Token(Access, refresh.userId), refresh)
  }

  /** Tokens issued for different users differ: a pair identifies its user. */
  lemma ForUserIdentifies(a: int, b: int)
    ensures ForUser(a) == ForUser(b) <==> a == b
  {
  }
}
