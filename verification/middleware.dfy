/**
  The token-extraction half of `AuthMiddleware` (internal/handlers/middleware.go):
  where the JWT is taken from before it is parsed.
 */
module Middleware {
  import opened Wrappers
  import opened Text

  /** The two 401 answers given before any token parsing. */
  datatype AuthError = InvalidHeaderFormat | TokenNotProvided

  const BearerScheme: string := "Bearer"

  /**
    A non-empty `Authorization` header must split on single spaces into exactly
    the scheme `Bearer` and one more piece, which is the token; the `auth`
    query parameter is then ignored. Without a header the token is the `auth`
    query parameter, which must not be empty.
   */
  function ExtractToken(header: string, authQuery: string): (r: Result<string, AuthError>)
    ensures header == [] ==> (r.Ok? <==> authQuery != [])
    ensures header == [] && authQuery != [] ==> r == Ok(authQuery)
    ensures header == [] && authQuery == [] ==> r == Err(TokenNotProvided)
    ensures header != [] ==> r != Err(TokenNotProvided)
  {
    if header != [] then
      var parts := Split(header, ' ');
      if |parts| != 2 || parts[0] != BearerScheme then Err(InvalidHeaderFormat)
      else Ok(parts[1])
    else if authQuery == [] then Err(TokenNotProvided)
    else Ok(authQuery)
  }

  /**
    The header form accepted is exactly `Bearer`, one space, and a token that
    contains no space (possibly empty).
   */
  lemma BearerHeaderExact(header: string, authQuery: string, token: string)
    requires header != []
    ensures ExtractToken(header, authQuery) == Ok(token) <==> header == BearerScheme + " " + token && ' ' !in token
  {
    if header == BearerScheme + " " + token && ' ' !in token {
      assert ' ' !in BearerScheme;
      SplitAfterPiece(BearerScheme, ' ', token);
      SplitWithoutSeparator(token, ' ');
    }
    if ExtractToken(header, authQuery) == Ok(token) {
      var parts := Split(header, ' ');
      JoinSplit(header, ' ');
      assert parts == [BearerScheme, token];
      assert Join(parts, ' ') == BearerScheme + [' '] + Join(parts[1..], ' ');
    }
  }

  /** A non-empty header decides alone: the query parameter plays no part. */
  lemma HeaderTakesPrecedence(header: string, q1: string, q2: string)
    requires header != []
    ensures ExtractToken(header, q1) == ExtractToken(header, q2)
  {
  }

  /** `Bearer` followed by a single space yields the empty token, which the JWT parse then rejects. */
  lemma TrailingSpaceGivesEmptyToken(authQuery: string)
    ensures ExtractToken("Bearer ", authQuery) == Ok("")
  {
    BearerHeaderExact("Bearer ", authQuery, "");
  }

  /** Two spaces after the scheme make three pieces, so the header is rejected. */
  lemma DoubleSpaceRejected(authQuery: string)
    ensures ExtractToken("Bearer  abc", authQuery) == Err(InvalidHeaderFormat)
  {
    var r := ExtractToken("Bearer  abc", authQuery);
    if r.Ok? {
      BearerHeaderExact("Bearer  abc", authQuery, r.value);
    }
  }

  /** The scheme is compared exactly: a lower-case `bearer` is rejected. */
  lemma SchemeIsCaseSensitive(token: string, authQuery: string)
    ensures ExtractToken("bearer " + token, authQuery) == Err(InvalidHeaderFormat)
  {
    var header := "bearer " + token;
    var r := ExtractToken(header, authQuery);
    if r.Ok? {
      BearerHeaderExact(header, authQuery, r.value);
    }
  }
}
