/** `extractTokenFromHeader` of `jwt.js`: the token of an `Authorization:
    Bearer <token>` header. Signing and verifying tokens is not modelled. */
module Jwt {
  import opened Common

  const Scheme := "Bearer"

  /** A missing or empty header gives nothing; otherwise the header must
      split on single spaces into exactly the scheme and one more part,
      which is the token. */
  function ExtractTokenFromHeader(authHeader: Option<string>): (r: Option<string>)
    ensures authHeader.None? || authHeader.value == [] ==> r.None?
    ensures r.Some? ==> ' ' !in r.value
  {
    if authHeader.None? || authHeader.value == [] then None
    else
      var parts := Split(authHeader.value, ' ');
      if |parts| != 2 || parts[0] != Scheme then None else Some(parts[1])
  }

  /** The header carrying a token. */
  function BearerHeader(token: string): string
  {
    Scheme + " " + token
  }

  /** A token without spaces comes back out of the header that carries it,
      and whatever the extraction returns, the header was exactly the
      scheme, one space and that token. */
  lemma {:induction false} ExtractInvertsBearer(token: string, header: string)
    ensures ' ' !in token ==> ExtractTokenFromHeader(Some(BearerHeader(token))) == Some(token)
    ensures ExtractTokenFromHeader(Some(header)) == Some(token) ==> header == BearerHeader(token)
  {
    if ' ' !in token {
      assert BearerHeader(token) == JoinChar([Scheme, token], ' ');
      SplitJoin([Scheme, token], ' ');
    }
    if ExtractTokenFromHeader(Some(header)) == Some(token) {
      var parts := Split(header, ' ');
      JoinSplit(header, ' ');
      assert JoinChar(parts, ' ') == parts[0] + [' '] + parts[1];
    }
  }

  /** The scheme is compared exactly: a lower-case `bearer` gives nothing. */
  lemma SchemeIsCaseSensitive(token: string)
    requires ' ' !in token
    ensures ExtractTokenFromHeader(Some("bearer " + token)).None?
  {
    var h := "bearer " + token;
    assert h == JoinChar(["bearer", token], ' ');
    SplitJoin(["bearer", token], ' ');
  }

  /** A second space anywhere makes the header malformed. */
  lemma ExtraSpaceRejected(token: string)
    requires ' ' !in token
    ensures ExtractTokenFromHeader(Some(Scheme + "  " + token)).None?
  {
    var parts: seq<string> := [Scheme, [], token];
    assert parts[1..][1..] == [token];
    assert JoinChar(parts[1..], ' ') == [' '] + token;
    assert Scheme + "  " + token == JoinChar(parts, ' ');
    SplitJoin(parts, ' ');
  }
}
