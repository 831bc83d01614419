/** The one piece of token handling the backend writes itself: pulling the token
    out of an `Authorization: Bearer <token>` header. Signing and verifying tokens
    belong to the JWT library and are not part of this module. */
module Jwt {
  import opened Wrappers
  import opened Text

  const Scheme := "Bearer"

  /** `extractTokenFromHeader`: no header or an empty one gives no token; otherwise
      split on single spaces and accept exactly two pieces whose first is "Bearer". */
  function ExtractTokenFromHeader(authHeader: Option<string>): (r: Option<string>)
    ensures authHeader == None || authHeader == Some("") ==> r == None
    ensures r.Some? ==> ' ' !in r.value
  {
    if authHeader == None || authHeader.value == "" then None
    else
      var parts := Split(authHeader.value, ' ');
      if |parts| != 2 || parts[0] != Scheme then None
      else Some(parts[1])
  }

  /** The header a client sends for a token. */
  function BearerHeader(token: string): string {
    Scheme + " " + token
  }

  /** Round trip: a token without spaces is read back from the header built for it. */
  lemma {:induction false} ExtractBearer(token: string)
    requires ' ' !in token
    ensures ExtractTokenFromHeader(Some(BearerHeader(token))) == Some(token)
  {
    assert BearerHeader(token) == Join([Scheme, token], ' ');
    SplitJoin([Scheme, token], ' ');
  }

  /** Only such headers yield a token: whenever a token comes back, the header was
      exactly "Bearer", one space, and that token. */
  lemma {:induction false} ExtractOnlyBearer(authHeader: Option<string>)
    ensures var r := ExtractTokenFromHeader(authHeader);
      r.Some? ==> authHeader == Some(BearerHeader(r.value))
  {
    if ExtractTokenFromHeader(authHeader).Some? {
      var s := authHeader.value;
      var parts := Split(s, ' ');
      JoinSplit(s, ' ');
      assert Join(parts, ' ') == parts[0] + [' '] + Join(parts[1..], ' ');
    }
  }

  /** "Bearer " with nothing after it yields the empty token, not "no token". */
  lemma EmptyBearerToken()
    ensures ExtractTokenFromHeader(Some("Bearer ")) == Some("")
  {
    ExtractBearer("");
    assert BearerHeader("") == "Bearer ";
  }

  /** Two spaces after the scheme yield no token. */
  lemma DoubleSpaceRejected(token: string)
    ensures ExtractTokenFromHeader(Some("Bearer  " + token)) == None
  {
    var h := "Bearer  " + token;
    ExtractOnlyBearer(Some(h));
    assert h[7] == ' ';
    assert forall t :: ' ' !in t && |t| > 0 ==> BearerHeader(t)[7] != ' ';
  }

  /** A third word yields no token. */
  lemma ExtraWordRejected(token: string, word: string)
    ensures ExtractTokenFromHeader(Some(BearerHeader(token) + " " + word)) == None
  {
    var h := BearerHeader(token) + " " + word;
    ExtractOnlyBearer(Some(h));
    assert h[7 + |token|] == ' ';
    assert forall t :: ' ' !in t && |t| > |token| ==> BearerHeader(t)[7 + |token|] != ' ';
  }

  /** The scheme is compared case-sensitively: "bearer" yields no token. */
  lemma LowerCaseSchemeRejected(token: string)
    ensures ExtractTokenFromHeader(Some("bearer " + token)) == None
  {
    var h := "bearer " + token;
    ExtractOnlyBearer(Some(h));
    assert h[0] == 'b';
    assert forall t :: BearerHeader(t)[0] == 'B';
  }
}
