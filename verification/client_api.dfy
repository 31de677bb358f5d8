/** The client's HTTP helper: the process-wide default headers and the
    requests the pages send. */
module ClientApi {
  import opened Common
  import opened Store

  type Headers = map<string, string>

  const Authorization: string := "Authorization"

  /** The scheme prefix of section 2.1 of RFC 6750. */
  const BearerPrefix: string := "Bearer "

  /** `setAuthToken(token)`: a usable token sets the Bearer header, anything else
      removes it; no other header is touched. */
  function SetAuthToken(h: Headers, token: Option<string>): (r: Headers)
    ensures TruthyOpt(token) ==> Authorization in r && r[Authorization] == BearerPrefix + token.value
    ensures !TruthyOpt(token) ==> Authorization !in r
    ensures forall k :: k != Authorization ==> (k in r <==> k in h) && (k in r ==> r[k] == h[k])
  {
    if TruthyOpt(token) then h[Authorization := BearerPrefix + token.value]
    else h - {Authorization}
  }

  /** The token a server reads back from the Authorization header. */
  function BearerToken(h: Headers): Option<string> {
    if Authorization in h && |h[Authorization]| >= |BearerPrefix| && h[Authorization][..|BearerPrefix|] == BearerPrefix
    then Some(h[Authorization][|BearerPrefix|..])
    else None
  }

  /** Setting the same token twice is setting it once, and the header carries
      exactly the token that was set, or nothing. */
  lemma SetAuthTokenLaws(h: Headers, token: Option<string>)
    ensures SetAuthToken(SetAuthToken(h, token), token) == SetAuthToken(h, token)
    ensures BearerToken(SetAuthToken(h, token)) == if TruthyOpt(token) then token else None
  {
    var r := SetAuthToken(h, token);
    if TruthyOpt(token) {
      assert r[Authorization][..|BearerPrefix|] == BearerPrefix;
      assert r[Authorization][|BearerPrefix|..] == token.value;
    }
  }

  /** The requests the content and user pages send. */
  datatype Call =
    | PutContent(id: Id, title: string, content: string)
    | PostContent(title: string, content: string)
    | DeleteContent(id: Id)
    | PutRole(id: Id, role: string)
    | DeleteAccount(id: Id)
}
