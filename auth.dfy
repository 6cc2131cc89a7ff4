/** The sign-in flow run on page load, made an explicit state machine: a
    cached unexpired token leads to the user fetch; otherwise a visit
    without an authorization code starts the authorization-code grant with
    PKCE (stage 1), and a visit with a code checks the returned state and
    exchanges the code for a token (stages 2 and 3). Time is whole seconds;
    the cached expiry is stored as its decimal spelling. */
module Auth {
  import opened Text
  import opened Pkce

  const ApiEndpoint := "https://api.trackmania.com"
  const ClientId := "f1aca30ec0e5b7454537"
  /** `encodeURIComponent('')`. */
  const Scope := ""

  // session storage keys
  const VerifierKey := "code_verifier"
  const StateKey := "state"
  // local storage keys
  const TokenTypeKey := "tokenType"
  const AccessTokenKey := "accessToken"
  const ExpirationKey := "expirationDate"

  /** Name-value pairs of a query string or a form body, in order. */
  type Fields = seq<(string, string)>

  /** `URLSearchParams.get`: the value of the first pair with that name. */
  function Lookup(fields: Fields, name: string): (r: Option<string>)
    ensures r.Some? ==> (name, r.value) in fields
    ensures r.None? ==> forall p :: p in fields ==> p.0 != name
  {
    LookupFrom(fields, name, 0)
  }

  /** The value of the first pair with that name at position `i` or later. */
  function LookupFrom(fields: Fields, name: string, i: nat): (r: Option<string>)
    requires i <= |fields|
    ensures r.Some? ==> exists j :: i <= j < |fields| && fields[j] == (name, r.value)
    ensures r.None? ==> forall j :: i <= j < |fields| ==> fields[j].0 != name
    decreases |fields| - i
  {
    if i == |fields| then None
    else if fields[i].0 == name then Some(fields[i].1)
    else LookupFrom(fields, name, i + 1)
  }

  /** The value of a pair is what `Lookup` finds when no earlier pair has its name. */
  lemma {:induction false} LookupFirst(fields: Fields, i: nat, name: string)
    requires i < |fields| && fields[i].0 == name
    requires forall j :: 0 <= j < i ==> fields[j].0 != name
    ensures Lookup(fields, name) == Some(fields[i].1)
  {
    var k := 0;
    while k < i
      invariant k <= i
      invariant LookupFrom(fields, name, k) == LookupFrom(fields, name, 0)
    {
      k := k + 1;
    }
  }

  /** What the flow sends or offers. */
  datatype Request =
    | UserInfo(url: string, authorization: string)  // GET with an Authorization header
    | Authorization(url: string, query: Fields)     // the login link
    | TokenExchange(url: string, body: Fields)      // POST, form encoded

  /** The fields of the token endpoint's JSON answer that the page reads. */
  datatype TokenResponse = TokenResponse(
    tokenType: Option<string>, accessToken: Option<string>, expiresIn: Option<nat>)

  /** The four ways a page load can go. */
  datatype Stage = FetchUser | Authorize | Reject | Exchange(code: string)

  /** The cached expiry is present, readable and strictly in the future. */
  predicate TokenUnexpired(local: map<string, string>, now: nat) {
    var stored := Get(local, ExpirationKey);
    stored.Some? && stored.value != "" &&
    var expiry := ParseNat(stored.value);
    expiry.Some? && expiry.value > now
  }

  /** A `code` query parameter that is present and non-empty. */
  predicate HasCode(code: Option<string>) {
    code.Some? && code.value != ""
  }

  /** The stage a page load runs. The saved and the returned state are
      compared as they are, so two absent values count as equal. */
  function SelectStage(local: map<string, string>, session: map<string, string>,
                       code: Option<string>, returnedState: Option<string>, now: nat): (stage: Stage)
    ensures stage == FetchUser <==> TokenUnexpired(local, now)
    ensures stage == Authorize <==> !TokenUnexpired(local, now) && !HasCode(code)
    ensures stage == Reject <==>
      !TokenUnexpired(local, now) && HasCode(code) && Get(session, StateKey) != returnedState
    ensures stage.Exchange? <==>
      !TokenUnexpired(local, now) && HasCode(code) && Get(session, StateKey) == returnedState
    ensures stage.Exchange? ==> Some(stage.code) == code
  {
    if TokenUnexpired(local, now) then FetchUser
    else if !HasCode(code) then Authorize
    else if Get(session, StateKey) != returnedState then Reject
    else Exchange(code.value)
  }

  /** The user fetch, authorised by the cached token type and token; a
      missing item is rendered as "null". */
  function UserRequest(local: map<string, string>): (r: Request)
    ensures r.UserInfo? && r.url == ApiEndpoint + "/api/user"
    ensures TokenTypeKey in local && AccessTokenKey in local ==>
      r.authorization == local[TokenTypeKey] + " " + local[AccessTokenKey]
  {
    UserInfo(ApiEndpoint + "/api/user",
             Render(Get(local, TokenTypeKey)) + " " + Render(Get(local, AccessTokenKey)))
  }

  /** The authorization request of section 4.1.1 of RFC 6749 with the PKCE
      parameters of section 4.3 of RFC 7636, as query pairs in the order the
      login link lists them. */
  function AuthorizationRequest(redirectUri: string, challenge: string, state: string): (r: Request)
    ensures r.Authorization? && r.url == ApiEndpoint + "/oauth/authorize"
    ensures |r.query| == 7 && r.query[2] == ("scope", Scope)
  {
    Authorization(ApiEndpoint + "/oauth/authorize",
      [("response_type", "code"), ("client_id", ClientId), ("scope", Scope),
       ("redirect_uri", redirectUri), ("code_challenge", challenge),
       ("code_challenge_method", "S256"), ("state", state)])
  }

  /** The link asks for an authorization code for this client. */
  lemma AuthorizationGrant(redirectUri: string, challenge: string, state: string)
    ensures var q := AuthorizationRequest(redirectUri, challenge, state).query;
      && Lookup(q, "response_type") == Some("code")
      && Lookup(q, "client_id") == Some(ClientId)
      && Lookup(q, "redirect_uri") == Some(redirectUri)
  {
    var q := AuthorizationRequest(redirectUri, challenge, state).query;
    LookupFirst(q, 0, "response_type");
    LookupFirst(q, 1, "client_id");
    LookupFirst(q, 3, "redirect_uri");
  }

  /** The link carries the S256 challenge and the state the page stored. */
  lemma AuthorizationPkce(redirectUri: string, challenge: string, state: string)
    ensures var q := AuthorizationRequest(redirectUri, challenge, state).query;
      && Lookup(q, "code_challenge") == Some(challenge)
      && Lookup(q, "code_challenge_method") == Some("S256")
      && Lookup(q, "state") == Some(state)
  {
    var q := AuthorizationRequest(redirectUri, challenge, state).query;
    LookupFirst(q, 4, "code_challenge");
    LookupFirst(q, 5, "code_challenge_method");
    LookupFirst(q, 6, "state");
  }

  /** The access token request of section 4.1.3 of RFC 6749 with the
      `code_verifier` of section 4.5 of RFC 7636. */
  function TokenRequest(redirectUri: string, verifier: Option<string>, code: string): (r: Request)
    ensures r.TokenExchange? && r.url == ApiEndpoint + "/api/access_token"
    ensures Lookup(r.body, "grant_type") == Some("authorization_code")
    ensures Lookup(r.body, "client_id") == Some(ClientId)
    ensures Lookup(r.body, "redirect_uri") == Some(redirectUri)
    ensures Lookup(r.body, "code_verifier") == Some(Render(verifier))
    ensures Lookup(r.body, "code") == Some(code)
  {
    var body := [("grant_type", "authorization_code"), ("client_id", ClientId),
                 ("redirect_uri", redirectUri), ("code_verifier", Render(verifier)), ("code", code)];
    assert Lookup(body, "grant_type") == Some("authorization_code") by { LookupFirst(body, 0, "grant_type"); }
    assert Lookup(body, "client_id") == Some(ClientId) by { LookupFirst(body, 1, "client_id"); }
    assert Lookup(body, "redirect_uri") == Some(redirectUri) by { LookupFirst(body, 2, "redirect_uri"); }
    assert Lookup(body, "code_verifier") == Some(Render(verifier)) by { LookupFirst(body, 3, "code_verifier"); }
    assert Lookup(body, "code") == Some(code) by { LookupFirst(body, 4, "code"); }
    TokenExchange(ApiEndpoint + "/api/access_token", body)
  }

  /** Stage 1 keeps the verifier and the state for the redirect back. */
  function StoreVerifier(session: map<string, string>, verifier: string, state: string): (s: map<string, string>)
    ensures Get(s, VerifierKey) == Some(verifier) && Get(s, StateKey) == Some(state)
    ensures forall k :: k != VerifierKey && k != StateKey ==> Get(s, k) == Get(session, k)
  {
    session[VerifierKey := verifier][StateKey := state]
  }

  /** The expiry written after the exchange: now plus `expires_in`, or now. */
  function Expiry(response: TokenResponse, now: nat): nat {
    now + response.expiresIn.GetOr(0)
  }

  /** Stage 3 caches the token type and the token (blank when missing) and
      the expiry. */
  function CacheToken(local: map<string, string>, response: TokenResponse, now: nat): (l: map<string, string>)
    ensures Get(l, TokenTypeKey) == Some(response.tokenType.GetOr(""))
    ensures Get(l, AccessTokenKey) == Some(response.accessToken.GetOr(""))
    ensures Get(l, ExpirationKey) == Some(ShowNat(Expiry(response, now)))
    ensures forall k :: k !in {TokenTypeKey, AccessTokenKey, ExpirationKey} ==> Get(l, k) == Get(local, k)
  {
    local[TokenTypeKey := response.tokenType.GetOr("")]
         [AccessTokenKey := response.accessToken.GetOr("")]
         [ExpirationKey := ShowNat(Expiry(response, now))]
  }

  /** A token cached at `now` keeps later page loads on the user fetch
      exactly while its lifetime lasts, and that fetch carries it. */
  lemma CachedTokenLifetime(local: map<string, string>, response: TokenResponse, now: nat, later: nat)
    ensures TokenUnexpired(CacheToken(local, response, now), later) <==> later < Expiry(response, now)
    ensures UserRequest(CacheToken(local, response, now)).authorization ==
      response.tokenType.GetOr("") + " " + response.accessToken.GetOr("")
  {
    var cached := CacheToken(local, response, now);
    ParseShow(Expiry(response, now));
    assert Get(cached, ExpirationKey) == Some(ShowNat(Expiry(response, now)));
  }

  /** The handshake: a stage-1 load stores a verifier and a state and offers
      a login link; when the authorization server redirects back with a code
      and the state of that link, the next load exchanges that code, and the
      verifier it sends is a valid RFC 7636 verifier whose S256 challenge is
      the one the link carried. */
  lemma Handshake(local: map<string, string>, session: map<string, string>,
                  verifierDraws: seq<Draw>, stateDraws: seq<Draw>,
                  redirectUri: string, sha256: string -> seq<bv8>, btoa: seq<bv8> -> string,
                  code: string, later: nat)
    requires |verifierDraws| == 64 && |stateDraws| == 64
    requires !TokenUnexpired(local, later) && code != ""
    ensures
      var verifier, state := Pick(verifierDraws), Pick(stateDraws);
      var stored := StoreVerifier(session, verifier, state);
      var link := AuthorizationRequest(redirectUri, CodeChallenge(verifier, sha256, btoa), state);
      var stage := SelectStage(local, stored, Some(code), Lookup(link.query, "state"), later);
      var exchange := TokenRequest(redirectUri, Get(stored, VerifierKey), code);
      && stage == Exchange(code)
      && exists v :: Lookup(exchange.body, "code_verifier") == Some(v)
                     && IsCodeVerifier(v)
                     && Lookup(link.query, "code_challenge") == Some(CodeChallenge(v, sha256, btoa))
  {
    var verifier, state := Pick(verifierDraws), Pick(stateDraws);
    PickIsVerifier(verifierDraws);
    var stored := StoreVerifier(session, verifier, state);
    var exchange := TokenRequest(redirectUri, Get(stored, VerifierKey), code);
    assert Lookup(exchange.body, "code_verifier") == Some(verifier);
    AuthorizationPkce(redirectUri, CodeChallenge(verifier, sha256, btoa), state);
  }

  /** A redirect whose state is not the one stage 1 stored never reaches the
      token request (the CSRF check of section 10.12 of RFC 6749). */
  lemma ForgedStateRejected(local: map<string, string>, session: map<string, string>,
                            stateDraws: seq<Draw>, verifier: string,
                            code: string, returnedState: Option<string>, later: nat)
    requires !TokenUnexpired(local, later) && code != ""
    requires returnedState != Some(Pick(stateDraws))
    ensures SelectStage(local, StoreVerifier(session, verifier, Pick(stateDraws)),
                        Some(code), returnedState, later) == Reject
  {
  }
}
