/** The OAuth code and token store (in memory): authorization with PKCE (RFC 7636), single-use codes (section
    4.1.2 of RFC 6749) and refresh (section 6 of RFC 6749). Each request is one atomic step. */
module OAuth {
  import opened Collections

  const CODE_TTL_MS := 10 * 60 * 1000

  datatype Config = Config(tokenTtlMs: nat, refreshTtlMs: nat, challengeOf: string -> string)

  datatype CodeData = CodeData(
    clientId: string, redirectUri: string, codeChallenge: string, scope: string, isApiKey: bool,
    boundKeyId: Option<string>, resource: Option<string>, expiresAt: int)

  datatype Kind = Access | Refresh

  datatype TokenData = TokenData(
    kind: Kind, clientId: string, scope: string, isApiKey: bool, boundKeyId: Option<string>,
    resource: Option<string>, expiresAt: int)

  datatype Store = Store(codes: map<string, CodeData>, tokens: map<string, TokenData>)

  /** The first of the two that is present and not empty. */
  function Or(a: Option<string>, b: Option<string>): Option<string>
  {
    if a.Some? && a.value != "" then a else if b.Some? && b.value != "" then b else None
  }

  // Requests. Strings that are absent are empty.

  datatype AuthorizeRequest = AuthorizeRequest(
    responseType: string, clientId: string, redirectUri: string, codeChallenge: string, challengeMethod: string,
    scope: string, resource: string)

  /** A registered client: the key its name refers to, if any, and what the lookups said about it. */
  datatype Client = Client(namedKey: Option<string>, namedKeyValid: bool, redirectRegistered: bool)

  /** The answers of the lookups that an authorization makes. */
  datatype Lookups = Lookups(isAccessKey: bool, isApiKey: bool, client: Option<Client>, redirectAllowed: bool)

  datatype Binding = Binding(isApiKey: bool, boundKeyId: Option<string>)

  datatype Decision = Granted(binding: Binding) | Denied(error: string)

  predicate WellFormed(req: AuthorizeRequest)
  {
    req.responseType == "code" && req.redirectUri != "" && req.codeChallenge != "" && req.challengeMethod == "S256"
  }

  /** The id belongs to a registered client, which then has its own list of redirect targets. */
  predicate IsRegistered(l: Lookups)
  {
    !l.isAccessKey && !l.isApiKey && l.client.Some?
  }

  predicate TargetAllowed(l: Lookups)
  {
    if IsRegistered(l) then l.client.value.redirectRegistered else l.redirectAllowed
  }

  /** The name of the registered client refers to a valid key. */
  predicate NamesKey(l: Lookups)
  {
    IsRegistered(l) && l.client.value.namedKey.Some? && l.client.value.namedKeyValid
  }

  /** What an authorization has to fulfil: a well-formed request for a target that is registered for the client if
      a registered client decides, and allowed otherwise. */
  predicate Authorizable(req: AuthorizeRequest, l: Lookups)
  {
    WellFormed(req) && TargetAllowed(l)
  }

  /** The binding is that of an API key exactly if the id is one or the client's name refers to one, and carries
      the key only in the second case. */
  predicate BindsAs(b: Binding, l: Lookups)
  {
    && (b.isApiKey <==> NamesKey(l) || (!l.isAccessKey && l.isApiKey))
    && (b.boundKeyId.Some? <==> NamesKey(l) && l.client.value.namedKey.value != "")
    && (b.boundKeyId.Some? ==> b.boundKeyId == l.client.value.namedKey)
  }

  /** The error of a request that is not authorizable: an unknown client is only told so when its target is not
      allowed either. */
  predicate DeniedFor(error: string, req: AuthorizeRequest, l: Lookups)
  {
    && (error == "unsupported_response_type" <==> req.responseType != "code")
    && (error == "invalid_client" <==> WellFormed(req) && !l.isAccessKey && !l.isApiKey && l.client.None?)
    && error in ["unsupported_response_type", "invalid_client", "invalid_request"]
  }

  /** The decision of the nested checks in one condition. */
  lemma DecideIff(req: AuthorizeRequest, l: Lookups)
    ensures var d := Decide(req, l);
      && (d.Granted? <==> Authorizable(req, l))
      && (d.Granted? ==> BindsAs(d.binding, l))
      && (d.Denied? ==> DeniedFor(d.error, req, l))
  {
  }

  function Decide(req: AuthorizeRequest, l: Lookups): Decision
  {
    if req.responseType != "code" then Denied("unsupported_response_type")
    else if req.redirectUri == "" || req.codeChallenge == "" || req.challengeMethod != "S256" then
      Denied("invalid_request")
    else if l.isAccessKey then
      if l.redirectAllowed then Granted(Binding(false, None)) else Denied("invalid_request")
    else if l.isApiKey then
      if l.redirectAllowed then Granted(Binding(true, None)) else Denied("invalid_request")
    else if l.client.None? then
      if l.redirectAllowed then Granted(Binding(false, None)) else Denied("invalid_client")
    else
      var c := l.client.value;
      if !c.redirectRegistered then Denied("invalid_request")
      else if c.namedKey.Some? && c.namedKeyValid then Granted(Binding(true, Or(c.namedKey, None)))
      else Granted(Binding(false, None))
  }

  datatype TokenRequest = TokenRequest(
    grantType: string, code: string, redirectUri: string, codeVerifier: string, refreshToken: string, resource: string)

  datatype TokenResponse =
    | Issued(accessToken: string, refreshToken: string, scope: string, expiresIn: int)
    | Refused(error: string, description: string)

  function Present(s: string): Option<string> { if s == "" then None else Some(s) }

  /** The token of the given kind for a grant that carries `clientId`, `scope` and the earlier binding. */
  function Issue(kind: Kind, clientId: string, scope: string, earlier: Binding, secretKey: Option<string>,
                 resource: Option<string>, expiresAt: int): TokenData
  {
    var bound := Or(secretKey, earlier.boundKeyId);
    TokenData(kind, clientId, scope, bound.Some? || earlier.isApiKey, bound, resource, expiresAt)
  }

  function RefreshStep(cfg: Config, s: Store, req: TokenRequest, secretKey: Option<string>,
                       a: string, r: string, now: int): (Store, TokenResponse)
  {
    if req.refreshToken == "" then (s, Refused("invalid_request", "refresh_token is required"))
    else if req.refreshToken !in s.tokens || s.tokens[req.refreshToken].kind != Refresh then
      (s, Refused("invalid_grant", "Invalid refresh token"))
    else
      var t := s.tokens[req.refreshToken];
      if now > t.expiresAt then
        (s.(tokens := s.tokens - {req.refreshToken}), Refused("invalid_grant", "Refresh token expired"))
      else
        var earlier, resource := Binding(t.isApiKey, t.boundKeyId), Or(Present(req.resource), t.resource);
        var newAccess := Issue(Access, t.clientId, t.scope, earlier, secretKey, resource, now + cfg.tokenTtlMs);
        var newRefresh := Issue(Refresh, t.clientId, t.scope, earlier, secretKey, resource, now + cfg.refreshTtlMs);
        (s.(tokens := s.tokens[a := newAccess][r := newRefresh] - {req.refreshToken}),
         Issued(a, r, t.scope, cfg.tokenTtlMs / 1000))
  }

  function CodeStep(cfg: Config, s: Store, req: TokenRequest, secretKey: Option<string>,
                    a: string, r: string, now: int): (Store, TokenResponse)
  {
    if req.code == "" then (s, Refused("invalid_request", "code is required"))
    else if req.codeVerifier == "" then (s, Refused("invalid_request", "code_verifier is required (PKCE)"))
    else if req.code !in s.codes then (s, Refused("invalid_grant", "Invalid authorization code"))
    else
      var c, consumed := s.codes[req.code], s.(codes := s.codes - {req.code});
      if now > c.expiresAt then (consumed, Refused("invalid_grant", "Authorization code expired"))
      else if c.redirectUri != req.redirectUri then (consumed, Refused("invalid_grant", "redirect_uri mismatch"))
      else if cfg.challengeOf(req.codeVerifier) != c.codeChallenge then
        (consumed, Refused("invalid_grant", "code_verifier validation failed"))
      else
        var earlier, resource := Binding(c.isApiKey, c.boundKeyId), Or(Present(req.resource), c.resource);
        var access := Issue(Access, c.clientId, c.scope, earlier, secretKey, resource, now + cfg.tokenTtlMs);
        var refresh := Issue(Refresh, c.clientId, c.scope, earlier, secretKey, resource, now + cfg.tokenTtlMs * 24);
        (consumed.(tokens := s.tokens[a := access][r := refresh]), Issued(a, r, c.scope, cfg.tokenTtlMs / 1000))
  }

  function TokenStep(cfg: Config, s: Store, req: TokenRequest, secretKey: Option<string>,
                     a: string, r: string, now: int): (Store, TokenResponse)
  {
    if req.grantType == "refresh_token" then RefreshStep(cfg, s, req, secretKey, a, r, now)
    else if req.grantType != "authorization_code" then
      (s, Refused("unsupported_grant_type", "Only authorization_code and refresh_token are supported"))
    else CodeStep(cfg, s, req, secretKey, a, r, now)
  }

  /** The token is an access token on record. */
  predicate IsAccess(tokens: map<string, TokenData>, token: string)
  {
    token != "" && token in tokens && tokens[token].kind == Access
  }

  datatype Validation =
    | Valid(clientId: string, scope: string, isApiKey: bool, boundKeyId: Option<string>)
    | Invalid(reason: string)

  function ValidateStep(s: Store, token: string, now: int): (Store, Validation)
  {
    if token == "" then (s, Invalid("No token provided"))
    else if token !in s.tokens || s.tokens[token].kind != Access then (s, Invalid("Invalid token"))
    else
      var t := s.tokens[token];
      if now > t.expiresAt then (s.(tokens := s.tokens - {token}), Invalid("Token expired"))
      else (s, Valid(t.clientId, t.scope, t.isApiKey, t.boundKeyId))
  }

  function CleanupStep(s: Store, now: int): Store
  {
    Store(map c | c in s.codes && now <= s.codes[c].expiresAt :: s.codes[c],
          map t | t in s.tokens && now <= s.tokens[t].expiresAt :: s.tokens[t])
  }

  /** What is left after a clean-up: everything that has not expired, as it was. */
  lemma CleanupRemovesExpired(s: Store, now: int, x: string)
    ensures var s' := CleanupStep(s, now);
      && (x in s'.codes <==> x in s.codes && now <= s.codes[x].expiresAt)
      && (x in s'.codes ==> s'.codes[x] == s.codes[x])
      && (x in s'.tokens <==> x in s.tokens && now <= s.tokens[x].expiresAt)
      && (x in s'.tokens ==> s'.tokens[x] == s.tokens[x])
  {
  }

  function NewCode(req: AuthorizeRequest, b: Binding, now: int): CodeData
  {
    CodeData(req.clientId, req.redirectUri, req.codeChallenge, if req.scope == "" then "mcp" else req.scope,
             b.isApiKey, b.boundKeyId, Present(req.resource), now + CODE_TTL_MS)
  }

  /** What the error of a token request says: which part is missing, or that the credential does not work. */
  lemma RefusalsSay(cfg: Config, s: Store, req: TokenRequest, secretKey: Option<string>,
                    a: string, r: string, now: int)
    ensures var response := TokenStep(cfg, s, req, secretKey, a, r, now).1;
      response.Refused? ==>
        && (response.error == "unsupported_grant_type" <==>
              req.grantType !in ["refresh_token", "authorization_code"])
        && (response.error == "invalid_request" <==>
              || (req.grantType == "refresh_token" && req.refreshToken == "")
              || (req.grantType == "authorization_code" && (req.code == "" || req.codeVerifier == "")))
        && response.error in ["unsupported_grant_type", "invalid_request", "invalid_grant"]
  {
    hide Issue, Or;
  }

  /** Why a credential that is on record is refused. */
  lemma RefusalsExplain(cfg: Config, s: Store, req: TokenRequest, secretKey: Option<string>,
                        a: string, r: string, now: int)
    ensures var response := CodeStep(cfg, s, req, secretKey, a, r, now).1;
      req.code != "" && req.codeVerifier != "" && req.code in s.codes ==>
        var c := s.codes[req.code];
        && (response == Refused("invalid_grant", "Authorization code expired") <==> now > c.expiresAt)
        && (response == Refused("invalid_grant", "redirect_uri mismatch") <==>
              now <= c.expiresAt && c.redirectUri != req.redirectUri)
        && (response == Refused("invalid_grant", "code_verifier validation failed") <==>
              now <= c.expiresAt && c.redirectUri == req.redirectUri
              && cfg.challengeOf(req.codeVerifier) != c.codeChallenge)
    ensures var response := RefreshStep(cfg, s, req, secretKey, a, r, now).1;
      req.refreshToken != "" && req.refreshToken in s.tokens ==>
        var t := s.tokens[req.refreshToken];
        && (response == Refused("invalid_grant", "Invalid refresh token") <==> t.kind == Access)
        && (response == Refused("invalid_grant", "Refresh token expired") <==> t.kind == Refresh && now > t.expiresAt)
  {
    hide Issue, Or;
  }

  /** The module's two maps and the functions that change them. */
  class Server {
    const cfg: Config
    var authCodes: map<string, CodeData>
    var accessTokens: map<string, TokenData>

    function State(): Store
      reads this
    {
      Store(authCodes, accessTokens)
    }

    constructor (cfg: Config)
      ensures this.cfg == cfg && State() == Store(map[], map[])
    {
      this.cfg, authCodes, accessTokens := cfg, map[], map[];
    }

    /** Checks the request, then the client, then the redirect target; only then is a code stored. */
    method HandleAuthorize(req: AuthorizeRequest, l: Lookups, code: string, now: int) returns (d: Decision)
      modifies this
      ensures d == Decide(req, l)
      ensures d.Granted? <==> Authorizable(req, l)
      ensures if d.Granted? then BindsAs(d.binding, l) else DeniedFor(d.error, req, l)
      ensures accessTokens == old(accessTokens)
      ensures authCodes == if d.Granted? then old(authCodes)[code := NewCode(req, d.binding, now)] else old(authCodes)
    {
      if req.responseType != "code" {
        return Denied("unsupported_response_type");
      }
      if req.redirectUri == "" || req.codeChallenge == "" || req.challengeMethod != "S256" {
        return Denied("invalid_request");
      }
      var client: Option<Client> := None;
      var isApiKeyClient, boundKeyId := false, None;
      if !l.isAccessKey {
        isApiKeyClient := l.isApiKey;
        if !isApiKeyClient {
          client := l.client;
          if client.Some? {
            if client.value.namedKey.Some? && client.value.namedKeyValid {
              isApiKeyClient, boundKeyId := true, client.value.namedKey;
            }
          } else if !l.redirectAllowed {
            return Denied("invalid_client");
          }
        }
      }
      if client.Some? {
        if !client.value.redirectRegistered {
          return Denied("invalid_request");
        }
      } else if !l.redirectAllowed {
        return Denied("invalid_request");
      }
      d := Granted(Binding(isApiKeyClient, Or(boundKeyId, None)));
      authCodes := authCodes[code := NewCode(req, d.binding, now)];
    }

    method HandleToken(req: TokenRequest, secretKey: Option<string>, a: string, r: string, now: int)
      returns (response: TokenResponse)
      modifies this
      ensures (State(), response) == TokenStep(cfg, old(State()), req, secretKey, a, r, now)
    {
      if req.grantType == "refresh_token" {
        response := HandleRefresh(req, secretKey, a, r, now);
        return;
      }
      if req.grantType != "authorization_code" {
        return Refused("unsupported_grant_type", "Only authorization_code and refresh_token are supported");
      }
      if req.code == "" {
        return Refused("invalid_request", "code is required");
      }
      if req.codeVerifier == "" {
        return Refused("invalid_request", "code_verifier is required (PKCE)");
      }
      if req.code !in authCodes {
        return Refused("invalid_grant", "Invalid authorization code");
      }
      var codeData := authCodes[req.code];
      authCodes := authCodes - {req.code};
      if now > codeData.expiresAt {
        return Refused("invalid_grant", "Authorization code expired");
      }
      if codeData.redirectUri != req.redirectUri {
        return Refused("invalid_grant", "redirect_uri mismatch");
      }
      if cfg.challengeOf(req.codeVerifier) != codeData.codeChallenge {
        return Refused("invalid_grant", "code_verifier validation failed");
      }
      var bound := Or(secretKey, codeData.boundKeyId);
      var isApiKey := if bound.Some? then true else codeData.isApiKey;
      var resource := Or(Present(req.resource), codeData.resource);
      accessTokens := accessTokens[a := TokenData(Access, codeData.clientId, codeData.scope, isApiKey, bound, resource,
                                                  now + cfg.tokenTtlMs)];
      accessTokens := accessTokens[r := TokenData(Refresh, codeData.clientId, codeData.scope, isApiKey, bound, resource,
                                                  now + cfg.tokenTtlMs * 24)];
      response := Issued(a, r, codeData.scope, cfg.tokenTtlMs / 1000);
    }

    method HandleRefresh(req: TokenRequest, secretKey: Option<string>, a: string, r: string, now: int)
      returns (response: TokenResponse)
      modifies this
      ensures (State(), response) == RefreshStep(cfg, old(State()), req, secretKey, a, r, now)
    {
      if req.refreshToken == "" {
        return Refused("invalid_request", "refresh_token is required");
      }
      if req.refreshToken !in accessTokens || accessTokens[req.refreshToken].kind != Refresh {
        return Refused("invalid_grant", "Invalid refresh token");
      }
      var tokenData := accessTokens[req.refreshToken];
      if now > tokenData.expiresAt {
        accessTokens := accessTokens - {req.refreshToken};
        return Refused("invalid_grant", "Refresh token expired");
      }
      var bound := Or(secretKey, tokenData.boundKeyId);
      var isApiKey := if bound.Some? then true else tokenData.isApiKey;
      var resource := Or(Present(req.resource), tokenData.resource);
      accessTokens := accessTokens[a := TokenData(Access, tokenData.clientId, tokenData.scope, isApiKey, bound,
                                                  resource, now + cfg.tokenTtlMs)];
      accessTokens := accessTokens[r := TokenData(Refresh, tokenData.clientId, tokenData.scope, isApiKey, bound,
                                                  resource, now + cfg.refreshTtlMs)];
      accessTokens := accessTokens - {req.refreshToken};
      response := Issued(a, r, tokenData.scope, cfg.tokenTtlMs / 1000);
    }

    method ValidateAccessToken(token: string, now: int) returns (v: Validation)
      modifies this
      ensures (State(), v) == ValidateStep(old(State()), token, now)
      ensures v.Valid? <==> IsAccess(old(accessTokens), token) && now <= old(accessTokens)[token].expiresAt
      ensures v == Invalid("Token expired") <==>
                IsAccess(old(accessTokens), token) && now > old(accessTokens)[token].expiresAt
      ensures authCodes == old(authCodes)
      ensures accessTokens == if v == Invalid("Token expired") then old(accessTokens) - {token} else old(accessTokens)
    {
      if token == "" {
        return Invalid("No token provided");
      }
      if token !in accessTokens || accessTokens[token].kind != Access {
        return Invalid("Invalid token");
      }
      var t := accessTokens[token];
      if now > t.expiresAt {
        accessTokens := accessTokens - {token};
        return Invalid("Token expired");
      }
      v := Valid(t.clientId, t.scope, t.isApiKey, t.boundKeyId);
    }

    method Cleanup(now: int)
      modifies this
      ensures State() == CleanupStep(old(State()), now)
    {
      var codes := authCodes.Keys;
      while codes != {}
        invariant codes <= authCodes.Keys <= old(authCodes).Keys && accessTokens == old(accessTokens)
        invariant forall c :: c in authCodes ==> authCodes[c] == old(authCodes)[c]
        invariant forall c :: c in old(authCodes) && c !in codes ==>
                    (c in authCodes <==> now <= old(authCodes)[c].expiresAt)
        decreases codes
      {
        var c :| c in codes;
        if now > authCodes[c].expiresAt {
          authCodes := authCodes - {c};
        }
        codes := codes - {c};
      }
      var tokens := accessTokens.Keys;
      while tokens != {}
        invariant tokens <= accessTokens.Keys <= old(accessTokens).Keys
        invariant authCodes == CleanupStep(old(State()), now).codes
        invariant forall t :: t in accessTokens ==> accessTokens[t] == old(accessTokens)[t]
        invariant forall t :: t in old(accessTokens) && t !in tokens ==>
                    (t in accessTokens <==> now <= old(accessTokens)[t].expiresAt)
        decreases tokens
      {
        var t :| t in tokens;
        if now > accessTokens[t].expiresAt {
          accessTokens := accessTokens - {t};
        }
        tokens := tokens - {t};
      }
    }
  }
}
