/** What the OAuth server issues stays usable for its time, and what was used stays used: when codes, access tokens
    and refresh tokens work, over every run with fresh strings and a clock that does not go back. */
module OAuthLifetimes {
  import opened Collections
  import opened OAuth
  import opened OAuthRuns

  /** The request presents the code for exchange; without a verifier it is turned away before that. */
  predicate PresentsCode(e: Event, c: string)
  {
    && e.Token? && e.req.grantType == "authorization_code" && e.req.code == c
    && e.req.code != "" && e.req.codeVerifier != ""
  }

  predicate PresentsRefresh(e: Event, t: string)
  {
    e.Token? && e.req.grantType == "refresh_token" && e.req.refreshToken == t && t != ""
  }

  /** The code was presented after it was issued. */
  predicate CodePresented(cfg: Config, run: seq<Event>, c: string)
  {
    run != []
    && var front, e := run[..|run| - 1], run[|run| - 1];
       CodePresented(cfg, front, c) || (PresentsCode(e, c) && c in After(cfg, front).codes)
  }

  predicate RefreshPresented(cfg: Config, run: seq<Event>, t: string)
  {
    run != []
    && var front, e := run[..|run| - 1], run[|run| - 1];
       RefreshPresented(cfg, front, t) || (PresentsRefresh(e, t) && t in After(cfg, front).tokens)
  }

  lemma RefreshStepSpares(
    cfg: Config, s: Store, req: TokenRequest, secretKey: Option<string>, a: string, r: string, now: int)
    ensures var s' := RefreshStep(cfg, s, req, secretKey, a, r, now).0;
      && s'.codes == s.codes
      && forall t :: t in s.tokens && t != a && t != r
           && (t != req.refreshToken || s.tokens[t].kind == Access || t == "")
           ==> t in s'.tokens && s'.tokens[t] == s.tokens[t]
  {
    hide Issue, Or;
  }

  lemma CodeStepSpares(
    cfg: Config, s: Store, req: TokenRequest, secretKey: Option<string>, a: string, r: string, now: int)
    ensures var s' := CodeStep(cfg, s, req, secretKey, a, r, now).0;
      && (forall t :: t in s.tokens && t != a && t != r ==> t in s'.tokens && s'.tokens[t] == s.tokens[t])
      && forall c :: c in s.codes && (c != req.code || req.code == "" || req.codeVerifier == "")
           ==> c in s'.codes && s'.codes[c] == s.codes[c]
  {
    hide Issue, Or;
  }

  lemma TokenStepSpares(
    cfg: Config, s: Store, req: TokenRequest, secretKey: Option<string>, a: string, r: string, now: int)
    ensures var s' := TokenStep(cfg, s, req, secretKey, a, r, now).0;
      && (forall t :: t in s.tokens && t != a && t != r
            && (req.grantType != "refresh_token" || t != req.refreshToken || s.tokens[t].kind == Access || t == "")
            ==> t in s'.tokens && s'.tokens[t] == s.tokens[t])
      && (forall c :: c in s.codes
            && (req.grantType != "authorization_code" || c != req.code || req.code == "" || req.codeVerifier == "")
            ==> c in s'.codes && s'.codes[c] == s.codes[c])
  {
    hide RefreshStep, CodeStep;
    RefreshStepSpares(cfg, s, req, secretKey, a, r, now);
    CodeStepSpares(cfg, s, req, secretKey, a, r, now);
  }

  lemma StepKeepsToken(cfg: Config, w: World, e: Event, t: string)
    requires Faithful(w) && Fresh(w, e) && t in w.store.tokens && e.at <= w.store.tokens[t].expiresAt
    requires w.store.tokens[t].kind == Access || !PresentsRefresh(e, t)
    ensures t in Next(cfg, w, e).store.tokens && Next(cfg, w, e).store.tokens[t] == w.store.tokens[t]
  {
    if e.Token? {
      TokenStepSpares(cfg, w.store, e.req, e.secretKey, e.access, e.refresh, e.at);
      assert e.access in [e.access, e.refresh] && e.refresh in [e.access, e.refresh];
      hide TokenStep;
    } else {
      hide TokenStep;
    }
  }

  lemma StepKeepsCode(cfg: Config, w: World, e: Event, c: string)
    requires Faithful(w) && Fresh(w, e) && c in w.store.codes && e.at <= w.store.codes[c].expiresAt
    requires !PresentsCode(e, c)
    ensures c in Next(cfg, w, e).store.codes && Next(cfg, w, e).store.codes[c] == w.store.codes[c]
  {
    if e.Token? {
      TokenStepSpares(cfg, w.store, e.req, e.secretKey, e.access, e.refresh, e.at);
      hide TokenStep;
    } else {
      hide TokenStep;
    }
  }

  /** What a step adds to the records it also adds to the store. */
  lemma NewIsStored(cfg: Config, w: World, e: Event, x: string)
    requires Faithful(w) && Fresh(w, e)
    ensures var w' := Next(cfg, w, e);
      && (x in w'.tokens && x !in w.tokens ==> x in w'.store.tokens && w'.tokens[x] == w'.store.tokens[x])
      && (x in w'.codes && x !in w.codes ==> x in w'.store.codes && w'.codes[x] == w'.store.codes[x])
      && (x in w.tokens ==> x in w'.tokens && w'.tokens[x] == w.tokens[x])
      && (x in w.codes ==> x in w'.codes && w'.codes[x] == w.codes[x])
  {
    assert e.Token? ==> e.access in [e.access, e.refresh] && e.refresh in [e.access, e.refresh];
    hide TokenStep, ValidateStep, CleanupStep, Decide, NewCode;
  }

  lemma {:induction false} TokenLives(cfg: Config, run: seq<Event>, t: string, at: int)
    requires FreshRun(cfg, run) && t in After(cfg, run).tokens && at <= After(cfg, run).tokens[t].expiresAt
    requires forall i :: 0 <= i < |run| ==> run[i].at <= at
    requires After(cfg, run).tokens[t].kind == Access || !RefreshPresented(cfg, run, t)
    ensures t in After(cfg, run).store.tokens && After(cfg, run).store.tokens[t] == After(cfg, run).tokens[t]
  {
    hide Next, FreshRun, Fresh, Inv, Faithful, PresentsRefresh, PresentsCode;
    if run != [] {
      var front, e := run[..|run| - 1], run[|run| - 1];
      var w := After(cfg, front);
      PrefixIsFresh(cfg, run, |run| - 1);
      FreshAt(cfg, run, |run| - 1);
      RunKeeps(cfg, front);
      InvParts(w);
      NewIsStored(cfg, w, e, t);
      if t in w.tokens {
        TokenLives(cfg, front, t, at);
        StepKeepsToken(cfg, w, e, t);
      }
    }
  }

  lemma {:induction false} CodeLives(cfg: Config, run: seq<Event>, c: string, at: int)
    requires FreshRun(cfg, run) && c in After(cfg, run).codes && at <= After(cfg, run).codes[c].expiresAt
    requires !CodePresented(cfg, run, c) && forall i :: 0 <= i < |run| ==> run[i].at <= at
    ensures c in After(cfg, run).store.codes && After(cfg, run).store.codes[c] == After(cfg, run).codes[c]
  {
    hide Next, FreshRun, Fresh, Inv, Faithful, PresentsRefresh, PresentsCode;
    if run != [] {
      var front, e := run[..|run| - 1], run[|run| - 1];
      var w := After(cfg, front);
      PrefixIsFresh(cfg, run, |run| - 1);
      FreshAt(cfg, run, |run| - 1);
      RunKeeps(cfg, front);
      InvParts(w);
      NewIsStored(cfg, w, e, c);
      if c in w.codes {
        CodeLives(cfg, front, c, at);
        StepKeepsCode(cfg, w, e, c);
      }
    }
  }

  /** An access token validates from its issue to its expiry, whatever else happens in between. */
  lemma AccessTokenValidatesUntilExpiry(cfg: Config, run: seq<Event>, t: string, at: int)
    requires FreshRun(cfg, run) && t in After(cfg, run).tokens && After(cfg, run).tokens[t].kind == Access && t != ""
    requires forall i :: 0 <= i < |run| ==> run[i].at <= at
    ensures ValidateStep(After(cfg, run).store, t, at).1.Valid? <==> at <= After(cfg, run).tokens[t].expiresAt
  {
    RunKeeps(cfg, run);
    hide Next, After, FreshRun;
    if at <= After(cfg, run).tokens[t].expiresAt {
      TokenLives(cfg, run, t, at);
    }
  }

  /** What a presented credential leaves behind: nothing. */
  lemma CodeIsConsumed(cfg: Config, w: World, e: Event, c: string)
    requires Faithful(w) && Fresh(w, e) && PresentsCode(e, c)
    ensures c !in Next(cfg, w, e).store.codes
  {
    hide RefreshStep, Issue, Or;
  }

  lemma RefreshIsConsumed(cfg: Config, w: World, e: Event, t: string)
    requires Faithful(w) && Fresh(w, e) && PresentsRefresh(e, t) && t in w.tokens && w.tokens[t].kind == Refresh
    ensures t !in Next(cfg, w, e).store.tokens
  {
    assert e.access in [e.access, e.refresh] && e.refresh in [e.access, e.refresh];
    hide CodeStep, Issue, Or;
  }

  /** Nothing on record comes back. */
  lemma GoneStaysGone(cfg: Config, w: World, e: Event, x: string)
    requires Faithful(w) && Fresh(w, e)
    ensures x in w.codes && x !in w.store.codes ==> x !in Next(cfg, w, e).store.codes
    ensures x in w.tokens && x !in w.store.tokens ==> x !in Next(cfg, w, e).store.tokens
  {
    assert e.Token? ==> e.access in [e.access, e.refresh] && e.refresh in [e.access, e.refresh];
    if e.Token? {
      TokenStepAdds(cfg, w.store, e.req, e.secretKey, e.access, e.refresh, e.at);
    }
    hide TokenStep, Decide, NewCode;
  }

  lemma TokenStepAdds(
    cfg: Config, s: Store, req: TokenRequest, secretKey: Option<string>, a: string, r: string, now: int)
    ensures var s' := TokenStep(cfg, s, req, secretKey, a, r, now).0;
      s'.codes.Keys <= s.codes.Keys && s'.tokens.Keys <= s.tokens.Keys + {a, r}
  {
    hide RefreshStep, CodeStep;
    RefreshStepAdds(cfg, s, req, secretKey, a, r, now);
    CodeStepAdds(cfg, s, req, secretKey, a, r, now);
  }

  lemma RefreshStepAdds(
    cfg: Config, s: Store, req: TokenRequest, secretKey: Option<string>, a: string, r: string, now: int)
    ensures var s' := RefreshStep(cfg, s, req, secretKey, a, r, now).0;
      s'.codes.Keys <= s.codes.Keys && s'.tokens.Keys <= s.tokens.Keys + {a, r}
  {
    hide Issue, Or;
  }

  lemma CodeStepAdds(
    cfg: Config, s: Store, req: TokenRequest, secretKey: Option<string>, a: string, r: string, now: int)
    ensures var s' := CodeStep(cfg, s, req, secretKey, a, r, now).0;
      s'.codes.Keys <= s.codes.Keys && s'.tokens.Keys <= s.tokens.Keys + {a, r}
  {
    hide Issue, Or;
  }

  lemma {:induction false} PresentedCodeIsGone(cfg: Config, run: seq<Event>, c: string)
    requires FreshRun(cfg, run) && CodePresented(cfg, run, c)
    ensures c in After(cfg, run).codes && c !in After(cfg, run).store.codes
  {
    hide Next, FreshRun, Fresh, Inv, Faithful, PresentsCode;
    var front, e := run[..|run| - 1], run[|run| - 1];
    var w := After(cfg, front);
    PrefixIsFresh(cfg, run, |run| - 1);
    FreshAt(cfg, run, |run| - 1);
    RunKeeps(cfg, front);
    InvParts(w);
    NewIsStored(cfg, w, e, c);
    if CodePresented(cfg, front, c) {
      PresentedCodeIsGone(cfg, front, c);
      GoneStaysGone(cfg, w, e, c);
    } else {
      CodeIsConsumed(cfg, w, e, c);
    }
  }

  lemma {:induction false} PresentedRefreshIsGone(cfg: Config, run: seq<Event>, t: string)
    requires FreshRun(cfg, run) && RefreshPresented(cfg, run, t)
    requires t in After(cfg, run).tokens && After(cfg, run).tokens[t].kind == Refresh
    ensures t !in After(cfg, run).store.tokens
  {
    hide Next, FreshRun, Fresh, Inv, Faithful, PresentsRefresh;
    var front, e := run[..|run| - 1], run[|run| - 1];
    var w := After(cfg, front);
    PrefixIsFresh(cfg, run, |run| - 1);
    FreshAt(cfg, run, |run| - 1);
    RunKeeps(cfg, front);
    InvParts(w);
    NewIsStored(cfg, w, e, t);
    if RefreshPresented(cfg, front, t) {
      PresentedIsIssued(cfg, front, t);
      PresentedRefreshIsGone(cfg, front, t);
      GoneStaysGone(cfg, w, e, t);
    } else {
      RefreshIsConsumed(cfg, w, e, t);
    }
  }

  lemma {:induction false} PresentedIsIssued(cfg: Config, run: seq<Event>, t: string)
    requires FreshRun(cfg, run) && RefreshPresented(cfg, run, t)
    ensures t in After(cfg, run).tokens
  {
    hide Next, FreshRun, Fresh, Inv, Faithful, PresentsRefresh;
    var front, e := run[..|run| - 1], run[|run| - 1];
    PrefixIsFresh(cfg, run, |run| - 1);
    FreshAt(cfg, run, |run| - 1);
    RunKeeps(cfg, front);
    InvParts(After(cfg, front));
    NewIsStored(cfg, After(cfg, front), e, t);
    if RefreshPresented(cfg, front, t) {
      PresentedIsIssued(cfg, front, t);
    }
  }

  /** An issued code is answered with tokens exactly when it was not presented before, rightly or wrongly, has not
      expired, and both the redirect target and the verifier match. */
  lemma CodeWorksIff(cfg: Config, run: seq<Event>, e: Event)
    requires FreshRun(cfg, run) && e.Token? && PresentsCode(e, e.req.code) && e.req.code in After(cfg, run).codes
    requires forall i :: 0 <= i < |run| ==> run[i].at <= e.at
    ensures var c := After(cfg, run).codes[e.req.code];
      Succeeds(cfg, After(cfg, run), e) <==>
        && !CodePresented(cfg, run, e.req.code) && e.at <= c.expiresAt
        && c.redirectUri == e.req.redirectUri && c.codeChallenge == cfg.challengeOf(e.req.codeVerifier)
  {
    RunKeeps(cfg, run);
    hide Next, After, FreshRun, CodePresented;
    if CodePresented(cfg, run, e.req.code) {
      PresentedCodeIsGone(cfg, run, e.req.code);
    } else if e.at <= After(cfg, run).codes[e.req.code].expiresAt {
      CodeLives(cfg, run, e.req.code, e.at);
    }
  }

  /** What an authorization granted stays on record. */
  lemma {:induction false} GrantIsRecorded(cfg: Config, run: seq<Event>, i: nat)
    requires FreshRun(cfg, run) && i < |run|
    requires run[i].Authorize? && Authorizable(run[i].request, run[i].lookups)
    ensures run[i].newCode in After(cfg, run).codes && Remembers(After(cfg, run).codes[run[i].newCode], run[i])
  {
    hide FreshRun, Fresh, Inv, Faithful, Authorizable, Remembers, TokenStep, ValidateStep, CleanupStep, Decide, NewCode;
    var front, e := run[..|run| - 1], run[|run| - 1];
    if i < |front| {
      PrefixIsFresh(cfg, run, |run| - 1);
      FreshAt(cfg, run, |run| - 1);
      GrantIsRecorded(cfg, front, i);
      RunKeeps(cfg, front);
      InvParts(After(cfg, front));
      NewIsStored(cfg, After(cfg, front), e, run[i].newCode);
      hide Next;
    } else {
      DecideIff(e.request, e.lookups);
      NewCodeRemembers(e);
    }
  }

  /** From the authorization to the exchange: the code of an authorization that fulfilled all conditions is answered
      with tokens exactly when it was not presented before, no more than the lifetime of a code has passed, and the
      target and the verifier are those of the authorization. */
  lemma GrantedCodeWorksIff(cfg: Config, run: seq<Event>, i: nat, e: Event)
    requires FreshRun(cfg, run) && i < |run|
    requires run[i].Authorize? && Authorizable(run[i].request, run[i].lookups) && PresentsCode(e, run[i].newCode)
    requires forall j :: 0 <= j < |run| ==> run[j].at <= e.at
    ensures Succeeds(cfg, After(cfg, run), e) <==>
              && !CodePresented(cfg, run, run[i].newCode) && e.at <= run[i].at + CODE_TTL_MS
              && e.req.redirectUri == run[i].request.redirectUri
              && cfg.challengeOf(e.req.codeVerifier) == run[i].request.codeChallenge
  {
    hide After, FreshRun, Succeeds, CodePresented, Authorizable, BindsAs;
    GrantIsRecorded(cfg, run, i);
    CodeWorksIff(cfg, run, e);
  }

  /** What a token takes over from the credential it was issued for: client, scope and API-key flag; the key of the
      request's secret if it has one, else the earlier key; the requested resource, else the earlier one. */
  predicate TakesOver(
    t: TokenData, clientId: string, scope: string, earlier: Binding, resource: Option<string>, e: Event)
    requires e.Token?
  {
    var hasSecret := e.secretKey.Some? && e.secretKey.value != "";
    && t.clientId == clientId && t.scope == scope
    && t.boundKeyId == (if hasSecret then e.secretKey else earlier.boundKeyId)
    && (t.isApiKey <==> t.boundKeyId.Some? || earlier.isApiKey)
    && (e.req.resource != "" ==> t.resource == Some(e.req.resource))
    && (e.req.resource == "" && resource != Some("") ==> t.resource == resource)
  }

  lemma RefreshTakesOver(
    cfg: Config, s: Store, req: TokenRequest, secretKey: Option<string>, a: string, r: string, now: int)
    requires RefreshStep(cfg, s, req, secretKey, a, r, now).1.Issued? && a !in s.tokens && r !in s.tokens
    requires a != r && req.refreshToken in s.tokens
    requires Bound(s.tokens[req.refreshToken].isApiKey, s.tokens[req.refreshToken].boundKeyId)
    ensures var (s', e) := (RefreshStep(cfg, s, req, secretKey, a, r, now).0, Token(req, secretKey, a, r, now));
      var t := s.tokens[req.refreshToken];
      forall x :: x in [a, r] ==>
        x in s'.tokens && TakesOver(s'.tokens[x], t.clientId, t.scope, Binding(t.isApiKey, t.boundKeyId), t.resource, e)
  {
  }

  lemma CodeTakesOver(
    cfg: Config, s: Store, req: TokenRequest, secretKey: Option<string>, a: string, r: string, now: int)
    requires CodeStep(cfg, s, req, secretKey, a, r, now).1.Issued? && a != r && req.code in s.codes
    requires Bound(s.codes[req.code].isApiKey, s.codes[req.code].boundKeyId)
    ensures var (s', e) := (CodeStep(cfg, s, req, secretKey, a, r, now).0, Token(req, secretKey, a, r, now));
      var c := s.codes[req.code];
      forall x :: x in [a, r] ==>
        x in s'.tokens && TakesOver(s'.tokens[x], c.clientId, c.scope, Binding(c.isApiKey, c.boundKeyId), c.resource, e)
  {
  }

  /** The token takes over what its credential, a refresh token or a code, was issued with. */
  predicate Inherits(t: TokenData, w: World, e: Event)
    requires e.Token?
  {
    var c := Credential(e.req);
    if e.req.grantType == "refresh_token" then
      c in w.tokens
      && TakesOver(t, w.tokens[c].clientId, w.tokens[c].scope, Binding(w.tokens[c].isApiKey, w.tokens[c].boundKeyId),
                   w.tokens[c].resource, e)
    else
      c in w.codes
      && TakesOver(t, w.codes[c].clientId, w.codes[c].scope, Binding(w.codes[c].isApiKey, w.codes[c].boundKeyId),
                   w.codes[c].resource, e)
  }

  /** So do both tokens of every answer. */
  lemma AnswerTakesOver(cfg: Config, run: seq<Event>, e: Event)
    requires FreshRun(cfg, run + [e]) && Succeeds(cfg, After(cfg, run), e)
    ensures e.Token? && forall x :: x in [e.access, e.refresh] ==>
              x in After(cfg, run + [e]).tokens && Inherits(After(cfg, run + [e]).tokens[x], After(cfg, run), e)
  {
    hide *;
    SuccessIsToken(cfg, After(cfg, run), e);
    var all := run + [e];
    assert all[..|run|] == run && all[|run|] == e;
    FreshAt(cfg, all, |run|);
    PrefixIsFresh(cfg, all, |run|);
    RunKeeps(cfg, run);
    AfterSnoc(cfg, run, e);
    StepTakesOver(cfg, After(cfg, run), e);
  }

  lemma StepTakesOver(cfg: Config, w: World, e: Event)
    requires Inv(w) && Fresh(w, e) && Succeeds(cfg, w, e)
    ensures e.Token? && forall x :: x in [e.access, e.refresh] ==>
              x in Next(cfg, w, e).tokens && Inherits(Next(cfg, w, e).tokens[x], w, e)
  {
    hide RefreshStep, CodeStep, TakesOver, Exchange;
    InvParts(w);
    SuccessExchanges(cfg, w, e);
    FaithfulApart(w);
    assert e.access in [e.access, e.refresh] && e.refresh in [e.access, e.refresh];
    assert e.access !in w.store.tokens && e.refresh !in w.store.tokens;
    CredentialIsBound(w, Credential(e.req));
    hide Faithful, Lineage, UsedUp, OneRefreshPerGrant;
    if e.req.grantType == "refresh_token" {
      RefreshTakesOver(cfg, w.store, e.req, e.secretKey, e.access, e.refresh, e.at);
    } else {
      CodeTakesOver(cfg, w.store, e.req, e.secretKey, e.access, e.refresh, e.at);
    }
  }

  lemma CredentialIsBound(w: World, c: string)
    requires Faithful(w) && Lineage(w)
    ensures c in w.store.tokens ==>
              c in w.tokens && w.store.tokens[c] == w.tokens[c] && Bound(w.tokens[c].isApiKey, w.tokens[c].boundKeyId)
    ensures c in w.store.codes ==>
              c in w.codes && w.store.codes[c] == w.codes[c] && Bound(w.codes[c].isApiKey, w.codes[c].boundKeyId)
  {
    if c in w.store.tokens {
      assert Descends(w, c);
    }
  }

  /** An issued refresh token is answered with tokens exactly when it was not presented before and has not
      expired. */
  lemma RefreshTokenWorksIff(cfg: Config, run: seq<Event>, e: Event)
    requires FreshRun(cfg, run) && e.Token? && PresentsRefresh(e, e.req.refreshToken)
    requires e.req.refreshToken in After(cfg, run).tokens
    requires After(cfg, run).tokens[e.req.refreshToken].kind == Refresh
    requires forall i :: 0 <= i < |run| ==> run[i].at <= e.at
    ensures Succeeds(cfg, After(cfg, run), e) <==>
              && !RefreshPresented(cfg, run, e.req.refreshToken)
              && e.at <= After(cfg, run).tokens[e.req.refreshToken].expiresAt
  {
    RunKeeps(cfg, run);
    hide Next, After, FreshRun, RefreshPresented;
    if RefreshPresented(cfg, run, e.req.refreshToken) {
      PresentedRefreshIsGone(cfg, run, e.req.refreshToken);
    } else if e.at <= After(cfg, run).tokens[e.req.refreshToken].expiresAt {
      TokenLives(cfg, run, e.req.refreshToken, e.at);
    }
  }

  /** The answer describes what was stored: the access token for the time and the scope it states, the refresh
      token for its own time, which after a refresh is not the one it has after a code. */
  ghost predicate Stores(
    cfg: Config, s: Store, response: TokenResponse, a: string, r: string, refreshTtlMs: nat, now: int)
  {
    && response.Issued? && response.accessToken == a && response.refreshToken == r
    && a in s.tokens && s.tokens[a].kind == Access && s.tokens[a].expiresAt == now + cfg.tokenTtlMs
    && s.tokens[a].scope == response.scope
    && r in s.tokens && s.tokens[r].kind == Refresh && s.tokens[r].expiresAt == now + refreshTtlMs
    && 1000 * response.expiresIn <= cfg.tokenTtlMs < 1000 * (response.expiresIn + 1)
  }

  lemma RefreshStores(
    cfg: Config, s: Store, req: TokenRequest, secretKey: Option<string>, a: string, r: string, now: int)
    requires RefreshStep(cfg, s, req, secretKey, a, r, now).1.Issued? && a != r && a !in s.tokens && r !in s.tokens
    ensures var (s', response) := RefreshStep(cfg, s, req, secretKey, a, r, now);
      Stores(cfg, s', response, a, r, cfg.refreshTtlMs, now)
  {
  }

  lemma CodeStores(
    cfg: Config, s: Store, req: TokenRequest, secretKey: Option<string>, a: string, r: string, now: int)
    requires CodeStep(cfg, s, req, secretKey, a, r, now).1.Issued? && a != r
    ensures var (s', response) := CodeStep(cfg, s, req, secretKey, a, r, now);
      Stores(cfg, s', response, a, r, cfg.tokenTtlMs * 24, now)
  {
  }

  /** Records are never changed. */
  lemma {:induction false} RecordStays(cfg: Config, run: seq<Event>, more: seq<Event>, t: string)
    requires FreshRun(cfg, run + more) && t in After(cfg, run).tokens
    ensures t in After(cfg, run + more).tokens && After(cfg, run + more).tokens[t] == After(cfg, run).tokens[t]
  {
    hide Next, After, FreshRun, Fresh, Inv, Faithful;
    if more == [] {
      assert run + more == run;
    } else {
      var rest, e := more[..|more| - 1], more[|more| - 1];
      var all, front := run + more, run + rest;
      assert all == front + [e] && all[..|front|] == front && all[|front|] == e;
      PrefixIsFresh(cfg, all, |front|);
      FreshAt(cfg, all, |front|);
      RecordStays(cfg, run, rest, t);
      RunKeeps(cfg, front);
      InvParts(After(cfg, front));
      NewIsStored(cfg, After(cfg, front), e, t);
      AfterSnoc(cfg, front, e);
    }
  }

  /** What an answer promises about the tokens it hands out, at the time `later` after the whole run. */
  ghost predicate Honours(cfg: Config, run: seq<Event>, response: TokenResponse, at: int, refreshTtlMs: nat, later: int)
  {
    && response.Issued?
    && var w := After(cfg, run);
       var v := ValidateStep(w.store, response.accessToken, later).1;
       && (response.accessToken != "" ==> (v.Valid? <==> later <= at + cfg.tokenTtlMs))
       && (v.Valid? ==> v.scope == response.scope)
       && (forall next :: PresentsRefresh(next, response.refreshToken) && next.at == later ==>
             (Succeeds(cfg, w, next) <==>
                !RefreshPresented(cfg, run, response.refreshToken) && later <= at + refreshTtlMs))
       && 1000 * response.expiresIn <= cfg.tokenTtlMs < 1000 * (response.expiresIn + 1)
  }

  /** An answer is honoured whatever follows: the access token validates with the stated scope for the configured
      time, which is the stated one to the second, and the refresh token works once within its own time, which
      after a refresh is not the one it has after a code. */
  lemma AnswerIsHonoured(cfg: Config, run: seq<Event>, e: Event, more: seq<Event>, later: int)
    requires FreshRun(cfg, run + [e] + more) && Succeeds(cfg, After(cfg, run), e)
    requires forall i :: 0 <= i < |run + [e] + more| ==> (run + [e] + more)[i].at <= later
    ensures var response := TokenStep(cfg, After(cfg, run).store, e.req, e.secretKey, e.access, e.refresh, e.at).1;
      var ttl := if e.req.grantType == "refresh_token" then cfg.refreshTtlMs else cfg.tokenTtlMs * 24;
      Honours(cfg, run + [e] + more, response, e.at, ttl, later)
  {
    hide *;
    SuccessIsToken(cfg, After(cfg, run), e);
    var all := run + [e] + more;
    assert all[..|run|] == run && all[|run|] == e;
    FreshAt(cfg, all, |run|);
    PrefixIsFresh(cfg, all, |run|);
    RunKeeps(cfg, run);
    InvParts(After(cfg, run));
    AfterSnoc(cfg, run, e);
    SuccessRecords(cfg, After(cfg, run), e);
    var response := TokenStep(cfg, After(cfg, run).store, e.req, e.secretKey, e.access, e.refresh, e.at).1;
    var ttl := if e.req.grantType == "refresh_token" then cfg.refreshTtlMs else cfg.tokenTtlMs * 24;
    RecordsStay(cfg, run + [e], more, response, e.at, ttl);
    RecordsHonour(cfg, all, response, e.at, ttl, later);
  }

  /** The tokens of the answer are on record as the answer says. */
  ghost predicate Records(w: World, cfg: Config, response: TokenResponse, at: int, refreshTtlMs: nat)
  {
    && response.Issued? && response.accessToken in w.tokens && response.refreshToken in w.tokens
    && var a, r := w.tokens[response.accessToken], w.tokens[response.refreshToken];
       && a.kind == Access && a.expiresAt == at + cfg.tokenTtlMs && a.scope == response.scope
       && r.kind == Refresh && r.expiresAt == at + refreshTtlMs
       && 1000 * response.expiresIn <= cfg.tokenTtlMs < 1000 * (response.expiresIn + 1)
  }

  lemma RecordsStay(
    cfg: Config, run: seq<Event>, more: seq<Event>, response: TokenResponse, at: int, refreshTtlMs: nat)
    requires FreshRun(cfg, run + more) && Records(After(cfg, run), cfg, response, at, refreshTtlMs)
    ensures Records(After(cfg, run + more), cfg, response, at, refreshTtlMs)
  {
    hide After, FreshRun;
    RecordStays(cfg, run, more, response.accessToken);
    RecordStays(cfg, run, more, response.refreshToken);
  }

  lemma RecordsHonour(
    cfg: Config, run: seq<Event>, response: TokenResponse, at: int, refreshTtlMs: nat, later: int)
    requires FreshRun(cfg, run) && Records(After(cfg, run), cfg, response, at, refreshTtlMs)
    requires forall i :: 0 <= i < |run| ==> run[i].at <= later
    ensures Honours(cfg, run, response, at, refreshTtlMs, later)
  {
    hide After, FreshRun, Succeeds, RefreshPresented;
    var w := After(cfg, run);
    if response.accessToken != "" {
      AccessTokenValidatesUntilExpiry(cfg, run, response.accessToken, later);
    }
    RunKeeps(cfg, run);
    InvParts(w);
    ScopeOfValid(w, response.accessToken, later);
    hide ValidateStep;
    forall next | PresentsRefresh(next, response.refreshToken) && next.at == later
      ensures Succeeds(cfg, w, next) <==>
                !RefreshPresented(cfg, run, response.refreshToken) && later <= at + refreshTtlMs
    {
      RefreshTokenWorksIff(cfg, run, next);
    }
  }

  lemma ScopeOfValid(w: World, token: string, at: int)
    requires Faithful(w) && token in w.tokens
    ensures ValidateStep(w.store, token, at).1.Valid? ==>
              ValidateStep(w.store, token, at).1.scope == w.tokens[token].scope
  {
  }

  lemma SuccessRecords(cfg: Config, w: World, e: Event)
    requires Succeeds(cfg, w, e) && Fresh(w, e) && Faithful(w)
    ensures var ttl := if e.req.grantType == "refresh_token" then cfg.refreshTtlMs else cfg.tokenTtlMs * 24;
      var response := TokenStep(cfg, w.store, e.req, e.secretKey, e.access, e.refresh, e.at).1;
      && response.Issued? && response.accessToken == e.access && response.refreshToken == e.refresh
      && Records(Next(cfg, w, e), cfg, response, e.at, ttl)
  {
    hide Next, TokenStep, Succeeds, Fresh, Faithful, Exchange;
    SuccessStores(cfg, w, e);
    SuccessExchanges(cfg, w, e);
  }

  lemma SuccessStores(cfg: Config, w: World, e: Event)
    requires Succeeds(cfg, w, e) && Fresh(w, e) && Faithful(w)
    ensures var ttl := if e.req.grantType == "refresh_token" then cfg.refreshTtlMs else cfg.tokenTtlMs * 24;
      var (s, response) := TokenStep(cfg, w.store, e.req, e.secretKey, e.access, e.refresh, e.at);
      Next(cfg, w, e).store == s && Stores(cfg, s, response, e.access, e.refresh, ttl, e.at)
  {
    hide RefreshStep, CodeStep, Stores, Faithful;
    FaithfulApart(w);
    assert e.access in [e.access, e.refresh] && e.refresh in [e.access, e.refresh];
    if e.req.grantType == "refresh_token" {
      RefreshStores(cfg, w.store, e.req, e.secretKey, e.access, e.refresh, e.at);
    } else {
      CodeStores(cfg, w.store, e.req, e.secretKey, e.access, e.refresh, e.at);
    }
  }
}
