/** What holds over every run of the OAuth server in which generated strings are fresh. */
module OAuthRuns {
  import opened Collections
  import opened OAuth

  datatype Event =
    | Authorize(request: AuthorizeRequest, lookups: Lookups, newCode: string, at: int)
    | Token(req: TokenRequest, secretKey: Option<string>, access: string, refresh: string, at: int)
    | Validate(token: string, at: int)
    | Clean(at: int)

  /** The store together with what it does not remember: every code and token as it was issued, the grant (a
      code) each token descends from, the credential it was obtained with, and the credentials that were used
      successfully. */
  datatype World = World(
    store: Store, codes: map<string, CodeData>, tokens: map<string, TokenData>,
    grant: map<string, string>, source: map<string, string>, spent: set<string>)

  const START := World(Store(map[], map[]), map[], map[], map[], map[], {})

  function Credential(req: TokenRequest): string
  {
    if req.grantType == "refresh_token" then req.refreshToken else req.code
  }

  /** The event is a token request that is answered with tokens. */
  predicate Succeeds(cfg: Config, w: World, e: Event)
  {
    e.Token? && TokenStep(cfg, w.store, e.req, e.secretKey, e.access, e.refresh, e.at).1.Issued?
  }

  function Next(cfg: Config, w: World, e: Event): World
  {
    match e
    case Authorize(request, lookups, code, at) =>
      var d := Decide(request, lookups);
      if d.Denied? then w
      else
        var data := NewCode(request, d.binding, at);
        w.(store := w.store.(codes := w.store.codes[code := data]), codes := w.codes[code := data])
    case Token(req, secretKey, a, r, at) =>
      var (s, response) := TokenStep(cfg, w.store, req, secretKey, a, r, at);
      if !Succeeds(cfg, w, e) || a !in s.tokens || r !in s.tokens then w.(store := s)
      else
        var c := Credential(req);
        var g := if c in w.grant then w.grant[c] else c;
        World(s, w.codes, w.tokens[a := s.tokens[a]][r := s.tokens[r]],
              w.grant[a := g][r := g], w.source[a := c][r := c], w.spent + {c})
    case Validate(token, at) => w.(store := ValidateStep(w.store, token, at).0)
    case Clean(at) => w.(store := CleanupStep(w.store, at))
  }

  /** Generated strings differ from each other and from all generated before. */
  predicate Fresh(w: World, e: Event)
  {
    && (e.Authorize? ==> e.newCode !in w.codes && e.newCode !in w.tokens)
    && (e.Token? ==> e.access != e.refresh
                     && forall s :: s in [e.access, e.refresh] ==> s !in w.codes && s !in w.tokens)
  }

  function After(cfg: Config, run: seq<Event>): World
  {
    if run == [] then START else Next(cfg, After(cfg, run[..|run| - 1]), run[|run| - 1])
  }

  predicate FreshRun(cfg: Config, run: seq<Event>)
  {
    run == [] || (FreshRun(cfg, run[..|run| - 1]) && Fresh(After(cfg, run[..|run| - 1]), run[|run| - 1]))
  }

  // The invariant.

  /** The store holds only what was issued, unchanged; codes and tokens are never the same string. */
  ghost predicate Faithful(w: World)
  {
    && (forall c :: c in w.store.codes ==> c in w.codes && w.store.codes[c] == w.codes[c])
    && (forall t :: t in w.store.tokens ==> t in w.tokens && w.store.tokens[t] == w.tokens[t])
    && (forall t :: t in w.tokens ==> t !in w.codes)
  }

  /** What was used successfully was issued and is gone. */
  ghost predicate UsedUp(w: World)
  {
    forall c :: c in w.spent ==> (c in w.codes || c in w.tokens) && c !in w.store.codes && c !in w.store.tokens
  }

  predicate Bound(isApiKey: bool, boundKeyId: Option<string>)
  {
    boundKeyId.Some? ==> isApiKey && boundKeyId.value != ""
  }

  /** Every token keeps client and scope of its grant and, once bound to a key, so does what it leads to. */
  ghost predicate Lineage(w: World)
  {
    && (forall c :: c in w.codes ==> Bound(w.codes[c].isApiKey, w.codes[c].boundKeyId))
    && (forall t :: t in w.tokens <==> t in w.grant)
    && (forall t :: t in w.tokens <==> t in w.source)
    && forall t :: t in w.tokens ==> Descends(w, t)
  }

  ghost predicate Descends(w: World, t: string)
    requires t in w.tokens && t in w.grant && t in w.source
  {
    var token, g, c := w.tokens[t], w.grant[t], w.source[t];
    && Bound(token.isApiKey, token.boundKeyId)
    && g in w.codes && g in w.spent && c in w.spent
    && token.clientId == w.codes[g].clientId && token.scope == w.codes[g].scope
    && (w.codes[g].isApiKey ==> token.isApiKey)
    && if c in w.tokens
       then w.tokens[c].kind == Refresh && c in w.grant && w.grant[c] == g
            && (w.tokens[c].boundKeyId.Some? ==> token.boundKeyId.Some?)
       else c == g && (w.codes[g].boundKeyId.Some? ==> token.boundKeyId.Some?)
  }

  /** A grant has at most one live refresh token. */
  ghost predicate OneRefreshPerGrant(w: World)
  {
    forall t, u :: LiveRefresh(w, t) && LiveRefresh(w, u) && w.grant[t] == w.grant[u] ==> t == u
  }

  predicate LiveRefresh(w: World, t: string)
  {
    t in w.store.tokens && t in w.grant && w.store.tokens[t].kind == Refresh
  }

  ghost predicate Inv(w: World)
  {
    Faithful(w) && UsedUp(w) && Lineage(w) && OneRefreshPerGrant(w)
  }

  /** A step that only removes from the store keeps the invariant. */
  lemma RemovalKeeps(w: World, s: Store)
    requires Inv(w)
    requires Remains(s, w.store)
    ensures Inv(w.(store := s))
  {
    RemovalKeepsLineage(w, s);
    hide Lineage;
    assert forall t :: LiveRefresh(w.(store := s), t) ==> LiveRefresh(w, t);
  }

  lemma RemovalKeepsLineage(w: World, s: Store)
    requires Lineage(w)
    ensures Lineage(w.(store := s))
  {
    forall t | t in w.tokens
      ensures Descends(w.(store := s), t)
    {
      assert Descends(w, t);
    }
    hide Descends, Bound;
  }

  lemma GrantedIsBound(request: AuthorizeRequest, lookups: Lookups, at: int)
    requires Decide(request, lookups).Granted?
    ensures var c := NewCode(request, Decide(request, lookups).binding, at); Bound(c.isApiKey, c.boundKeyId)
  {
  }

  function AddCode(w: World, code: string, data: CodeData): World
  {
    w.(store := w.store.(codes := w.store.codes[code := data]), codes := w.codes[code := data])
  }

  lemma AddCodeKeepsLineage(w: World, code: string, data: CodeData)
    requires Lineage(w) && Bound(data.isApiKey, data.boundKeyId) && code !in w.codes && code !in w.tokens
    ensures Lineage(AddCode(w, code, data))
  {
    forall t | t in w.tokens
      ensures Descends(AddCode(w, code, data), t)
    {
      assert Descends(w, t);
    }
    hide Descends, Bound;
  }

  lemma AddCodeKeeps(w: World, code: string, data: CodeData)
    requires Inv(w) && Bound(data.isApiKey, data.boundKeyId) && code !in w.codes && code !in w.tokens
    ensures Inv(AddCode(w, code, data))
  {
    AddCodeKeepsLineage(w, code, data);
    hide Lineage;
  }

  lemma AuthorizeKeeps(cfg: Config, w: World, e: Event)
    requires Inv(w) && e.Authorize? && Fresh(w, e)
    ensures Inv(Next(cfg, w, e))
  {
    var d := Decide(e.request, e.lookups);
    if d.Granted? {
      GrantedIsBound(e.request, e.lookups, e.at);
      hide Decide, NewCode, Inv;
      AddCodeKeeps(w, e.newCode, NewCode(e.request, d.binding, e.at));
    }
  }

  predicate FromBinding(
    t: TokenData, clientId: string, scope: string, isApiKey: bool, boundKeyId: Option<string>)
  {
    && t.clientId == clientId && t.scope == scope && (isApiKey ==> t.isApiKey)
    && (boundKeyId.Some? && boundKeyId.value != "" ==> t.boundKeyId.Some?)
    && Bound(t.isApiKey, t.boundKeyId)
  }

  /** The tokens `a` and `r` were stored for the credential `c`, which was live and is gone. */
  ghost predicate Exchange(s: Store, s': Store, c: string, a: string, r: string)
  {
    && a in s'.tokens && r in s'.tokens && s'.tokens[a].kind == Access && s'.tokens[r].kind == Refresh
    && (forall x :: x in s'.codes ==> x in s.codes && x != c && s'.codes[x] == s.codes[x])
    && (forall x :: x in s'.tokens && x != a && x != r ==> x in s.tokens && x != c && s'.tokens[x] == s.tokens[x])
    && ((c in s.tokens && s.tokens[c].kind == Refresh
         && forall x :: x in [a, r] ==>
              FromBinding(s'.tokens[x], s.tokens[c].clientId, s.tokens[c].scope, s.tokens[c].isApiKey,
                          s.tokens[c].boundKeyId))
        || (c in s.codes
            && forall x :: x in [a, r] ==>
                 FromBinding(s'.tokens[x], s.codes[c].clientId, s.codes[c].scope, s.codes[c].isApiKey,
                             s.codes[c].boundKeyId)))
  }

  lemma RefreshExchanges(
    cfg: Config, s: Store, req: TokenRequest, secretKey: Option<string>, a: string, r: string, now: int)
    requires RefreshStep(cfg, s, req, secretKey, a, r, now).1.Issued? && a != r && a !in s.tokens && r !in s.tokens
    requires s.tokens.Keys !! s.codes.Keys
    ensures Exchange(s, RefreshStep(cfg, s, req, secretKey, a, r, now).0, req.refreshToken, a, r)
    ensures req.refreshToken in s.tokens
  {
  }

  lemma CodeExchanges(
    cfg: Config, s: Store, req: TokenRequest, secretKey: Option<string>, a: string, r: string, now: int)
    requires CodeStep(cfg, s, req, secretKey, a, r, now).1.Issued? && a != r
    requires s.tokens.Keys !! s.codes.Keys
    ensures Exchange(s, CodeStep(cfg, s, req, secretKey, a, r, now).0, req.code, a, r)
    ensures req.code in s.codes
  {
  }

  lemma StepExchanges(
    cfg: Config, s: Store, req: TokenRequest, secretKey: Option<string>, a: string, r: string, now: int)
    requires TokenStep(cfg, s, req, secretKey, a, r, now).1.Issued?
    requires a != r && a !in s.tokens && r !in s.tokens && s.tokens.Keys !! s.codes.Keys
    ensures Exchange(s, TokenStep(cfg, s, req, secretKey, a, r, now).0, Credential(req), a, r)
    ensures if req.grantType == "refresh_token" then req.refreshToken in s.tokens else req.code in s.codes
  {
    hide RefreshStep, CodeStep, Exchange;
    if req.grantType == "refresh_token" {
      assert RefreshStep(cfg, s, req, secretKey, a, r, now).1.Issued?;
      RefreshExchanges(cfg, s, req, secretKey, a, r, now);
    } else {
      assert CodeStep(cfg, s, req, secretKey, a, r, now).1.Issued?;
      CodeExchanges(cfg, s, req, secretKey, a, r, now);
    }
  }

  lemma SuccessExchanges(cfg: Config, w: World, e: Event)
    requires Succeeds(cfg, w, e) && Fresh(w, e) && Faithful(w)
    ensures e.Token?
    ensures var w', c := Next(cfg, w, e), Credential(e.req);
      Exchange(w.store, w'.store, c, e.access, e.refresh) && Recorded(w, w', c, e.access, e.refresh)
    ensures if e.req.grantType == "refresh_token" then e.req.refreshToken in w.store.tokens
            else e.req.code in w.store.codes
  {
    hide TokenStep, Exchange, Faithful;
    assert e.access in [e.access, e.refresh] && e.refresh in [e.access, e.refresh];
    FaithfulApart(w);
    assert e.access !in w.store.tokens && e.refresh !in w.store.tokens;
    var (s, response) := TokenStep(cfg, w.store, e.req, e.secretKey, e.access, e.refresh, e.at);
    StepExchanges(cfg, w.store, e.req, e.secretKey, e.access, e.refresh, e.at);
    ExchangeStores(w.store, s, Credential(e.req), e.access, e.refresh);
  }

  lemma ExchangeStores(s: Store, s': Store, c: string, a: string, r: string)
    requires Exchange(s, s', c, a, r)
    ensures a in s'.tokens && r in s'.tokens
  {
  }

  lemma FaithfulApart(w: World)
    requires Faithful(w)
    ensures w.store.tokens.Keys !! w.store.codes.Keys && w.store.tokens.Keys <= w.tokens.Keys
  {
  }

  /** The exchange is added to the records. */
  ghost predicate Recorded(w: World, w': World, c: string, a: string, r: string)
  {
    && a in w'.store.tokens && r in w'.store.tokens
    && a != r && (forall x :: x in [a, r] ==> x !in w.codes && x !in w.tokens)
    && w'.codes == w.codes && w'.tokens == w.tokens[a := w'.store.tokens[a]][r := w'.store.tokens[r]]
    && w'.source == w.source[a := c][r := c] && w'.spent == w.spent + {c}
    && var g := if c in w.grant then w.grant[c] else c;
       w'.grant == w.grant[a := g][r := g]
  }

  lemma ExchangeKeepsFaithful(w: World, w': World, c: string, a: string, r: string)
    requires Faithful(w) && Recorded(w, w', c, a, r) && Exchange(w.store, w'.store, c, a, r)
    ensures Faithful(w')
  {
  }

  lemma ExchangeKeepsUsedUp(w: World, w': World, c: string, a: string, r: string)
    requires Faithful(w) && UsedUp(w) && Recorded(w, w', c, a, r) && Exchange(w.store, w'.store, c, a, r)
    ensures UsedUp(w')
  {
    assert a in [a, r] && r in [a, r];
    hide FromBinding;
    forall x | x in w'.spent
      ensures x !in w'.store.tokens && x !in w'.store.codes && (x in w'.codes || x in w'.tokens)
    {
      assert x == c || x in w.spent;
    }
  }

  lemma ExchangeKeepsDescent(w: World, w': World, c: string, a: string, r: string, t: string)
    requires Faithful(w) && Lineage(w) && Recorded(w, w', c, a, r) && Exchange(w.store, w'.store, c, a, r)
    requires t in w'.tokens
    ensures t in w'.grant && t in w'.source && Descends(w', t)
  {
    assert a in [a, r] && r in [a, r];
    if t != a && t != r {
      assert Descends(w, t);
    } else {
      assert t in [a, r];
      if c in w.store.tokens {
        assert Descends(w, c);
      }
    }
  }

  lemma ExchangeKeepsLineage(w: World, w': World, c: string, a: string, r: string)
    requires Faithful(w) && Lineage(w) && Recorded(w, w', c, a, r) && Exchange(w.store, w'.store, c, a, r)
    ensures Lineage(w')
  {
    hide Descends, Exchange, Faithful;
    forall t | t in w'.tokens
      ensures t in w'.grant && t in w'.source && Descends(w', t)
    {
      ExchangeKeepsDescent(w, w', c, a, r, t);
    }
  }

  lemma GrantIsSpent(w: World, t: string)
    requires Lineage(w) && t in w.tokens
    ensures w.grant[t] in w.spent && w.grant[t] in w.codes
  {
  }

  /** Only the new refresh token is live for the grant: a code had none before, a refresh token was the one. */
  lemma OthersBelongElsewhere(w: World, w': World, c: string, a: string, r: string, t: string)
    requires Inv(w) && Recorded(w, w', c, a, r) && Exchange(w.store, w'.store, c, a, r)
    requires LiveRefresh(w', t) && t != r
    ensures LiveRefresh(w, t) && w'.grant[t] == w.grant[t] && w.grant[t] != w'.grant[r]
  {
    assert a in [a, r] && r in [a, r];
    GrantIsSpent(w, t);
    hide FromBinding, Descends, Bound;
    if c in w.store.tokens {
      assert LiveRefresh(w, c);
      assert c != t;
    }
  }

  lemma ExchangeKeepsOneRefresh(w: World, w': World, c: string, a: string, r: string)
    requires Inv(w) && Recorded(w, w', c, a, r) && Exchange(w.store, w'.store, c, a, r)
    ensures OneRefreshPerGrant(w')
  {
    assert OneRefreshPerGrant(w) && r in w'.grant;
    hide Inv, Recorded, Exchange, LiveRefresh;
    forall t | LiveRefresh(w', t) && t != r
      ensures t in w.grant && t in w'.grant && LiveRefresh(w, t) && w'.grant[t] == w.grant[t] != w'.grant[r]
    {
      LiveHasGrant(w', t);
      OthersBelongElsewhere(w, w', c, a, r, t);
      LiveHasGrant(w, t);
    }
    forall t, u | LiveRefresh(w', t) && LiveRefresh(w', u)
      ensures t in w'.grant && u in w'.grant && (w'.grant[t] == w'.grant[u] ==> t == u)
    {
      LiveHasGrant(w', t);
      LiveHasGrant(w', u);
    }
  }

  lemma LiveHasGrant(w: World, t: string)
    requires LiveRefresh(w, t)
    ensures t in w.grant
  {
  }

  lemma SuccessKeeps(cfg: Config, w: World, e: Event)
    requires Inv(w) && Succeeds(cfg, w, e) && Fresh(w, e)
    ensures Inv(Next(cfg, w, e))
  {
    SuccessExchanges(cfg, w, e);
    hide *;
    var w', c := Next(cfg, w, e), Credential(e.req);
    InvParts(w);
    ExchangeKeepsFaithful(w, w', c, e.access, e.refresh);
    ExchangeKeepsUsedUp(w, w', c, e.access, e.refresh);
    ExchangeKeepsLineage(w, w', c, e.access, e.refresh);
    ExchangeKeepsOneRefresh(w, w', c, e.access, e.refresh);
    InvParts(w');
  }

  lemma InvParts(w: World)
    ensures Inv(w) <==> Faithful(w) && UsedUp(w) && Lineage(w) && OneRefreshPerGrant(w)
  {
  }

  /** `s` is what is left of the store. */
  ghost predicate Remains(s: Store, store: Store)
  {
    && (forall c :: c in s.codes ==> c in store.codes && s.codes[c] == store.codes[c])
    && forall t :: t in s.tokens ==> t in store.tokens && s.tokens[t] == store.tokens[t]
  }

  lemma RefreshRefusal(
    cfg: Config, s: Store, req: TokenRequest, secretKey: Option<string>, a: string, r: string, now: int)
    requires RefreshStep(cfg, s, req, secretKey, a, r, now).1.Refused?
    ensures Remains(RefreshStep(cfg, s, req, secretKey, a, r, now).0, s)
  {
  }

  lemma CodeRefusal(
    cfg: Config, s: Store, req: TokenRequest, secretKey: Option<string>, a: string, r: string, now: int)
    requires CodeStep(cfg, s, req, secretKey, a, r, now).1.Refused?
    ensures Remains(CodeStep(cfg, s, req, secretKey, a, r, now).0, s)
  {
    hide Issue, Or;
  }

  lemma RefusalRemoves(
    cfg: Config, s: Store, req: TokenRequest, secretKey: Option<string>, a: string, r: string, now: int)
    requires TokenStep(cfg, s, req, secretKey, a, r, now).1.Refused?
    ensures Remains(TokenStep(cfg, s, req, secretKey, a, r, now).0, s)
  {
    hide RefreshStep, CodeStep;
    if req.grantType == "refresh_token" {
      RefreshRefusal(cfg, s, req, secretKey, a, r, now);
    } else if req.grantType == "authorization_code" {
      CodeRefusal(cfg, s, req, secretKey, a, r, now);
    }
  }

  lemma OtherwiseRemoves(cfg: Config, w: World, e: Event)
    requires !e.Authorize? && !Succeeds(cfg, w, e)
    ensures Next(cfg, w, e) == w.(store := Next(cfg, w, e).store) && Remains(Next(cfg, w, e).store, w.store)
  {
    if e.Token? {
      RefusalRemoves(cfg, w.store, e.req, e.secretKey, e.access, e.refresh, e.at);
      hide TokenStep, Remains;
    } else if e.Validate? {
      hide TokenStep, CleanupStep;
    } else {
      hide TokenStep, ValidateStep;
    }
  }

  lemma NextKeeps(cfg: Config, w: World, e: Event)
    requires Inv(w) && Fresh(w, e)
    ensures Inv(Next(cfg, w, e))
  {
    hide *;
    if e.Authorize? {
      AuthorizeKeeps(cfg, w, e);
    } else if Succeeds(cfg, w, e) {
      SuccessKeeps(cfg, w, e);
    } else {
      OtherwiseRemoves(cfg, w, e);
      RemovalKeeps(w, Next(cfg, w, e).store);
    }
  }

  lemma {:induction false} RunKeeps(cfg: Config, run: seq<Event>)
    requires FreshRun(cfg, run)
    ensures Inv(After(cfg, run))
  {
    hide *;
    if run == [] {
      StartIsFine(cfg);
    } else {
      var front, e := run[..|run| - 1], run[|run| - 1];
      PrefixIsFresh(cfg, run, |front|);
      RunKeeps(cfg, front);
      FreshAt(cfg, run, |front|);
      NextKeeps(cfg, After(cfg, front), e);
      assert front + [e] == run;
      AfterSnoc(cfg, front, e);
    }
  }

  lemma StartIsFine(cfg: Config)
    ensures Inv(After(cfg, []))
  {
  }

  lemma {:induction false} PrefixIsFresh(cfg: Config, run: seq<Event>, m: nat)
    requires FreshRun(cfg, run) && m <= |run|
    ensures FreshRun(cfg, run[..m])
  {
    hide After, Fresh;
    if m < |run| {
      assert run[..|run| - 1][..m] == run[..m];
      PrefixIsFresh(cfg, run[..|run| - 1], m);
    } else {
      assert run[..m] == run;
    }
  }

  // The promises.

  lemma NextSpends(cfg: Config, w: World, e: Event)
    ensures w.spent <= Next(cfg, w, e).spent
  {
  }

  lemma {:induction false} SpentStays(cfg: Config, run: seq<Event>, m: nat, c: string)
    requires m <= |run| && c in After(cfg, run[..m]).spent
    ensures c in After(cfg, run).spent
  {
    if m == |run| {
      assert run[..m] == run;
    } else {
      var front := run[..|run| - 1];
      assert front[..m] == run[..m];
      SpentStays(cfg, front, m, c);
      NextSpends(cfg, After(cfg, front), run[|run| - 1]);
      hide Next;
    }
  }

  lemma SuccessIsToken(cfg: Config, w: World, e: Event)
    requires Succeeds(cfg, w, e)
    ensures e.Token?
  {
  }

  /** Over a whole run, no code and no refresh token is answered with tokens twice. */
  lemma CredentialsWorkOnce(cfg: Config, run: seq<Event>, i: nat, j: nat)
    requires FreshRun(cfg, run) && i < j < |run|
    requires Succeeds(cfg, After(cfg, run[..i]), run[i]) && Succeeds(cfg, After(cfg, run[..j]), run[j])
    ensures Credential(run[i].req) != Credential(run[j].req)
  {
    hide *;
    SuccessIsToken(cfg, After(cfg, run[..i]), run[i]);
    SuccessIsToken(cfg, After(cfg, run[..j]), run[j]);
    var w, v := After(cfg, run[..i]), After(cfg, run[..j]);
    PrefixIsFresh(cfg, run, i);
    PrefixIsFresh(cfg, run, j);
    RunKeeps(cfg, run[..i]);
    RunKeeps(cfg, run[..j]);
    InvParts(w);
    InvParts(v);
    SpendsAtStep(cfg, run, i);
    assert run[..j][..i + 1] == run[..i + 1];
    SpentStays(cfg, run[..j], i + 1, Credential(run[i].req));
    SpentFails(cfg, v, run[j], Credential(run[i].req)) by {
      FreshAt(cfg, run, j);
    }
  }

  lemma FreshAt(cfg: Config, run: seq<Event>, n: nat)
    requires FreshRun(cfg, run) && n < |run|
    ensures Fresh(After(cfg, run[..n]), run[n])
  {
    hide After, Fresh;
    PrefixIsFresh(cfg, run, n + 1);
    assert run[..n + 1][..n] == run[..n];
  }

  lemma SpendsAtStep(cfg: Config, run: seq<Event>, i: nat)
    requires FreshRun(cfg, run) && i < |run| && Faithful(After(cfg, run[..i]))
    requires Succeeds(cfg, After(cfg, run[..i]), run[i])
    ensures Credential(run[i].req) in After(cfg, run[..i + 1]).spent
  {
    hide FreshRun, Fresh, After, Next, Faithful, TokenStep, Succeeds, Exchange;
    FreshAt(cfg, run, i);
    assert run[..i] + [run[i]] == run[..i + 1];
    AfterSnoc(cfg, run[..i], run[i]);
    SuccessExchanges(cfg, After(cfg, run[..i]), run[i]);
  }

  lemma SpentFails(cfg: Config, w: World, e: Event, c: string)
    requires Succeeds(cfg, w, e) && Fresh(w, e) && Faithful(w) && UsedUp(w) && c in w.spent
    ensures Credential(e.req) != c
  {
    SuccessExchanges(cfg, w, e);
    hide TokenStep, Succeeds;
  }

  /** The authorization that a request with a code is entitled by. */
  predicate Entitles(cfg: Config, a: Event, e: Event)
    requires e.Token?
  {
    && a.Authorize? && Authorizable(a.request, a.lookups) && a.newCode == e.req.code
    && a.request.redirectUri == e.req.redirectUri
    && a.request.codeChallenge == cfg.challengeOf(e.req.codeVerifier)
    && e.at <= a.at + CODE_TTL_MS
  }

  /** What a code remembers of the authorization it was issued for. */
  predicate Remembers(c: CodeData, a: Event)
    requires a.Authorize?
  {
    && c.clientId == a.request.clientId && c.redirectUri == a.request.redirectUri
    && c.codeChallenge == a.request.codeChallenge
    && c.scope == (if a.request.scope == "" then "mcp" else a.request.scope)
    && c.resource == Present(a.request.resource)
    && BindsAs(Binding(c.isApiKey, c.boundKeyId), a.lookups)
    && c.expiresAt == a.at + CODE_TTL_MS
  }

  lemma NewCodeRemembers(a: Event)
    requires a.Authorize? && Decide(a.request, a.lookups).Granted?
    ensures Authorizable(a.request, a.lookups)
    ensures Remembers(NewCode(a.request, Decide(a.request, a.lookups).binding, a.at), a)
  {
    DecideIff(a.request, a.lookups);
    hide Decide, BindsAs;
  }

  /** A code on record was stored by an authorization of the run that fulfilled all conditions, and remembers it. */
  lemma {:induction false} CodeWasGranted(cfg: Config, run: seq<Event>, c: string) returns (i: nat)
    requires c in After(cfg, run).codes
    ensures i < |run| && run[i].Authorize? && run[i].newCode == c
    ensures Authorizable(run[i].request, run[i].lookups) && Remembers(After(cfg, run).codes[c], run[i])
  {
    hide Decide, TokenStep, ValidateStep, CleanupStep, NewCode, Succeeds, Authorizable, Remembers;
    var front, e := run[..|run| - 1], run[|run| - 1];
    if e.Authorize? && e.newCode == c && Decide(e.request, e.lookups).Granted? {
      i := |run| - 1;
      NewCodeRemembers(e);
    } else {
      i := CodeWasGranted(cfg, front, c);
    }
  }

  /** A code is answered with tokens only if the run granted an authorization with that code, the same redirect
      target and the challenge of the verifier, and no longer ago than a code lives. */
  lemma CodeSuccessIsEntitled(cfg: Config, run: seq<Event>, e: Event)
    requires FreshRun(cfg, run) && Succeeds(cfg, After(cfg, run), e) && e.req.grantType == "authorization_code"
    ensures exists i :: 0 <= i < |run| && Entitles(cfg, run[i], e)
  {
    CodeSuccessMatches(cfg, run, e);
    hide After, Succeeds, FreshRun, Authorizable, BindsAs;
    var i := CodeWasGranted(cfg, run, e.req.code);
    assert Entitles(cfg, run[i], e);
  }

  lemma CodeSuccessMatches(cfg: Config, run: seq<Event>, e: Event)
    requires FreshRun(cfg, run) && Succeeds(cfg, After(cfg, run), e) && e.req.grantType == "authorization_code"
    ensures var w := After(cfg, run);
      && e.req.code in w.codes
      && w.codes[e.req.code].redirectUri == e.req.redirectUri
      && w.codes[e.req.code].codeChallenge == cfg.challengeOf(e.req.codeVerifier)
      && e.at <= w.codes[e.req.code].expiresAt
  {
    RunKeeps(cfg, run);
    hide After, FreshRun;
  }

  /** Each grant has at most one live refresh token, and every token ever issued has the client, the scope and the
      API-key flag of its grant; a key binding implies the flag. */
  lemma GrantsAreTidy(cfg: Config, run: seq<Event>)
    requires FreshRun(cfg, run)
    ensures OneRefreshPerGrant(After(cfg, run))
    ensures var w := After(cfg, run);
      forall t :: t in w.tokens ==>
        && t in w.grant && w.grant[t] in w.codes
        && w.tokens[t].clientId == w.codes[w.grant[t]].clientId && w.tokens[t].scope == w.codes[w.grant[t]].scope
        && (w.tokens[t].boundKeyId.Some? || w.codes[w.grant[t]].isApiKey ==> w.tokens[t].isApiKey)
  {
    RunKeeps(cfg, run);
    var w := After(cfg, run);
    assert forall t :: t in w.tokens ==> Descends(w, t);
  }

  /** `chain` leads from a token through refreshes to another. */
  ghost predicate Chain(w: World, chain: seq<string>)
  {
    && (forall i :: 0 <= i < |chain| ==> chain[i] in w.tokens)
    && forall i :: 0 < i < |chain| ==> chain[i] in w.source && w.source[chain[i]] == chain[i - 1]
  }

  /** Along a refresh chain a key binding is never lost. */
  lemma {:induction false} BindingIsNeverLost(cfg: Config, run: seq<Event>, chain: seq<string>)
    requires FreshRun(cfg, run) && chain != [] && Chain(After(cfg, run), chain)
    requires After(cfg, run).tokens[chain[0]].boundKeyId.Some?
    ensures After(cfg, run).tokens[chain[|chain| - 1]].boundKeyId.Some?
    decreases |chain|
  {
    if |chain| > 1 {
      var w, front := After(cfg, run), chain[..|chain| - 1];
      RunKeeps(cfg, run);
      BindingIsNeverLost(cfg, run, front);
      assert Descends(w, chain[|chain| - 1]);
    }
  }

  /** What validates was issued as an access token, has not expired, and answers with the client and scope of its
      grant; in particular no refresh token ever validates. */
  lemma OnlyAccessTokensValidate(cfg: Config, run: seq<Event>, token: string, at: int)
    requires FreshRun(cfg, run)
    ensures var w := After(cfg, run); var v := ValidateStep(w.store, token, at).1;
      v.Valid? ==>
        && token in w.tokens && w.tokens[token].kind == Access && at <= w.tokens[token].expiresAt
        && token in w.grant && w.grant[token] in w.codes
        && v.clientId == w.codes[w.grant[token]].clientId && v.scope == w.codes[w.grant[token]].scope
        && v.isApiKey == w.tokens[token].isApiKey && v.boundKeyId == w.tokens[token].boundKeyId
        && (v.boundKeyId.Some? ==> v.isApiKey)
  {
    RunKeeps(cfg, run);
    hide After, FreshRun;
    var w := After(cfg, run);
    assert token in w.tokens ==> Descends(w, token);
  }

  lemma AfterSnoc(cfg: Config, run: seq<Event>, e: Event)
    ensures After(cfg, run + [e]) == Next(cfg, After(cfg, run), e)
  {
    assert (run + [e])[..|run|] == run;
  }
}
