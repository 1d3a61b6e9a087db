/**
 The grant store of `oauth.py`: exchanging authorization codes, rotating
 refresh tokens, recognising replays and revoking a family as a separate step
 (sections 4.1.2 of RFC 6749, 4.14.2 of RFC 9700, 2.2 of RFC 8707 and 2.1 of
 RFC 7009). A presented token is the row its hash finds; digests and URI
 canonicalisation are parameters.
 */
module OAuth {
  import opened Common

  datatype CodeId = CodeId(n: int)
  datatype TokenId = TokenId(n: nat)
  datatype Family = Family(client: string, account: int)
  datatype Kind = Access | Refresh

  datatype Code = Code(
    family: Family, redirectUri: string, challenge: string, resource: Option<string>, scope: Option<string>,
    expiresAt: int, usedAt: Option<int>)

  datatype Token = Token(
    kind: Kind, family: Family, resource: Option<string>, scope: Option<string>,
    expiresAt: int, revokedAt: Option<int>, rotatedTo: Option<TokenId>)

  /** `origin` is not a column: it records the code each token descends from. */
  datatype Store = Store(
    codes: map<CodeId, Code>, tokens: map<TokenId, Token>, nextId: nat, active: set<int>,
    origin: map<TokenId, CodeId>)

  datatype Env = Env(
    digest: string -> string, canonical: string -> string, ownResource: string,
    accessTtl: nat, refreshTtl: nat)

  datatype OAuthError = InvalidRequest | InvalidGrant | InvalidTarget

  datatype Outcome = Granted(access: TokenId, refresh: TokenId) | Refused(error: OAuthError) | Reuse(family: Family)

  datatype ExchangeRequest = ExchangeRequest(
    code: CodeId, client: string, redirectUri: Option<string>, verifier: string, resource: Option<string>, now: int)

  datatype RotateRequest = RotateRequest(token: TokenId, client: string, resource: Option<string>, now: int)

  // ---- the transactions -------------------------------------------------------

  /** The audience asked for is the one granted, if one is asked for at all. */
  predicate AudienceKept(asked: Option<string>, granted: Option<string>, env: Env) {
    asked.Some? ==>
      env.canonical(asked.value) ==
      env.canonical(if granted.Some? && granted.value != "" then granted.value else env.ownResource)
  }

  /** `_mint`: two rows with consecutive ids, the access token first. */
  function Minted(s: Store, family: Family, resource: Option<string>, scope: Option<string>, from: CodeId, now: int,
      env: Env): Store
  {
    var access, refresh := TokenId(s.nextId), TokenId(s.nextId + 1);
    s.(tokens := s.tokens[access := Token(Access, family, resource, scope, now + env.accessTtl, None, None)]
                         [refresh := Token(Refresh, family, resource, scope, now + env.refreshTtl, None, None)],
       nextId := s.nextId + 2,
       origin := s.origin[access := from][refresh := from])
  }

  /** `_exchange_code_txn`; anything but a grant rolls the transaction back. */
  function ExchangeTxn(s: Store, r: ExchangeRequest, env: Env): (Store, Outcome) {
    if r.code !in s.codes then (s, Refused(InvalidGrant))
    else
      var row := s.codes[r.code];
      if row.family.client != r.client then (s, Refused(InvalidGrant))
      else if row.usedAt.Some? then (s, Reuse(row.family))
      else if row.expiresAt < r.now then (s, Refused(InvalidGrant))
      else if r.redirectUri.Some? && r.redirectUri.value != row.redirectUri then (s, Refused(InvalidGrant))
      else if env.digest(r.verifier) != row.challenge then (s, Refused(InvalidGrant))
      else if !AudienceKept(r.resource, row.resource, env) then (s, Refused(InvalidTarget))
      else if row.family.account !in s.active then (s, Refused(InvalidGrant))
      else
        var used := s.(codes := s.codes[r.code := row.(usedAt := Some(r.now))]);
        (Minted(used, row.family, row.resource, row.scope, r.code, r.now, env),
         Granted(TokenId(s.nextId), TokenId(s.nextId + 1)))
  }

  /** `_rotate_refresh_txn`. */
  function RotateTxn(s: Store, r: RotateRequest, env: Env): (Store, Outcome)
    requires s.tokens.Keys <= s.origin.Keys
  {
    if r.token !in s.tokens || !s.tokens[r.token].kind.Refresh? then (s, Refused(InvalidGrant))
    else
      var row := s.tokens[r.token];
      if row.family.client != r.client then (s, Refused(InvalidGrant))
      else if row.rotatedTo.Some? then (s, Reuse(row.family))
      else if row.revokedAt.Some? then (s, Refused(InvalidGrant))
      else if row.expiresAt < r.now then (s, Refused(InvalidGrant))
      else if !AudienceKept(r.resource, row.resource, env) then (s, Refused(InvalidTarget))
      else if row.family.account !in s.active then (s, Refused(InvalidGrant))
      else
        var minted := Minted(s, row.family, row.resource, row.scope, s.origin[r.token], r.now, env);
        var replacement := TokenId(s.nextId + 1);
        (minted.(tokens := minted.tokens[r.token := row.(revokedAt := Some(r.now), rotatedTo := Some(replacement))]),
         Granted(TokenId(s.nextId), replacement))
  }

  /** `_revoke_family`. */
  function FamilyRevoked(s: Store, family: Family, now: int): Store {
    s.(tokens := map t | t in s.tokens ::
         if s.tokens[t].family == family && s.tokens[t].revokedAt.None?
         then s.tokens[t].(revokedAt := Some(now)) else s.tokens[t])
  }

  /** `revoke`: scoped to the presenting client, and silent about tokens it does not find. */
  function TokenRevoked(s: Store, t: TokenId, client: string, now: int): Store {
    if t in s.tokens && s.tokens[t].family.client == client && s.tokens[t].revokedAt.None?
    then s.(tokens := s.tokens[t := s.tokens[t].(revokedAt := Some(now))])
    else s
  }

  const EMPTY := Store(map[], map[], 0, {}, map[])

  // ---- the tables, updated in place ----------------------------------------------

  class GrantStore {
    const env: Env
    var codes: map<CodeId, Code>
    var tokens: map<TokenId, Token>
    var nextId: nat
    var active: set<int>
    var origin: map<TokenId, CodeId>

    function View(): Store
      reads this
    {
      Store(codes, tokens, nextId, active, origin)
    }

    /** The sequence the rows draw their ids from is ahead of them. */
    ghost predicate IdsBelowNext()
      reads this
    {
      forall t :: t in tokens ==> t.n < nextId
    }

    constructor (env: Env)
      ensures View() == EMPTY && this.env == env
    {
      this.env := env;
      codes, tokens, nextId, active, origin := map[], map[], 0, {}, map[];
    }

    method Mint(family: Family, resource: Option<string>, scope: Option<string>, from: CodeId, now: int)
      returns (access: TokenId, refresh: TokenId)
      modifies this
      ensures View() == Minted(old(View()), family, resource, scope, from, now, env)
      ensures access == TokenId(old(nextId)) && refresh == TokenId(old(nextId) + 1)
      ensures access in tokens
      ensures tokens[access] == Token(Access, family, resource, scope, now + env.accessTtl, None, None)
      ensures refresh in tokens
      ensures tokens[refresh] == Token(Refresh, family, resource, scope, now + env.refreshTtl, None, None)
      ensures forall t :: t in old(tokens) && t != access && t != refresh ==> t in tokens && tokens[t] == old(tokens)[t]
      ensures tokens.Keys == old(tokens).Keys + {access, refresh} && codes == old(codes) && active == old(active)
      ensures old(IdsBelowNext()) ==> access !in old(tokens) && refresh !in old(tokens) && IdsBelowNext()
    {
      access, refresh := TokenId(nextId), TokenId(nextId + 1);
      tokens := tokens[access := Token(Access, family, resource, scope, now + env.accessTtl, None, None)];
      tokens := tokens[refresh := Token(Refresh, family, resource, scope, now + env.refreshTtl, None, None)];
      origin := origin[access := from][refresh := from];
      nextId := nextId + 2;
    }

    /** The transaction marks the code used before it looks at the account, and rolls that back on refusal. */
    method ExchangeCodeTxn(r: ExchangeRequest) returns (outcome: Outcome)
      modifies this
      ensures (View(), outcome) == ExchangeTxn(old(View()), r, env)
    {
      if r.code !in codes { return Refused(InvalidGrant); }
      var row := codes[r.code];
      if row.family.client != r.client { return Refused(InvalidGrant); }
      if row.usedAt.Some? { return Reuse(row.family); }
      if row.expiresAt < r.now { return Refused(InvalidGrant); }
      if r.redirectUri.Some? && r.redirectUri.value != row.redirectUri { return Refused(InvalidGrant); }
      if env.digest(r.verifier) != row.challenge { return Refused(InvalidGrant); }
      if !AudienceKept(r.resource, row.resource, env) { return Refused(InvalidTarget); }
      var rollback := codes;
      codes := codes[r.code := row.(usedAt := Some(r.now))];
      if row.family.account !in active {
        codes := rollback;
        return Refused(InvalidGrant);
      }
      var access, refresh := Mint(row.family, row.resource, row.scope, r.code, r.now);
      return Granted(access, refresh);
    }

    method RotateRefreshTxn(r: RotateRequest) returns (outcome: Outcome)
      requires tokens.Keys <= origin.Keys
      modifies this
      ensures (View(), outcome) == RotateTxn(old(View()), r, env)
    {
      if r.token !in tokens || !tokens[r.token].kind.Refresh? { return Refused(InvalidGrant); }
      var row := tokens[r.token];
      if row.family.client != r.client { return Refused(InvalidGrant); }
      if row.rotatedTo.Some? { return Reuse(row.family); }
      if row.revokedAt.Some? || row.expiresAt < r.now { return Refused(InvalidGrant); }
      if !AudienceKept(r.resource, row.resource, env) { return Refused(InvalidTarget); }
      if row.family.account !in active { return Refused(InvalidGrant); }
      var access, replacement := Mint(row.family, row.resource, row.scope, origin[r.token], r.now);
      tokens := tokens[r.token := row.(revokedAt := Some(r.now), rotatedTo := Some(replacement))];
      return Granted(access, replacement);
    }

    /** Every token of the family is dead afterwards, with everything else about it and about the others as before. */
    method RevokeFamily(family: Family, now: int)
      modifies this`tokens
      ensures tokens.Keys == old(tokens).Keys
      ensures forall t :: !LiveOf(View(), t, family)
      ensures forall t :: t in tokens ==> tokens[t] == old(tokens)[t].(revokedAt := tokens[t].revokedAt)
      ensures forall t :: t in tokens && (tokens[t].family != family || old(tokens)[t].revokedAt.Some?) ==>
                tokens[t] == old(tokens)[t]
      ensures forall t :: t in tokens && tokens[t].family == family && old(tokens)[t].revokedAt.None? ==>
                tokens[t].revokedAt == Some(now)
    {
      tokens := map t | t in tokens ::
        if tokens[t].family == family && tokens[t].revokedAt.None?
        then tokens[t].(revokedAt := Some(now))
        else tokens[t];
    }

    /**
     `_exchange_code`: a replay is answered by revoking the family, outside the
     transaction that saw it. `complete` says that a code and a verifier were sent.
     */
    method ExchangeCode(complete: bool, r: ExchangeRequest) returns (answer: Outcome)
      modifies this
      ensures !complete ==> answer == Refused(InvalidRequest) && View() == old(View())
      ensures complete ==>
                var o := ExchangeTxn(old(View()), r, env).1; answer == if o.Reuse? then Refused(InvalidGrant) else o
      ensures complete && !ExchangeTxn(old(View()), r, env).1.Reuse? ==> View() == ExchangeTxn(old(View()), r, env).0
      ensures complete && ExchangeTxn(old(View()), r, env).1.Reuse? ==>
                View() == FamilyRevoked(old(View()), ExchangeTxn(old(View()), r, env).1.family, r.now)
    {
      if !complete { return Refused(InvalidRequest); }
      var outcome := ExchangeCodeTxn(r);
      if outcome.Reuse? {
        RevokeFamily(outcome.family, r.now);
        assert tokens == FamilyRevoked(old(View()), outcome.family, r.now).tokens;
      }
      return if outcome.Reuse? then Refused(InvalidGrant) else outcome;
    }

    /** `_rotate_refresh`, likewise; `complete` says that a refresh token was sent. */
    method RotateRefresh(complete: bool, r: RotateRequest) returns (answer: Outcome)
      requires tokens.Keys <= origin.Keys
      modifies this
      ensures !complete ==> answer == Refused(InvalidRequest) && View() == old(View())
      ensures complete ==>
                var o := RotateTxn(old(View()), r, env).1; answer == if o.Reuse? then Refused(InvalidGrant) else o
      ensures complete && !RotateTxn(old(View()), r, env).1.Reuse? ==> View() == RotateTxn(old(View()), r, env).0
      ensures complete && RotateTxn(old(View()), r, env).1.Reuse? ==>
                View() == FamilyRevoked(old(View()), RotateTxn(old(View()), r, env).1.family, r.now)
    {
      if !complete { return Refused(InvalidRequest); }
      var outcome := RotateRefreshTxn(r);
      if outcome.Reuse? {
        RevokeFamily(outcome.family, r.now);
        assert tokens == FamilyRevoked(old(View()), outcome.family, r.now).tokens;
      }
      return if outcome.Reuse? then Refused(InvalidGrant) else outcome;
    }

    /** `revoke`. */
    method Revoke(t: TokenId, client: string, now: int)
      modifies this
      ensures View() == TokenRevoked(old(View()), t, client, now)
      ensures tokens.Keys == old(tokens).Keys && forall u :: u in tokens && u != t ==> tokens[u] == old(tokens)[u]
      ensures t in tokens && (tokens[t].family.client != client || old(tokens)[t].revokedAt.Some?) ==>
                tokens[t] == old(tokens)[t]
      ensures t in tokens && tokens[t].family.client == client && old(tokens)[t].revokedAt.None? ==>
                tokens[t] == old(tokens)[t].(revokedAt := Some(now))
    {
      if t in tokens && tokens[t].family.client == client && tokens[t].revokedAt.None? {
        tokens := tokens[t := tokens[t].(revokedAt := Some(now))];
      }
    }
  }

  // ---- what a single request decides ---------------------------------------------

  /** Every refusal leaves the tables alone; so does recognising a replay. */
  lemma OnlyGrantsWrite(s: Store, e: ExchangeRequest, r: RotateRequest, env: Env)
    requires s.tokens.Keys <= s.origin.Keys
    ensures !ExchangeTxn(s, e, env).1.Granted? ==> ExchangeTxn(s, e, env).0 == s
    ensures !RotateTxn(s, r, env).1.Granted? ==> RotateTxn(s, r, env).0 == s
  {}

  /** The new pair: each of its kind and with its own lifetime, with the grant's client, account, audience and scope. */
  predicate PairFor(s: Store, o: Outcome, family: Family, resource: Option<string>, scope: Option<string>, now: int,
      env: Env)
  {
    && o.Granted? && o.access in s.tokens && o.refresh in s.tokens
    && s.tokens[o.access] == Token(Access, family, resource, scope, now + env.accessTtl, None, None)
    && s.tokens[o.refresh] == Token(Refresh, family, resource, scope, now + env.refreshTtl, None, None)
  }

  /** Asking for no audience is asking for the granted one, and a grant without one is for this server. */
  lemma AudienceRule(asked: Option<string>, granted: Option<string>, env: Env)
    ensures asked == None ==> AudienceKept(asked, granted, env)
    ensures asked.Some? && granted in {None, Some("")} ==>
              (AudienceKept(asked, granted, env) <==> env.canonical(asked.value) == env.canonical(env.ownResource))
    ensures asked.Some? && granted.Some? && granted.value != "" ==>
              (AudienceKept(asked, granted, env) <==> env.canonical(asked.value) == env.canonical(granted.value))
  {}

  /** A grant touches nothing but the code or token it was asked with, and adds nothing but the pair. */
  lemma GrantsTouchNothingElse(s: Store, e: ExchangeRequest, r: RotateRequest, env: Env)
    requires s.tokens.Keys <= s.origin.Keys && forall t :: t in s.tokens ==> t.n < s.nextId
    ensures var (s', o) := ExchangeTxn(s, e, env);
            o.Granted? ==>
              && o.access !in s.tokens && o.refresh !in s.tokens && o.access != o.refresh
              && s'.tokens.Keys == s.tokens.Keys + {o.access, o.refresh} && s'.active == s.active
              && (forall t :: t in s.tokens ==> s'.tokens[t] == s.tokens[t])
              && s'.codes.Keys == s.codes.Keys && forall c :: c in s.codes && c != e.code ==> s'.codes[c] == s.codes[c]
    ensures var (s', o) := RotateTxn(s, r, env);
            o.Granted? ==>
              && o.access !in s.tokens && o.refresh !in s.tokens && o.access != o.refresh
              && s'.tokens.Keys == s.tokens.Keys + {o.access, o.refresh} && s'.active == s.active
              && (forall t :: t in s.tokens && t != r.token ==> s'.tokens[t] == s.tokens[t]) && s'.codes == s.codes
  {}

  /**
   A code is exchanged exactly for the client it was issued to, once, in time,
   with its redirect, proof and audience.
   */
  lemma ExchangeGrants(s: Store, r: ExchangeRequest, env: Env)
    ensures var (s', o) := ExchangeTxn(s, r, env);
            && (o.Granted? <==>
                  && r.code in s.codes && s.codes[r.code].family.client == r.client && s.codes[r.code].usedAt.None?
                  && r.now <= s.codes[r.code].expiresAt
                  && (r.redirectUri.Some? ==> r.redirectUri.value == s.codes[r.code].redirectUri)
                  && env.digest(r.verifier) == s.codes[r.code].challenge
                  && AudienceKept(r.resource, s.codes[r.code].resource, env)
                  && s.codes[r.code].family.account in s.active)
            && (o.Granted? ==>
                  && PairFor(s', o, s.codes[r.code].family, s.codes[r.code].resource, s.codes[r.code].scope, r.now, env)
                  && r.code in s'.codes && s'.codes[r.code] == s.codes[r.code].(usedAt := Some(r.now)))
            && (o == Refused(InvalidTarget) <==>
                  && r.code in s.codes && s.codes[r.code].family.client == r.client && s.codes[r.code].usedAt.None?
                  && r.now <= s.codes[r.code].expiresAt
                  && (r.redirectUri.Some? ==> r.redirectUri.value == s.codes[r.code].redirectUri)
                  && env.digest(r.verifier) == s.codes[r.code].challenge
                  && !AudienceKept(r.resource, s.codes[r.code].resource, env))
            && o != Refused(InvalidRequest) && (o.Reuse? ==> r.code in s.codes && o.family == s.codes[r.code].family)
            && (o.Reuse? <==>
                  && r.code in s.codes && s.codes[r.code].family.client == r.client
                  && s.codes[r.code].usedAt.Some?)
  {
    if ExchangeTxn(s, r, env).1.Granted? {
      var row := s.codes[r.code];
      var s' := ExchangeTxn(s, r, env).0;
      assert s'.tokens[TokenId(s.nextId)].family == row.family;
    }
  }

  /** A refresh token is rotated exactly for its own client, unrevoked and in time; it then points at its successor. */
  lemma RotateGrants(s: Store, r: RotateRequest, env: Env)
    requires s.tokens.Keys <= s.origin.Keys && forall t :: t in s.tokens ==> t.n < s.nextId
    ensures var (s', o) := RotateTxn(s, r, env);
            && (o.Granted? <==>
                  && r.token in s.tokens && s.tokens[r.token].kind.Refresh?
                  && s.tokens[r.token].family.client == r.client
                  && s.tokens[r.token].rotatedTo.None? && s.tokens[r.token].revokedAt.None?
                  && r.now <= s.tokens[r.token].expiresAt
                  && AudienceKept(r.resource, s.tokens[r.token].resource, env)
                  && s.tokens[r.token].family.account in s.active)
            && (o.Granted? ==>
                  && PairFor(s', o, s.tokens[r.token].family, s.tokens[r.token].resource, s.tokens[r.token].scope,
                             r.now, env)
                  && r.token in s'.tokens
                  && s'.tokens[r.token] == s.tokens[r.token].(revokedAt := Some(r.now), rotatedTo := Some(o.refresh)))
            && (o == Refused(InvalidTarget) <==>
                  && r.token in s.tokens && s.tokens[r.token].kind.Refresh?
                  && s.tokens[r.token].family.client == r.client
                  && s.tokens[r.token].rotatedTo.None? && s.tokens[r.token].revokedAt.None?
                  && r.now <= s.tokens[r.token].expiresAt
                  && !AudienceKept(r.resource, s.tokens[r.token].resource, env))
            && o != Refused(InvalidRequest)
            && (o.Reuse? ==> r.token in s.tokens && o.family == s.tokens[r.token].family)
            && (o.Reuse? <==>
                  && r.token in s.tokens && s.tokens[r.token].kind.Refresh?
                  && s.tokens[r.token].family.client == r.client
                  && s.tokens[r.token].rotatedTo.Some?)
  {
    var (s', o) := RotateTxn(s, r, env);
    if o.Granted? {
      assert o.access !in s.tokens && o.refresh !in s.tokens && o.access != o.refresh;
    }
  }

  // ---- runs ------------------------------------------------------------------------

  /** `replays` are the families whose replay was recognised and not yet answered. */
  datatype Sys = Sys(store: Store, replays: multiset<Family>)

  datatype Step =
    | IssueCode(id: CodeId, code: Code)
    | Exchange(exchange: ExchangeRequest)
    | Rotate(rotate: RotateRequest)
    | AnswerReplay(family: Family, now: int)
    | LoseReplay(family: Family)               // the process dies before revoking
    | Revoke(token: TokenId, client: string, now: int)
    | SetActive(account: int, on: bool)

  predicate Enabled(s: Sys, step: Step) {
    match step
    case IssueCode(id, code) => id !in s.store.codes && code.usedAt.None?
    case AnswerReplay(family, _) => family in s.replays
    case LoseReplay(family) => family in s.replays
    case _ => s.store.tokens.Keys <= s.store.origin.Keys
  }

  function WithOutcome(s: Sys, result: (Store, Outcome)): Sys {
    Sys(result.0, if result.1.Reuse? then s.replays + multiset{result.1.family} else s.replays)
  }

  function Next(s: Sys, step: Step, env: Env): Sys
    requires Enabled(s, step)
  {
    match step
    case IssueCode(id, code) => s.(store := s.store.(codes := s.store.codes[id := code]))
    case Exchange(r) => WithOutcome(s, ExchangeTxn(s.store, r, env))
    case Rotate(r) => WithOutcome(s, RotateTxn(s.store, r, env))
    case AnswerReplay(family, now) =>
      Sys(FamilyRevoked(s.store, family, now), s.replays - multiset{family})
    case LoseReplay(family) => s.(replays := s.replays - multiset{family})
    case Revoke(t, client, now) => s.(store := TokenRevoked(s.store, t, client, now))
    case SetActive(account, on) =>
      s.(store := s.store.(active := if on then s.store.active + {account} else s.store.active - {account}))
  }

  const START := Sys(EMPTY, multiset{})

  predicate Runs(s: Sys, steps: seq<Step>, env: Env)
    decreases |steps|
  {
    steps == [] || (Enabled(s, steps[0]) && Runs(Next(s, steps[0], env), steps[1..], env))
  }

  function After(s: Sys, steps: seq<Step>, env: Env): Sys
    requires Runs(s, steps, env)
    decreases |steps|
  {
    if steps == [] then s else After(Next(s, steps[0], env), steps[1..], env)
  }

  // ---- the invariant: one chain per code -----------------------------------------

  predicate TokenOk(s: Store, t: TokenId)
    requires t in s.tokens
  {
    var token := s.tokens[t];
    && t.n < s.nextId
    && t in s.origin && s.origin[t] in s.codes
    && var code := s.codes[s.origin[t]];
    && code.usedAt.Some?
    && token.family == code.family && token.resource == code.resource && token.scope == code.scope
    && (token.rotatedTo.Some? ==>
          && token.kind.Refresh? && token.revokedAt.Some?
          && token.rotatedTo.value in s.tokens && s.tokens[token.rotatedTo.value].kind.Refresh?
          && token.rotatedTo.value in s.origin && s.origin[token.rotatedTo.value] == s.origin[t]
          && t.n < token.rotatedTo.value.n)
  }

  /** The refresh tokens of one code, in order of id, each rotated to the next. */
  predicate Linked(s: Store, t: TokenId, u: TokenId)
    requires t in s.tokens && u in s.tokens
  {
    t in s.origin && u in s.origin && s.origin[t] == s.origin[u]
    && s.tokens[t].kind.Refresh? && s.tokens[u].kind.Refresh? && t.n < u.n
    ==> s.tokens[t].rotatedTo.Some? && s.tokens[t].rotatedTo.value.n <= u.n
  }

  predicate Inv(s: Store) {
    && (forall t :: t in s.tokens ==> TokenOk(s, t))
    && (forall t, u :: t in s.tokens && u in s.tokens ==> Linked(s, t, u))
  }

  lemma MintKeepsInv(s: Store, family: Family, resource: Option<string>, scope: Option<string>, from: CodeId,
      now: int, env: Env)
    requires Inv(s) && from in s.codes && s.codes[from].usedAt.Some?
    requires family == s.codes[from].family && resource == s.codes[from].resource && scope == s.codes[from].scope
    ensures var s' := Minted(s, family, resource, scope, from, now, env);
            && (forall t :: t in s'.tokens ==> TokenOk(s', t))
            && (forall t, u :: t in s.tokens && u in s.tokens ==> Linked(s', t, u))
            && (forall t, u :: t in s'.tokens && u in s'.tokens && u !in s.tokens ==> Linked(s', u, t))
  {
    var s' := Minted(s, family, resource, scope, from, now, env);
    forall t | t in s'.tokens ensures TokenOk(s', t) {
      if t in s.tokens { assert TokenOk(s, t); }
    }
    forall t, u | t in s.tokens && u in s.tokens ensures Linked(s', t, u) {
      assert TokenOk(s, t) && TokenOk(s, u) && Linked(s, t, u);
    }
    forall t, u | t in s'.tokens && u in s'.tokens && u !in s.tokens ensures Linked(s', u, t) {
      if t in s.tokens { assert TokenOk(s, t); }
    }
  }

  lemma ExchangeKeepsInv(s: Store, r: ExchangeRequest, env: Env)
    requires Inv(s)
    ensures Inv(ExchangeTxn(s, r, env).0)
  {
    var (s', o) := ExchangeTxn(s, r, env);
    if o.Granted? {
      var row := s.codes[r.code];
      var used := s.(codes := s.codes[r.code := row.(usedAt := Some(r.now))]);
      forall t | t in s.tokens ensures TokenOk(used, t) && s.origin[t] != r.code { assert TokenOk(s, t); }
      forall t, u | t in s.tokens && u in s.tokens ensures Linked(used, t, u) { assert Linked(s, t, u); }
      MintKeepsInv(used, row.family, row.resource, row.scope, r.code, r.now, env);
      forall t, u | t in s'.tokens && u in s'.tokens ensures Linked(s', t, u) {
        assert u in s.tokens ==> s'.origin[u] == s.origin[u];
        assert t in s.tokens ==> s'.origin[t] == s.origin[t];
      }
    }
  }

  /** Rotating the last token of a chain to the one just minted keeps the chain linked. */
  lemma RotateKeepsLinks(s: Store, r: RotateRequest, env: Env, t: TokenId, u: TokenId)
    requires Inv(s) && s.tokens.Keys <= s.origin.Keys && RotateTxn(s, r, env).1.Granted?
    requires var s' := RotateTxn(s, r, env).0; t in s'.tokens && u in s'.tokens
    ensures Linked(RotateTxn(s, r, env).0, t, u)
  {
    assert TokenOk(s, r.token);
    if t in s.tokens {
      assert TokenOk(s, t);
      assert Linked(s, t, r.token) && Linked(s, r.token, t);
      if u in s.tokens { assert TokenOk(s, u) && Linked(s, t, u) && Linked(s, r.token, u) && Linked(s, u, r.token); }
    } else if u in s.tokens {
      assert TokenOk(s, u);
    }
  }

  lemma RotateKeepsInv(s: Store, r: RotateRequest, env: Env)
    requires Inv(s) && s.tokens.Keys <= s.origin.Keys
    ensures Inv(RotateTxn(s, r, env).0)
  {
    var (s', o) := RotateTxn(s, r, env);
    if o.Granted? {
      forall t | t in s'.tokens ensures TokenOk(s', t) {
        assert TokenOk(s, r.token);
        if t in s.tokens { assert TokenOk(s, t); }
      }
      forall t, u | t in s'.tokens && u in s'.tokens ensures Linked(s', t, u) {
        RotateKeepsLinks(s, r, env, t, u);
      }
    }
  }

  /** A store that differs only in what is revoked. */
  predicate RevokedMore(s: Store, s': Store) {
    && s'.codes == s.codes && s'.nextId == s.nextId && s'.origin == s.origin && s'.tokens.Keys == s.tokens.Keys
    && forall t :: t in s.tokens ==>
         && s'.tokens[t] == s.tokens[t].(revokedAt := s'.tokens[t].revokedAt)
         && (s.tokens[t].revokedAt.Some? ==> s'.tokens[t].revokedAt.Some?)
  }

  lemma RevocationKeepsInv(s: Store, s': Store)
    requires Inv(s) && RevokedMore(s, s')
    ensures Inv(s')
  {
    forall t | t in s'.tokens ensures TokenOk(s', t) { assert TokenOk(s, t); }
    forall t, u | t in s'.tokens && u in s'.tokens ensures Linked(s', t, u) { assert Linked(s, t, u); }
  }

  lemma IssueKeepsInv(s: Store, id: CodeId, code: Code)
    requires Inv(s) && id !in s.codes
    ensures Inv(s.(codes := s.codes[id := code]))
  {
    var s' := s.(codes := s.codes[id := code]);
    forall t | t in s'.tokens ensures TokenOk(s', t) { assert TokenOk(s, t); }
    forall t, u | t in s'.tokens && u in s'.tokens ensures Linked(s', t, u) { assert Linked(s, t, u); }
  }

  lemma StepKeepsInv(s: Sys, step: Step, env: Env)
    requires Inv(s.store) && Enabled(s, step)
    ensures Inv(Next(s, step, env).store)
  {
    var s' := Next(s, step, env).store;
    match step
    case IssueCode(id, code) => IssueKeepsInv(s.store, id, code);
    case Exchange(r) => ExchangeKeepsInv(s.store, r, env);
    case Rotate(r) => RotateKeepsInv(s.store, r, env);
    case _ => RevocationKeepsInv(s.store, s');
  }

  lemma {:induction false} RunKeepsInv(s: Sys, steps: seq<Step>, env: Env)
    requires Inv(s.store) && Runs(s, steps, env)
    ensures Inv(After(s, steps, env).store)
    decreases |steps|
  {
    if steps != [] {
      StepKeepsInv(s, steps[0], env);
      RunKeepsInv(Next(s, steps[0], env), steps[1..], env);
    }
  }

  /** Following `rotated_to` from `t` arrives at `u`. */
  predicate Reaches(s: Store, t: TokenId, u: TokenId)
    requires Inv(s)
    decreases s.nextId - t.n
  {
    || t == u
    || (t in s.tokens && s.tokens[t].rotatedTo.Some? && TokenOk(s, t) && t.n < s.nextId
        && t.n < s.tokens[t].rotatedTo.value.n
        && Reaches(s, s.tokens[t].rotatedTo.value, u))
  }

  predicate RefreshOf(s: Store, t: TokenId, code: CodeId) {
    t in s.tokens && s.tokens[t].kind.Refresh? && t in s.origin && s.origin[t] == code
  }

  predicate LiveRefreshOf(s: Store, t: TokenId, code: CodeId) {
    RefreshOf(s, t, code) && s.tokens[t].revokedAt.None?
  }

  lemma {:induction false} ChainReaches(s: Store, code: CodeId, t: TokenId, u: TokenId)
    requires Inv(s) && RefreshOf(s, t, code) && RefreshOf(s, u, code) && t.n <= u.n
    ensures Reaches(s, t, u)
    decreases u.n - t.n
  {
    assert TokenOk(s, t) && TokenOk(s, u);
    if t != u {
      assert Linked(s, t, u);
      var next := s.tokens[t].rotatedTo.value;
      ChainReaches(s, code, next, u);
    }
  }

  /**
   In every run, the refresh tokens of one code form a single chain without
   cycles: any two are joined by `rotated_to`, ids only grow along it, at most
   the last is unrevoked, and all keep the code's client, account, audience
   and scope.
   */
  lemma OneChainPerCode(steps: seq<Step>, env: Env, code: CodeId)
    requires Runs(START, steps, env)
    ensures var s := After(START, steps, env).store;
            && Inv(s)
            && (forall t, u :: RefreshOf(s, t, code) && RefreshOf(s, u, code) ==> Reaches(s, t, u) || Reaches(s, u, t))
            && (forall t, u :: LiveRefreshOf(s, t, code) && LiveRefreshOf(s, u, code) ==> t == u)
            && (forall t :: t in s.tokens && s.tokens[t].rotatedTo.Some? ==> t.n < s.tokens[t].rotatedTo.value.n)
            && (forall t :: t in s.tokens && s.origin[t] == code ==>
                  && code in s.codes && s.tokens[t].family == s.codes[code].family
                  && s.tokens[t].resource == s.codes[code].resource && s.tokens[t].scope == s.codes[code].scope)
  {
    RunKeepsInv(START, steps, env);
    var s := After(START, steps, env).store;
    forall t, u | RefreshOf(s, t, code) && RefreshOf(s, u, code) ensures Reaches(s, t, u) || Reaches(s, u, t) {
      if t.n <= u.n { ChainReaches(s, code, t, u); } else { ChainReaches(s, code, u, t); }
    }
    forall t, u | LiveRefreshOf(s, t, code) && LiveRefreshOf(s, u, code) ensures t == u {
      assert TokenOk(s, t) && TokenOk(s, u) && Linked(s, t, u) && Linked(s, u, t);
    }
    forall t | t in s.tokens
      ensures s.tokens[t].rotatedTo.Some? ==> t.n < s.tokens[t].rotatedTo.value.n
      ensures t in s.origin && s.origin[t] in s.codes && s.tokens[t].family == s.codes[s.origin[t]].family
      ensures s.tokens[t].resource == s.codes[s.origin[t]].resource && s.tokens[t].scope == s.codes[s.origin[t]].scope
    {
      assert TokenOk(s, t);
    }
  }

  // ---- what later steps cannot undo ---------------------------------------------

  /** Everything a token is issued with; only revocation and rotation come later. */
  predicate SameGrant(a: Token, b: Token) {
    b == a.(revokedAt := b.revokedAt, rotatedTo := b.rotatedTo)
  }

  /** Codes stay used, tokens stay revoked and rotated, and nothing changes hands. */
  predicate Persists(s: Store, s': Store) {
    && (forall c :: c in s.codes ==>
          c in s'.codes && s'.codes[c].family == s.codes[c].family
          && (s.codes[c].usedAt.Some? ==> s'.codes[c] == s.codes[c]))
    && (forall t :: t in s.tokens ==>
          && t in s'.tokens && SameGrant(s.tokens[t], s'.tokens[t])
          && (s.tokens[t].revokedAt.Some? ==> s'.tokens[t] == s.tokens[t])
          && t in s.origin && t in s'.origin && s'.origin[t] == s.origin[t])
  }

  lemma PersistsTransitively(s: Store, m: Store, s': Store)
    requires Persists(s, m) && Persists(m, s')
    ensures Persists(s, s')
  {}

  lemma MintPersists(s: Store, family: Family, resource: Option<string>, scope: Option<string>, from: CodeId,
      now: int, env: Env)
    requires forall t :: t in s.tokens ==> t.n < s.nextId && t in s.origin
    ensures Persists(s, Minted(s, family, resource, scope, from, now, env))
  {}

  lemma ExchangePersists(s: Store, r: ExchangeRequest, env: Env)
    requires Inv(s)
    ensures Persists(s, ExchangeTxn(s, r, env).0)
  {
    forall t | t in s.tokens ensures t.n < s.nextId && t in s.origin { assert TokenOk(s, t); }
    if ExchangeTxn(s, r, env).1.Granted? {
      var row := s.codes[r.code];
      var used := s.(codes := s.codes[r.code := row.(usedAt := Some(r.now))]);
      MintPersists(used, row.family, row.resource, row.scope, r.code, r.now, env);
      PersistsTransitively(s, used, ExchangeTxn(s, r, env).0);
    }
  }

  lemma RotatePersists(s: Store, r: RotateRequest, env: Env)
    requires Inv(s) && s.tokens.Keys <= s.origin.Keys
    ensures Persists(s, RotateTxn(s, r, env).0)
  {
    forall t | t in s.tokens ensures t.n < s.nextId && t in s.origin { assert TokenOk(s, t); }
    if RotateTxn(s, r, env).1.Granted? {
      var row := s.tokens[r.token];
      var minted := Minted(s, row.family, row.resource, row.scope, s.origin[r.token], r.now, env);
      MintPersists(s, row.family, row.resource, row.scope, s.origin[r.token], r.now, env);
      PersistsTransitively(s, minted, RotateTxn(s, r, env).0);
    }
  }

  lemma RevocationPersists(s: Store, s': Store)
    requires Inv(s) && RevokedMore(s, s')
    requires forall t :: t in s.tokens && s.tokens[t].revokedAt.Some? ==> s'.tokens[t] == s.tokens[t]
    ensures Persists(s, s')
  {
    forall t | t in s.tokens ensures t in s.origin { assert TokenOk(s, t); }
  }

  lemma StepPersists(s: Sys, step: Step, env: Env)
    requires Inv(s.store) && Enabled(s, step)
    ensures Persists(s.store, Next(s, step, env).store)
  {
    match step
    case IssueCode(id, code) =>
      forall t | t in s.store.tokens ensures t in s.store.origin { assert TokenOk(s.store, t); }
    case Exchange(r) => ExchangePersists(s.store, r, env);
    case Rotate(r) => RotatePersists(s.store, r, env);
    case SetActive(_, _) =>
      forall t | t in s.store.tokens ensures t in s.store.origin { assert TokenOk(s.store, t); }
    case _ => RevocationPersists(s.store, Next(s, step, env).store);
  }

  lemma SelfPersists(s: Store)
    requires Inv(s)
    ensures Persists(s, s)
  {
    forall t | t in s.tokens ensures t in s.origin { assert TokenOk(s, t); }
  }

  lemma {:induction false} RunPersists(s: Sys, steps: seq<Step>, env: Env)
    requires Inv(s.store) && Runs(s, steps, env)
    ensures Persists(s.store, After(s, steps, env).store)
    decreases |steps|
  {
    if steps == [] {
      SelfPersists(s.store);
    } else {
      var s' := Next(s, steps[0], env);
      StepKeepsInv(s, steps[0], env);
      StepPersists(s, steps[0], env);
      RunPersists(s', steps[1..], env);
      PersistsTransitively(s.store, s'.store, After(s', steps[1..], env).store);
    }
  }

  /** How many of the steps exchanged the code for a token pair. */
  function Exchanges(s: Sys, steps: seq<Step>, code: CodeId, env: Env): nat
    requires Runs(s, steps, env)
    decreases |steps|
  {
    if steps == [] then 0
    else
      (if steps[0].Exchange? && steps[0].exchange.code == code
        && ExchangeTxn(s.store, steps[0].exchange, env).1.Granted?
       then 1 else 0)
      + Exchanges(Next(s, steps[0], env), steps[1..], code, env)
  }

  /** A code yields at most one token pair, and none once it is used. */
  lemma {:induction false} CodesAreSingleUse(s: Sys, steps: seq<Step>, code: CodeId, env: Env)
    requires Inv(s.store) && Runs(s, steps, env)
    ensures Exchanges(s, steps, code, env) <= 1
    ensures code in s.store.codes && s.store.codes[code].usedAt.Some? ==> Exchanges(s, steps, code, env) == 0
    decreases |steps|
  {
    if steps != [] {
      StepKeepsInv(s, steps[0], env);
      StepPersists(s, steps[0], env);
      CodesAreSingleUse(Next(s, steps[0], env), steps[1..], code, env);
    }
  }

  predicate UsedBy(s: Store, e: ExchangeRequest) {
    e.code in s.codes && s.codes[e.code].usedAt.Some? && s.codes[e.code].family.client == e.client
  }

  predicate RotatedBy(s: Store, r: RotateRequest) {
    r.token in s.tokens && s.tokens[r.token].rotatedTo.Some? && s.tokens[r.token].family.client == r.client
  }

  /** Presented again by its client at any later time, a used code or rotated token is recognised as a replay. */
  lemma ReplaysAreRecognised(s: Sys, steps: seq<Step>, e: ExchangeRequest, r: RotateRequest, env: Env)
    requires Inv(s.store) && Runs(s, steps, env)
    ensures var s' := After(s, steps, env).store;
            && s'.tokens.Keys <= s'.origin.Keys
            && (UsedBy(s.store, e) ==> ExchangeTxn(s', e, env).1 == Reuse(s.store.codes[e.code].family))
            && (RotatedBy(s.store, r) ==> RotateTxn(s', r, env).1 == Reuse(s.store.tokens[r.token].family))
  {
    RunKeepsInv(s, steps, env);
    RunPersists(s, steps, env);
    var s' := After(s, steps, env).store;
    forall t | t in s'.tokens ensures t in s'.origin { assert TokenOk(s', t); }
    if r.token in s.store.tokens { assert TokenOk(s.store, r.token); }
  }

  /** A grant of either kind: the pair it gave out, and when. */
  predicate Grants(s: Sys, step: Step, env: Env, access: TokenId, refresh: TokenId, at: int) {
    match step
    case Exchange(r) => ExchangeTxn(s.store, r, env).1 == Granted(access, refresh) && r.now == at
    case Rotate(r) =>
      s.store.tokens.Keys <= s.store.origin.Keys && RotateTxn(s.store, r, env).1 == Granted(access, refresh)
        && r.now == at
    case _ => false
  }

  lemma GrantLifetimes(s: Sys, step: Step, env: Env, access: TokenId, refresh: TokenId, at: int)
    requires Inv(s.store) && Enabled(s, step) && Grants(s, step, env, access, refresh, at)
    ensures var tokens := Next(s, step, env).store.tokens;
            && access in tokens && tokens[access].kind == Access && tokens[access].expiresAt == at + env.accessTtl
            && refresh in tokens && tokens[refresh].kind == Refresh && tokens[refresh].expiresAt == at + env.refreshTtl
            && tokens[access].family == tokens[refresh].family
  {
    forall t | t in s.store.tokens ensures t.n < s.store.nextId { assert TokenOk(s.store, t); }
    match step
    case Exchange(r) => ExchangeGrants(s.store, r, env);
    case Rotate(r) => RotateGrants(s.store, r, env);
  }

  /** The grant's columns are what they were whenever the tokens are looked at later. */
  lemma LifetimesStay(s: Sys, steps: seq<Step>, t: TokenId, env: Env)
    requires Inv(s.store) && Runs(s, steps, env) && t in s.store.tokens
    ensures var end := After(s, steps, env).store;
            && Inv(end) && end.tokens.Keys <= end.origin.Keys && t in end.tokens
            && SameGrant(s.store.tokens[t], end.tokens[t])
  {
    RunKeepsInv(s, steps, env);
    RunPersists(s, steps, env);
    var end := After(s, steps, env).store;
    forall u | u in end.tokens ensures u in end.origin { assert TokenOk(end, u); }
  }

  /**
   A refresh token that was neither revoked nor rotated, presented by its own
   client for its own audience while the account is active, is good exactly
   until `refreshTtl` after the request that gave it out; its access token was
   given `accessTtl`.
   */
  lemma RefreshTokenLasts(before: seq<Step>, grant: Step, access: TokenId, refresh: TokenId, at: int, later: seq<Step>,
      r: RotateRequest, env: Env)
    requires Runs(START, before, env) && Enabled(After(START, before, env), grant)
    requires Grants(After(START, before, env), grant, env, access, refresh, at)
    requires Runs(Next(After(START, before, env), grant, env), later, env)
    ensures var end := After(Next(After(START, before, env), grant, env), later, env).store;
            && end.tokens.Keys <= end.origin.Keys && access in end.tokens && refresh in end.tokens
            && end.tokens[access].kind == Access && end.tokens[access].expiresAt == at + env.accessTtl
            && var token := end.tokens[refresh];
            (r.token == refresh && r.client == token.family.client && token.revokedAt.None? && token.rotatedTo.None?
             && AudienceKept(r.resource, token.resource, env) && token.family.account in end.active) ==>
              (RotateTxn(end, r, env).1.Granted? <==> r.now <= at + env.refreshTtl)
  {
    var s := After(START, before, env);
    RunKeepsInv(START, before, env);
    GrantLifetimes(s, grant, env, access, refresh, at);
    StepKeepsInv(s, grant, env);
    var s' := Next(s, grant, env);
    LifetimesStay(s', later, access, env);
    LifetimesStay(s', later, refresh, env);
    var end := After(s', later, env).store;
    forall t | t in end.tokens ensures t.n < end.nextId { assert TokenOk(end, t); }
    RotateGrants(end, r, env);
  }

  /** A code no token of which can be used or renewed any more. */
  predicate Exhausted(s: Store, code: CodeId) {
    && code in s.codes && s.codes[code].usedAt.Some?
    && forall t :: t in s.tokens && t in s.origin && s.origin[t] == code ==> s.tokens[t].revokedAt.Some?
  }

  predicate NoNewToken(s: Store, s': Store, code: CodeId) {
    forall t :: t in s'.tokens && t in s'.origin && s'.origin[t] == code ==>
      t in s.tokens && t in s.origin && s.origin[t] == code
  }

  /** The pair a grant mints descends from the code it is minted for, and no other token is new. */
  lemma MintedFrom(s: Store, family: Family, resource: Option<string>, scope: Option<string>, from: CodeId, now: int,
      env: Env, code: CodeId)
    requires from != code
    ensures NoNewToken(s, Minted(s, family, resource, scope, from, now, env), code)
  {}

  lemma ExchangeGivesNone(s: Store, r: ExchangeRequest, code: CodeId, env: Env)
    requires Exhausted(s, code)
    ensures NoNewToken(s, ExchangeTxn(s, r, env).0, code)
  {
    if ExchangeTxn(s, r, env).1.Granted? {
      var row := s.codes[r.code];
      var used := s.(codes := s.codes[r.code := row.(usedAt := Some(r.now))]);
      MintedFrom(used, row.family, row.resource, row.scope, r.code, r.now, env, code);
    }
  }

  lemma RotateGivesNone(s: Store, r: RotateRequest, code: CodeId, env: Env)
    requires Inv(s) && Exhausted(s, code) && s.tokens.Keys <= s.origin.Keys
    ensures NoNewToken(s, RotateTxn(s, r, env).0, code)
  {
    if RotateTxn(s, r, env).1.Granted? {
      var row := s.tokens[r.token];
      MintedFrom(s, row.family, row.resource, row.scope, s.origin[r.token], r.now, env, code);
    }
  }

  /** A step gives no new token to a code that has been used up. */
  lemma UsedCodeGetsNoToken(s: Sys, step: Step, code: CodeId, env: Env)
    requires Inv(s.store) && Enabled(s, step) && Exhausted(s.store, code)
    ensures NoNewToken(s.store, Next(s, step, env).store, code)
  {
    match step
    case Exchange(r) => ExchangeGivesNone(s.store, r, code, env);
    case Rotate(r) => RotateGivesNone(s.store, r, code, env);
    case _ =>
  }

  lemma ExhaustedStep(s: Sys, step: Step, code: CodeId, env: Env)
    requires Inv(s.store) && Enabled(s, step) && Exhausted(s.store, code)
    ensures Exhausted(Next(s, step, env).store, code)
  {
    StepPersists(s, step, env);
    UsedCodeGetsNoToken(s, step, code, env);
  }

  lemma {:induction false} ExhaustedRun(s: Sys, steps: seq<Step>, code: CodeId, env: Env)
    requires Inv(s.store) && Runs(s, steps, env) && Exhausted(s.store, code)
    ensures Exhausted(After(s, steps, env).store, code)
    decreases |steps|
  {
    if steps != [] {
      StepKeepsInv(s, steps[0], env);
      ExhaustedStep(s, steps[0], code, env);
      ExhaustedRun(Next(s, steps[0], env), steps[1..], code, env);
    }
  }

  /** A token nothing revoked, issued to this client for this account. */
  predicate LiveOf(s: Store, t: TokenId, family: Family) {
    t in s.tokens && s.tokens[t].family == family && s.tokens[t].revokedAt.None?
  }

  /**
   Once a replay has been answered, every token of that client and account is
   dead; whatever lives later is a new row, and descends from a code that had
   not been exchanged when the replay was answered.
   */
  lemma AnsweredReplayEndsTheFamily(before: seq<Step>, family: Family, now: int, later: seq<Step>, env: Env)
    requires Runs(START, before, env) && Enabled(After(START, before, env), AnswerReplay(family, now))
    requires Runs(Next(After(START, before, env), AnswerReplay(family, now), env), later, env)
    ensures var answered := Next(After(START, before, env), AnswerReplay(family, now), env);
            var end := After(answered, later, env).store;
            && (forall t :: !LiveOf(answered.store, t, family))
            && (forall t :: LiveOf(end, t, family) ==>
                  && t !in answered.store.tokens && t in end.origin
                  && (end.origin[t] in answered.store.codes ==> answered.store.codes[end.origin[t]].usedAt.None?))
  {
    var s := After(START, before, env);
    RunKeepsInv(START, before, env);
    var answered := Next(s, AnswerReplay(family, now), env);
    StepKeepsInv(s, AnswerReplay(family, now), env);
    RunKeepsInv(answered, later, env);
    RunPersists(answered, later, env);
    var end := After(answered, later, env).store;
    forall t | LiveOf(end, t, family)
      ensures t !in answered.store.tokens && t in end.origin
      ensures end.origin[t] in answered.store.codes ==> answered.store.codes[end.origin[t]].usedAt.None?
    {
      assert TokenOk(end, t);
      LaterTokenIsNew(answered, later, t, family, env);
    }
  }

  lemma LaterTokenIsNew(s: Sys, steps: seq<Step>, t: TokenId, family: Family, env: Env)
    requires Inv(s.store) && Runs(s, steps, env) && forall u :: !LiveOf(s.store, u, family)
    requires LiveOf(After(s, steps, env).store, t, family)
    ensures t !in s.store.tokens && t in After(s, steps, env).store.origin
    ensures var code := After(s, steps, env).store.origin[t];
            code in s.store.codes ==> s.store.codes[code].usedAt.None?
  {
    RunKeepsInv(s, steps, env);
    RunPersists(s, steps, env);
    var end := After(s, steps, env).store;
    assert TokenOk(end, t);
    var code := end.origin[t];
    if t in s.store.tokens {
      assert TokenOk(s.store, t);
      assert !LiveOf(s.store, t, family);
    }
    if code in s.store.codes && s.store.codes[code].usedAt.Some? {
      forall u | u in s.store.tokens && u in s.store.origin && s.store.origin[u] == code
        ensures s.store.tokens[u].revokedAt.Some?
      {
        assert TokenOk(s.store, u);
        assert !LiveOf(s.store, u, family);
      }
      ExhaustedRun(s, steps, code, env);
    }
  }
}
