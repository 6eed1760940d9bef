/// Refresh token rotation: signed tokens that expire, and a blacklist whose entries expire too.

module Tokens {
  import opened Options

  /** Times are in milliseconds; expiries and the lifetimes of cache entries are whole seconds. */
  const SECOND := 1000

  datatype Kind = Access | Refresh

  datatype Claims = Claims(kind: Kind, user: nat, expiresAt: int)

  /** The two lifetimes of tokens; the blacklist works when it has a cache. */
  datatype Config = Config(accessTTL: int, refreshTTL: int, enabled: bool)

  /** Tokens are named by their fresh ids; only those issued parse. A blacklist entry lives up to
      the time it is mapped to. `chain` maps each refresh token to the first one of its login;
      `accepted` and `out` record which refresh tokens were refreshed and logged out, and `again`
      those that were refreshed although they had been refreshed or logged out before. */
  datatype State = State(
    now: int, issued: map<nat, Claims>, next: nat, blacklist: map<nat, int>, users: map<nat, bool>,
    chain: map<nat, nat>, accepted: seq<nat>, out: set<nat>, again: set<nat>)

  datatype Error = BadCredentials | AccountDisabled | TokenInvalid | TokenBlacklisted | UserNotFound

  datatype Answer = Pair(access: nat, refresh: nat) | Err(error: Error)

  function Initial(now: int): State {
    State(now, map[], 0, map[], map[], map[], [], {}, {})
  }

  // ---------- tokens and the blacklist ----------

  function RefreshTTL(c: Config): int {
    if c.refreshTTL <= 0 then c.accessTTL * 7 else c.refreshTTL
  }

  /** The exp claim is cut to a whole second. */
  function Expiry(now: int, ttl: int): (r: int)
    ensures r % SECOND == 0 && now + ttl - SECOND < r <= now + ttl
  {
    now + ttl - (now + ttl) % SECOND
  }

  /** Parsing succeeds for an issued token of this kind before its expiry. */
  predicate Parses(s: State, token: nat, kind: Kind) {
    token in s.issued && s.now < s.issued[token].expiresAt && s.issued[token].kind == kind
  }

  predicate Blacklisted(s: State, token: nat) {
    token in s.blacklist && s.now < s.blacklist[token]
  }

  function RemainingTTL(now: int, claims: Claims): (r: int)
    ensures r > 0
  {
    if claims.expiresAt - now <= 0 then SECOND else claims.expiresAt - now
  }

  /** The cache cuts the lifetime of an entry to whole seconds, but not below one. */
  function EntryLife(ttl: int): int {
    if 0 < ttl < SECOND then SECOND else ttl - ttl % SECOND
  }

  function Blacklist(s: State, token: nat, claims: Claims): State {
    s.(blacklist := s.blacklist[token := s.now + EntryLife(RemainingTTL(s.now, claims))])
  }

  /** A new pair; the refresh token starts a chain or continues one. */
  function Issue(c: Config, s: State, user: nat, chain: Option<nat>): State {
    var access, refresh := s.next, s.next + 1;
    s.(issued := s.issued[access := Claims(Access, user, Expiry(s.now, c.accessTTL))]
                         [refresh := Claims(Refresh, user, Expiry(s.now, RefreshTTL(c)))],
       next := s.next + 2,
       chain := s.chain[refresh := if chain.Some? then chain.value else refresh])
  }

  // ---------- use cases ----------

  predicate Spent(s: State, token: nat) {
    token in s.accepted || token in s.out
  }

  function Login(c: Config, s: State, user: nat, passwordOk: bool): (State, Answer) {
    if user !in s.users then (s, Err(BadCredentials))
    else if !s.users[user] then (s, Err(AccountDisabled))
    else if !passwordOk then (s, Err(BadCredentials))
    else (Issue(c, s, user, None), Pair(s.next, s.next + 1))
  }

  function Accept(s: State, token: nat): State {
    s.(accepted := s.accepted + [token], again := if Spent(s, token) then s.again + {token} else s.again)
  }

  function RefreshToken(c: Config, s: State, token: nat): (State, Answer) {
    if !Parses(s, token, Refresh) then (s, Err(TokenInvalid))
    else if c.enabled && Blacklisted(s, token) then (s, Err(TokenBlacklisted))
    else
      var user := s.issued[token].user;
      if user !in s.users then (s, Err(UserNotFound))
      else if !s.users[user] then (s, Err(AccountDisabled))
      else
        var chain := if token in s.chain then Some(s.chain[token]) else None;
        var s' := Accept(Issue(c, s, user, chain), token);
        (if c.enabled then Blacklist(s', token, s.issued[token]) else s', Pair(s.next, s.next + 1))
  }

  function LogoutOne(s: State, token: Option<nat>, kind: Kind): State {
    if token.Some? && Parses(s, token.value, kind) then
      var s' := Blacklist(s, token.value, s.issued[token.value]);
      if kind.Refresh? then s'.(out := s.out + {token.value}) else s'
    else s
  }

  function Logout(c: Config, s: State, access: Option<nat>, refresh: Option<nat>): State {
    if !c.enabled then s else LogoutOne(LogoutOne(s, access, Access), refresh, Refresh)
  }

  datatype Op =
    | Register(user: nat)
    | SetActive(user: nat, active: bool)
    | SignIn(user: nat, passwordOk: bool)
    | Rotate(token: nat)
    | SignOut(access: Option<nat>, refresh: Option<nat>)
    | Wait(millis: nat)

  function Apply(c: Config, s: State, op: Op): State {
    match op
    case Register(user) => if user in s.users then s else Issue(c, s.(users := s.users[user := true]), user, None)
    case SetActive(user, active) => if user in s.users then s.(users := s.users[user := active]) else s
    case SignIn(user, passwordOk) => Login(c, s, user, passwordOk).0
    case Rotate(token) => RefreshToken(c, s, token).0
    case SignOut(access, refresh) => Logout(c, s, access, refresh)
    case Wait(millis) => s.(now := s.now + millis)
  }

  function Run(c: Config, s: State, ops: seq<Op>): State {
    if ops == [] then s else Apply(c, Run(c, s, ops[..|ops| - 1]), ops[|ops| - 1])
  }

  lemma RunMore(c: Config, s: State, ops: seq<Op>, op: Op)
    ensures Run(c, s, ops + [op]) == Apply(c, Run(c, s, ops), op)
  {
    assert (ops + [op])[..|ops|] == ops;
  }

  lemma RunOne(c: Config, s: State, op: Op)
    ensures Run(c, s, [op]) == Apply(c, s, op)
  {
    RunMore(c, s, [], op);
    assert [] + [op] == [op];
  }

  lemma RunTwo(c: Config, s: State, op: Op, next: Op)
    ensures Run(c, s, [op, next]) == Apply(c, Apply(c, s, op), next)
  {
    RunOne(c, s, op);
    RunMore(c, s, [op], next);
    assert [op] + [next] == [op, next];
  }

  lemma {:induction false} RunAppend(c: Config, s: State, a: seq<Op>, b: seq<Op>)
    ensures Run(c, s, a + b) == Run(c, Run(c, s, a), b)
    decreases |b|
  {
    hide Apply;
    if b == [] {
      assert a + b == a;
    } else {
      RunAppend(c, s, a, b[..|b| - 1]);
      assert (a + b)[..|a + b| - 1] == a + b[..|b| - 1];
    }
  }

  // ---------- the invariant ----------

  function LifeLeft(s: State, token: nat): int
    requires token in s.issued
  {
    s.issued[token].expiresAt - s.now
  }

  /** Tokens are issued to users and expire at whole seconds. */
  ghost predicate GoodTokens(s: State) {
    forall t :: t in s.issued ==> s.issued[t].expiresAt % SECOND == 0 && s.issued[t].user in s.users
  }

  ghost predicate IdsBelow(s: State) {
    && (forall t :: t in s.issued ==> t < s.next)
    && (forall t :: t in s.chain <==> t in s.issued && s.issued[t].kind == Refresh)
    && (forall t :: t in s.chain ==> s.chain[t] < s.next)
  }

  ghost predicate BarredUntilLast(s: State, t: nat) {
    && t in s.issued && s.issued[t].kind == Refresh
    && t in s.blacklist && s.blacklist[t] > s.issued[t].expiresAt - SECOND
  }

  /** A refresh token that was spent is on the blacklist up to some time in its last second; one
      that was not is not on it. */
  ghost predicate SpentIsBarred(s: State) {
    && (forall t :: Spent(s, t) ==> BarredUntilLast(s, t))
    && (forall t :: t in s.blacklist ==> t in s.issued && (s.issued[t].kind == Refresh ==> Spent(s, t)))
  }

  /** The entry of a token lives at least as long as the token. */
  predicate Covered(s: State, t: nat) {
    t in s.issued && (LifeLeft(s, t) <= 0 || (t in s.blacklist && s.blacklist[t] >= s.issued[t].expiresAt))
  }

  ghost predicate AgainIsLast(s: State) {
    forall t :: t in s.again ==> Spent(s, t) && Covered(s, t) && LifeLeft(s, t) < SECOND
  }

  ghost predicate AcceptedBound(s: State) {
    forall t :: multiset(s.accepted)[t] <= if t in s.again then 2 else 1
  }

  ghost predicate Replayed(s: State, login: nat) {
    exists t :: t in s.again && t in s.chain && s.chain[t] == login
  }

  /** A chain has at most one refresh token that was not spent, unless one was accepted again. */
  ghost predicate OneHead(s: State) {
    forall t, u :: t in s.chain && u in s.chain && s.chain[t] == s.chain[u] && !Spent(s, t) && !Spent(s, u) ==>
      t == u || Replayed(s, s.chain[t])
  }

  ghost predicate Inv(s: State) {
    GoodTokens(s) && IdsBelow(s) && SpentIsBarred(s) && AgainIsLast(s) && AcceptedBound(s) && OneHead(s)
  }

  predicate Usable(c: Config, s: State, token: nat) {
    RefreshToken(c, s, token).1.Pair?
  }

  /** With the blacklist at work, a refresh token is accepted exactly when it was issued, has not
      expired, its user is active, and it was never refreshed or logged out, or the entry made
      then is over; and that happens in the last second of its life only. */
  lemma AcceptedIff(c: Config, s: State, token: nat)
    requires c.enabled && Inv(s)
    ensures Usable(c, s, token) <==>
              && Parses(s, token, Refresh) && s.users[s.issued[token].user]
              && (Spent(s, token) ==> s.blacklist[token] <= s.now)
    ensures Usable(c, s, token) && Spent(s, token) ==>
      !Covered(s, token) && LifeLeft(s, token) < SECOND && token !in s.again
  {
    assert Spent(s, token) ==> BarredUntilLast(s, token);
  }

  // ---------- every step keeps it ----------

  lemma IssueKeepsRest(c: Config, s: State, user: nat, chain: Option<nat>)
    requires Inv(s) && user in s.users && (chain.Some? ==> chain.value < s.next)
    ensures var s' := Issue(c, s, user, chain);
      && GoodTokens(s') && IdsBelow(s') && SpentIsBarred(s') && AgainIsLast(s') && AcceptedBound(s')
      && (forall t :: Spent(s', t) <==> Spent(s, t))
  {
    IssueKeepsIds(c, s, user, chain);
    hide Expiry, Replayed, Covered, GoodTokens, IdsBelow;
    var s' := Issue(c, s, user, chain);
    assert s'.accepted == s.accepted && s'.out == s.out && s'.again == s.again;
    assert forall t :: Spent(s', t) <==> Spent(s, t);
    IssueKeepsBarred(s, s');
    hide SpentIsBarred, AgainIsLast, Spent;
  }

  lemma IssueKeepsIds(c: Config, s: State, user: nat, chain: Option<nat>)
    requires GoodTokens(s) && IdsBelow(s) && user in s.users && (chain.Some? ==> chain.value < s.next)
    ensures var s' := Issue(c, s, user, chain);
      && GoodTokens(s') && IdsBelow(s')
      && forall t :: t in s.issued ==> t in s'.issued && s'.issued[t] == s.issued[t]
  {}

  lemma IssueKeepsBarred(s: State, s': State)
    requires SpentIsBarred(s) && AgainIsLast(s)
    requires s'.now == s.now && s'.blacklist == s.blacklist && s'.again == s.again
    requires forall t :: t in s.issued ==> t in s'.issued && s'.issued[t] == s.issued[t]
    requires forall t :: Spent(s', t) <==> Spent(s, t)
    ensures SpentIsBarred(s') && AgainIsLast(s')
  {
    hide Spent;
    forall t | Spent(s', t) ensures BarredUntilLast(s', t) {
      assert BarredUntilLast(s, t);
    }
  }

  lemma IssueKeepsInv(c: Config, s: State, user: nat)
    requires Inv(s) && user in s.users
    ensures Inv(Issue(c, s, user, None))
  {
    var s' := Issue(c, s, user, None);
    IssueKeepsRest(c, s, user, None);
    assert forall t :: t in s.again ==> t in s'.again && (t in s.chain ==> s'.chain[t] == s.chain[t]);
    assert forall login :: Replayed(s, login) ==> Replayed(s', login);
    assert forall t :: t in s'.chain && t !in s.chain ==> t == s.next + 1 && s'.chain[t] == s.next + 1;
    hide Issue, SpentIsBarred, AcceptedBound, GoodTokens, AgainIsLast, Replayed, Spent;
  }

  lemma EntryReachesLast(now: int, claims: Claims)
    requires now < claims.expiresAt && claims.expiresAt % SECOND == 0
    ensures var rem := claims.expiresAt - now;
      var end := now + EntryLife(RemainingTTL(now, claims));
      && end > claims.expiresAt - SECOND
      && (end >= claims.expiresAt <==> rem < SECOND || rem % SECOND == 0)
      && (rem >= SECOND ==> end == claims.expiresAt - rem % SECOND)
  {}

  function Spend(s: State, token: nat, claims: Claims): State {
    Blacklist(Accept(s, token), token, claims)
  }

  lemma SpendKeepsBarred(s: State, token: nat)
    requires GoodTokens(s) && IdsBelow(s) && SpentIsBarred(s) && AgainIsLast(s) && Parses(s, token, Refresh)
    requires Spent(s, token) ==> LifeLeft(s, token) < SECOND
    ensures var s' := Spend(s, token, s.issued[token]);
      && GoodTokens(s') && IdsBelow(s') && SpentIsBarred(s') && AgainIsLast(s')
      && forall t :: Spent(s', t) <==> Spent(s, t) || t == token
  {
    var s' := Spend(s, token, s.issued[token]);
    assert forall t :: Spent(s', t) <==> Spent(s, t) || t == token;
    EntryReachesLast(s.now, s.issued[token]);
    hide EntryLife, RemainingTTL;
    forall t | Spent(s', t) ensures BarredUntilLast(s', t) {
      assert t != token ==> BarredUntilLast(s, t);
    }
  }

  lemma SpendKeepsBound(s: State, token: nat)
    requires AcceptedBound(s) && token in s.issued && token !in s.again
    ensures AcceptedBound(Spend(s, token, s.issued[token]))
  {
    hide EntryLife, RemainingTTL;
    var s' := Spend(s, token, s.issued[token]);
    assert multiset(s'.accepted) == multiset(s.accepted) + multiset{token};
    assert !Spent(s, token) ==> token !in multiset(s.accepted);
  }

  /** The pair that a refresh hands out continues the chain of the token that it spends. */
  lemma RotateKeepsHead(c: Config, s: State, token: nat)
    requires Inv(s) && Parses(s, token, Refresh)
    ensures var s1 := Issue(c, s, s.issued[token].user, Some(s.chain[token]));
      OneHead(Spend(s1, token, s.issued[token]))
  {
    hide EntryLife, RemainingTTL, SpentIsBarred, AcceptedBound, GoodTokens, AgainIsLast;
    var s1 := Issue(c, s, s.issued[token].user, Some(s.chain[token]));
    var s' := Spend(s1, token, s.issued[token]);
    assert forall t :: Spent(s', t) <==> Spent(s, t) || t == token;
    assert forall t :: t in s.chain ==> t in s'.chain && s'.chain[t] == s.chain[t];
    assert Spent(s, token) ==> token in s'.again;
    forall t, u | t in s'.chain && u in s'.chain && s'.chain[t] == s'.chain[u] && !Spent(s', t) && !Spent(s', u)
      ensures t == u || Replayed(s', s'.chain[t])
    {
      HeadAfterRotate(s, s', token, t, u);
    }
  }

  lemma HeadAfterRotate(s: State, s': State, token: nat, t: nat, u: nat)
    requires OneHead(s) && token in s.chain && s'.chain == s.chain[s.next + 1 := s.chain[token]]
    requires forall v :: v in s.chain ==> v < s.next
    requires (forall v :: Spent(s', v) <==> Spent(s, v) || v == token) && s.again <= s'.again
    requires Spent(s, token) ==> token in s'.again
    requires t in s'.chain && u in s'.chain && s'.chain[t] == s'.chain[u] && !Spent(s', t) && !Spent(s', u)
    ensures t == u || Replayed(s', s'.chain[t])
  {
    hide Spent;
    if Spent(s, token) && s'.chain[t] == s.chain[token] {
      assert token in s'.again && s'.chain[token] == s'.chain[t];
    } else {
      assert Replayed(s, s'.chain[t]) ==> Replayed(s', s'.chain[t]) by {
        if Replayed(s, s'.chain[t]) {
          var v: nat :| v in s.again && v in s.chain && s.chain[v] == s'.chain[t];
          assert v in s'.again && s'.chain[v] == s'.chain[t];
        }
      }
    }
  }

  lemma RotateKeepsInv(c: Config, s: State, token: nat)
    requires c.enabled && Inv(s) && Usable(c, s, token)
    ensures Inv(RefreshToken(c, s, token).0)
  {
    AcceptedIff(c, s, token);
    var s1 := Issue(c, s, s.issued[token].user, Some(s.chain[token]));
    IssueKeepsRest(c, s, s.issued[token].user, Some(s.chain[token]));
    assert s1.issued[token] == s.issued[token];
    SpendKeepsBarred(s1, token);
    SpendKeepsBound(s1, token);
    RotateKeepsHead(c, s, token);
    assert RefreshToken(c, s, token).0 == Spend(s1, token, s.issued[token]);
    hide SpentIsBarred, AcceptedBound, GoodTokens, AgainIsLast, OneHead, Spent, Spend;
  }

  lemma LogoutOneKeepsInv(s: State, token: Option<nat>, kind: Kind)
    requires Inv(s)
    ensures Inv(LogoutOne(s, token, kind))
  {
    var s' := LogoutOne(s, token, kind);
    if s' != s {
      EntryReachesLast(s.now, s.issued[token.value]);
      hide EntryLife, RemainingTTL;
      assert forall t :: Spent(s', t) <==> Spent(s, t) || (kind.Refresh? && t == token.value);
      LogoutKeepsBarred(s, s', token.value, kind, s'.blacklist[token.value]);
      assert forall login :: Replayed(s', login) <==> Replayed(s, login);
      hide SpentIsBarred, AgainIsLast, Replayed, Spent, Parses, Covered;
    }
  }

  lemma LogoutKeepsBarred(s: State, s': State, token: nat, kind: Kind, end: int)
    requires SpentIsBarred(s) && AgainIsLast(s) && Parses(s, token, kind)
    requires s'.blacklist == s.blacklist[token := end] && end > s.issued[token].expiresAt - SECOND
    requires LifeLeft(s, token) < SECOND ==> end >= s.issued[token].expiresAt
    requires s' == s.(blacklist := s'.blacklist, out := s'.out)
    requires forall t :: Spent(s', t) <==> Spent(s, t) || (kind.Refresh? && t == token)
    ensures SpentIsBarred(s') && AgainIsLast(s')
  {
    hide Spent;
    forall t | Spent(s', t) ensures BarredUntilLast(s', t) {
      assert Spent(s, t) ==> BarredUntilLast(s, t);
    }
  }

  lemma SameTokensKeepInv(s: State, s': State)
    requires Inv(s) && s' == s.(now := s'.now, users := s'.users) && s.now <= s'.now && s.users.Keys <= s'.users.Keys
    ensures Inv(s')
  {
    assert forall t :: Spent(s', t) <==> Spent(s, t);
    forall t | Spent(s', t) ensures BarredUntilLast(s', t) {
      assert BarredUntilLast(s, t);
    }
    assert forall login :: Replayed(s', login) <==> Replayed(s, login);
    hide Spent, Replayed, BarredUntilLast;
  }

  lemma StepKeepsInv(c: Config, s: State, op: Op)
    requires c.enabled && Inv(s)
    ensures Inv(Apply(c, s, op))
  {
    hide Inv;
    match op
    case Rotate(token) =>
      if Usable(c, s, token) {
        RotateKeepsInv(c, s, token);
      }
    case SignIn(user, passwordOk) =>
      if user in s.users {
        IssueKeepsInv(c, s, user);
      }
    case Register(user) =>
      SameTokensKeepInv(s, s.(users := s.users[user := true]));
      IssueKeepsInv(c, s.(users := s.users[user := true]), user);
    case SignOut(access, refresh) =>
      LogoutOneKeepsInv(s, access, Access);
      LogoutOneKeepsInv(LogoutOne(s, access, Access), refresh, Refresh);
    case _ => SameTokensKeepInv(s, Apply(c, s, op));
  }

  lemma {:induction false} RunKeepsInv(c: Config, s: State, ops: seq<Op>)
    requires c.enabled && Inv(s)
    ensures Inv(Run(c, s, ops))
    decreases |ops|
  {
    hide Inv, Apply;
    if ops == [] {
    } else {
      RunKeepsInv(c, s, ops[..|ops| - 1]);
      StepKeepsInv(c, Run(c, s, ops[..|ops| - 1]), ops[|ops| - 1]);
    }
  }

  lemma RunFromStart(c: Config, now: int, ops: seq<Op>)
    requires c.enabled
    ensures Inv(Run(c, Initial(now), ops))
  {
    RunKeepsInv(c, Initial(now), ops);
  }

  lemma StepKeepsSpent(c: Config, s: State, op: Op, token: nat)
    requires Spent(s, token)
    ensures Spent(Apply(c, s, op), token)
  {
    hide EntryLife, RemainingTTL, Expiry;
  }

  lemma {:induction false} SpentForGood(c: Config, s: State, ops: seq<Op>, token: nat)
    requires Spent(s, token)
    ensures Spent(Run(c, s, ops), token)
    decreases |ops|
  {
    hide Spent, Apply;
    if ops == [] {
    } else {
      SpentForGood(c, s, ops[..|ops| - 1], token);
      StepKeepsSpent(c, Run(c, s, ops[..|ops| - 1]), ops[|ops| - 1], token);
    }
  }

  // ---------- the laws ----------

  predicate SameLogin(s: State, t: nat, u: nat) {
    t in s.chain && u in s.chain && s.chain[t] == s.chain[u]
  }

  /** A token that is refreshed counts as spent, and the pair that is handed out has a refresh
      token of the same login, usable if it lives at all. */
  lemma Spending(c: Config, s: State, token: nat)
    requires c.enabled && Inv(s) && Usable(c, s, token)
    ensures var r := RefreshToken(c, s, token);
      && Spent(r.0, token) && SameLogin(r.0, r.1.refresh, token)
      && (Usable(c, r.0, r.1.refresh) <==> s.now < Expiry(s.now, RefreshTTL(c)))
  {
    assert s.next + 1 !in s.issued && s.next + 1 !in s.blacklist && s.next != token && s.next + 1 != token;
    assert token in s.chain;
    hide Inv, EntryLife, RemainingTTL, Expiry, Parses, Blacklisted;
    var s' := RefreshToken(c, s, token).0;
    NewTokenIsUsable(c, s', s.next + 1);
  }

  lemma NewTokenIsUsable(c: Config, s: State, t: nat)
    requires t in s.issued && s.issued[t].kind == Refresh && t !in s.blacklist
    requires s.issued[t].user in s.users && s.users[s.issued[t].user]
    ensures Usable(c, s, t) <==> s.now < s.issued[t].expiresAt
  {
    hide EntryLife, RemainingTTL, Expiry;
  }

  /** So does a token that is logged out before it expires. */
  lemma LogoutSpends(c: Config, s: State, token: nat, access: Option<nat>)
    requires c.enabled && Parses(s, token, Refresh)
    ensures Spent(Logout(c, s, access, Some(token)), token)
  {
    hide EntryLife, RemainingTTL;
    assert Parses(LogoutOne(s, access, Access), token, Refresh);
  }

  /** The token is not in its last second. */
  predicate Lasting(s: State, t: nat) {
    t in s.issued && LifeLeft(s, t) >= SECOND
  }

  /** With the blacklist at work, over every run: a token once refreshed or logged out is refused
      in every later state but for its last second, and there it is accepted at most once more, so
      no token is accepted three times; and of the refresh tokens of one login at most one is
      usable for a second or longer, unless one of them was accepted after it was spent. */
  lemma EveryRun(c: Config, now: int, ops: seq<Op>, more: seq<Op>, t: nat, u: nat)
    requires c.enabled
    ensures var s, later := Run(c, Initial(now), ops), Run(c, Run(c, Initial(now), ops), more);
      && (Spent(s, t) && Usable(c, later, t) ==> !Lasting(later, t) && t !in later.again)
      && (multiset(s.accepted)[t] <= if t in s.again then 2 else 1)
      && (SameLogin(s, t, u) && Usable(c, s, t) && Lasting(s, t) && Usable(c, s, u) && Lasting(s, u) ==>
            t == u || Replayed(s, s.chain[t]))
  {
    var s := Run(c, Initial(now), ops);
    RunFromStart(c, now, ops);
    RunKeepsInv(c, s, more);
    AcceptedIff(c, s, t);
    AcceptedIff(c, s, u);
    AcceptedIff(c, Run(c, s, more), t);
    hide Run, RefreshToken, Spent, Parses, SpentIsBarred, AgainIsLast, GoodTokens, IdsBelow, Replayed, Usable;
    if Spent(s, t) {
      SpentForGood(c, s, more, t);
    }
  }

  function After(s: State, millis: nat): State {
    s.(now := s.now + millis)
  }

  /** A whole number of seconds, or less than one, is left of the life of the token. */
  predicate WellTimed(s: State, token: nat)
    requires token in s.issued
  {
    LifeLeft(s, token) < SECOND || LifeLeft(s, token) % SECOND == 0
  }

  /** A token that is blacklisted while it parses is listed as long as it would parse exactly when
      a whole number of seconds or less than one is left of its life; otherwise it parses and is
      not listed for the odd milliseconds at the end. */
  lemma EntryLivesAsLong(s: State, token: nat, kind: Kind)
    requires Parses(s, token, kind) && s.issued[token].expiresAt % SECOND == 0
    ensures var s' := Blacklist(s, token, s.issued[token]);
      (forall later: nat :: Parses(After(s', later), token, kind) ==> Blacklisted(After(s', later), token))
      <==> WellTimed(s, token)
    ensures !WellTimed(s, token) ==>
      var s', rem := Blacklist(s, token, s.issued[token]), LifeLeft(s, token);
      forall later: nat ::
        Parses(After(s', later), token, kind) && !Blacklisted(After(s', later), token)
        <==> rem - rem % SECOND <= later < rem
  {
    var s', rem := Blacklist(s, token, s.issued[token]), LifeLeft(s, token);
    EntryReachesLast(s.now, s.issued[token]);
    hide EntryLife, RemainingTTL;
    if !WellTimed(s, token) {
      var after := After(s', rem - rem % SECOND);
      assert Parses(after, token, kind) && !Blacklisted(after, token);
    }
  }

  // ---------- when a spent token is refused for good ----------

  predicate SignsOut(op: Op, token: nat) {
    op.SignOut? && op.refresh == Some(token)
  }

  /** The run has no further logout with this token. */
  predicate NotSignedOut(ops: seq<Op>, token: nat) {
    forall i :: 0 <= i < |ops| ==> !SignsOut(ops[i], token)
  }

  lemma LogoutKeepsCovered(s: State, access: Option<nat>, refresh: Option<nat>, t: nat)
    requires Inv(s) && Spent(s, t) && Covered(s, t)
    requires refresh == Some(t) ==> LifeLeft(s, t) <= SECOND
    ensures var s' := LogoutOne(LogoutOne(s, access, Access), refresh, Refresh);
      t in s'.issued && Covered(s', t) && LifeLeft(s', t) == LifeLeft(s, t)
  {
    assert BarredUntilLast(s, t) && s.issued[t].expiresAt % SECOND == 0;
    hide Inv, Spent, EntryLife, RemainingTTL;
    var s1 := LogoutOne(s, access, Access);
    assert t in s1.blacklist && s1.blacklist[t] == s.blacklist[t] && s1.issued == s.issued && s1.now == s.now;
    if Parses(s, t, Refresh) {
      EntryReachesLast(s.now, s.issued[t]);
    }
  }

  lemma RotateKeepsCovered(c: Config, s: State, token: nat, t: nat)
    requires c.enabled && Inv(s) && Spent(s, t) && Covered(s, t)
    ensures var s' := RefreshToken(c, s, token).0; t in s'.issued && Covered(s', t) && LifeLeft(s', t) == LifeLeft(s, t)
  {
    AcceptedIff(c, s, t);
    assert t < s.next;
    hide Inv, Spent, Parses, EntryLife, RemainingTTL, Expiry;
    assert t == token ==> !Usable(c, s, t);
  }

  lemma StepKeepsCovered(c: Config, s: State, op: Op, t: nat)
    requires c.enabled && Inv(s) && Spent(s, t) && Covered(s, t)
    requires SignsOut(op, t) ==> LifeLeft(s, t) <= SECOND
    ensures var s' := Apply(c, s, op); t in s'.issued && Covered(s', t) && LifeLeft(s', t) <= LifeLeft(s, t)
  {
    assert t < s.next;
    hide Inv, Spent, Parses, EntryLife, RemainingTTL, Expiry, LogoutOne, RefreshToken;
    match op
    case Rotate(token) => RotateKeepsCovered(c, s, token, t);
    case SignOut(access, refresh) => LogoutKeepsCovered(s, access, refresh, t);
    case _ =>
  }

  lemma {:induction false} RunKeepsCovered(c: Config, s: State, ops: seq<Op>, t: nat)
    requires c.enabled && Inv(s) && Spent(s, t) && Covered(s, t)
    requires NotSignedOut(ops, t) || LifeLeft(s, t) <= SECOND
    ensures var s' := Run(c, s, ops); Covered(s', t) && LifeLeft(s', t) <= LifeLeft(s, t)
    decreases |ops|
  {
    hide Inv, Apply, Spent, SignsOut;
    if ops == [] {
    } else {
      var init := ops[..|ops| - 1];
      RunKeepsCovered(c, s, init, t);
      RunKeepsInv(c, s, init);
      SpentForGood(c, s, init, t);
      StepKeepsCovered(c, Run(c, s, init), ops[|ops| - 1], t);
    }
  }

  /** The run that ends when the entry does. */
  function Replay(s: State, t: nat): seq<Op>
    requires t in s.issued && t in s.blacklist
  {
    [SetActive(s.issued[t].user, true), Wait(if s.blacklist[t] <= s.now then 0 else s.blacklist[t] - s.now)]
  }

  lemma ReplayIsAccepted(c: Config, s: State, t: nat)
    requires c.enabled && Inv(s) && Spent(s, t) && !Covered(s, t)
    ensures t in s.issued && t in s.blacklist
    ensures Usable(c, Run(c, s, Replay(s, t)), t) && NotSignedOut(Replay(s, t), t)
    ensures Run(c, s, Replay(s, t)).accepted == s.accepted
  {
    assert BarredUntilLast(s, t);
    var ops := Replay(s, t);
    var s1 := Apply(c, s, ops[0]);
    var s2 := Apply(c, s1, ops[1]);
    RunTwo(c, s, ops[0], ops[1]);
    assert s2.issued == s.issued && s2.blacklist == s.blacklist && s2.users[s.issued[t].user];
    assert !Blacklisted(s2, t) && Parses(s2, t, Refresh);
    hide Run, Inv, Issue;
  }

  /** The token is refused in every later state of every run that does not log it out again. */
  ghost predicate RefusedForGood(c: Config, s: State, t: nat) {
    forall more :: NotSignedOut(more, t) ==> !Usable(c, Run(c, s, more), t)
  }

  /** A spent token is refused for good exactly when its entry lives as long as it does, provided
      that it is not logged out again; and whatever happens exactly when also no more than a
      second is left of its life, because a later logout can shorten the entry. */
  lemma RefusedForGoodIff(c: Config, s: State, t: nat)
    requires c.enabled && Inv(s) && Spent(s, t)
    ensures RefusedForGood(c, s, t) <==> Covered(s, t)
    ensures t in s.issued
    ensures (forall more :: !Usable(c, Run(c, s, more), t)) <==> Covered(s, t) && LifeLeft(s, t) <= SECOND
  {
    assert BarredUntilLast(s, t);
    hide Usable, Run, Inv, Spent, Covered, NotSignedOut;
    if Covered(s, t) {
      forall more | NotSignedOut(more, t) || LifeLeft(s, t) <= SECOND ensures !Usable(c, Run(c, s, more), t) {
        CoveredIsRefused(c, s, more, t);
      }
      if LifeLeft(s, t) > SECOND {
        LogoutUncovers(c, s, t);
      }
    } else {
      ReplayIsAccepted(c, s, t);
    }
  }

  lemma CoveredIsRefused(c: Config, s: State, more: seq<Op>, t: nat)
    requires c.enabled && Inv(s) && Spent(s, t) && Covered(s, t)
    requires NotSignedOut(more, t) || LifeLeft(s, t) <= SECOND
    ensures !Usable(c, Run(c, s, more), t)
  {
    RunKeepsCovered(c, s, more, t);
    RunKeepsInv(c, s, more);
    SpentForGood(c, s, more, t);
    AcceptedIff(c, Run(c, s, more), t);
    hide *;
  }

  /** A second logout with just over a second left lists the token for one second. */
  lemma LogoutUncovers(c: Config, s: State, t: nat)
    requires c.enabled && Inv(s) && Spent(s, t) && t in s.issued && LifeLeft(s, t) > SECOND
    ensures exists more :: Usable(c, Run(c, s, more), t)
  {
    hide Run, Inv, Spent, Covered, Logout, LogoutOne, Usable;
    var ops := [Wait(LifeLeft(s, t) - SECOND - 1), SignOut(None, Some(t))];
    var s1, s2 := Apply(c, s, ops[0]), Run(c, s, ops);
    RunTwo(c, s, ops[0], ops[1]);
    SpentIsRefresh(s, t);
    LateLogout(c, s1, t);
    RunKeepsInv(c, s, ops);
    SpentForGood(c, s, ops, t);
    ReplayIsAccepted(c, s2, t);
    hide Apply;
    RunAppend(c, s, ops, Replay(s2, t));
  }

  lemma SpentIsRefresh(s: State, t: nat)
    requires Inv(s) && Spent(s, t)
    ensures t in s.issued && s.issued[t].kind == Refresh
  {
    assert BarredUntilLast(s, t);
  }

  lemma LateLogout(c: Config, s: State, t: nat)
    requires c.enabled && Parses(s, t, Refresh) && LifeLeft(s, t) == SECOND + 1
    ensures !Covered(Apply(c, s, SignOut(None, Some(t))), t)
  {}

  lemma LogoutCovers(c: Config, s: State, t: nat, access: Option<nat>)
    requires c.enabled && Inv(s) && Parses(s, t, Refresh)
    ensures Covered(Logout(c, s, access, Some(t)), t) <==> WellTimed(s, t)
  {
    assert s.issued[t].expiresAt % SECOND == 0;
    hide Inv, EntryLife, RemainingTTL;
    EntryReachesLast(s.now, s.issued[t]);
    var s1 := LogoutOne(s, access, Access);
    assert s1.issued == s.issued && s1.now == s.now;
  }

  lemma RefreshCovers(c: Config, s: State, t: nat)
    requires c.enabled && Inv(s) && Usable(c, s, t)
    ensures t in s.issued && (Covered(RefreshToken(c, s, t).0, t) <==> WellTimed(s, t))
  {
    assert t < s.next && s.issued[t].expiresAt % SECOND == 0;
    hide Inv, Spent, EntryLife, RemainingTTL, Expiry;
    EntryReachesLast(s.now, s.issued[t]);
  }

  /** So a token that is refreshed, or logged out, is refused for good exactly when a whole number
      of seconds or less than one was left of its life. */
  lemma SpentWellIff(c: Config, s: State, t: nat, access: Option<nat>)
    requires c.enabled && Inv(s) && Parses(s, t, Refresh)
    ensures RefusedForGood(c, Logout(c, s, access, Some(t)), t) <==> WellTimed(s, t)
    ensures Usable(c, s, t) ==> (RefusedForGood(c, RefreshToken(c, s, t).0, t) <==> WellTimed(s, t))
  {
    hide Inv, Run, Covered, Logout, RefreshToken, Usable, Spent, RefusedForGood, WellTimed;
    LogoutCovers(c, s, t, access);
    LogoutSpends(c, s, t, access);
    StepKeepsInv(c, s, Rotate(t));
    StepKeepsInv(c, s, SignOut(access, Some(t)));
    RefusedForGoodIff(c, Logout(c, s, access, Some(t)), t);
    if Usable(c, s, t) {
      Spending(c, s, t);
      RefreshCovers(c, s, t);
      RefusedForGoodIff(c, RefreshToken(c, s, t).0, t);
    }
  }

  // ---------- runs in which spending is final ----------

  /** The request spends no token that has odd milliseconds left of its life. */
  predicate Timely(c: Config, s: State, op: Op) {
    match op
    case Rotate(t) => Usable(c, s, t) ==> WellTimed(s, t)
    case SignOut(_, Some(t)) => Parses(s, t, Refresh) ==> WellTimed(s, t)
    case _ => true
  }

  function Target(op: Op): nat {
    match op
    case Rotate(t) => t
    case SignOut(_, Some(t)) => t
    case _ => 0
  }

  predicate TimelyRun(c: Config, s: State, ops: seq<Op>) {
    forall i :: 0 <= i < |ops| ==> Timely(c, Run(c, s, ops[..i]), ops[i])
  }

  ghost predicate AllCovered(s: State) {
    forall t :: Spent(s, t) ==> Covered(s, t)
  }

  ghost predicate SpentIsFinal(c: Config, s: State) {
    forall t :: Spent(s, t) ==> RefusedForGood(c, s, t)
  }

  lemma FinalIffCovered(c: Config, s: State)
    requires c.enabled && Inv(s)
    ensures SpentIsFinal(c, s) <==> AllCovered(s)
  {
    hide Inv, Spent, RefusedForGood, Covered;
    forall t | Spent(s, t) ensures RefusedForGood(c, s, t) <==> Covered(s, t) {
      RefusedForGoodIff(c, s, t);
    }
  }

  predicate SpendsNow(c: Config, s: State, op: Op, t: nat) {
    (op == Rotate(t) && Usable(c, s, t)) || (c.enabled && SignsOut(op, t) && Parses(s, t, Refresh))
  }

  lemma SpentByStep(c: Config, s: State, op: Op, t: nat)
    requires Spent(Apply(c, s, op), t)
    ensures Spent(s, t) || SpendsNow(c, s, op, t)
  {
    hide EntryLife, RemainingTTL, Expiry;
  }

  lemma TimelyStepCovers(c: Config, s: State, op: Op, t: nat)
    requires c.enabled && Inv(s) && AllCovered(s) && Timely(c, s, op) && Spent(Apply(c, s, op), t)
    ensures Covered(Apply(c, s, op), t)
  {
    SpentByStep(c, s, op, t);
    hide Inv, Spent, Covered, RefreshToken, Logout;
    if SpendsNow(c, s, op, t) {
      if op.Rotate? {
        RefreshCovers(c, s, t);
      } else {
        LogoutCovers(c, s, t, op.access);
      }
    } else if SignsOut(op, t) {
      NoLogoutKeeps(c, s, op, t);
    } else {
      StepKeepsCovered(c, s, op, t);
    }
  }

  lemma NoLogoutKeeps(c: Config, s: State, op: Op, t: nat)
    requires c.enabled && Inv(s) && Spent(s, t) && Covered(s, t) && SignsOut(op, t) && !Parses(s, t, Refresh)
    ensures Covered(Apply(c, s, op), t)
  {
    assert BarredUntilLast(s, t);
    LogoutKeepsCovered(s, op.access, None, t);
    hide Inv, Spent, EntryLife, RemainingTTL;
  }

  /** If all spent tokens are covered, they are so after a step exactly when it is timely. */
  lemma TimelyStepIff(c: Config, s: State, op: Op)
    requires c.enabled && Inv(s) && AllCovered(s)
    ensures AllCovered(Apply(c, s, op)) <==> Timely(c, s, op)
    ensures s.again == {} ==> Apply(c, s, op).again == {}
  {
    if Timely(c, s, op) {
      forall t | Spent(Apply(c, s, op), t) ensures Covered(Apply(c, s, op), t) {
        TimelyStepCovers(c, s, op, t);
      }
    } else {
      var t := Target(op);
      UntimelyStepUncovers(c, s, op, t);
    }
    AgainOnlyUncovered(c, s, op);
    hide Apply, Covered, Spent, Timely, Inv;
  }

  lemma UntimelyStepUncovers(c: Config, s: State, op: Op, t: nat)
    requires c.enabled && Inv(s) && !Timely(c, s, op) && t == Target(op)
    ensures Spent(Apply(c, s, op), t) && !Covered(Apply(c, s, op), t)
  {
    hide Inv, Spent, Covered, RefreshToken, Logout;
    if op.Rotate? {
      Spending(c, s, t);
      RefreshCovers(c, s, t);
    } else {
      LogoutSpends(c, s, t, op.access);
      LogoutCovers(c, s, t, op.access);
    }
  }

  lemma AgainOnlyUncovered(c: Config, s: State, op: Op)
    requires c.enabled && Inv(s) && AllCovered(s)
    ensures Apply(c, s, op).again == s.again
  {
    if op.Rotate? {
      AcceptedIff(c, s, op.token);
    }
    hide Inv, EntryLife, RemainingTTL, Expiry, Blacklist, Covered, Blacklisted, Parses;
  }

  lemma {:induction false} TimelyRunCovers(c: Config, now: int, ops: seq<Op>)
    requires c.enabled && TimelyRun(c, Initial(now), ops)
    ensures var s := Run(c, Initial(now), ops); AllCovered(s) && s.again == {}
    decreases |ops|
  {
    hide Apply, Timely, Covered;
    if ops == [] {
    } else {
      var init := ops[..|ops| - 1];
      assert forall i :: 0 <= i < |init| ==> init[..i] == ops[..i];
      TimelyRunCovers(c, now, init);
      RunFromStart(c, now, init);
      TimelyStepIff(c, Run(c, Initial(now), init), ops[|ops| - 1]);
      hide Inv, AllCovered;
    }
  }

  /** A run is timely exactly when at every moment of it all spent tokens are refused for good. */
  lemma TimelyRunIff(c: Config, now: int, ops: seq<Op>)
    requires c.enabled
    ensures TimelyRun(c, Initial(now), ops) <==>
      forall i :: 0 <= i <= |ops| ==> SpentIsFinal(c, Run(c, Initial(now), ops[..i]))
  {
    hide Run, Inv, SpentIsFinal, Timely, AllCovered;
    var start := Initial(now);
    if TimelyRun(c, start, ops) {
      forall i | 0 <= i <= |ops| ensures SpentIsFinal(c, Run(c, start, ops[..i])) {
        assert forall j :: 0 <= j < i ==> ops[..i][..j] == ops[..j];
        TimelyRunCovers(c, now, ops[..i]);
        RunFromStart(c, now, ops[..i]);
        FinalIffCovered(c, Run(c, start, ops[..i]));
      }
    } else {
      var i :| 0 <= i < |ops| && !Timely(c, Run(c, start, ops[..i]), ops[i]);
      UntimelyIsNotFinal(c, now, ops, i);
    }
  }

  lemma UntimelyIsNotFinal(c: Config, now: int, ops: seq<Op>, i: nat)
    requires c.enabled && i < |ops| && !Timely(c, Run(c, Initial(now), ops[..i]), ops[i])
    ensures !SpentIsFinal(c, Run(c, Initial(now), ops[..i + 1]))
  {
    hide Run, Inv, Apply, Spent, Covered, SpentIsFinal, Timely;
    var s := Run(c, Initial(now), ops[..i]);
    RunMore(c, Initial(now), ops[..i], ops[i]);
    assert ops[..i] + [ops[i]] == ops[..i + 1];
    RunFromStart(c, now, ops[..i]);
    RunFromStart(c, now, ops[..i + 1]);
    UntimelyStepUncovers(c, s, ops[i], Target(ops[i]));
    FinalIffCovered(c, Run(c, Initial(now), ops[..i + 1]));
  }

  ghost predicate AcceptedAtMost(s: State, n: nat) {
    forall t :: multiset(s.accepted)[t] <= n
  }

  /** In every timely run no token is accepted twice, no spent token is usable, and each login has
      at most one usable refresh token. */
  lemma EveryTimelyRun(c: Config, now: int, ops: seq<Op>, t: nat, u: nat)
    requires c.enabled && TimelyRun(c, Initial(now), ops)
    ensures var s := Run(c, Initial(now), ops);
      && AcceptedAtMost(s, 1)
      && (Spent(s, t) ==> !Usable(c, s, t))
      && (Usable(c, s, t) && Usable(c, s, u) && SameLogin(s, t, u) ==> t == u)
  {
    hide Run, TimelyRun, RefreshToken, Spent, Covered, SpentIsBarred, AgainIsLast, GoodTokens, IdsBelow, Usable, Parses;
    var s := Run(c, Initial(now), ops);
    TimelyRunCovers(c, now, ops);
    RunFromStart(c, now, ops);
    AcceptedIff(c, s, t);
    AcceptedIff(c, s, u);
    assert s.again == {} ==> forall login :: !Replayed(s, login);
  }

  // ---------- which configurations are safe ----------

  /** No refresh token has more than `most` left of its life. */
  ghost predicate ShortLived(s: State, most: int) {
    forall t :: t in s.issued && s.issued[t].kind == Refresh ==> LifeLeft(s, t) <= most
  }

  lemma StepKeepsShort(c: Config, s: State, op: Op, most: int)
    requires RefreshTTL(c) <= most && ShortLived(s, most)
    ensures ShortLived(Apply(c, s, op), most)
  {
    hide EntryLife, RemainingTTL;
  }

  lemma {:induction false} RunKeepsShort(c: Config, now: int, ops: seq<Op>, most: int)
    requires RefreshTTL(c) <= most
    ensures ShortLived(Run(c, Initial(now), ops), most)
    decreases |ops|
  {
    if ops == [] {
    } else {
      RunKeepsShort(c, now, ops[..|ops| - 1], most);
      StepKeepsShort(c, Run(c, Initial(now), ops[..|ops| - 1]), ops[|ops| - 1], most);
      hide ShortLived, Apply;
    }
  }

  lemma {:induction false} NothingAccepted(c: Config, now: int, ops: seq<Op>)
    requires RefreshTTL(c) <= 0
    ensures Run(c, Initial(now), ops).accepted == []
    decreases |ops|
  {
    if ops == [] {
    } else {
      NothingAccepted(c, now, ops[..|ops| - 1]);
      RunKeepsShort(c, now, ops[..|ops| - 1], 0);
      StepAcceptsNothing(c, Run(c, Initial(now), ops[..|ops| - 1]), ops[|ops| - 1]);
      hide ShortLived, Apply;
    }
  }

  lemma StepAcceptsNothing(c: Config, s: State, op: Op)
    requires ShortLived(s, 0)
    ensures Apply(c, s, op).accepted == s.accepted
  {
    hide EntryLife, RemainingTTL, Expiry;
  }

  lemma ShortRunsAreTimely(c: Config, now: int, ops: seq<Op>)
    requires RefreshTTL(c) <= SECOND
    ensures TimelyRun(c, Initial(now), ops)
  {
    hide Run, Timely;
    forall i | 0 <= i < |ops| ensures Timely(c, Run(c, Initial(now), ops[..i]), ops[i]) {
      RunKeepsShort(c, now, ops[..i], SECOND);
      ShortIsTimely(c, Run(c, Initial(now), ops[..i]), ops[i]);
    }
  }

  lemma ShortIsTimely(c: Config, s: State, op: Op)
    requires ShortLived(s, SECOND)
    ensures Timely(c, s, op)
  {
    assert op.Rotate? && Usable(c, s, op.token) ==> Parses(s, op.token, Refresh);
    hide Usable;
  }

  lemma RotateAccepts(c: Config, s: State, t: nat)
    requires Usable(c, s, t)
    ensures var s' := Run(c, s, [Rotate(t)]);
      s'.accepted == s.accepted + [t] && s'.next >= s.next && (!c.enabled && t < s.next ==> Usable(c, s', t))
  {
    RunOne(c, s, Rotate(t));
    hide Run, EntryLife, RemainingTTL, Expiry;
  }

  lemma Registered(c: Config)
    requires RefreshTTL(c) > 0
    ensures var s := Run(c, Initial(SECOND - 1), [Register(0)]);
      && s.accepted == [] && s.next == 2 && 1 in s.issued && Usable(c, s, 1)
      && (RefreshTTL(c) > SECOND ==> !WellTimed(s, 1))
  {
    RunOne(c, Initial(SECOND - 1), Register(0));
    hide Run, RefreshTTL, EntryLife, RemainingTTL;
  }

  /** A registration just before a whole second, and a refresh at the same moment. */
  const FIRST_REFRESH := [Register(0)] + [Rotate(1)]

  lemma FirstRefresh(c: Config)
    requires RefreshTTL(c) > 0
    ensures var s := Run(c, Initial(SECOND - 1), FIRST_REFRESH);
      && s.accepted == [1] && s.next >= 2
      && (!c.enabled ==> Usable(c, s, 1))
      && (RefreshTTL(c) > SECOND && c.enabled ==> !Covered(s, 1))
  {
    Registered(c);
    var s := Run(c, Initial(SECOND - 1), [Register(0)]);
    RunAppend(c, Initial(SECOND - 1), [Register(0)], [Rotate(1)]);
    RotateAccepts(c, s, 1);
    RunOne(c, s, Rotate(1));
    if c.enabled {
      RunFromStart(c, SECOND - 1, [Register(0)]);
      RefreshCovers(c, s, 1);
    }
    hide Run, RefreshToken, RefreshTTL, Inv, Covered, WellTimed, Usable;
  }

  /** A token spent with odd milliseconds left is accepted again when its entry is over. */
  lemma AcceptedAgain(c: Config, s: State, t: nat)
    requires c.enabled && Inv(s) && Spent(s, t) && !Covered(s, t)
    ensures t in s.issued && t in s.blacklist
    ensures Run(c, s, Replay(s, t) + [Rotate(t)]).accepted == s.accepted + [t]
  {
    ReplayIsAccepted(c, s, t);
    hide Run, Inv, Covered, Usable, Spent, Replay;
    RotateAccepts(c, Run(c, s, Replay(s, t)), t);
    RunAppend(c, s, Replay(s, t), [Rotate(t)]);
  }

  lemma AcceptedTwice(c: Config) returns (ops: seq<Op>)
    requires c.enabled && RefreshTTL(c) > SECOND
    ensures !AcceptedAtMost(Run(c, Initial(SECOND - 1), ops), 1)
  {
    FirstRefresh(c);
    RunFromStart(c, SECOND - 1, FIRST_REFRESH);
    hide Run, Inv, Covered, Replay, FIRST_REFRESH;
    var s := Run(c, Initial(SECOND - 1), FIRST_REFRESH);
    AcceptedAgain(c, s, 1);
    ops := FIRST_REFRESH + (Replay(s, 1) + [Rotate(1)]);
    RunAppend(c, Initial(SECOND - 1), FIRST_REFRESH, Replay(s, 1) + [Rotate(1)]);
    TwiceIsTooMuch(Run(c, Initial(SECOND - 1), ops));
  }

  lemma TwiceIsTooMuch(s: State)
    requires s.accepted == [1] + [1]
    ensures !AcceptedAtMost(s, 1)
  {
    assert multiset(s.accepted)[1] == 2;
  }

  lemma AcceptedThrice(c: Config) returns (ops: seq<Op>)
    requires !c.enabled && RefreshTTL(c) > 0
    ensures !AcceptedAtMost(Run(c, Initial(SECOND - 1), ops), 2)
  {
    FirstRefresh(c);
    hide Run, Expiry, Usable, FIRST_REFRESH;
    var s1 := Run(c, Initial(SECOND - 1), FIRST_REFRESH);
    RotateAccepts(c, s1, 1);
    RotateAccepts(c, Run(c, s1, [Rotate(1)]), 1);
    RunAppend(c, s1, [Rotate(1)], [Rotate(1)]);
    RunAppend(c, Initial(SECOND - 1), FIRST_REFRESH, [Rotate(1)] + [Rotate(1)]);
    ops := FIRST_REFRESH + ([Rotate(1)] + [Rotate(1)]);
    ThriceIsTooMuch(Run(c, Initial(SECOND - 1), ops));
  }

  lemma ThriceIsTooMuch(s: State)
    requires s.accepted == [1] + [1] + [1]
    ensures !AcceptedAtMost(s, 2)
  {
    assert multiset(s.accepted)[1] == 3;
  }

  /** Refresh tokens of seven seconds, one of them spent 5.9 seconds before its end and accepted
      again half a second before it. */
  lemma SpentTokenReplayed(c: Config)
    requires c == Config(1000, 7000, true)
    ensures var s1 := Run(c, Initial(0), [Register(0), Wait(1100)]);
      var s2 := Run(c, s1, [Rotate(1), Wait(5400)]);
      && s1.now == 1100 && 1 in s1.issued && s1.issued[1] == Claims(Refresh, 0, 7000)
      && s2.now == 6500 && s2.accepted == [1] && Run(c, s2, [Rotate(1)]).accepted == [1, 1]
  {
    hide Run;
    RunTwo(c, Initial(0), Register(0), Wait(1100));
    var s1 := Run(c, Initial(0), [Register(0), Wait(1100)]);
    assert s1.issued[1] == Claims(Refresh, 0, 7000) && s1.now == 1100;
    RunTwo(c, s1, Rotate(1), Wait(5400));
    var s2 := Run(c, s1, [Rotate(1), Wait(5400)]);
    assert Usable(c, s1, 1);
    assert s2.now == 6500 && s2.accepted == [1] && s2.issued[1] == s1.issued[1] && s2.blacklist[1] == 6100;
    RunOne(c, s2, Rotate(1));
    assert Usable(c, s2, 1);
  }

  /** Tokens are accepted at most once in every run exactly when refresh tokens are born expired,
      or the blacklist works and they live for a second at most. */
  lemma AcceptedOnceIff(c: Config)
    ensures (forall now, ops :: AcceptedAtMost(Run(c, Initial(now), ops), 1)) <==>
              RefreshTTL(c) <= 0 || (c.enabled && RefreshTTL(c) <= SECOND)
  {
    hide Run, Inv;
    if RefreshTTL(c) <= 0 {
      forall now, ops ensures AcceptedAtMost(Run(c, Initial(now), ops), 1) {
        NothingAccepted(c, now, ops);
      }
    } else if !c.enabled {
      var ops := AcceptedThrice(c);
      assert !AcceptedAtMost(Run(c, Initial(SECOND - 1), ops), 1);
    } else if RefreshTTL(c) > SECOND {
      var ops := AcceptedTwice(c);
    } else {
      forall now, ops ensures AcceptedAtMost(Run(c, Initial(now), ops), 1) {
        ShortRunsAreTimely(c, now, ops);
        EveryTimelyRun(c, now, ops, 0, 0);
      }
    }
  }

  /** And at most twice exactly when they are born expired or the blacklist works. */
  lemma AcceptedTwiceIff(c: Config)
    ensures (forall now, ops :: AcceptedAtMost(Run(c, Initial(now), ops), 2)) <==> RefreshTTL(c) <= 0 || c.enabled
  {
    hide Run, Inv;
    if c.enabled {
      forall now, ops ensures AcceptedAtMost(Run(c, Initial(now), ops), 2) {
        forall t ensures multiset(Run(c, Initial(now), ops).accepted)[t] <= 2 {
          EveryRun(c, now, ops, [], t, t);
        }
      }
    } else if RefreshTTL(c) <= 0 {
      forall now, ops ensures AcceptedAtMost(Run(c, Initial(now), ops), 2) {
        NothingAccepted(c, now, ops);
      }
    } else {
      var ops := AcceptedThrice(c);
    }
  }
}

/// The use cases as a program.
module TokenStore {
  import opened Options
  import opened Tokens

  class AuthUseCase {
    const config: Config
    var now: int
    var issued: map<nat, Claims>
    var next: nat
    var blacklist: map<nat, int>
    var users: map<nat, bool>
    ghost var chain: map<nat, nat>
    ghost var accepted: seq<nat>
    ghost var out: set<nat>
    ghost var again: set<nat>

    ghost function View(): State
      reads this
    {
      State(now, issued, next, blacklist, users, chain, accepted, out, again)
    }

    constructor (config: Config, now: int)
      ensures this.config == config && View() == Initial(now)
    {
      this.config, this.now := config, now;
      issued, next, blacklist, users := map[], 0, map[], map[];
      chain, accepted, out, again := map[], [], {}, {};
    }

    method Parse(token: nat, kind: Kind) returns (claims: Option<Claims>)
      ensures claims.Some? <==> token in issued && now < issued[token].expiresAt && issued[token].kind == kind
      ensures claims.Some? ==> claims.value == issued[token]
    {
      if token !in issued || now >= issued[token].expiresAt {
        return None;
      }
      if issued[token].kind != kind {
        return None;
      }
      return Some(issued[token]);
    }

    method AddWithTTL(token: nat, ttl: int)
      requires ttl > 0
      modifies `blacklist
      ensures blacklist == old(blacklist)[token := now + EntryLife(ttl)]
    {
      var seconds := ttl / SECOND;
      if ttl < SECOND {
        seconds := 1;
      }
      blacklist := blacklist[token := now + seconds * SECOND];
    }

    method IsTokenBlackListed(token: nat) returns (r: bool)
      ensures r <==> token in blacklist && now < blacklist[token]
    {
      return token in blacklist && now < blacklist[token];
    }

    method GenerateTokenPair(user: nat, ghost from: Option<nat>) returns (access: nat, refresh: nat)
      modifies `issued, `next, `chain
      ensures View() == Issue(config, old(View()), user, from) && access == old(next) && refresh == old(next) + 1
    {
      access := next;
      issued := issued[access := Claims(Access, user, Expiry(now, config.accessTTL))];
      var refreshTTL := config.refreshTTL;
      if refreshTTL <= 0 {
        refreshTTL := config.accessTTL * 7;
      }
      refresh := next + 1;
      issued := issued[refresh := Claims(Refresh, user, Expiry(now, refreshTTL))];
      next := next + 2;
      chain := chain[refresh := if from.Some? then from.value else refresh];
    }

    method Login(user: nat, passwordOk: bool) returns (r: Answer)
      modifies `issued, `next, `chain
      ensures (View(), r) == Tokens.Login(config, old(View()), user, passwordOk)
      ensures r.Pair? <==> user in users && users[user] && passwordOk
      ensures r.Err? ==> View() == old(View())
      ensures r.Pair? ==> r.access in issued && r.refresh in issued && r.access != r.refresh
                          && issued[r.access].user == issued[r.refresh].user == user
    {
      if user !in users {
        return Err(BadCredentials);
      }
      if !users[user] {
        return Err(AccountDisabled);
      }
      if !passwordOk {
        return Err(BadCredentials);
      }
      var access, refresh := GenerateTokenPair(user, None);
      return Pair(access, refresh);
    }

    method RefreshToken(token: nat) returns (r: Answer)
      modifies this
      ensures (View(), r) == Tokens.RefreshToken(config, old(View()), token)
    {
      hide Issue, EntryLife, RemainingTTL;
      var claims := Parse(token, Refresh);
      if claims.None? {
        return Err(TokenInvalid);
      }
      if config.enabled {
        var listed := IsTokenBlackListed(token);
        if listed {
          return Err(TokenBlacklisted);
        }
      }
      var user := claims.value.user;
      if user !in users {
        return Err(UserNotFound);
      }
      if !users[user] {
        return Err(AccountDisabled);
      }
      var access, refresh := GenerateTokenPair(user, if token in chain then Some(chain[token]) else None);
      again := if Spent(View(), token) then again + {token} else again;
      accepted := accepted + [token];
      if config.enabled {
        AddWithTTL(token, RemainingTTL(now, claims.value));
      }
      return Pair(access, refresh);
    }

    method Logout(access: Option<nat>, refresh: Option<nat>)
      modifies `blacklist, `out
      ensures View() == Tokens.Logout(config, old(View()), access, refresh)
    {
      hide EntryLife, RemainingTTL;
      if !config.enabled {
        return;
      }
      if access.Some? {
        var claims := Parse(access.value, Access);
        if claims.Some? {
          AddWithTTL(access.value, RemainingTTL(now, claims.value));
        }
      }
      if refresh.Some? {
        var claims := Parse(refresh.value, Refresh);
        if claims.Some? {
          AddWithTTL(refresh.value, RemainingTTL(now, claims.value));
          out := out + {refresh.value};
        }
      }
    }
  }
}
