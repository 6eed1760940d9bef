/// What the requests of the token service answer and change, field by field, and where every token
/// comes from.

module TokenLaws {
  import opened Options
  import opened Tokens

  // ---------- answers and effects ----------

  /** The last whole second of a lifetime that begins now. */
  predicate ExpiresAfter(now: int, ttl: int, expiresAt: int) {
    expiresAt % 1000 == 0 && now + ttl - 1000 < expiresAt <= now + ttl
  }

  /** A new pair for the user, with the lifetimes configured: without one for refresh tokens, they
      live seven times as long as access tokens. Nothing else changes but what tells the logins
      apart. */
  ghost predicate PairIssued(c: Config, s: State, s': State, user: nat, pair: Answer)
    requires pair.Pair?
  {
    var Pair(a, f) := pair;
    && a != f && a !in s.issued && f !in s.issued && s'.issued.Keys == s.issued.Keys + {a, f}
    && (forall t :: t in s.issued ==> s'.issued[t] == s.issued[t])
    && s'.issued[a].kind == Access && s'.issued[f].kind == Refresh
    && s'.issued[a].user == user && s'.issued[f].user == user
    && ExpiresAfter(s.now, c.accessTTL, s'.issued[a].expiresAt)
    && ExpiresAfter(s.now, if c.refreshTTL > 0 then c.refreshTTL else 7 * c.accessTTL, s'.issued[f].expiresAt)
    && f in s'.chain && s'.chain == s.chain[f := s'.chain[f]]
    && s'.now == s.now && s'.users == s.users && s'.out == s.out
  }

  lemma IssueIsPair(c: Config, s: State, user: nat, chain: Option<nat>)
    requires IdsBelow(s)
    ensures PairIssued(c, s, Issue(c, s, user, chain), user, Pair(s.next, s.next + 1))
  {
    assert s.next !in s.issued && s.next + 1 !in s.issued;
    hide Expiry;
  }

  /** A login gets a pair exactly for a registered and active user with the right password; a
      disabled account is told so before the password is looked at; a refused login changes
      nothing, and one that is not begins a chain of its own. */
  lemma LoginAnswers(c: Config, s: State, user: nat, passwordOk: bool)
    requires IdsBelow(s)
    ensures var (s', r) := Login(c, s, user, passwordOk);
      && (r.Pair? <==> user in s.users && s.users[user] && passwordOk)
      && (r == Err(AccountDisabled) <==> user in s.users && !s.users[user])
      && (r == Err(BadCredentials) <==> user !in s.users || (s.users[user] && !passwordOk))
      && (r.Err? ==> s' == s)
      && (r.Pair? ==> PairIssued(c, s, s', user, r) && s'.chain[r.refresh] == r.refresh
                      && s'.blacklist == s.blacklist && s'.accepted == s.accepted)
  {
    IssueIsPair(c, s, user, None);
    hide PairIssued, Expiry, IdsBelow;
  }

  /** A refresh is refused for a token that is not a refresh token issued and not yet expired, then
      for a listed one, then for one without a user or with a disabled one; a refused refresh
      changes nothing. Otherwise it gets a pair for the same user and the same login, and the token
      is listed if the blacklist is at work. */
  lemma RefreshAnswers(c: Config, s: State, token: nat)
    requires IdsBelow(s)
    ensures var (s', r) := RefreshToken(c, s, token);
      var valid := token in s.issued && s.issued[token].kind == Refresh && s.now < s.issued[token].expiresAt;
      var listed := c.enabled && token in s.blacklist && s.now < s.blacklist[token];
      && (r == Err(TokenInvalid) <==> !valid)
      && (r == Err(TokenBlacklisted) <==> valid && listed)
      && (r == Err(UserNotFound) <==> valid && !listed && s.issued[token].user !in s.users)
      && (r == Err(AccountDisabled) <==>
            valid && !listed && s.issued[token].user in s.users && !s.users[s.issued[token].user])
      && (r.Err? ==> r.error != BadCredentials && s' == s)
      && (r.Pair? ==>
            && PairIssued(c, s, s', s.issued[token].user, r) && token in s.chain
            && s'.chain[r.refresh] == s.chain[token] && s'.accepted == s.accepted + [token]
            && s'.blacklist == if c.enabled then s.blacklist[token := Listing(s, token)] else s.blacklist)
  {
    if token in s.issued {
      IssueIsPair(c, s, s.issued[token].user, if token in s.chain then Some(s.chain[token]) else None);
      assert s.issued[token].kind == Refresh ==> token in s.chain;
    }
    hide Expiry, IdsBelow;
  }

  /** Until when a token that is listed now stays so: its remaining life in whole seconds, and for
      one second at least. */
  function Listing(s: State, token: nat): int
    requires token in s.issued
  {
    var left := s.issued[token].expiresAt - s.now;
    s.now + if left < 1000 then 1000 else left / 1000 * 1000
  }

  predicate Valid(s: State, token: Option<nat>, kind: Kind) {
    && token.Some? && token.value in s.issued
    && s.issued[token.value].kind == kind && s.now < s.issued[token.value].expiresAt
  }

  /** A logout lists the access token and the refresh token it is given, each if it is one and not
      yet expired, and changes nothing else; without the blacklist it changes nothing at all. */
  lemma LogoutLists(c: Config, s: State, access: Option<nat>, refresh: Option<nat>)
    ensures var s' := Logout(c, s, access, refresh);
      && (!c.enabled ==> s' == s)
      && s' == s.(blacklist := s'.blacklist, out := s'.out)
      && (c.enabled && Valid(s, access, Access) ==>
            access.value in s'.blacklist && s'.blacklist[access.value] == Listing(s, access.value))
      && (c.enabled && Valid(s, refresh, Refresh) ==>
            refresh.value in s'.blacklist && s'.blacklist[refresh.value] == Listing(s, refresh.value))
      && (forall t :: !(c.enabled && ((Valid(s, access, Access) && t == access.value)
                                      || (Valid(s, refresh, Refresh) && t == refresh.value))) ==>
            (t in s'.blacklist <==> t in s.blacklist) && (t in s.blacklist ==> s'.blacklist[t] == s.blacklist[t]))
  {
    assert forall n: int :: n - n % SECOND == n / 1000 * 1000;
    hide Expiry;
  }

  // ---------- where tokens come from ----------

  /** The request that gives a user new tokens proves who the user is: a registration, a login with
      the right password, or a refresh token that was issued to the user and is not expired. */
  predicate Entitles(s: State, op: Op, user: nat) {
    match op
    case Register(u) => u == user && u !in s.users
    case SignIn(u, passwordOk) => u == user && passwordOk && u in s.users && s.users[u]
    case Rotate(t) =>
      && Valid(s, Some(t), Refresh) && s.issued[t].user == user && user in s.users && s.users[user]
    case _ => false
  }

  lemma StepIssues(c: Config, s: State, op: Op, t: nat)
    requires IdsBelow(s) && t !in s.issued && t in Apply(c, s, op).issued
    ensures Entitles(s, op, Apply(c, s, op).issued[t].user)
    ensures t in Apply(c, s, op).chain ==>
      if op.Rotate? then op.token in s.chain && Apply(c, s, op).chain[t] == s.chain[op.token]
      else Apply(c, s, op).chain[t] == t
  {
    hide Expiry, EntryLife, RemainingTTL;
  }

  lemma IssueKeepsIssued(c: Config, s: State, user: nat, chain: Option<nat>, t: nat)
    requires IdsBelow(s) && (chain.Some? ==> chain.value < s.next)
    ensures var s' := Issue(c, s, user, chain);
      && IdsBelow(s')
      && (t in s.issued ==> t in s'.issued && s'.issued[t] == s.issued[t])
      && (t in s.chain ==> t in s'.chain && s'.chain[t] == s.chain[t])
  {
    hide Expiry, RefreshTTL;
  }

  lemma StepKeepsIssued(c: Config, s: State, op: Op, t: nat)
    requires IdsBelow(s)
    ensures var s' := Apply(c, s, op);
      && IdsBelow(s')
      && (t in s.issued ==> t in s'.issued && s'.issued[t] == s.issued[t])
      && (t in s.chain ==> t in s'.chain && s'.chain[t] == s.chain[t])
  {
    hide Issue, EntryLife, RemainingTTL;
    match op
    case Register(user) => IssueKeepsIssued(c, s.(users := s.users[user := true]), user, None, t);
    case SignIn(user, _) => IssueKeepsIssued(c, s, user, None, t);
    case Rotate(token) =>
      if token in s.issued {
        IssueKeepsIssued(c, s, s.issued[token].user, if token in s.chain then Some(s.chain[token]) else None, t);
      }
    case _ =>
  }

  lemma {:induction false} RunKeepsIssued(c: Config, s: State, ops: seq<Op>, t: nat)
    requires IdsBelow(s)
    ensures var s' := Run(c, s, ops);
      && IdsBelow(s')
      && (t in s.issued ==> t in s'.issued && s'.issued[t] == s.issued[t])
      && (t in s.chain ==> t in s'.chain && s'.chain[t] == s.chain[t])
    decreases |ops|
  {
    hide Apply, IdsBelow;
    if ops == [] {
    } else {
      RunKeepsIssued(c, s, ops[..|ops| - 1], t);
      StepKeepsIssued(c, Run(c, s, ops[..|ops| - 1]), ops[|ops| - 1], t);
    }
  }

  lemma SinceThen(c: Config, now: int, ops: seq<Op>, i: nat, t: nat)
    requires i <= |ops|
    ensures var s, s' := Run(c, Initial(now), ops[..i]), Run(c, Initial(now), ops);
      && IdsBelow(s)
      && (t in s.issued ==> t in s'.issued && s'.issued[t] == s.issued[t])
      && (t in s.chain ==> t in s'.chain && s'.chain[t] == s.chain[t])
  {
    hide Run, Apply, IdsBelow, Initial;
    NothingIssued(c, now);
    RunKeepsIssued(c, Initial(now), ops[..i], t);
    RunKeepsIssued(c, Run(c, Initial(now), ops[..i]), ops[i..], t);
    RunAppend(c, Initial(now), ops[..i], ops[i..]);
    assert ops[..i] + ops[i..] == ops;
  }

  lemma NothingIssued(c: Config, now: int)
    ensures IdsBelow(Initial(now)) && Run(c, Initial(now), []).issued == map[]
  {}

  /** The request by which a token was issued. */
  lemma {:induction false} IssuedBy(c: Config, now: int, ops: seq<Op>, t: nat) returns (i: nat)
    requires t in Run(c, Initial(now), ops).issued
    ensures i < |ops| && t !in Run(c, Initial(now), ops[..i]).issued && t in Run(c, Initial(now), ops[..i + 1]).issued
    decreases |ops|
  {
    hide Run, Apply, Initial;
    NothingIssued(c, now);
    var before := ops[..|ops| - 1];
    if t in Run(c, Initial(now), before).issued {
      i := IssuedBy(c, now, before, t);
      assert before[..i] == ops[..i] && before[..i + 1] == ops[..i + 1];
    } else {
      i := |ops| - 1;
      assert ops[..i + 1] == ops;
    }
  }

  /** Every token of every run was issued by a request that entitled its user: a registration, a
      login with the right password of an active account, or an unexpired refresh token of the same
      user. */
  lemma EveryTokenIsEntitled(c: Config, now: int, ops: seq<Op>, t: nat) returns (i: nat)
    requires t in Run(c, Initial(now), ops).issued
    ensures i < |ops| && t !in Run(c, Initial(now), ops[..i]).issued
    ensures Entitles(Run(c, Initial(now), ops[..i]), ops[i], Run(c, Initial(now), ops).issued[t].user)
  {
    hide Run, Apply, IdsBelow, Entitles, Initial;
    i := IssuedBy(c, now, ops, t);
    var s := Run(c, Initial(now), ops[..i]);
    SinceThen(c, now, ops, i, t);
    SinceThen(c, now, ops, i + 1, t);
    RunMore(c, Initial(now), ops[..i], ops[i]);
    assert ops[..i] + [ops[i]] == ops[..i + 1];
    StepIssues(c, s, ops[i], t);
  }

  /** And every refresh token goes back, refresh by refresh, to a registration or a login with the
      right password by its own user, which issued the first refresh token of its chain. */
  lemma {:induction false} EveryChainHasLogin(c: Config, now: int, ops: seq<Op>, t: nat) returns (i: nat)
    requires t in Run(c, Initial(now), ops).chain
    ensures var s := Run(c, Initial(now), ops);
      && i < |ops| && s.chain[t] in s.issued && t in s.issued
      && s.chain[t] !in Run(c, Initial(now), ops[..i]).issued
      && (ops[i].Register? || ops[i].SignIn?)
      && Entitles(Run(c, Initial(now), ops[..i]), ops[i], s.issued[t].user)
      && s.issued[s.chain[t]].user == s.issued[t].user
    decreases |ops|
  {
    hide Run, Apply, IdsBelow;
    ChainIsIssued(c, now, ops, t);
    var j := IssuedBy(c, now, ops, t);
    var s, before := Run(c, Initial(now), ops), Run(c, Initial(now), ops[..j]);
    FirstOfChain(c, now, ops, t, j);
    if ops[j].Rotate? {
      var p := ops[j].token;
      i := EveryChainHasLogin(c, now, ops[..j], p);
      SinceThen(c, now, ops, j, p);
      SinceThen(c, now, ops, j, before.chain[p]);
      assert ops[..j][..i] == ops[..i];
    } else {
      i := j;
    }
  }

  lemma ChainIsIssued(c: Config, now: int, ops: seq<Op>, t: nat)
    requires t in Run(c, Initial(now), ops).chain
    ensures t in Run(c, Initial(now), ops).issued
  {
    hide Run, Initial;
    SinceThen(c, now, ops, |ops|, t);
    assert ops[..|ops|] == ops;
  }

  /** The chain of a token is its own from the request that issued it, or that of the refresh token
      in the request. */
  lemma FirstOfChain(c: Config, now: int, ops: seq<Op>, t: nat, j: nat)
    requires t in Run(c, Initial(now), ops).chain && t in Run(c, Initial(now), ops).issued
    requires j < |ops| && t !in Run(c, Initial(now), ops[..j]).issued && t in Run(c, Initial(now), ops[..j + 1]).issued
    ensures var s, before := Run(c, Initial(now), ops), Run(c, Initial(now), ops[..j]);
      && Entitles(before, ops[j], s.issued[t].user)
      && if ops[j].Rotate? then ops[j].token in before.chain && s.chain[t] == before.chain[ops[j].token]
         else s.chain[t] == t
  {
    hide Run, Apply, Entitles, IdsBelow, Initial;
    var before := Run(c, Initial(now), ops[..j]);
    SinceThen(c, now, ops, j, t);
    SinceThen(c, now, ops, j + 1, t);
    SinceThen(c, now, ops, |ops|, t);
    RunMore(c, Initial(now), ops[..j], ops[j]);
    assert ops[..j] + [ops[j]] == ops[..j + 1] && ops[..|ops|] == ops;
    InChain(Run(c, Initial(now), ops), Run(c, Initial(now), ops[..j + 1]), t);
    StepIssues(c, before, ops[j], t);
  }

  lemma InChain(s: State, s1: State, t: nat)
    requires IdsBelow(s) && IdsBelow(s1) && t in s.chain && t in s1.issued
    requires t in s.issued && s.issued[t] == s1.issued[t]
    ensures t in s1.chain
  {}
}
