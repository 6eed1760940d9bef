/// The per-IP rate limiter: token buckets in a map that is swept of idle ones when it is full,
/// against a limiter that never evicts.

module RateLimit {
  const MAX_IP_BUCKETS: nat := 10_000
  const IP_IDLE_TIMEOUT := 600.0

  datatype Config = Config(limit: real, burst: int)

  /** A token bucket: the tokens it had at the time of its last admission. */
  datatype Bucket = Bucket(tokens: real, last: real)

  /** The limiter's two maps. */
  datatype Limiter = Limiter(buckets: map<string, Bucket>, lastSeen: map<string, real>)

  const EMPTY := Limiter(map[], map[])

  datatype Request = Request(ip: string, time: real)

  function Min(x: real, y: real): real {
    if x <= y then x else y
  }

  // ---------- one bucket ----------

  function Full(c: Config, now: real): Bucket {
    Bucket(c.burst as real, now)
  }

  function Refill(c: Config, duration: real): real {
    duration * c.limit
  }

  /** The tokens in a bucket at a time: refilled at the limit, up to the burst. */
  function Level(c: Config, b: Bucket, now: real): real {
    Min(c.burst as real, b.tokens + Refill(c, now - b.last))
  }

  predicate Allowed(c: Config, b: Bucket, now: real) {
    c.burst >= 1 && Level(c, b, now) >= 1.0
  }

  function Take(c: Config, b: Bucket, now: real): Bucket {
    if Allowed(c, b, now) then Bucket(Level(c, b, now) - 1.0, now) else b
  }

  // ---------- the limiter that evicts ----------

  predicate IdleFor(l: Limiter, ip: string, now: real) {
    ip in l.lastSeen && now - l.lastSeen[ip] > IP_IDLE_TIMEOUT
  }

  /** Drop every address without a request for more than the idle timeout. */
  function Swept(l: Limiter, now: real): Limiter {
    Limiter(map ip | ip in l.buckets && !IdleFor(l, ip, now) :: l.buckets[ip],
            map ip | ip in l.lastSeen && !IdleFor(l, ip, now) :: l.lastSeen[ip])
  }

  /** Look the bucket up or make one, after a sweep when the map is full. */
  function WithBucket(c: Config, l: Limiter, ip: string, now: real): (l': Limiter)
    ensures ip in l'.buckets
  {
    if ip in l.buckets then l.(lastSeen := l.lastSeen[ip := now])
    else
      var l1 := if |l.buckets| >= MAX_IP_BUCKETS then Swept(l, now) else l;
      Limiter(l1.buckets[ip := Full(c, now)], l1.lastSeen[ip := now])
  }

  /** Without a positive limit every request passes. */
  predicate Passes(c: Config, l: Limiter, r: Request) {
    c.limit <= 0.0 || Allowed(c, WithBucket(c, l, r.ip, r.time).buckets[r.ip], r.time)
  }

  function After(c: Config, l: Limiter, r: Request): Limiter {
    if c.limit <= 0.0 then l
    else
      var l' := WithBucket(c, l, r.ip, r.time);
      l'.(buckets := l'.buckets[r.ip := Take(c, l'.buckets[r.ip], r.time)])
  }

  // ---------- the limiter that never evicts ----------

  type Keeper = map<string, Bucket>

  function KeptBucket(c: Config, k: Keeper, r: Request): Bucket {
    if r.ip in k then k[r.ip] else Full(c, r.time)
  }

  predicate KeeperPasses(c: Config, k: Keeper, r: Request) {
    c.limit <= 0.0 || Allowed(c, KeptBucket(c, k, r), r.time)
  }

  function KeeperAfter(c: Config, k: Keeper, r: Request): Keeper {
    if c.limit <= 0.0 then k else k[r.ip := Take(c, KeptBucket(c, k, r), r.time)]
  }

  // ---------- traces ----------

  ghost predicate Monotone(trace: seq<Request>) {
    forall i, j :: 0 <= i <= j < |trace| ==> trace[i].time <= trace[j].time
  }

  function Run(c: Config, trace: seq<Request>): Limiter {
    if trace == [] then EMPTY else After(c, Run(c, trace[..|trace| - 1]), trace[|trace| - 1])
  }

  function KeeperRun(c: Config, trace: seq<Request>): Keeper {
    if trace == [] then map[] else KeeperAfter(c, KeeperRun(c, trace[..|trace| - 1]), trace[|trace| - 1])
  }

  /** The decision on request `i` of a trace. */
  predicate Decision(c: Config, trace: seq<Request>, i: nat)
    requires i < |trace|
  {
    Passes(c, Run(c, trace[..i]), trace[i])
  }

  predicate KeeperDecision(c: Config, trace: seq<Request>, i: nat)
    requires i < |trace|
  {
    KeeperPasses(c, KeeperRun(c, trace[..i]), trace[i])
  }

  ghost predicate SameDecisions(c: Config, trace: seq<Request>) {
    forall i: nat :: i < |trace| ==> Decision(c, trace, i) == KeeperDecision(c, trace, i)
  }

  // ---------- simulation ----------

  lemma RunMore(c: Config, trace: seq<Request>, r: Request)
    ensures Run(c, trace + [r]) == After(c, Run(c, trace), r)
    ensures KeeperRun(c, trace + [r]) == KeeperAfter(c, KeeperRun(c, trace), r)
  {
    assert (trace + [r])[..|trace|] == trace;
  }

  /** A bucket that holds no more than the burst, no less than nothing, and was last used in the past. */
  predicate Sound(c: Config, b: Bucket, now: real) {
    && b.tokens <= c.burst as real && b.last <= now
    && (b.tokens >= 0.0 || b.tokens == c.burst as real)
  }

  /** Buckets that answer alike from `now` on: the same one, or two full ones. */
  predicate Alike(c: Config, a: Bucket, b: Bucket, now: real) {
    a == b || (Level(c, a, now) == c.burst as real && Level(c, b, now) == c.burst as real)
  }

  /** For one address: the limiter's bucket is like the kept one, and where the limiter has none
      the kept one is full or absent. */
  ghost predicate Simulates(c: Config, l: Limiter, k: Keeper, ip: string, now: real) {
    && (ip in l.buckets <==> ip in l.lastSeen)
    && (ip in l.buckets ==>
          && ip in k && l.lastSeen[ip] <= now
          && l.buckets[ip].last <= l.lastSeen[ip] && k[ip].last <= l.lastSeen[ip]
          && Alike(c, l.buckets[ip], k[ip], now))
    && (ip in l.buckets ==> Sound(c, l.buckets[ip], now))
    && (ip in k ==> Sound(c, k[ip], now))
    && (ip in k && ip !in l.buckets ==> Level(c, k[ip], now) == c.burst as real)
  }

  lemma RefillAdds(c: Config, d: real, e: real)
    requires c.limit > 0.0
    ensures Refill(c, d + e) == Refill(c, d) + Refill(c, e)
    ensures d >= 0.0 ==> Refill(c, d) >= 0.0
    ensures Refill(c, 0.0) == 0.0
  {}

  lemma LevelGrows(c: Config, b: Bucket, t: real, now: real)
    requires c.limit > 0.0 && t <= now
    ensures Level(c, b, t) <= Level(c, b, now) <= Level(c, b, t) + Refill(c, now - t)
  {
    RefillAdds(c, now - t, t - b.last);
    hide Refill;
    assert now - b.last == (now - t) + (t - b.last);
  }

  lemma AliveLater(c: Config, l: Limiter, k: Keeper, ip: string, t: real, now: real)
    requires c.limit > 0.0 && t <= now && Simulates(c, l, k, ip, t)
    ensures Simulates(c, l, k, ip, now)
  {
    if ip in k {
      LevelGrows(c, k[ip], t, now);
    }
    if ip in l.buckets {
      LevelGrows(c, l.buckets[ip], t, now);
    }
  }

  /** A bucket idle for the timeout is full again if the burst refills in that time. */
  lemma IdleIsFull(c: Config, b: Bucket, seen: real, now: real)
    requires c.limit > 0.0 && c.burst as real <= Refill(c, IP_IDLE_TIMEOUT)
    requires Sound(c, b, seen) || Sound(c, b, now)
    requires b.last <= seen && now - seen > IP_IDLE_TIMEOUT
    ensures Level(c, b, now) == c.burst as real
  {
    RefillAdds(c, now - b.last - IP_IDLE_TIMEOUT, IP_IDLE_TIMEOUT);
    hide Refill;
  }

  lemma SweepSimulates(c: Config, l: Limiter, k: Keeper, ip: string, now: real)
    requires c.limit > 0.0 && c.burst as real <= Refill(c, IP_IDLE_TIMEOUT) && Simulates(c, l, k, ip, now)
    ensures Simulates(c, Swept(l, now), k, ip, now)
  {
    if IdleFor(l, ip, now) {
      IdleIsFull(c, k[ip], l.lastSeen[ip], now);
    }
  }

  lemma TakeAlike(c: Config, a: Bucket, b: Bucket, now: real)
    requires c.limit > 0.0 && Sound(c, a, now) && Sound(c, b, now) && Alike(c, a, b, now)
    ensures Allowed(c, a, now) == Allowed(c, b, now)
    ensures Alike(c, Take(c, a, now), Take(c, b, now), now)
    ensures Sound(c, Take(c, a, now), now)
  {
    RefillAdds(c, now - a.last, 0.0);
    RefillAdds(c, now - b.last, 0.0);
    hide Refill;
  }

  /** A request gets the same decision from both, and both stay alike for every address. */
  lemma StepSimulates(c: Config, l: Limiter, k: Keeper, r: Request, ip: string)
    requires c.limit > 0.0 && c.burst as real <= Refill(c, IP_IDLE_TIMEOUT)
    requires Simulates(c, l, k, ip, r.time) && Simulates(c, l, k, r.ip, r.time)
    ensures Passes(c, l, r) == KeeperPasses(c, k, r)
    ensures Simulates(c, After(c, l, r), KeeperAfter(c, k, r), ip, r.time)
  {
    SweepSimulates(c, l, k, ip, r.time);
    SweepSimulates(c, l, k, r.ip, r.time);
    var a := WithBucket(c, l, r.ip, r.time).buckets[r.ip];
    var b := KeptBucket(c, k, r);
    RefillAdds(c, 0.0, 0.0);
    assert Level(c, Full(c, r.time), r.time) == c.burst as real;
    TakeAlike(c, a, b, r.time);
    TakeAlike(c, b, b, r.time);
    hide Take, Allowed, Level, Alike;
  }

  function Now(trace: seq<Request>): real {
    if trace == [] then 0.0 else trace[|trace| - 1].time
  }

  lemma {:induction false} RunSimulates(c: Config, trace: seq<Request>, ip: string)
    requires c.limit > 0.0 && c.burst as real <= Refill(c, IP_IDLE_TIMEOUT) && Monotone(trace)
    ensures Simulates(c, Run(c, trace), KeeperRun(c, trace), ip, Now(trace))
    decreases |trace|
  {
    if trace == [] {
    } else {
      var before, r := trace[..|trace| - 1], trace[|trace| - 1];
      var l, k := Run(c, before), KeeperRun(c, before);
      RunSimulates(c, before, ip);
      RunSimulates(c, before, r.ip);
      hide Simulates, After, KeeperAfter;
      if before != [] {
        assert Now(before) == trace[|trace| - 2].time;
        AliveLater(c, l, k, ip, Now(before), r.time);
        AliveLater(c, l, k, r.ip, Now(before), r.time);
      } else {
        NothingSimulatesNothing(c, ip, r.time);
        NothingSimulatesNothing(c, r.ip, r.time);
      }
      StepSimulates(c, l, k, r, ip);
    }
  }

  lemma NothingSimulatesNothing(c: Config, ip: string, now: real)
    ensures Simulates(c, EMPTY, map[], ip, now)
  {}

  /** While the burst refills within the idle timeout, evicting changes no decision. */
  lemma EvictionIsInvisible(c: Config, trace: seq<Request>)
    requires c.limit <= 0.0 || c.burst as real <= Refill(c, IP_IDLE_TIMEOUT)
    requires Monotone(trace)
    ensures SameDecisions(c, trace)
  {
    if c.limit > 0.0 {
      forall i: nat | i < |trace| ensures Decision(c, trace, i) == KeeperDecision(c, trace, i) {
        SameDecision(c, trace, i);
      }
    }
  }

  lemma SameDecision(c: Config, trace: seq<Request>, i: nat)
    requires c.limit > 0.0 && c.burst as real <= Refill(c, IP_IDLE_TIMEOUT) && Monotone(trace) && i < |trace|
    ensures Decision(c, trace, i) == KeeperDecision(c, trace, i)
  {
    var before, ip, now := trace[..i], trace[i].ip, trace[i].time;
    RunSimulates(c, before, ip);
    hide Simulates, Passes, KeeperPasses;
    if i > 0 {
      assert Now(before) == trace[i - 1].time;
      AliveLater(c, Run(c, before), KeeperRun(c, before), ip, Now(before), now);
    } else {
      NothingSimulatesNothing(c, ip, now);
    }
    StepSimulates(c, Run(c, before), KeeperRun(c, before), trace[i], ip);
  }

  /** The two maps always have the same addresses, whatever the limit and the burst. */
  lemma {:induction false} KeySetsEqual(c: Config, trace: seq<Request>)
    ensures Run(c, trace).buckets.Keys == Run(c, trace).lastSeen.Keys
    decreases |trace|
  {
    if trace == [] {
    } else {
      KeySetsEqual(c, trace[..|trace| - 1]);
    }
  }

  // ---------- how many requests pass ----------

  /** How many of the requests `i` up to `j` are from this address and pass. */
  function Admitted(c: Config, trace: seq<Request>, ip: string, i: nat, j: nat): nat
    requires i <= j <= |trace|
  {
    if i == j then 0
    else Admitted(c, trace, ip, i, j - 1) + if trace[j - 1].ip == ip && Decision(c, trace, j - 1) then 1 else 0
  }

  function KeeperAdmitted(c: Config, trace: seq<Request>, ip: string, i: nat, j: nat): nat
    requires i <= j <= |trace|
  {
    if i == j then 0
    else
      KeeperAdmitted(c, trace, ip, i, j - 1)
      + if trace[j - 1].ip == ip && KeeperDecision(c, trace, j - 1) then 1 else 0
  }

  /** Earlier admissions do not depend on later requests. */
  lemma {:induction false} AdmittedPrefix(c: Config, trace: seq<Request>, more: seq<Request>, ip: string,
                                          i: nat, j: nat)
    requires i <= j <= |trace|
    ensures Admitted(c, trace + more, ip, i, j) == Admitted(c, trace, ip, i, j)
  {
    hide Run, Passes;
    if i == j {
    } else {
      AdmittedPrefix(c, trace, more, ip, i, j - 1);
      assert (trace + more)[..j - 1] == trace[..j - 1];
    }
  }

  lemma {:induction false} AdmittedSplit(c: Config, trace: seq<Request>, ip: string, i: nat, j: nat, k: nat)
    requires i <= j <= k <= |trace|
    ensures Admitted(c, trace, ip, i, k) == Admitted(c, trace, ip, i, j) + Admitted(c, trace, ip, j, k)
    decreases k
  {
    hide Decision;
    if j == k {
    } else {
      AdmittedSplit(c, trace, ip, i, j, k - 1);
    }
  }

  lemma AdmittedMore(c: Config, trace: seq<Request>, r: Request, ip: string)
    ensures Admitted(c, trace + [r], ip, 0, |trace| + 1)
            == Admitted(c, trace, ip, 0, |trace|) + if r.ip == ip && Passes(c, Run(c, trace), r) then 1 else 0
  {
    AdmittedPrefix(c, trace, [r], ip, 0, |trace|);
    assert (trace + [r])[..|trace|] == trace;
    hide Run, Passes;
  }

  lemma {:induction false} SameAdmitted(c: Config, trace: seq<Request>, ip: string, i: nat, j: nat)
    requires i <= j <= |trace| && SameDecisions(c, trace)
    ensures Admitted(c, trace, ip, i, j) == KeeperAdmitted(c, trace, ip, i, j)
  {
    if i >= j {
    } else {
      SameAdmitted(c, trace, ip, i, j - 1);
      assert Decision(c, trace, j - 1) == KeeperDecision(c, trace, j - 1);
    }
  }

  /** The tokens an address has, or would start with. */
  function Tokens(c: Config, k: Keeper, ip: string, now: real): real {
    if ip in k then Level(c, k[ip], now) else c.burst as real
  }

  lemma TokensGrow(c: Config, k: Keeper, ip: string, t: real, now: real)
    requires c.limit > 0.0 && t <= now
    ensures Tokens(c, k, ip, now) <= Tokens(c, k, ip, t) + Refill(c, now - t)
  {
    RefillAdds(c, now - t, 0.0);
    if ip in k {
      LevelGrows(c, k[ip], t, now);
    }
  }

  lemma SpendOne(c: Config, k: Keeper, r: Request, ip: string)
    requires c.limit > 0.0
    ensures Tokens(c, KeeperAfter(c, k, r), ip, r.time) + (if r.ip == ip && KeeperPasses(c, k, r) then 1.0 else 0.0)
            == Tokens(c, k, ip, r.time)
  {
    RefillAdds(c, 0.0, 0.0);
    hide Refill;
  }

  lemma {:induction false} KeeperSound(c: Config, trace: seq<Request>, ip: string)
    requires c.limit > 0.0 && Monotone(trace) && ip in KeeperRun(c, trace)
    ensures Sound(c, KeeperRun(c, trace)[ip], Now(trace))
    decreases |trace|
  {
    var before, r := trace[..|trace| - 1], trace[|trace| - 1];
    var k := KeeperRun(c, before);
    if ip in k {
      KeeperSound(c, before, ip);
      assert Now(before) == trace[|trace| - 2].time <= r.time;
      TakeAlike(c, k[ip], k[ip], r.time);
    } else {
      TakeAlike(c, Full(c, r.time), Full(c, r.time), r.time);
    }
  }

  function One(passes: bool): nat {
    if passes then 1 else 0
  }

  lemma LastRequest(c: Config, trace: seq<Request>, ip: string, n: nat)
    requires c.limit > 0.0 && n < |trace|
    ensures One(trace[n].ip == ip && KeeperDecision(c, trace, n)) as real
            + Tokens(c, KeeperRun(c, trace[..n + 1]), ip, trace[n].time)
            == Tokens(c, KeeperRun(c, trace[..n]), ip, trace[n].time)
  {
    SpendOne(c, KeeperRun(c, trace[..n]), trace[n], ip);
    RunMore(c, trace[..n], trace[n]);
    hide Tokens, KeeperAfter, KeeperRun, Run;
    assert trace[..n + 1] == trace[..n] + [trace[n]];
  }

  lemma TimePasses(c: Config, k: Keeper, ip: string, start: real, t: real, now: real)
    requires c.limit > 0.0 && t <= now
    ensures Tokens(c, k, ip, now) + Refill(c, t - start) <= Tokens(c, k, ip, t) + Refill(c, now - start)
  {
    TokensGrow(c, k, ip, t, now);
    RefillAdds(c, now - t, t - start);
    hide Tokens, Refill;
    assert now - start == (now - t) + (t - start);
  }

  /** Admissions in a window are paid from the tokens at its start and the refill since. */
  lemma {:induction false} WindowSpends(c: Config, trace: seq<Request>, ip: string, i: nat, j: nat)
    requires c.limit > 0.0 && Monotone(trace) && i < j <= |trace|
    ensures KeeperAdmitted(c, trace, ip, i, j) as real + Tokens(c, KeeperRun(c, trace[..j]), ip, trace[j - 1].time)
            <= Tokens(c, KeeperRun(c, trace[..i]), ip, trace[i].time) + Refill(c, trace[j - 1].time - trace[i].time)
    decreases j
  {
    hide Tokens, KeeperRun, Refill, KeeperDecision;
    var n := j - 1;
    LastRequest(c, trace, ip, n);
    if i == n {
      RefillAdds(c, 0.0, 0.0);
    } else {
      WindowSpends(c, trace, ip, i, n);
      TimePasses(c, KeeperRun(c, trace[..n]), ip, trace[i].time, trace[n - 1].time, trace[n].time);
    }
  }

  /** No address passes more often in a window than the burst and the refill of its length. */
  lemma WindowBound(c: Config, trace: seq<Request>, ip: string, i: nat, j: nat)
    requires c.limit > 0.0 && c.burst as real <= Refill(c, IP_IDLE_TIMEOUT) && Monotone(trace) && i <= j < |trace|
    ensures Admitted(c, trace, ip, i, j + 1) as real
            <= (if c.burst > 0 then c.burst as real else 0.0) + Refill(c, trace[j].time - trace[i].time)
  {
    hide SameDecisions, Run, KeeperRun, Admitted, KeeperAdmitted;
    EvictionIsInvisible(c, trace);
    SameAdmitted(c, trace, ip, i, j + 1);
    RefillAdds(c, trace[j].time - trace[i].time, 0.0);
    hide KeeperRun, Refill, Decision, KeeperDecision, Level, Tokens, Admitted, KeeperAdmitted, SameDecisions;
    if c.burst <= 0 {
      NothingPasses(c, trace, ip, i, j + 1);
    } else {
      WindowSpends(c, trace, ip, i, j + 1);
      TokensLeft(c, trace, ip, j);
    }
  }

  lemma TokensLeft(c: Config, trace: seq<Request>, ip: string, j: nat)
    requires c.limit > 0.0 && c.burst >= 0 && Monotone(trace) && j < |trace|
    ensures Tokens(c, KeeperRun(c, trace[..j + 1]), ip, trace[j].time) >= 0.0
  {
    var k := KeeperRun(c, trace[..j + 1]);
    if ip in k {
      KeeperSound(c, trace[..j + 1], ip);
      RefillAdds(c, trace[j].time - k[ip].last, 0.0);
    }
    hide KeeperRun, Refill;
  }

  lemma {:induction false} NothingPasses(c: Config, trace: seq<Request>, ip: string, i: nat, j: nat)
    requires c.limit > 0.0 && c.burst <= 0 && i <= j <= |trace|
    ensures KeeperAdmitted(c, trace, ip, i, j) == 0
  {
    if i >= j {
    } else {
      NothingPasses(c, trace, ip, i, j - 1);
    }
  }

  // ---------- when the burst takes longer to refill ----------

  function Same(ip: string, time: real, n: nat): seq<Request> {
    seq(n, _ => Request(ip, time))
  }

  ghost predicate AllAt(trace: seq<Request>, time: real) {
    forall i :: 0 <= i < |trace| ==> trace[i].time == time
  }

  lemma DrainMore(c: Config, l: Limiter, k: Keeper, n: nat)
    requires c.limit > 0.0 && n < c.burst
    requires if n == 0 then l == EMPTY && k == map[]
             else l.buckets == k == map["a" := Bucket((c.burst - n) as real, 0.0)] && l.lastSeen == map["a" := 0.0]
    ensures var r := Request("a", 0.0);
      && Passes(c, l, r) && After(c, l, r).lastSeen == map["a" := 0.0]
      && After(c, l, r).buckets == KeeperAfter(c, k, r) == map["a" := Bucket((c.burst - n - 1) as real, 0.0)]
  {
    RefillAdds(c, 0.0, 0.0);
    hide Refill;
  }

  /** "a" takes its first `n` tokens at time zero. */
  lemma {:induction false} Drained(c: Config, n: nat) returns (trace: seq<Request>)
    requires c.limit > 0.0 && 1 <= n <= c.burst
    ensures AllAt(trace, 0.0) && Admitted(c, trace, "a", 0, |trace|) == n
    ensures Run(c, trace).buckets == KeeperRun(c, trace) == map["a" := Bucket((c.burst - n) as real, 0.0)]
    ensures Run(c, trace).lastSeen == map["a" := 0.0]
  {
    var before := [];
    if n > 1 {
      before := Drained(c, n - 1);
    }
    RunMore(c, before, Request("a", 0.0));
    DrainMore(c, Run(c, before), KeeperRun(c, before), n - 1);
    hide Run, KeeperRun, After, KeeperAfter, Passes;
    trace := before + [Request("a", 0.0)];
    AdmittedMore(c, before, Request("a", 0.0), "a");
  }

  /** "a" and `others` more came at time zero. */
  ghost predicate Crowded(l: Limiter, others: nat) {
    && |l.buckets| == others + 1 && l.buckets.Keys == l.lastSeen.Keys
    && (forall ip :: ip in l.lastSeen ==> l.lastSeen[ip] == 0.0 && ip != "b" && |ip| <= others + 1)
  }

  lemma CrowdGrows(c: Config, l: Limiter, others: nat, r: Request)
    requires c.limit > 0.0 && Crowded(l, others) && others + 1 < MAX_IP_BUCKETS
    requires |r.ip| == others + 2 && r.time == 0.0
    ensures Crowded(After(c, l, r), others + 1)
  {
    var l' := After(c, l, r);
    assert r.ip !in l.buckets;
    assert l'.buckets.Keys == l.buckets.Keys + {r.ip};
    assert |l'.buckets| == |l'.buckets.Keys|;
  }

  lemma OneMoreOther(c: Config, trace: seq<Request>, others: nat, r: Request)
    requires c.limit > 0.0 && AllAt(trace, 0.0) && Crowded(Run(c, trace), others) && others + 1 < MAX_IP_BUCKETS
    requires |r.ip| == others + 2 && r.time == 0.0
    ensures AllAt(trace + [r], 0.0) && Crowded(Run(c, trace + [r]), others + 1)
    ensures Admitted(c, trace + [r], "a", 0, |trace| + 1) == Admitted(c, trace, "a", 0, |trace|)
    ensures "a" in KeeperRun(c, trace) ==>
      "a" in KeeperRun(c, trace + [r]) && KeeperRun(c, trace + [r])["a"] == KeeperRun(c, trace)["a"]
  {
    RunMore(c, trace, r);
    CrowdGrows(c, Run(c, trace), others, r);
    AdmittedMore(c, trace, r, "a");
    assert r.ip != "a";
    hide Run, KeeperRun, After, Crowded, Admitted, Take, Allowed;
  }

  lemma {:induction false} Filled(c: Config, others: nat) returns (trace: seq<Request>)
    requires c.limit > 0.0 && 1 <= c.burst && others < MAX_IP_BUCKETS
    ensures AllAt(trace, 0.0) && Crowded(Run(c, trace), others) && Admitted(c, trace, "a", 0, |trace|) == c.burst
    ensures "a" in KeeperRun(c, trace) && KeeperRun(c, trace)["a"] == Bucket(0.0, 0.0)
  {
    if others == 0 {
      trace := Drained(c, c.burst);
      hide Run, KeeperRun, Admitted;
      assert |Run(c, trace).buckets| == |Run(c, trace).buckets.Keys|;
    } else {
      hide Run, KeeperRun, Crowded, Admitted, AllAt;
      var before := Filled(c, others - 1);
      var r := Request(seq(others + 1, _ => 'x'), 0.0);
      OneMoreOther(c, before, others - 1, r);
      trace := before + [r];
    }
  }

  /** After the timeout a newcomer sweeps everyone away. */
  lemma CrowdSwept(c: Config, l: Limiter, time: real)
    requires c.limit > 0.0 && Crowded(l, MAX_IP_BUCKETS - 1) && time > IP_IDLE_TIMEOUT
    ensures After(c, l, Request("b", time)).buckets.Keys == {"b"}
  {
    assert "b" !in l.buckets;
    assert Swept(l, time).buckets.Keys == {};
  }

  lemma StartAgain(c: Config, l: Limiter, time: real, n: nat)
    requires c.limit > 0.0 && 1 <= n <= c.burst
    requires if n == 1 then l.buckets.Keys == {"b"}
             else l.buckets.Keys == {"a", "b"} && l.buckets["a"] == Bucket((c.burst - n + 1) as real, time)
    ensures var r := Request("a", time);
      && Passes(c, l, r) && After(c, l, r).buckets.Keys == {"a", "b"}
      && After(c, l, r).buckets["a"] == Bucket((c.burst - n) as real, time)
  {
    RefillAdds(c, 0.0, 0.0);
    assert |l.buckets| == |l.buckets.Keys| <= 2;
    hide Refill;
  }

  /** A swept address starts with a full bucket again. */
  lemma {:induction false} StartsAgain(c: Config, trace: seq<Request>, time: real, n: nat)
    requires c.limit > 0.0 && 1 <= n <= c.burst && Run(c, trace).buckets.Keys == {"b"}
    ensures var l := Run(c, trace + Same("a", time, n));
      l.buckets.Keys == {"a", "b"} && l.buckets["a"] == Bucket((c.burst - n) as real, time)
    ensures Passes(c, Run(c, trace + Same("a", time, n - 1)), Request("a", time))
  {
    hide Run, KeeperRun, KeeperAfter, After, Passes, Same;
    var r := Request("a", time);
    var before := trace + Same("a", time, n - 1);
    OneMore(trace, time, n);
    RunMore(c, before, r);
    if n == 1 {
    } else {
      StartsAgain(c, trace, time, n - 1);
    }
    StartAgain(c, Run(c, before), time, n);
  }

  lemma OneMore(trace: seq<Request>, time: real, n: nat)
    requires n > 0
    ensures trace + Same("a", time, n) == trace + Same("a", time, n - 1) + [Request("a", time)]
    ensures trace + Same("a", time, 0) == trace
  {}

  lemma PrefixOfAll(trace: seq<Request>, time: real, n: nat, total: nat)
    requires 0 < n <= total
    ensures var all := trace + Same("a", time, total);
      && |all| == |trace| + total && all[|trace| + n - 1] == Request("a", time)
      && all[..|trace| + n - 1] == trace + Same("a", time, n - 1)
  {}

  lemma {:induction false} AllPass(c: Config, trace: seq<Request>, time: real, n: nat)
    requires c.limit > 0.0 && n <= c.burst && Run(c, trace).buckets.Keys == {"b"}
    ensures var all := trace + Same("a", time, c.burst); Admitted(c, all, "a", |trace|, |trace| + n) == n
  {
    hide Run, KeeperRun, After, Passes, Same;
    if n > 0 {
      PrefixOfAll(trace, time, n, c.burst);
      AllPass(c, trace, time, n - 1);
      StartsAgain(c, trace, time, n);
    } else {
      assert |trace + Same("a", time, c.burst)| >= |trace|;
    }
  }

  /** A time between the timeout and the time the burst takes to refill. */
  lemma TooShort(c: Config) returns (time: real)
    requires c.limit > 0.0 && c.burst as real > Refill(c, IP_IDLE_TIMEOUT)
    ensures c.burst >= 1 && time > IP_IDLE_TIMEOUT && Refill(c, time) < c.burst as real
  {
    var refill := c.burst as real / c.limit;
    assert Refill(c, refill) == c.burst as real;
    assert Refill(c, IP_IDLE_TIMEOUT) > 0.0;
    assert refill > IP_IDLE_TIMEOUT by {
      if refill <= IP_IDLE_TIMEOUT {
        RefillAdds(c, IP_IDLE_TIMEOUT - refill, refill);
      }
    }
    time := (IP_IDLE_TIMEOUT + refill) / 2.0;
    RefillAdds(c, refill - time, time);
    assert Refill(c, refill - time) > 0.0;
  }

  lemma FewTokens(c: Config, k: Keeper, time: real)
    requires "a" in k && k["a"] == Bucket(0.0, 0.0)
    ensures Tokens(c, k, "a", time) <= Refill(c, time)
  {
    hide Refill;
  }

  lemma MorePassThanTokens(c: Config, trace: seq<Request>, i: nat, time: real)
    requires c.limit > 0.0 && c.burst >= 1 && Refill(c, time) < c.burst as real && Monotone(trace) && i < |trace|
    requires trace[i].time == time == trace[|trace| - 1].time
    requires "a" in KeeperRun(c, trace[..i]) && KeeperRun(c, trace[..i])["a"] == Bucket(0.0, 0.0)
    requires Admitted(c, trace, "a", i, |trace|) == c.burst
    ensures !SameDecisions(c, trace)
  {
    hide SameDecisions, KeeperAdmitted, Admitted, KeeperRun, Tokens;
    RefillAdds(c, 0.0, 0.0);
    hide Refill;
    if SameDecisions(c, trace) {
      SameAdmitted(c, trace, "a", i, |trace|);
      FewTokens(c, KeeperRun(c, trace[..i]), time);
      WindowSpends(c, trace, "a", i, |trace|);
      TokensLeft(c, trace, "a", |trace| - 1);
      assert false;
    }
  }

  lemma NotEmpty(c: Config, trace: seq<Request>)
    requires Crowded(Run(c, trace), MAX_IP_BUCKETS - 1)
    ensures |trace| > 0
  {}

  lemma SweptTrace(c: Config, time: real) returns (swept: seq<Request>)
    requires c.limit > 0.0 && c.burst >= 1 && time > IP_IDLE_TIMEOUT
    ensures Monotone(swept) && Now(swept) == time && swept != []
    ensures Run(c, swept).buckets.Keys == {"b"}
    ensures "a" in KeeperRun(c, swept) && KeeperRun(c, swept)["a"] == Bucket(0.0, 0.0)
    ensures swept[0].time == 0.0 && Admitted(c, swept, "a", 0, |swept|) == c.burst
  {
    var start := Filled(c, MAX_IP_BUCKETS - 1);
    RunMore(c, start, Request("b", time));
    CrowdSwept(c, Run(c, start), time);
    AdmittedMore(c, start, Request("b", time), "a");
    NotEmpty(c, start);
    hide Run, KeeperRun, After, Crowded, Admitted;
    swept := start + [Request("b", time)];
  }

  lemma StillMonotone(trace: seq<Request>, time: real, n: nat)
    requires Monotone(trace) && trace != [] && Now(trace) == time && n > 0
    ensures var all := trace + Same("a", time, n);
      && Monotone(all) && |all| == |trace| + n && all[..|trace|] == trace
      && all[|trace|].time == time == all[|all| - 1].time
  {}

  lemma Differs(c: Config, swept: seq<Request>, time: real)
    requires c.limit > 0.0 && c.burst >= 1 && Refill(c, time) < c.burst as real
    requires Monotone(swept) && Now(swept) == time && swept != []
    requires Run(c, swept).buckets.Keys == {"b"}
    requires "a" in KeeperRun(c, swept) && KeeperRun(c, swept)["a"] == Bucket(0.0, 0.0)
    ensures var trace := swept + Same("a", time, c.burst); Monotone(trace) && !SameDecisions(c, trace)
  {
    hide Refill, Run, KeeperRun, Admitted, SameDecisions, Monotone, Same, Now;
    var trace := swept + Same("a", time, c.burst);
    StillMonotone(swept, time, c.burst);
    AllPass(c, swept, time, c.burst);
    MorePassThanTokens(c, trace, |swept|, time);
  }

  /** The trace on which the limiters differ. */
  lemma EvictionShows(c: Config) returns (trace: seq<Request>)
    requires c.limit > 0.0 && c.burst as real > Refill(c, IP_IDLE_TIMEOUT)
    ensures Monotone(trace) && !SameDecisions(c, trace)
  {
    hide Refill, Run, KeeperRun, SameDecisions, Monotone, Same, Now;
    var time := TooShort(c);
    var swept := SweptTrace(c, time);
    Differs(c, swept, time);
    trace := swept + Same("a", time, c.burst);
  }

  /** The admissions of an address in a window stay within the burst and the refill. */
  predicate Bounded(c: Config, trace: seq<Request>, ip: string, i: nat, j: nat)
    requires i <= j < |trace|
  {
    Admitted(c, trace, ip, i, j + 1) as real
    <= (if c.burst > 0 then c.burst as real else 0.0) + Refill(c, trace[j].time - trace[i].time)
  }

  /** On the trace on which the limiters differ, "a" passes with its whole burst twice. */
  lemma BurstTwice(c: Config) returns (trace: seq<Request>)
    requires c.limit > 0.0 && c.burst as real > Refill(c, IP_IDLE_TIMEOUT)
    ensures Monotone(trace) && trace != [] && !Bounded(c, trace, "a", 0, |trace| - 1)
  {
    hide Refill, Run, KeeperRun, Decision, Monotone, Same, Now, Admitted;
    var time := TooShort(c);
    var swept := SweptTrace(c, time);
    var n: nat := c.burst;
    trace := swept + Same("a", time, n);
    StillMonotone(swept, time, n);
    AllPass(c, swept, time, n);
    AdmittedPrefix(c, swept, Same("a", time, n), "a", 0, |swept|);
    AdmittedSplit(c, trace, "a", 0, |swept|, |trace|);
    assert trace[0] == swept[0];
  }

  /** With a limit, every window of every trace stays within the bound exactly when the burst refills
      within the idle timeout. */
  lemma WindowBoundIff(c: Config)
    requires c.limit > 0.0
    ensures (forall trace, ip, i: nat, j: nat :: Monotone(trace) && i <= j < |trace| ==> Bounded(c, trace, ip, i, j))
            <==> c.burst as real <= Refill(c, IP_IDLE_TIMEOUT)
  {
    if c.burst as real <= Refill(c, IP_IDLE_TIMEOUT) {
      hide Monotone, Admitted, Refill;
      forall trace, ip, i: nat, j: nat | Monotone(trace) && i <= j < |trace| ensures Bounded(c, trace, ip, i, j) {
        WindowBound(c, trace, ip, i, j);
      }
    } else {
      hide Monotone, Bounded, Refill;
      var trace := BurstTwice(c);
    }
  }

  /** Evicting idle buckets changes no decision on any trace exactly when there is no limit or the
      burst refills within the idle timeout. */
  lemma EvictionInvisibleIff(c: Config)
    ensures (forall trace :: Monotone(trace) ==> SameDecisions(c, trace))
            <==> c.limit <= 0.0 || c.burst as real <= Refill(c, IP_IDLE_TIMEOUT)
  {
    hide Monotone, SameDecisions, Refill;
    if c.limit <= 0.0 || c.burst as real <= Refill(c, IP_IDLE_TIMEOUT) {
      forall trace | Monotone(trace) ensures SameDecisions(c, trace) {
        EvictionIsInvisible(c, trace);
      }
    } else {
      var trace := EvictionShows(c);
    }
  }

  // ---------- which requests are refused ----------

  /** The bucket that the address has after `n` requests was full at request `i` and has not
      been filled up since. */
  ghost predicate FullSince(c: Config, trace: seq<Request>, ip: string, i: nat, n: nat)
    requires i < n <= |trace|
  {
    && ip in Run(c, trace[..n]).buckets
    && var b := Run(c, trace[..n]).buckets[ip];
       b.tokens == c.burst as real + Refill(c, b.last - trace[i].time) - Admitted(c, trace, ip, i, n) as real
  }

  /** What a request does to the bucket it finds or makes. */
  lemma RequestTakes(c: Config, trace: seq<Request>, n: nat)
    requires c.limit > 0.0 && n < |trace|
    ensures var r, l, l' := trace[n], Run(c, trace[..n]), Run(c, trace[..n + 1]);
      var b := if r.ip in l.buckets then l.buckets[r.ip] else Full(c, r.time);
      && r.ip in l'.buckets && l'.buckets[r.ip] == Take(c, b, r.time)
      && Decision(c, trace, n) == Allowed(c, b, r.time)
  {
    RunMore(c, trace[..n], trace[n]);
    assert trace[..n + 1] == trace[..n] + [trace[n]];
    hide Run, Swept, Allowed, Take, Full;
  }

  lemma AdmittedNext(c: Config, trace: seq<Request>, i: nat, n: nat)
    requires i <= n < |trace|
    ensures Admitted(c, trace, trace[n].ip, i, n + 1)
            == Admitted(c, trace, trace[n].ip, i, n) + One(Decision(c, trace, n))
    ensures Admitted(c, trace, trace[n].ip, n, n) == 0
  {
    hide Decision;
  }

  /** A bucket that had `admitted` tokens taken since it was full at `start` has what the refill
      since leaves, unless it is full again. */
  lemma LevelSince(c: Config, b: Bucket, start: real, admitted: nat, now: real)
    requires c.limit > 0.0 && b.tokens == c.burst as real + Refill(c, b.last - start) - admitted as real
    ensures Level(c, b, now) == c.burst as real
            || Level(c, b, now) == c.burst as real + Refill(c, now - start) - admitted as real
  {
    RefillAdds(c, now - b.last, b.last - start);
    assert (now - b.last) + (b.last - start) == now - start;
    hide Refill;
  }

  /** A bucket that is not a new one. */
  lemma RequestKeepsCount(c: Config, trace: seq<Request>, i: nat, n: nat)
    requires c.limit > 0.0 && c.burst >= 1 && i < n < |trace| && FullSince(c, trace, trace[n].ip, i, n)
    ensures FullSince(c, trace, trace[n].ip, i, n + 1) || FullSince(c, trace, trace[n].ip, n, n + 1)
    ensures !Decision(c, trace, n) ==>
      Admitted(c, trace, trace[n].ip, i, n) as real + 1.0 > c.burst as real + Refill(c, trace[n].time - trace[i].time)
  {
    hide Run, Decision, Admitted, Refill, Level;
    var b := Run(c, trace[..n]).buckets[trace[n].ip];
    RequestTakes(c, trace, n);
    AdmittedNext(c, trace, i, n);
    AdmittedNext(c, trace, n, n);
    LevelSince(c, b, trace[i].time, Admitted(c, trace, trace[n].ip, i, n), trace[n].time);
    RefillAdds(c, 0.0, 0.0);
    assert trace[n].time - trace[n].time == 0.0;
  }

  /** A new bucket is full. */
  lemma NewcomerIsFull(c: Config, trace: seq<Request>, n: nat)
    requires c.limit > 0.0 && c.burst >= 1 && n < |trace| && trace[n].ip !in Run(c, trace[..n]).buckets
    ensures FullSince(c, trace, trace[n].ip, n, n + 1) && Decision(c, trace, n)
  {
    hide Run, Decision, Admitted, Refill;
    RequestTakes(c, trace, n);
    AdmittedNext(c, trace, n, n);
    RefillAdds(c, 0.0, 0.0);
    assert trace[n].time - trace[n].time == 0.0;
  }

  lemma OtherBucketStays(c: Config, l: Limiter, r: Request, ip: string)
    requires c.limit > 0.0 && ip != r.ip && ip in After(c, l, r).buckets
    ensures ip in l.buckets && After(c, l, r).buckets[ip] == l.buckets[ip]
  {
    hide Take;
  }

  lemma OtherKeepsCount(c: Config, trace: seq<Request>, ip: string, i: nat, n: nat)
    requires c.limit > 0.0 && i <= n < |trace| && ip != trace[n].ip && ip in Run(c, trace[..n + 1]).buckets
    ensures ip in Run(c, trace[..n]).buckets
    ensures i < n && FullSince(c, trace, ip, i, n) ==> FullSince(c, trace, ip, i, n + 1)
  {
    hide Run, Refill, After, Decision;
    RunMore(c, trace[..n], trace[n]);
    assert trace[..n + 1] == trace[..n] + [trace[n]];
    OtherBucketStays(c, Run(c, trace[..n]), trace[n], ip);
  }

  /** Every bucket was full at some request and only counted down since. */
  lemma {:induction false} FullOnce(c: Config, trace: seq<Request>, ip: string, n: nat) returns (i: nat)
    requires c.limit > 0.0 && c.burst >= 1 && n <= |trace| && ip in Run(c, trace[..n]).buckets
    ensures i < n && FullSince(c, trace, ip, i, n)
    decreases n
  {
    hide Run, After, Refill, Decision, FullSince, Admitted;
    if n == 0 {
      NothingAtFirst(c, trace, ip);
    } else if ip != trace[n - 1].ip {
      OtherKeepsCount(c, trace, ip, n - 1, n - 1);
      i := FullOnce(c, trace, ip, n - 1);
      OtherKeepsCount(c, trace, ip, i, n - 1);
    } else if ip !in Run(c, trace[..n - 1]).buckets {
      NewcomerIsFull(c, trace, n - 1);
      i := n - 1;
    } else {
      i := FullOnce(c, trace, ip, n - 1);
      RequestKeepsCount(c, trace, i, n - 1);
      if !FullSince(c, trace, ip, i, n) {
        i := n - 1;
      }
    }
  }

  lemma NothingAtFirst(c: Config, trace: seq<Request>, ip: string)
    ensures ip !in Run(c, trace[..0]).buckets
  {}

  /** A bucket lets a request through exactly with a burst and a whole token, refilled since its
      last use. */
  lemma AllowedIs(c: Config, b: Bucket, now: real, refill: real)
    requires refill == (now - b.last) * c.limit
    ensures Allowed(c, b, now) <==> c.burst >= 1 && b.tokens + refill >= 1.0
  {
    hide Refill;
    RefillIs(c, now - b.last);
  }

  /** A new bucket has its burst. */
  lemma NewAllowed(c: Config, now: real)
    ensures Allowed(c, Full(c, now), now) <==> c.burst >= 1
  {
    hide Refill;
    NothingRefills(c, now);
  }

  lemma NothingRefills(c: Config, now: real)
    ensures Refill(c, now - now) == 0.0
  {
    assert now - now == 0.0;
  }

  /** With request `j` admitted, the window from request `i` on would stay within the bound. */
  predicate WithinBound(c: Config, trace: seq<Request>, i: nat, j: nat)
    requires i <= j < |trace|
  {
    Admitted(c, trace, trace[j].ip, i, j) as real + 1.0
    <= c.burst as real + (trace[j].time - trace[i].time) * c.limit
  }

  lemma RefillIs(c: Config, d: real)
    ensures Refill(c, d) == d * c.limit
  {}

  /** A request is refused only when admitting it would break the bound of some window. */
  lemma RefusalHasReason(c: Config, trace: seq<Request>, j: nat) returns (i: nat)
    requires c.limit > 0.0 && c.burst >= 1 && j < |trace| && !Decision(c, trace, j)
    ensures i <= j && !WithinBound(c, trace, i, j)
  {
    hide Run, Refill, Decision, FullSince, Admitted;
    if trace[j].ip !in Run(c, trace[..j]).buckets {
      NewcomerIsFull(c, trace, j);
    } else {
      i := FullOnce(c, trace, trace[j].ip, j);
      RequestKeepsCount(c, trace, i, j);
      RefillIs(c, trace[j].time - trace[i].time);
    }
  }

  /** Without a limit every request passes, and without a burst none does. Otherwise, while the
      burst refills within the idle timeout, a request passes exactly when no window that ends
      with it would exceed its bound. */
  lemma DecisionIff(c: Config, trace: seq<Request>, j: nat)
    requires Monotone(trace) && j < |trace|
    ensures c.limit <= 0.0 ==> Decision(c, trace, j)
    ensures c.limit > 0.0 && c.burst < 1 ==> !Decision(c, trace, j)
    ensures c.limit > 0.0 && c.burst >= 1 && c.burst as real <= 600.0 * c.limit ==>
      (Decision(c, trace, j) <==> forall i: nat :: i <= j ==> WithinBound(c, trace, i, j))
  {
    if c.limit > 0.0 && c.burst >= 1 && c.burst as real <= 600.0 * c.limit {
      RefillIs(c, IP_IDLE_TIMEOUT);
      hide Run, Refill, Monotone;
      if Decision(c, trace, j) {
        forall i: nat | i <= j ensures WithinBound(c, trace, i, j) {
          WindowBound(c, trace, trace[j].ip, i, j);
          RefillIs(c, trace[j].time - trace[i].time);
        }
      } else {
        var i := RefusalHasReason(c, trace, j);
      }
    }
  }

  // ---------- which addresses are remembered ----------

  /** Another address is dropped exactly when a newcomer finds the map full and this address idle
      for more than ten minutes; otherwise it keeps its bucket. */
  lemma WhoIsDropped(c: Config, l: Limiter, r: Request, ip: string)
    requires c.limit > 0.0 && l.buckets.Keys == l.lastSeen.Keys && ip in l.buckets && ip != r.ip
    ensures var l' := After(c, l, r);
      && (ip !in l'.buckets <==>
            r.ip !in l.buckets && |l.buckets| >= 10_000 && r.time - l.lastSeen[ip] > 600.0)
      && (ip in l'.buckets ==> ip in l'.lastSeen
                               && l'.buckets[ip] == l.buckets[ip] && l'.lastSeen[ip] == l.lastSeen[ip])
  {}

  /** Every address kept was active no more than the timeout before request `n`. */
  ghost predicate ActiveAt(c: Config, trace: seq<Request>, n: nat)
    requires n < |trace|
  {
    var l := Run(c, trace);
    forall ip :: ip in l.buckets ==> ip in l.lastSeen && trace[n].time - l.lastSeen[ip] <= IP_IDLE_TIMEOUT
  }

  ghost predicate LastSeenBefore(l: Limiter, now: real) {
    forall ip :: ip in l.lastSeen ==> l.lastSeen[ip] <= now
  }

  lemma {:induction false} SeenInThePast(c: Config, trace: seq<Request>, now: real)
    requires Monotone(trace) && (trace != [] ==> Now(trace) <= now)
    ensures LastSeenBefore(Run(c, trace), now)
    decreases |trace|
  {
    if trace == [] {
    } else {
      var before := trace[..|trace| - 1];
      assert before != [] ==> Now(before) == trace[|trace| - 2].time;
      SeenInThePast(c, before, now);
    }
  }

  /** The maps hold no more than ten thousand addresses, unless all of them were active within the
      idle timeout before the last newcomer. */
  lemma {:induction false} BucketsBounded(c: Config, trace: seq<Request>) returns (n: nat)
    requires c.limit > 0.0 && Monotone(trace)
    ensures |Run(c, trace).buckets| <= MAX_IP_BUCKETS || (n < |trace| && ActiveAt(c, trace, n))
    decreases |trace|
  {
    n := 0;
    if trace == [] {
    } else {
      var before, r := trace[..|trace| - 1], trace[|trace| - 1];
      n := BucketsBounded(c, before);
      KeySetsEqual(c, before);
      SeenInThePast(c, before, r.time);
      var l := Run(c, before);
      if r.ip !in l.buckets {
        n := |trace| - 1;
        NewcomerBounded(c, l, r);
      } else {
        KnownKeepsActive(c, l, r);
      }
    }
  }

  lemma NewcomerBounded(c: Config, l: Limiter, r: Request)
    requires c.limit > 0.0 && r.ip !in l.buckets && l.buckets.Keys == l.lastSeen.Keys
    ensures var l' := After(c, l, r);
      |l'.buckets| <= MAX_IP_BUCKETS
      || forall ip :: ip in l'.buckets ==> ip in l'.lastSeen && r.time - l'.lastSeen[ip] <= IP_IDLE_TIMEOUT
  {
    if |l.buckets| < MAX_IP_BUCKETS {
      assert After(c, l, r).buckets.Keys == l.buckets.Keys + {r.ip};
      assert |l.buckets| == |l.buckets.Keys|;
      assert |After(c, l, r).buckets| == |After(c, l, r).buckets.Keys|;
    }
  }

  lemma KnownKeepsActive(c: Config, l: Limiter, r: Request)
    requires c.limit > 0.0 && r.ip in l.buckets && LastSeenBefore(l, r.time) && l.buckets.Keys == l.lastSeen.Keys
    ensures var l' := After(c, l, r);
      && |l'.buckets| == |l.buckets|
      && forall ip :: ip in l'.buckets ==> ip in l.lastSeen && ip in l'.lastSeen && l.lastSeen[ip] <= l'.lastSeen[ip]
  {
    assert After(c, l, r).buckets.Keys == l.buckets.Keys;
    assert |l.buckets| == |l.buckets.Keys|;
    assert |After(c, l, r).buckets| == |After(c, l, r).buckets.Keys|;
  }
}

/// The limiter as a program.
module RateLimitStore {
  import opened RateLimit

  /** The limiter with the idle ones among these addresses dropped. */
  ghost function SweptOf(l: Limiter, ips: set<string>, now: real): Limiter {
    Limiter(map ip | ip in l.buckets && !(ip in ips && IdleFor(l, ip, now)) :: l.buckets[ip],
            map ip | ip in l.lastSeen && !(ip in ips && IdleFor(l, ip, now)) :: l.lastSeen[ip])
  }

  lemma SweepOne(l: Limiter, ips: set<string>, ip: string, now: real)
    requires ip in l.lastSeen && ip !in ips
    ensures var m := SweptOf(l, ips, now);
      && ip in m.lastSeen && m.lastSeen[ip] == l.lastSeen[ip]
      && SweptOf(l, ips + {ip}, now)
         == if now - l.lastSeen[ip] > IP_IDLE_TIMEOUT then Limiter(m.buckets - {ip}, m.lastSeen - {ip}) else m
  {}

  lemma SweptOfNoneAndAll(l: Limiter, now: real)
    ensures SweptOf(l, {}, now) == l && SweptOf(l, l.lastSeen.Keys, now) == Swept(l, now)
  {}

  class IpRateLimiter {
    const config: Config
    var buckets: map<string, Bucket>
    var lastSeen: map<string, real>

    function View(): Limiter
      reads this
    {
      Limiter(buckets, lastSeen)
    }

    constructor (config: Config)
      ensures this.config == config && View() == EMPTY
    {
      this.config := config;
      buckets, lastSeen := map[], map[];
    }

    method SweepIdle(now: real)
      modifies `buckets, `lastSeen
      ensures View() == Swept(old(View()), now)
    {
      ghost var l := View();
      ghost var done: set<string> := {};
      var left := lastSeen.Keys;
      SweptOfNoneAndAll(l, now);
      hide SweptOf, Swept;
      while left != {}
        invariant done + left == l.lastSeen.Keys && done !! left
        invariant View() == SweptOf(l, done, now)
        decreases |left|
      {
        var ip :| ip in left;
        left := left - {ip};
        SweepOne(l, done, ip, now);
        if now - lastSeen[ip] > IP_IDLE_TIMEOUT {
          buckets := buckets - {ip};
          lastSeen := lastSeen - {ip};
        }
        done := done + {ip};
      }
      assert done == l.lastSeen.Keys;
    }

    method BucketFor(ip: string, now: real) returns (b: Bucket)
      modifies `buckets, `lastSeen
      ensures View() == WithBucket(config, old(View()), ip, now) && b == buckets[ip]
    {
      if ip in buckets {
        lastSeen := lastSeen[ip := now];
        return buckets[ip];
      }
      if |buckets| >= MAX_IP_BUCKETS {
        SweepIdle(now);
      }
      b := Full(config, now);
      buckets := buckets[ip := b];
      lastSeen := lastSeen[ip := now];
    }

    method Serve(r: Request) returns (passes: bool)
      modifies `buckets, `lastSeen
      ensures passes == Passes(config, old(View()), r) && View() == After(config, old(View()), r)
      ensures config.limit <= 0.0 ==> passes && View() == old(View())
      ensures config.limit > 0.0 && r.ip !in old(buckets) ==> (passes <==> config.burst >= 1)
      ensures config.limit > 0.0 && r.ip in old(buckets) ==>
        var b := old(buckets)[r.ip];
        (passes <==> config.burst >= 1 && b.tokens + (r.time - b.last) * config.limit >= 1.0)
    {
      if config.limit <= 0.0 {
        return true;
      }
      var b := BucketFor(r.ip, r.time);
      AllowedIs(config, b, r.time, (r.time - b.last) * config.limit);
      NewAllowed(config, r.time);
      hide Allowed, Level, Refill;
      passes := Allowed(config, b, r.time);
      buckets := buckets[r.ip := Take(config, b, r.time)];
    }
  }
}
