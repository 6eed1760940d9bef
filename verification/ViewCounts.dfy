/// View counts: views go to a counter in the cache, and a flusher moves the counters to the
/// article rows in separate steps, while views go on and keys expire.

module ViewKeys {
  import opened Options
  import opened Decimals

  const VIEW_PREFIX := "ley:article:view:"
  const DEDUP_PREFIX := "ley:article:dedup:"
  const UINT64_LIMIT: nat := 0x1_0000_0000_0000_0000
  const MAX_INT64: nat := 0x7fff_ffff_ffff_ffff

  type Id = n: nat | n < UINT64_LIMIT

  function ViewKey(id: Id): string {
    VIEW_PREFIX + Decimal(id)
  }

  function DedupKey(id: Id, ip: string): string {
    DEDUP_PREFIX + Decimal(id) + ":" + ip
  }

  /** The parts of a key between colons. */
  function Split(s: string): (parts: seq<string>)
    ensures |parts| > 0
  {
    if s == "" then [""]
    else if s[0] == ':' then [""] + Split(s[1..])
    else
      var rest := Split(s[1..]);
      [[s[0]] + rest[0]] + rest[1..]
  }

  /** The article id in the fourth part of a key. */
  function KeyId(key: string): Option<Id> {
    var parts := Split(key);
    if |parts| < 4 then None
    else
      match Parse(parts[3])
      case None => None
      case Some(id) => if id < UINT64_LIMIT then Some(id as Id) else None
  }

  /** The number in a counter, when it is one that a flush applies. */
  function Delta(raw: string): Option<nat> {
    match Parse(raw)
    case None => None
    case Some(n) => if 0 < n <= MAX_INT64 then Some(n) else None
  }

  lemma {:induction false} SplitAtColon(word: string, rest: string)
    requires ':' !in word
    ensures Split(word + ":" + rest) == [word] + Split(rest)
  {
    if word == "" {
      assert (word + ":" + rest)[1..] == rest;
    } else {
      assert (word + ":" + rest)[1..] == word[1..] + ":" + rest;
      SplitAtColon(word[1..], rest);
      assert [word[0]] + word[1..] == word;
    }
  }

  lemma {:induction false} SplitWord(word: string)
    requires ':' !in word
    ensures Split(word) == [word]
  {
    if word == "" {
    } else {
      SplitWord(word[1..]);
      assert [word[0]] + word[1..] == word;
    }
  }

  /** A view key reads back as the id it was printed for. */
  lemma ViewKeyReadsBack(id: Id)
    ensures KeyId(ViewKey(id)) == Some(id)
  {
    hide Decimal, Parse, Split;
    var digits := Decimal(id);
    ParseOfDecimal(id);
    SplitWord(digits);
    var three := "view" + ":" + digits;
    var two := "article" + ":" + three;
    SplitAtColon("view", digits);
    SplitAtColon("article", three);
    SplitAtColon("ley", two);
    assert ViewKey(id) == "ley" + ":" + two;
    assert Split(ViewKey(id)) == ["ley", "article", "view", digits];
  }

  /** A printed number counts from one up to the largest 64-bit number. */
  lemma DeltaReads(n: nat)
    ensures Delta(Decimal(n)) == if 1 <= n <= 0x7FFF_FFFF_FFFF_FFFF then Some(n) else None
  {
    ParseOfDecimal(n);
  }

  /** The key that stops repeated views names one article and one visitor. */
  lemma DedupKeyIsUnique(id: Id, ip: string, id': Id, ip': string)
    requires DedupKey(id, ip) == DedupKey(id', ip')
    ensures id == id' && ip == ip'
  {
    var n := |DEDUP_PREFIX|;
    var a, b := Decimal(id) + ":" + ip, Decimal(id') + ":" + ip';
    assert DedupKey(id, ip)[n..] == a && DedupKey(id', ip')[n..] == b;
    SplitAtColon(Decimal(id), ip);
    SplitAtColon(Decimal(id'), ip');
    assert Decimal(id) == Split(a)[0] == Split(b)[0] == Decimal(id');
    ParseOfDecimal(id);
    ParseOfDecimal(id');
    assert a[|Decimal(id)| + 1..] == ip && b[|Decimal(id)| + 1..] == ip';
  }
}

module ViewCounts {
  import opened Options
  import opened Decimals
  import opened ViewKeys

  // ---------- state ----------

  /** An article's row; an update does not reach a deleted one. */
  datatype Row = Row(views: int, live: bool)

  /** Where the flusher stands. `counts` are the numbers it read, and `gone` the ids among them
      whose keys have been removed since. */
  datatype Flusher =
    | Idle
    | Scanned(keys: seq<string>)
    | Held(keys: seq<string>, counts: map<Id, nat>, gone: set<Id>)
    | Deleting(keys: seq<string>, counts: map<Id, nat>, gone: set<Id>)

  /** What happened to the views of an article: how many were counted, removed from the cache
      before any flush committed them, flushed to no live row, and added to the row again. */
  datatype Tally = Tally(counted: int, lost: int, dropped: int, repeated: int)

  /** `stale` is the part of each counter that an earlier flush committed and failed to delete; it
      and `tally` are history. */
  datatype State = State(
    rows: map<Id, Row>, buffer: map<string, nat>, seen: set<string>, flusher: Flusher,
    stale: map<Id, nat>, tally: map<Id, Tally>)

  const EMPTY := State(map[], map[], {}, Idle, map[], map[])

  function Db(s: State, id: Id): int {
    if id in s.rows then s.rows[id].views else 0
  }

  function Buffered(s: State, id: Id): int {
    if ViewKey(id) in s.buffer then s.buffer[ViewKey(id)] else 0
  }

  function T(s: State, id: Id): Tally {
    if id in s.tally then s.tally[id] else Tally(0, 0, 0, 0)
  }

  function Stale(s: State, id: Id): nat {
    if id in s.stale then s.stale[id] else 0
  }

  predicate Busy(f: Flusher) {
    f.Held? || f.Deleting?
  }

  /** Whether the flusher has read a number for the article. */
  predicate Watched(s: State, id: Id) {
    Busy(s.flusher) && id in s.flusher.counts
  }

  /** The part of the buffered views that the flusher has read. */
  function Backing(s: State, id: Id): int {
    if Watched(s, id) && id !in s.flusher.gone then s.flusher.counts[id] else 0
  }

  /** Views the flusher still has to commit, although their key is gone. */
  function Carried(s: State, id: Id): int {
    if s.flusher.Held? && id in s.flusher.counts && id in s.flusher.gone then s.flusher.counts[id] else 0
  }

  /** Views that are committed while their key is still to be deleted. */
  function Pending(s: State, id: Id): int {
    if s.flusher.Deleting? then Backing(s, id) else 0
  }

  // ---------- steps ----------

  predicate Live(s: State, id: Id) {
    id in s.rows && s.rows[id].live
  }

  function SetTally(s: State, id: Id, t: Tally): State {
    s.(tally := s.tally[id := t])
  }

  /** The direct update of the row, when the cache fails. */
  function CountInDb(s: State, id: Id): State {
    var t := T(s, id).(counted := T(s, id).counted + 1);
    if Live(s, id) then SetTally(s, id, t).(rows := s.rows[id := s.rows[id].(views := s.rows[id].views + 1)])
    else SetTally(s, id, t.(dropped := t.dropped + 1))
  }

  /** The increment of the counter in the cache. */
  function CountInCache(s: State, id: Id): State {
    SetTally(s, id, T(s, id).(counted := T(s, id).counted + 1)).(
      buffer := s.buffer[ViewKey(id) := Buffered(s, id) + 1])
  }

  /** ViewArticle: the id zero is refused, a repeated view is not counted, and failures of the
      cache fall back to the row. An increment also fails at the largest 64-bit number. */
  function View(s: State, id: Id, ip: string, dedupWorks: bool, incrWorks: bool): (State, bool) {
    if id == 0 then (s, false)
    else if !dedupWorks then (CountInDb(s, id), true)
    else if DedupKey(id, ip) in s.seen then (s, false)
    else
      var s' := s.(seen := s.seen + {DedupKey(id, ip)});
      if !incrWorks || Buffered(s, id) >= MAX_INT64 then (CountInDb(s', id), true) else (CountInCache(s', id), true)
  }

  /** A view key goes, by expiry or deletion. What is lost are the views that neither the flusher
      has read nor an earlier flush has committed. */
  function RemoveKey(s: State, key: string): State {
    if key !in s.buffer || KeyId(key).None? then s
    else
      var id := KeyId(key).value;
      var t := T(s, id);
      var known := if Watched(s, id) then Backing(s, id) else Stale(s, id);
      var s' := SetTally(s, id, t.(lost := t.lost + Buffered(s, id) - known));
      s'.(buffer := s.buffer - {key},
          stale := if Watched(s, id) then s.stale else s.stale - {id},
          flusher := if Busy(s.flusher) then s.flusher.(gone := s.flusher.gone + {id}) else s.flusher)
  }

  /** The values of the keys that are there. */
  function MGet(buffer: map<string, nat>, keys: seq<string>): map<string, string> {
    map k | k in keys && k in buffer :: Decimal(buffer[k])
  }

  /** The ids and numbers in what was read. */
  function CountsOf(kv: map<string, string>): map<Id, nat> {
    map id | id in (set k | k in kv && KeyId(k).Some? :: KeyId(k).value)
             && ViewKey(id) in kv && Delta(kv[ViewKey(id)]).Some? :: Delta(kv[ViewKey(id)]).value
  }

  function AddCounts(rows: map<Id, Row>, counts: map<Id, nat>): map<Id, Row> {
    map id | id in rows ::
      if id in counts && rows[id].live then rows[id].(views := rows[id].views + counts[id]) else rows[id]
  }

  /** The flusher goes on with what it read, if that is anything. */
  function ReadCounts(s: State, counts: map<Id, nat>): State
    requires s.flusher.Scanned?
  {
    s.(flusher := if counts == map[] then Idle else Held(s.flusher.keys, counts, {}))
  }

  /** The row of an id that was read moves on, if it is live; what it had already is repeated. */
  function CommitTally(s: State, id: Id): Tally
    requires s.flusher.Held?
  {
    var t := T(s, id);
    if id !in s.flusher.counts then t
    else if Live(s, id) then t.(repeated := t.repeated + Stale(s, id))
    else t.(dropped := t.dropped + s.flusher.counts[id] - Stale(s, id))
  }

  function Committed(s: State): State
    requires s.flusher.Held?
  {
    var f := s.flusher;
    s.(rows := AddCounts(s.rows, f.counts), flusher := Deleting(f.keys, f.counts, f.gone),
       stale := s.stale - f.counts.Keys,
       tally := map id | id in s.tally.Keys + f.counts.Keys :: CommitTally(s, id))
  }

  /** Numbers read from keys that have gone since are lost, but for what an earlier flush committed. */
  function RollbackTally(s: State, id: Id): Tally
    requires s.flusher.Held?
  {
    var t := T(s, id);
    if id in s.flusher.counts && id in s.flusher.gone then
      t.(lost := t.lost + s.flusher.counts[id] - Stale(s, id))
    else t
  }

  function RolledBack(s: State): State
    requires s.flusher.Held?
  {
    s.(flusher := Idle, stale := s.stale - (s.flusher.counts.Keys * s.flusher.gone),
       tally := map id | id in s.tally.Keys + s.flusher.counts.Keys :: RollbackTally(s, id))
  }

  /** Committed numbers whose keys were not deleted stay in the cache. */
  function Finished(s: State): State
    requires s.flusher.Deleting?
  {
    var f := s.flusher;
    s.(flusher := Idle, stale := s.stale + map id | id in f.counts.Keys - f.gone :: f.counts[id])
  }

  datatype Event =
    | ViewArticle(id: Id, ip: string, dedupWorks: bool, incrWorks: bool)
    | Expire(key: string)
    | ForgetVisitor(key: string)
    | NewArticle(id: Id)
    | RemoveArticle(id: Id)
    | Scan(keys: seq<string>)
    | Read(ok: bool)
    | Commit(ok: bool)
    | Delete(ok: bool)
    | Finish

  predicate Enabled(s: State, e: Event) {
    match e
    case NewArticle(id) => id !in s.rows
    case Scan(keys) => s.flusher.Idle? && forall k :: k in keys ==> VIEW_PREFIX <= k
    case Read(_) => s.flusher.Scanned?
    case Commit(_) => s.flusher.Held?
    case Delete(_) => s.flusher.Deleting? && s.flusher.keys != []
    case Finish => s.flusher.Deleting? && s.flusher.keys == []
    case _ => true
  }

  function Next(s: State, e: Event): State
    requires Enabled(s, e)
  {
    match e
    case ViewArticle(id, ip, dedupWorks, incrWorks) => View(s, id, ip, dedupWorks, incrWorks).0
    case Expire(key) => RemoveKey(s, key)
    case ForgetVisitor(key) => s.(seen := s.seen - {key})
    case NewArticle(id) => s.(rows := s.rows[id := Row(0, true)])
    case RemoveArticle(id) => if Live(s, id) then s.(rows := s.rows[id := s.rows[id].(live := false)]) else s
    case Scan(keys) => if keys == [] then s else s.(flusher := Scanned(keys))
    case Read(ok) => if ok then ReadCounts(s, CountsOf(MGet(s.buffer, s.flusher.keys))) else s.(flusher := Idle)
    case Commit(ok) => if ok then Committed(s) else RolledBack(s)
    case Delete(ok) =>
      var s' := if ok then RemoveKey(s, s.flusher.keys[0]) else s;
      s'.(flusher := s'.flusher.(keys := s.flusher.keys[1..]))
    case Finish => Finished(s)
  }

  // ---------- the balance ----------

  /** The counters in the cache belong to articles and hold positive 64-bit numbers. */
  ghost predicate KeysGood(buffer: map<string, nat>) {
    forall k :: k in buffer ==> KeyId(k).Some? && ViewKey(KeyId(k).value) == k && 0 < buffer[k] <= MAX_INT64
  }

  /** Every counted view is in the row, in the cache, with the flusher, or accounted for. */
  ghost predicate Balanced(s: State, id: Id) {
    && Db(s, id) + T(s, id).dropped + Buffered(s, id) + Carried(s, id) + T(s, id).lost
       == T(s, id).counted + Pending(s, id) + Stale(s, id) + T(s, id).repeated
    && 0 <= Backing(s, id) <= Buffered(s, id)
    && Stale(s, id) <= (if Watched(s, id) then if s.flusher.Held? then s.flusher.counts[id] else 0 else Buffered(s, id))
    && T(s, id).lost >= 0 && T(s, id).dropped >= 0 && T(s, id).repeated >= 0
  }

  lemma SameKeySameId(a: Id, b: Id)
    requires ViewKey(a) == ViewKey(b)
    ensures a == b
  {
    ViewKeyReadsBack(a);
    ViewKeyReadsBack(b);
  }

  /** What a flush reads: the buffered views of the ids whose keys it found. */
  lemma ReadIs(buffer: map<string, nat>, keys: seq<string>, id: Id)
    requires KeysGood(buffer)
    ensures var counts := CountsOf(MGet(buffer, keys));
      && (id in counts <==> ViewKey(id) in buffer && ViewKey(id) in keys)
      && (id in counts ==> counts[id] == buffer[ViewKey(id)])
  {
    var kv := MGet(buffer, keys);
    ViewKeyReadsBack(id);
    if ViewKey(id) in kv {
      ParseOfDecimal(buffer[ViewKey(id)]);
      assert Delta(kv[ViewKey(id)]) == Some(buffer[ViewKey(id)]);
      assert id in (set k | k in kv && KeyId(k).Some? :: KeyId(k).value);
    }
  }

  /** What depends on the cache and the flusher alone. */
  lemma SameCache(s: State, s': State, x: Id)
    requires s'.buffer == s.buffer && s'.flusher == s.flusher && s'.stale == s.stale
    ensures Buffered(s', x) == Buffered(s, x) && Stale(s', x) == Stale(s, x) && (Watched(s', x) <==> Watched(s, x))
    ensures Backing(s', x) == Backing(s, x) && Carried(s', x) == Carried(s, x) && Pending(s', x) == Pending(s, x)
  {
    hide ViewKey;
  }

  lemma CountInDbBalances(s: State, id: Id, x: Id)
    requires Balanced(s, x)
    ensures Balanced(CountInDb(s, id), x)
  {
    SameCache(s, CountInDb(s, id), x);
    assert Watched(s, x) ==> x in s.flusher.counts;
    hide Buffered, Stale, Watched, Backing, Carried, Pending;
  }

  lemma CountInCacheBalances(s: State, id: Id, x: Id)
    requires Balanced(s, x)
    ensures Balanced(CountInCache(s, id), x)
  {
    hide ViewKey;
    if x != id && ViewKey(x) == ViewKey(id) {
      SameKeySameId(x, id);
    }
  }

  lemma ViewBalances(s: State, id: Id, ip: string, dedupWorks: bool, incrWorks: bool, x: Id)
    requires Balanced(s, x)
    ensures Balanced(View(s, id, ip, dedupWorks, incrWorks).0, x)
  {
    var s' := s.(seen := s.seen + {DedupKey(id, ip)});
    assert Balanced(s', x);
    hide Balanced, CountInDb, CountInCache, DedupKey;
    CountInDbBalances(s, id, x);
    CountInDbBalances(s', id, x);
    CountInCacheBalances(s', id, x);
  }

  lemma RemovalBalances(s: State, key: string, x: Id)
    requires KeysGood(s.buffer) && Balanced(s, x)
    ensures Balanced(RemoveKey(s, key), x)
  {
    ViewKeyReadsBack(x);
    hide ViewKey, KeyId;
  }

  lemma CommitBalances(s: State, ok: bool, x: Id)
    requires s.flusher.Held? && Balanced(s, x)
    ensures Balanced(if ok then Committed(s) else RolledBack(s), x)
  {
    hide ViewKey;
  }

  lemma FinishBalances(s: State, x: Id)
    requires s.flusher.Deleting? && Balanced(s, x)
    ensures Balanced(Finished(s), x)
  {
    hide ViewKey;
  }

  lemma HoldBalances(s: State, counts: map<Id, nat>, x: Id)
    requires s.flusher.Scanned? && Balanced(s, x) && (x in counts ==> counts[x] == Buffered(s, x))
    ensures Balanced(ReadCounts(s, counts), x)
  {
    hide ViewKey;
  }

  lemma ReadStep(s: State)
    requires s.flusher.Scanned?
    ensures Next(s, Read(true)) == ReadCounts(s, CountsOf(MGet(s.buffer, s.flusher.keys)))
  {}

  lemma ReadBalances(s: State, x: Id)
    requires KeysGood(s.buffer) && s.flusher.Scanned? && Balanced(s, x)
    ensures Balanced(Next(s, Read(true)), x)
  {
    hide Next, ViewKey, CountsOf, MGet, Balanced, KeysGood, ReadCounts;
    ReadIs(s.buffer, s.flusher.keys, x);
    ReadStep(s);
    HoldBalances(s, CountsOf(MGet(s.buffer, s.flusher.keys)), x);
  }

  lemma DeleteBalances(s: State, ok: bool, x: Id)
    requires KeysGood(s.buffer) && s.flusher.Deleting? && s.flusher.keys != [] && Balanced(s, x)
    ensures Balanced(Next(s, Delete(ok)), x)
  {
    hide Balanced, KeysGood, RemoveKey;
    var s' := if ok then RemoveKey(s, s.flusher.keys[0]) else s;
    RemovalBalances(s, s.flusher.keys[0], x);
    RemovalKeepsPhase(s, s.flusher.keys[0]);
    DropKeyBalances(s', s.flusher.keys[1..], x);
  }

  lemma RemovalKeepsPhase(s: State, key: string)
    requires s.flusher.Deleting?
    ensures RemoveKey(s, key).flusher.Deleting? && RemoveKey(s, key).flusher.keys == s.flusher.keys
  {
    hide KeyId;
  }

  lemma DropKeyBalances(s: State, keys: seq<string>, x: Id)
    requires s.flusher.Deleting? && Balanced(s, x)
    ensures Balanced(s.(flusher := s.flusher.(keys := keys)), x)
  {
    hide ViewKey;
  }

  lemma StepBalances(s: State, e: Event, x: Id)
    requires KeysGood(s.buffer) && Enabled(s, e) && Balanced(s, x)
    ensures Balanced(Next(s, e), x)
  {
    hide KeysGood, View, RemoveKey, ReadCounts, Committed, RolledBack, Finished, Balanced;
    match e
    case ViewArticle(id, ip, dedupWorks, incrWorks) => ViewBalances(s, id, ip, dedupWorks, incrWorks, x);
    case Expire(key) => RemovalBalances(s, key, x);
    case Read(ok) =>
      if ok {
        ReadBalances(s, x);
      } else {
        QuietStepBalances(s, e, x);
      }
    case Commit(ok) => CommitBalances(s, ok, x);
    case Delete(ok) => DeleteBalances(s, ok, x);
    case Finish => FinishBalances(s, x);
    case _ => QuietStepBalances(s, e, x);
  }

  lemma QuietStepBalances(s: State, e: Event, x: Id)
    requires Balanced(s, x) && Enabled(s, e)
    requires e.ForgetVisitor? || e.NewArticle? || e.RemoveArticle? || e.Scan? || e == Read(false)
    ensures Balanced(Next(s, e), x)
  {
    hide ViewKey;
  }

  lemma StepKeepsKeysGood(s: State, e: Event)
    requires KeysGood(s.buffer) && Enabled(s, e)
    ensures KeysGood(Next(s, e).buffer)
  {
    if e.ViewArticle? {
      ViewKeyReadsBack(e.id);
    }
    hide ViewKey, KeyId, CountsOf, DedupKey;
  }

  // ---------- runs ----------

  ghost predicate Possible(s: State, es: seq<Event>)
    decreases |es|
  {
    es == [] || (Enabled(s, es[0]) && Possible(Next(s, es[0]), es[1..]))
  }

  ghost function Run(s: State, es: seq<Event>): State
    requires Possible(s, es)
    decreases |es|
  {
    if es == [] then s else Run(Next(s, es[0]), es[1..])
  }

  lemma {:induction false} RunBalances(s: State, es: seq<Event>, x: Id)
    requires Possible(s, es) && KeysGood(s.buffer) && Balanced(s, x)
    ensures KeysGood(Run(s, es).buffer) && Balanced(Run(s, es), x)
    decreases |es|
  {
    if es == [] {
    } else {
      hide Balanced, KeysGood, Next;
      StepKeepsKeysGood(s, es[0]);
      StepBalances(s, es[0], x);
      RunBalances(Next(s, es[0]), es[1..], x);
    }
  }

  // ---------- no view is counted twice ----------

  predicate DeletesWork(es: seq<Event>) {
    forall i :: 0 <= i < |es| ==> es[i] != Delete(false)
  }

  /** A number the flusher has read, with its key still there, is positive, and its key is still
      to be deleted. */
  ghost predicate KeysLeft(s: State, x: Id) {
    Busy(s.flusher) && x in s.flusher.counts && x !in s.flusher.gone ==>
      ViewKey(x) in s.flusher.keys && s.flusher.counts[x] > 0
  }

  /** No view of `x` was added to its row twice, and none in the cache would be. */
  predicate Unrepeated(s: State, x: Id) {
    Stale(s, x) == 0 && T(s, x).repeated == 0
  }

  lemma ReadLeavesKeys(s: State, x: Id)
    requires KeysGood(s.buffer) && s.flusher.Scanned?
    ensures KeysLeft(Next(s, Read(true)), x)
  {
    ReadIs(s.buffer, s.flusher.keys, x);
    hide CountsOf, MGet, ViewKey;
  }

  lemma DeleteLeavesKeys(s: State, x: Id)
    requires KeysGood(s.buffer) && Balanced(s, x) && KeysLeft(s, x) && s.flusher.Deleting? && s.flusher.keys != []
    ensures KeysLeft(Next(s, Delete(true)), x)
  {
    var keys := s.flusher.keys;
    assert keys == [keys[0]] + keys[1..];
    ViewKeyReadsBack(x);
    hide ViewKey, KeyId;
  }

  lemma FinishLeavesKeys(s: State, x: Id)
    requires KeysLeft(s, x) && Unrepeated(s, x) && s.flusher.Deleting? && s.flusher.keys == []
    ensures KeysLeft(Finished(s), x) && Unrepeated(Finished(s), x)
  {
    hide ViewKey;
  }

  lemma CommitLeavesKeys(s: State, ok: bool, x: Id)
    requires KeysLeft(s, x) && Unrepeated(s, x) && s.flusher.Held?
    ensures var s' := if ok then Committed(s) else RolledBack(s); KeysLeft(s', x) && Unrepeated(s', x)
  {
    hide ViewKey;
  }

  lemma StepLeavesKeys(s: State, e: Event, x: Id)
    requires KeysGood(s.buffer) && Balanced(s, x) && KeysLeft(s, x) && Unrepeated(s, x)
    requires Enabled(s, e) && e != Delete(false)
    ensures KeysLeft(Next(s, e), x) && Unrepeated(Next(s, e), x)
  {
    match e
    case Read(ok) =>
      if ok {
        ReadLeavesKeys(s, x);
        hide ViewKey, CountsOf, KeysGood, KeysLeft;
      } else {
        hide ViewKey, KeyId;
      }
    case Delete(ok) => DeleteLeavesKeys(s, x); hide ViewKey, KeyId, KeysLeft;
    case Finish => FinishLeavesKeys(s, x); hide KeysLeft, Finished;
    case Commit(ok) => CommitLeavesKeys(s, ok, x); hide KeysLeft, Committed, RolledBack;
    case ViewArticle(id, ip, dedupWorks, incrWorks) => ViewLeavesKeys(s, e, x); hide View, KeysLeft;
    case _ => hide ViewKey, KeyId;
  }

  lemma ViewLeavesKeys(s: State, e: Event, x: Id)
    requires KeysLeft(s, x) && Unrepeated(s, x) && e.ViewArticle?
    ensures KeysLeft(Next(s, e), x) && Unrepeated(Next(s, e), x)
  {
    hide ViewKey, DedupKey;
  }

  lemma {:induction false} NothingRepeated(s: State, es: seq<Event>, x: Id)
    requires Possible(s, es) && DeletesWork(es)
    requires KeysGood(s.buffer) && Balanced(s, x) && KeysLeft(s, x) && Unrepeated(s, x)
    ensures Unrepeated(Run(s, es), x)
    decreases |es|
  {
    if es == [] {
    } else {
      assert es[0] != Delete(false) && DeletesWork(es[1..]);
      StepKeepsKeysGood(s, es[0]);
      StepBalances(s, es[0], x);
      StepLeavesKeys(s, es[0], x);
      hide Balanced, KeysGood, KeysLeft, Unrepeated, Next;
      NothingRepeated(Next(s, es[0]), es[1..], x);
    }
  }

  /** After any run the balance holds for every article: the row, the cache and the flusher hold
      the counted views but for those lost and dropped, and what is in the row twice, or in the
      row and the cache, is accounted for. While every deletion works the row never holds more
      than was counted. */
  lemma EveryRun(es: seq<Event>, x: Id)
    requires Possible(EMPTY, es)
    ensures var s := Run(EMPTY, es);
      && Db(s, x) + T(s, x).dropped + Buffered(s, x) + Carried(s, x) + T(s, x).lost
         == T(s, x).counted + Pending(s, x) + Stale(s, x) + T(s, x).repeated
      && Pending(s, x) + Stale(s, x) <= Buffered(s, x) + Carried(s, x)
      && Db(s, x) <= T(s, x).counted + T(s, x).repeated
      && (DeletesWork(es) ==> Stale(s, x) == 0 && T(s, x).repeated == 0)
  {
    RunBalances(EMPTY, es, x);
    if DeletesWork(es) {
      NothingRepeated(EMPTY, es, x);
    }
  }

  // ---------- what a failed deletion repeats ----------

  lemma {:induction false} RunAppends(s: State, es: seq<Event>, more: seq<Event>)
    requires Possible(s, es) && Possible(Run(s, es), more)
    ensures Possible(s, es + more) && Run(s, es + more) == Run(Run(s, es), more)
    decreases |es|
  {
    hide Next, Enabled;
    if es == [] {
      assert es + more == more;
    } else {
      RunAppends(Next(s, es[0]), es[1..], more);
      assert (es + more)[1..] == es[1..] + more;
    }
  }

  lemma OneStep(s: State, e: Event)
    requires Enabled(s, e)
    ensures Possible(s, [e]) && Run(s, [e]) == Next(s, e)
  {
    assert [e][1..] == [];
  }

  lemma TwoSteps(s: State, e: Event, f: Event)
    requires Enabled(s, e) && Enabled(Next(s, e), f)
    ensures Possible(s, [e, f]) && Run(s, [e, f]) == Next(Next(s, e), f)
  {
    hide Next, Enabled;
    OneStep(s, e);
    OneStep(Next(s, e), f);
    RunAppends(s, [e], [f]);
    assert [e] + [f] == [e, f];
  }

  lemma ReadHolds(s: State, x: Id)
    requires KeysGood(s.buffer) && s.flusher == Scanned([ViewKey(x)]) && ViewKey(x) in s.buffer
    ensures var s' := Next(s, Read(true));
      && s' == s.(flusher := s'.flusher) && s'.flusher.Held? && s'.flusher.keys == [ViewKey(x)]
      && x in s'.flusher.counts && s'.flusher.counts[x] == Buffered(s, x) && s'.flusher.gone == {}
  {
    hide ViewKey, CountsOf, MGet, KeysGood, RemoveKey, Committed, RolledBack, Finished, View;
    ReadIs(s.buffer, [ViewKey(x)], x);
    assert ViewKey(x) in [ViewKey(x)];
  }

  lemma CommitAdds(s: State, x: Id)
    requires s.flusher.Held? && x in s.flusher.counts && Live(s, x)
    ensures var s' := Next(s, Commit(true));
      && s'.flusher == Deleting(s.flusher.keys, s.flusher.counts, s.flusher.gone)
      && s'.buffer == s.buffer && Live(s', x)
      && Db(s', x) == Db(s, x) + s.flusher.counts[x] && T(s', x).counted == T(s, x).counted
  {}

  /** A flush of one key up to its commit adds the whole counter to the row. */
  lemma FlushCommits(s: State, x: Id)
    requires KeysGood(s.buffer) && s.flusher.Idle? && ViewKey(x) in s.buffer && Live(s, x)
    ensures var es := [Scan([ViewKey(x)]), Read(true), Commit(true)];
      && Possible(s, es)
      && var s' := Run(s, es);
      && s'.flusher.Deleting? && s'.flusher.keys == [ViewKey(x)] && s'.buffer == s.buffer && Live(s', x)
      && Db(s', x) == Db(s, x) + Buffered(s, x) && T(s', x).counted == T(s, x).counted
  {
    var k := ViewKey(x);
    var s1 := Next(s, Scan([k]));
    assert VIEW_PREFIX <= k;
    hide ViewKey, KeysGood;
    ReadHolds(s1, x);
    var s2 := Next(s1, Read(true));
    CommitAdds(s2, x);
    TwoSteps(s, Scan([k]), Read(true));
    OneStep(s2, Commit(true));
    RunAppends(s, [Scan([k]), Read(true)], [Commit(true)]);
    hide Possible, Run, CountsOf, Committed;
    assert [Scan([k]), Read(true)] + [Commit(true)] == [Scan([k]), Read(true), Commit(true)];
  }

  /** The deletion of that key fails. */
  lemma DeletionFails(s: State, x: Id)
    requires s.flusher.Deleting? && s.flusher.keys == [ViewKey(x)]
    ensures var es := [Delete(false), Finish];
      && Possible(s, es)
      && var s' := Run(s, es);
      && s'.flusher.Idle? && s'.buffer == s.buffer && s'.rows == s.rows && T(s', x) == T(s, x)
  {
    hide ViewKey;
    TwoSteps(s, Delete(false), Finish);
  }

  /** A failed deletion followed by another flush leaves the row above what was counted: as long as
      nothing was lost or dropped before, by the whole counter. */
  lemma FailedDeletionOvercounts(s: State, x: Id)
    requires KeysGood(s.buffer) && Balanced(s, x) && s.flusher.Idle? && ViewKey(x) in s.buffer && Live(s, x)
    requires T(s, x).lost == 0 && T(s, x).dropped == 0
    ensures var flush := [Scan([ViewKey(x)]), Read(true), Commit(true)];
      var es := flush + [Delete(false), Finish] + flush;
      && Possible(s, es)
      && Db(Run(s, es), x) == T(Run(s, es), x).counted + T(s, x).repeated + Stale(s, x) + Buffered(s, x)
      && Db(Run(s, es), x) > T(Run(s, es), x).counted
  {
    var flush, failed := [Scan([ViewKey(x)]), Read(true), Commit(true)], [Delete(false), Finish];
    assert Buffered(s, x) > 0;
    FlushCommits(s, x);
    var s1 := Run(s, flush);
    DeletionFails(s1, x);
    var s2 := Run(s1, failed);
    FlushCommits(s2, x);
    hide Possible, Run;
    RunAppends(s, flush, failed);
    RunAppends(s, flush + failed, flush);
  }

  // ---------- what a flush loses ----------

  /** Views in the cache that the flusher has not read. */
  function Fresh(s: State, x: Id): int {
    Buffered(s, x) - Backing(s, x)
  }

  /** Whether an event counts a view of `x` in the cache. */
  predicate CountsInCache(s: State, e: Event, x: Id) {
    && e.ViewArticle? && e.id == x != 0 && e.dedupWorks && DedupKey(x, e.ip) !in s.seen
    && e.incrWorks && Buffered(s, x) < MAX_INT64
  }

  ghost function CacheViews(s: State, es: seq<Event>, x: Id): nat
    requires Possible(s, es)
    decreases |es|
  {
    if es == [] then 0
    else CacheViews(Next(s, es[0]), es[1..], x) + if CountsInCache(s, es[0], x) then 1 else 0
  }

  /** The events of one flush after its read, and of others meanwhile. */
  predicate SameFlush(es: seq<Event>) {
    forall i :: 0 <= i < |es| ==> !es[i].Read? && es[i] != Commit(false) && es[i] != Finish
  }

  lemma ViewRaisesFresh(s: State, e: Event, x: Id)
    requires e.ViewArticle?
    ensures var s' := Next(s, e);
      && s'.flusher == s.flusher && T(s', x).lost == T(s, x).lost
      && Fresh(s', x) == Fresh(s, x) + if CountsInCache(s, e, x) then 1 else 0
  {
    if ViewKey(x) == ViewKey(e.id) {
      SameKeySameId(x, e.id);
    }
    hide ViewKey, DedupKey;
  }

  /** While the key of `x` stays, only a view of it through the cache adds to the fresh ones, and
      nothing is lost; once the key is gone it stays gone for the flush. */
  lemma StepInFlush(s: State, e: Event, x: Id)
    requires KeysGood(s.buffer) && Watched(s, x) && Enabled(s, e)
    requires !e.Read? && e != Commit(false) && e != Finish
    ensures var s' := Next(s, e);
      && Watched(s', x) && (x in s.flusher.gone ==> x in s'.flusher.gone)
      && (x !in s'.flusher.gone ==>
            && T(s', x).lost == T(s, x).lost
            && Fresh(s', x) == Fresh(s, x) + if CountsInCache(s, e, x) then 1 else 0)
  {
    if e.ViewArticle? {
      ViewRaisesFresh(s, e, x);
      hide View, Fresh;
    } else {
      ViewKeyReadsBack(x);
      hide ViewKey, KeyId;
    }
  }

  lemma {:induction false} GoneStaysGone(s: State, es: seq<Event>, x: Id)
    requires Possible(s, es) && KeysGood(s.buffer) && Watched(s, x) && SameFlush(es)
    ensures Watched(Run(s, es), x) && (x in s.flusher.gone ==> x in Run(s, es).flusher.gone)
    decreases |es|
  {
    if es == [] {
    } else {
      assert SameFlush(es[1..]) && !es[0].Read? && es[0] != Commit(false) && es[0] != Finish;
      StepInFlush(s, es[0], x);
      StepKeepsKeysGood(s, es[0]);
      hide Next, KeysGood;
      GoneStaysGone(Next(s, es[0]), es[1..], x);
    }
  }

  lemma {:induction false} FreshAreLaterViews(s: State, es: seq<Event>, x: Id)
    requires Possible(s, es) && KeysGood(s.buffer) && Watched(s, x) && SameFlush(es)
    requires Busy(Run(s, es).flusher) && x !in Run(s, es).flusher.gone
    ensures T(Run(s, es), x).lost == T(s, x).lost && Fresh(Run(s, es), x) == Fresh(s, x) + CacheViews(s, es, x)
    decreases |es|
  {
    if es == [] {
    } else {
      assert SameFlush(es[1..]) && !es[0].Read? && es[0] != Commit(false) && es[0] != Finish;
      StepInFlush(s, es[0], x);
      StepKeepsKeysGood(s, es[0]);
      hide Next, KeysGood, Fresh, CountsInCache;
      GoneStaysGone(Next(s, es[0]), es[1..], x);
      FreshAreLaterViews(Next(s, es[0]), es[1..], x);
    }
  }

  /** The flusher deletes the key of `x` next, for the first time since it read it. */
  predicate DeletesNext(s: State, x: Id) {
    && s.flusher.Deleting? && s.flusher.keys != [] && s.flusher.keys[0] == ViewKey(x)
    && x in s.flusher.counts && x !in s.flusher.gone
  }

  function AfterDelete(s: State): State
    requires s.flusher.Deleting? && s.flusher.keys != []
  {
    Next(s, Delete(true))
  }

  /** When a flush deletes a key it read, it loses exactly the views counted in the cache since it
      read the key. */
  lemma FlushLosesLaterViews(s: State, es: seq<Event>, x: Id)
    requires KeysGood(s.buffer) && Balanced(s, x) && s.flusher.Scanned?
    requires var read := Next(s, Read(true));
      Possible(read, es) && SameFlush(es) && DeletesNext(Run(read, es), x) && Watched(read, x)
    ensures var read := Next(s, Read(true));
      T(AfterDelete(Run(read, es)), x).lost == T(s, x).lost + CacheViews(read, es, x)
  {
    NothingFreshAfterRead(s, x);
    StepKeepsKeysGood(s, Read(true));
    StepBalances(s, Read(true), x);
    hide Next, KeysGood, AfterDelete, Fresh, Balanced;
    FreshAreLaterViews(Next(s, Read(true)), es, x);
    RunBalances(Next(s, Read(true)), es, x);
    DeletionLosesFresh(Run(Next(s, Read(true)), es), x);
  }

  lemma NothingFreshAfterRead(s: State, x: Id)
    requires KeysGood(s.buffer) && s.flusher.Scanned? && Watched(Next(s, Read(true)), x)
    ensures Fresh(Next(s, Read(true)), x) == 0 && T(Next(s, Read(true)), x) == T(s, x)
  {
    hide Next, CountsOf, MGet, ViewKey, KeysGood, Fresh, T;
    ReadStep(s);
    ReadIs(s.buffer, s.flusher.keys, x);
    var counts := CountsOf(MGet(s.buffer, s.flusher.keys));
    assert x in counts && counts[x] == Buffered(s, x);
    FreshIsNothing(s, counts, x);
  }

  lemma FreshIsNothing(s: State, counts: map<Id, nat>, x: Id)
    requires s.flusher.Scanned? && x in counts && counts[x] == Buffered(s, x)
    ensures Fresh(ReadCounts(s, counts), x) == 0 && T(ReadCounts(s, counts), x) == T(s, x)
  {
    hide ViewKey;
  }

  lemma DeletionLosesFresh(s: State, x: Id)
    requires DeletesNext(s, x) && Balanced(s, x)
    ensures T(AfterDelete(s), x).lost == T(s, x).lost + Fresh(s, x)
  {
    ViewKeyReadsBack(x);
    hide ViewKey, KeyId;
  }

  // ---------- what a view does ----------

  /** A view counts unless the id is zero or the visit is remembered; a failing check counts it all
      the same. It is counted in the cache while that works and the counter has room, and in the row
      of a live article otherwise. */
  lemma ViewAnswers(s: State, id: Id, ip: string, dedupWorks: bool, incrWorks: bool)
    ensures var (s', counted) := View(s, id, ip, dedupWorks, incrWorks);
      var cached := dedupWorks && incrWorks && Buffered(s, id) < 0x7FFF_FFFF_FFFF_FFFF;
      && (counted <==> id != 0 && (dedupWorks ==> DedupKey(id, ip) !in s.seen))
      && (!counted ==> s' == s)
      && (counted ==>
            && s'.flusher == s.flusher && s'.stale == s.stale
            && s'.seen == (if dedupWorks then s.seen + {DedupKey(id, ip)} else s.seen)
            && s'.buffer == (if cached then s.buffer[ViewKey(id) := Buffered(s, id) + 1] else s.buffer)
            && s'.rows == (if !cached && id in s.rows && s.rows[id].live
                           then s.rows[id := Row(s.rows[id].views + 1, true)] else s.rows)
            && T(s', id).counted == T(s, id).counted + 1)
  {
    hide DedupKey, ViewKey;
  }

  // ---------- one view per visitor ----------

  lemma {:induction false} StaysSeen(s: State, es: seq<Event>, key: string)
    requires Possible(s, es) && key in s.seen && ForgetVisitor(key) !in es
    ensures key in Run(s, es).seen
    decreases |es|
  {
    if es == [] {
    } else {
      assert es[0] in es && key in Next(s, es[0]).seen by { hide DedupKey, ViewKey; }
      hide Next, Enabled;
      StaysSeen(Next(s, es[0]), es[1..], key);
    }
  }

  /** A visitor whose view of an article was counted through a working cache is not counted again
      for it, whatever happens, until the key that remembers the visit expires. */
  lemma CountedOncePerVisitor(s: State, es: seq<Event>, id: Id, ip: string, incrWorks: bool, again: bool)
    requires View(s, id, ip, true, incrWorks).1
    requires Possible(View(s, id, ip, true, incrWorks).0, es) && ForgetVisitor(DedupKey(id, ip)) !in es
    ensures !View(Run(View(s, id, ip, true, incrWorks).0, es), id, ip, true, again).1
  {
    StaysSeen(View(s, id, ip, true, incrWorks).0, es, DedupKey(id, ip));
    hide DedupKey, ViewKey, Possible, Run;
  }
}

/// The code of a view and of a flush, here without interruption.
module ViewStore {
  import opened Options
  import opened Decimals
  import opened ViewKeys
  import opened ViewCounts

  /** The numbers read for the keys, by article id. Two keys with one id leave either number. */
  method ParseCounts(kv: map<string, string>) returns (counts: map<Id, nat>)
    ensures forall id :: id in counts ==>
      exists k :: k in kv && KeyId(k) == Some(id) && Delta(kv[k]) == Some(counts[id])
    ensures forall k :: k in kv && KeyId(k).Some? && Delta(kv[k]).Some? ==> KeyId(k).value in counts
    ensures (forall k :: k in kv && KeyId(k).Some? ==> ViewKey(KeyId(k).value) == k) ==> counts == CountsOf(kv)
  {
    counts := map[];
    var left := kv.Keys;
    while left != {}
      invariant left <= kv.Keys
      invariant forall id :: id in counts ==>
        exists k :: k in kv && KeyId(k) == Some(id) && Delta(kv[k]) == Some(counts[id])
      invariant forall k :: k in kv.Keys - left && KeyId(k).Some? && Delta(kv[k]).Some? ==> KeyId(k).value in counts
      decreases |left|
    {
      var key :| key in left;
      left := left - {key};
      var id := KeyId(key);
      if id.Some? {
        var delta := Delta(kv[key]);
        if delta.Some? {
          counts := counts[id.value := delta.value];
        }
      }
    }
    if forall k :: k in kv && KeyId(k).Some? ==> ViewKey(KeyId(k).value) == k {
      CountsAreCountsOf(kv, counts);
    }
  }

  lemma CountsAreCountsOf(kv: map<string, string>, counts: map<Id, nat>)
    requires forall id :: id in counts ==>
      exists k :: k in kv && KeyId(k) == Some(id) && Delta(kv[k]) == Some(counts[id])
    requires forall k :: k in kv && KeyId(k).Some? && Delta(kv[k]).Some? ==> KeyId(k).value in counts
    requires forall k :: k in kv && KeyId(k).Some? ==> ViewKey(KeyId(k).value) == k
    ensures counts == CountsOf(kv)
  {
    hide KeyId, ViewKey, Delta;
    forall id: Id ensures id in counts <==> id in CountsOf(kv) {
      ViewKeyReadsBack(id);
    }
    forall id | id in counts ensures counts[id] == CountsOf(kv)[id] {
      var k :| k in kv && KeyId(k) == Some(id) && Delta(kv[k]) == Some(counts[id]);
      assert ViewKey(id) == k;
    }
  }

  class Repository {
    var rows: map<Id, Row>
    var buffer: map<string, nat>
    var seen: set<string>

    function View(): State
      reads this
    {
      State(rows, buffer, seen, Idle, map[], map[])
    }

    constructor ()
      ensures View() == EMPTY
    {
      rows, buffer, seen := map[], map[], {};
    }

    method IncrementView(id: Id)
      modifies `rows
      ensures View() == CountInDb(old(View()), id).(tally := map[])
    {
      if id in rows && rows[id].live {
        rows := rows[id := rows[id].(views := rows[id].views + 1)];
      }
    }

    method ViewArticle(id: Id, ip: string, dedupWorks: bool, incrWorks: bool) returns (counted: bool)
      modifies this
      ensures View() == ViewCounts.View(old(View()), id, ip, dedupWorks, incrWorks).0.(tally := map[])
      ensures counted == ViewCounts.View(old(View()), id, ip, dedupWorks, incrWorks).1
    {
      if id == 0 {
        return false;
      }
      var dedupKey := DedupKey(id, ip);
      if !dedupWorks {
        IncrementView(id);
        return true;
      }
      if dedupKey in seen {
        return false;
      }
      seen := seen + {dedupKey};
      var viewKey := ViewKey(id);
      var n := if viewKey in buffer then buffer[viewKey] else 0;
      if !incrWorks || n >= MAX_INT64 {
        IncrementView(id);
        return true;
      }
      buffer := buffer[viewKey := n + 1];
      return true;
    }

    /** The transaction: one update for each number read. */
    method ApplyCounts(counts: map<Id, nat>)
      modifies `rows
      ensures rows == AddCounts(old(rows), counts)
    {
      var left := counts.Keys;
      while left != {}
        invariant left <= counts.Keys
        invariant rows.Keys == old(rows).Keys
        invariant forall id :: id in rows && id in counts && id !in left ==>
          rows[id] == AddCounts(old(rows), counts)[id]
        invariant forall id :: id in rows && (id in left || id !in counts) ==> rows[id] == old(rows)[id]
        decreases |left|
      {
        var id :| id in left;
        left := left - {id};
        if id in rows && rows[id].live {
          rows := rows[id := rows[id].(views := rows[id].views + counts[id])];
        }
      }
    }

    method DeleteKeys(keys: seq<string>)
      modifies `buffer
      ensures buffer == map k | k in old(buffer) && k !in keys :: old(buffer)[k]
    {
      for i := 0 to |keys|
        invariant buffer == map k | k in old(buffer) && k !in keys[..i] :: old(buffer)[k]
      {
        assert keys[..i + 1] == keys[..i] + [keys[i]];
        buffer := buffer - {keys[i]};
      }
      assert keys[..|keys|] == keys;
    }

    /** A flush that nothing interrupts moves each counter it found to the row of its article; when
        a step before the deletion fails, nothing changes. */
    method FlushViewCounts(scan: Option<seq<string>>, readWorks: bool, commitWorks: bool)
      requires KeysGood(buffer)
      modifies `rows, `buffer
      ensures scan.None? || !readWorks || !commitWorks ==> View() == old(View())
      ensures scan.Some? && readWorks && commitWorks ==> forall id: Id :: Flushed(old(View()), View(), scan.value, id)
    {
      hide KeyId, ViewKey, CountsOf, Delta, AddCounts, KeysGood, Flushed;
      if scan.None? || !readWorks {
        return;
      }
      var keys := scan.value;
      ghost var s := View();
      if keys == [] {
        forall id: Id ensures Flushed(s, s, keys, id) {
          FlushedNothing(s, keys, id);
        }
        return;
      }
      var kv := MGet(buffer, keys);
      var counts := ParseCounts(kv);
      ReadKeysAreViewKeys(buffer, keys);
      if counts == map[] {
        forall id: Id ensures Flushed(s, s, keys, id) {
          FlushedNothing(s, keys, id);
        }
        return;
      }
      if !commitWorks {
        return;
      }
      ApplyCounts(counts);
      DeleteKeys(keys);
      forall id: Id ensures Flushed(s, View(), keys, id) {
        FlushedCounts(s, View(), keys, id);
      }
    }
  }

  /** For one article, the flush of these keys: its counter is gone, and its row has it. */
  ghost predicate Flushed(s: State, s': State, keys: seq<string>, id: Id) {
    && Buffered(s', id) == (if ViewKey(id) in keys then 0 else Buffered(s, id))
    && (id in s'.rows <==> id in s.rows) && (Live(s', id) <==> Live(s, id))
    && Db(s', id) == Db(s, id) + if Live(s, id) && ViewKey(id) in keys then Buffered(s, id) else 0
  }

  lemma ReadKeysAreViewKeys(buffer: map<string, nat>, keys: seq<string>)
    requires KeysGood(buffer)
    ensures forall k :: k in MGet(buffer, keys) && KeyId(k).Some? ==> ViewKey(KeyId(k).value) == k
  {}

  lemma FlushedCounts(s: State, s': State, keys: seq<string>, id: Id)
    requires KeysGood(s.buffer)
    requires s'.rows == AddCounts(s.rows, CountsOf(MGet(s.buffer, keys)))
    requires s'.buffer == map k | k in s.buffer && k !in keys :: s.buffer[k]
    ensures Flushed(s, s', keys, id)
  {
    ReadIs(s.buffer, keys, id);
    hide KeysGood, CountsOf, MGet, Flushed, AddCounts;
    AppliedCounts(s, s', keys, CountsOf(MGet(s.buffer, keys)), id);
  }

  lemma AppliedCounts(s: State, s': State, keys: seq<string>, counts: map<Id, nat>, id: Id)
    requires s'.rows == AddCounts(s.rows, counts)
    requires s'.buffer == map k | k in s.buffer && k !in keys :: s.buffer[k]
    requires id in counts <==> ViewKey(id) in s.buffer && ViewKey(id) in keys
    requires id in counts ==> counts[id] == s.buffer[ViewKey(id)]
    ensures Flushed(s, s', keys, id)
  {
    hide ViewKey;
  }

  lemma FlushedNothing(s: State, keys: seq<string>, id: Id)
    requires KeysGood(s.buffer) && (CountsOf(MGet(s.buffer, keys)) == map[] || keys == [])
    ensures Flushed(s, s, keys, id)
  {
    if keys != [] {
      ReadIs(s.buffer, keys, id);
    }
    hide KeysGood, CountsOf, MGet, ViewKey;
  }
}
