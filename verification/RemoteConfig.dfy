/// Hot delivery of the remote configuration: a watch loop puts each new configuration into a
/// channel of capacity one, dropping an older one that still waits there, and a second goroutine
/// stores what it receives.

module RemoteConfig {
  import opened Options

  /** A configuration, as its decoded text. */
  type Config = string

  /** What the watch reports: a new value, which may not decode, or the removal of the key. */
  datatype Change = Put(decoded: Option<Config>) | Removed

  /** Where the watch loop stands: between changes, or at one of the three channel operations of a
      delivery, or gone after closing the channel. */
  datatype Producer = Watching | Offering(cfg: Config) | Discarding(cfg: Config) | Sending(cfg: Config) | Closed

  /** Where the receiving loop stands. */
  datatype Consumer = Receiving | Storing(cfg: Config) | Finished

  /** The goroutines, the channel and the holder; and, as history, the configurations delivered
      and received so far. */
  datatype State = State(
    producer: Producer, channel: seq<Config>, consumer: Consumer, holder: Option<Config>,
    delivered: seq<Config>, received: seq<Config>)

  /** Before the loops start: the holder has what the first load found, and the channel what the
      load of the watch found. */
  function Initial(loaded: Option<Config>, first: Option<Config>): State {
    var waiting := if first.Some? then [first.value] else [];
    State(Watching, waiting, Receiving, loaded, waiting, [])
  }

  datatype Event =
    | Watch(change: Change)
    | Offer
    | Discard
    | Send
    | Close
    | Receive
    | Store
    | Finish

  predicate Enabled(s: State, e: Event) {
    match e
    case Watch(_) => s.producer.Watching?
    case Offer => s.producer.Offering?
    case Discard => s.producer.Discarding?
    case Send => s.producer.Sending? && s.channel == []
    case Close => s.producer.Watching?
    case Receive => s.consumer.Receiving? && s.channel != []
    case Store => s.consumer.Storing?
    case Finish => s.consumer.Receiving? && s.producer.Closed? && s.channel == []
  }

  function Next(s: State, e: Event): State
    requires Enabled(s, e)
  {
    match e
    case Watch(change) =>
      if change.Put? && change.decoded.Some? then
        s.(producer := Offering(change.decoded.value), delivered := s.delivered + [change.decoded.value])
      else s
    case Offer =>
      if s.channel == [] then s.(channel := [s.producer.cfg], producer := Watching)
      else s.(producer := Discarding(s.producer.cfg))
    case Discard =>
      s.(channel := if s.channel == [] then [] else s.channel[1..], producer := Sending(s.producer.cfg))
    case Send => s.(channel := [s.producer.cfg], producer := Watching)
    case Close => s.(producer := Closed)
    case Receive =>
      s.(consumer := Storing(s.channel[0]), channel := s.channel[1..], received := s.received + [s.channel[0]])
    case Store => s.(holder := Some(s.consumer.cfg), consumer := Receiving)
    case Finish => s.(consumer := Finished)
  }

  ghost predicate Possible(s: State, es: seq<Event>)
    decreases |es|
  {
    es == [] || (Enabled(s, es[0]) && Possible(Next(s, es[0]), es[1..]))
  }

  ghost function Run(s: State, es: seq<Event>): State
    requires Possible(s, es)
    decreases |es|
  {
    if es == [] then s else Run(Next(s, es[0]), es[1..])
  }

  // ---------- subsequences ----------

  /** The places `f` of a larger sequence, in order, hold `small`. */
  ghost predicate Embeds(f: seq<nat>, small: seq<Config>, large: seq<Config>) {
    && |f| == |small|
    && (forall i :: 0 <= i < |f| ==> f[i] < |large| && small[i] == large[f[i]])
    && (forall i, j :: 0 <= i < j < |f| ==> f[i] < f[j])
  }

  ghost predicate Subsequence(small: seq<Config>, large: seq<Config>) {
    exists f :: Embeds(f, small, large)
  }

  lemma AppendToBoth(small: seq<Config>, large: seq<Config>, x: Config)
    requires Subsequence(small, large)
    ensures Subsequence(small + [x], large + [x])
  {
    var f: seq<nat> :| Embeds(f, small, large);
    assert Embeds(f + [|large|], small + [x], large + [x]);
  }

  lemma DropMiddle(front: seq<Config>, x: Config, back: seq<Config>, large: seq<Config>)
    requires Subsequence(front + [x] + back, large)
    ensures Subsequence(front + back, large)
  {
    var f: seq<nat> :| Embeds(f, front + [x] + back, large);
    var k := |front|;
    var g := f[..k] + f[k + 1..];
    forall i | 0 <= i < |g| ensures g[i] < |large| && (front + back)[i] == large[g[i]] {
      var j := if i < k then i else i + 1;
      assert g[i] == f[j] && (front + back)[i] == (front + [x] + back)[j];
    }
    assert Embeds(g, front + back, large);
  }

  lemma DropEnd(small: seq<Config>, large: seq<Config>, k: nat)
    requires Subsequence(small, large) && k <= |small|
    ensures Subsequence(small[..k], large)
  {
    var f: seq<nat> :| Embeds(f, small, large);
    assert Embeds(f[..k], small[..k], large);
  }

  // ---------- the invariant ----------

  /** The configuration in the producer's hands. */
  function InHand(s: State): seq<Config> {
    if s.producer.Offering? || s.producer.Discarding? || s.producer.Sending? then [s.producer.cfg] else []
  }

  /** What was received, waits in the channel, or is in the producer's hands. */
  function Kept(s: State): seq<Config> {
    s.received + s.channel + InHand(s)
  }

  function Last(cs: seq<Config>, default: Option<Config>): Option<Config> {
    if cs == [] then default else Some(cs[|cs| - 1])
  }

  ghost predicate Inv(s: State, loaded: Option<Config>) {
    && |s.channel| <= 1
    && (s.producer.Sending? ==> s.channel == [])
    && Subsequence(Kept(s), s.delivered)
    && Last(Kept(s), None) == Last(s.delivered, None)
    && (s.consumer.Finished? ==> s.producer.Closed? && s.channel == [])
    && (s.consumer.Storing? ==> s.received != [] && s.received[|s.received| - 1] == s.consumer.cfg)
    && s.holder == Last(if s.consumer.Storing? then s.received[..|s.received| - 1] else s.received, loaded)
  }

  lemma InitialInv(loaded: Option<Config>, first: Option<Config>)
    ensures Inv(Initial(loaded, first), loaded)
  {
    var s := Initial(loaded, first);
    assert Kept(s) == s.delivered;
    assert Embeds(if first.Some? then [0] else [], Kept(s), s.delivered);
  }

  lemma WatchKeepsInv(s: State, change: Change, loaded: Option<Config>)
    requires Inv(s, loaded) && s.producer.Watching?
    ensures Inv(Next(s, Watch(change)), loaded)
  {
    var s' := Next(s, Watch(change));
    if s' != s {
      AppendToBoth(Kept(s), s.delivered, change.decoded.value);
      hide Subsequence;
      assert Kept(s') == Kept(s) + [change.decoded.value];
    }
  }

  lemma DiscardKeepsInv(s: State, loaded: Option<Config>)
    requires Inv(s, loaded) && s.producer.Discarding?
    ensures Inv(Next(s, Discard), loaded)
  {
    hide Subsequence;
    var s' := Next(s, Discard);
    if s.channel == [] {
      assert Kept(s') == Kept(s);
    } else {
      assert s.channel == [s.channel[0]];
      assert InHand(s') == InHand(s);
      assert Kept(s') == s.received + InHand(s);
      DropMiddle(s.received, s.channel[0], InHand(s), s.delivered);
    }
  }

  lemma ReceiverKeepsInv(s: State, e: Event, loaded: Option<Config>)
    requires Inv(s, loaded) && Enabled(s, e) && (e.Receive? || e.Store? || e.Finish?)
    ensures Inv(Next(s, e), loaded)
  {
    hide Subsequence;
    assert Kept(Next(s, e)) == Kept(s);
  }

  lemma SenderKeepsInv(s: State, e: Event, loaded: Option<Config>)
    requires Inv(s, loaded) && Enabled(s, e) && (e.Offer? || e.Send? || e.Close?)
    ensures Inv(Next(s, e), loaded)
  {
    hide Subsequence;
    assert Kept(Next(s, e)) == Kept(s);
  }

  lemma StepKeepsInv(s: State, e: Event, loaded: Option<Config>)
    requires Inv(s, loaded) && Enabled(s, e)
    ensures Inv(Next(s, e), loaded)
  {
    hide Inv, Next;
    match e
    case Watch(change) => WatchKeepsInv(s, change, loaded);
    case Discard => DiscardKeepsInv(s, loaded);
    case Receive => ReceiverKeepsInv(s, e, loaded);
    case Store => ReceiverKeepsInv(s, e, loaded);
    case Finish => ReceiverKeepsInv(s, e, loaded);
    case _ => SenderKeepsInv(s, e, loaded);
  }

  lemma {:induction false} RunKeepsInv(s: State, es: seq<Event>, loaded: Option<Config>)
    requires Inv(s, loaded) && Possible(s, es)
    ensures Inv(Run(s, es), loaded)
    decreases |es|
  {
    if es == [] {
    } else {
      StepKeepsInv(s, es[0], loaded);
      hide Inv, Next, Enabled;
      RunKeepsInv(Next(s, es[0]), es[1..], loaded);
    }
  }

  // ---------- the laws ----------

  /** However the two loops interleave: a delivery is never blocked; the consumer receives a
      subsequence of what was delivered; and once the channel is drained and the last receipt
      stored, with no delivery under way, the holder has the last configuration delivered. */
  lemma EveryRun(loaded: Option<Config>, first: Option<Config>, es: seq<Event>)
    requires Possible(Initial(loaded, first), es)
    ensures var s := Run(Initial(loaded, first), es);
      && (s.producer.Sending? ==> Enabled(s, Send))
      && Subsequence(s.received, s.delivered)
      && (s.channel == [] && InHand(s) == [] && !s.consumer.Storing? ==> s.holder == Last(s.delivered, loaded))
  {
    hide Run, Possible, Subsequence, Inv, Initial, Next;
    InitialInv(loaded, first);
    RunKeepsInv(Initial(loaded, first), es, loaded);
    ReceivedIsSubsequence(Run(Initial(loaded, first), es), loaded);
    DrainedHolder(Run(Initial(loaded, first), es), loaded);
  }

  lemma ReceivedIsSubsequence(s: State, loaded: Option<Config>)
    requires Inv(s, loaded)
    ensures Subsequence(s.received, s.delivered) && (s.producer.Sending? ==> Enabled(s, Send))
  {
    DropEnd(Kept(s), s.delivered, |s.received|);
    assert Kept(s)[..|s.received|] == s.received;
  }

  lemma DrainedHolder(s: State, loaded: Option<Config>)
    requires Inv(s, loaded)
    ensures s.channel == [] && InHand(s) == [] && !s.consumer.Storing? ==> s.holder == Last(s.delivered, loaded)
  {
    hide Subsequence;
    if s.channel == [] && InHand(s) == [] {
      assert Kept(s) == s.received;
    }
  }

  /** The configurations that changes deliver: removals and values that do not decode deliver none. */
  function Decodable(es: seq<Event>): seq<Config> {
    if es == [] then []
    else
      var rest := Decodable(es[1..]);
      if es[0].Watch? && es[0].change.Put? && es[0].change.decoded.Some? then [es[0].change.decoded.value] + rest
      else rest
  }

  lemma {:induction false} DeliveredIs(s: State, es: seq<Event>)
    requires Possible(s, es)
    ensures Run(s, es).delivered == s.delivered + Decodable(es)
    decreases |es|
  {
    if es == [] {
    } else {
      DeliveredIs(Next(s, es[0]), es[1..]);
    }
  }

  /** When the consumer has finished, the holder has the last decodable value the watch reported,
      or else the one read before it started, or else what was loaded first. */
  lemma FinishedHolder(loaded: Option<Config>, first: Option<Config>, es: seq<Event>)
    requires Possible(Initial(loaded, first), es) && Run(Initial(loaded, first), es).consumer.Finished?
    ensures Run(Initial(loaded, first), es).holder
            == Last(Decodable(es), if first.Some? then first else loaded)
  {
    hide Run, Possible, Inv, Decodable;
    InitialInv(loaded, first);
    RunKeepsInv(Initial(loaded, first), es, loaded);
    DeliveredIs(Initial(loaded, first), es);
    FinishedIsDrained(Run(Initial(loaded, first), es), loaded);
  }

  lemma FinishedIsDrained(s: State, loaded: Option<Config>)
    requires Inv(s, loaded) && s.consumer.Finished?
    ensures s.holder == Last(s.delivered, loaded)
  {
    hide Subsequence;
    DrainedHolder(s, loaded);
  }

  /** A removal, or a value that does not decode. */
  predicate Bad(e: Event) {
    e.Watch? && (e.change.Removed? || e.change.decoded.None?)
  }

  function WithoutBad(es: seq<Event>): seq<Event> {
    if es == [] then [] else (if Bad(es[0]) then [] else [es[0]]) + WithoutBad(es[1..])
  }

  /** Every run reaches the state it would reach without its bad changes. */
  lemma {:induction false} BadChangesAreInvisible(s: State, es: seq<Event>)
    requires Possible(s, es)
    ensures Possible(s, WithoutBad(es)) && Run(s, WithoutBad(es)) == Run(s, es)
    decreases |es|
  {
    if es == [] {
    } else if Bad(es[0]) {
      assert Next(s, es[0]) == s;
      BadChangesAreInvisible(s, es[1..]);
      assert [] + WithoutBad(es[1..]) == WithoutBad(es[1..]);
    } else {
      BadChangesAreInvisible(Next(s, es[0]), es[1..]);
      assert ([es[0]] + WithoutBad(es[1..]))[1..] == WithoutBad(es[1..]);
    }
  }

  // ---------- every delivery reaches the holder or is overtaken ----------

  /** The steps that are left without another change: of a delivery and of the consumer, and the
      ends of both loops. */
  function Work(s: State): nat {
    (match s.producer
     case Offering(_) => 10
     case Discarding(_) => 7
     case Sending(_) => 4
     case Watching => 1
     case Closed => 0)
    + 2 * |s.channel|
    + match s.consumer
      case Storing(_) => 2
      case Receiving => 1
      case Finished => 0
  }

  lemma StepWorks(s: State, e: Event)
    requires Enabled(s, e) && !e.Watch?
    ensures Work(Next(s, e)) < Work(s) && Next(s, e).delivered == s.delivered
  {}

  /** A delivery or the consumer could go on. */
  predicate Busy(s: State) {
    Enabled(s, Offer) || Enabled(s, Discard) || Enabled(s, Send) || Enabled(s, Receive) || Enabled(s, Store)
  }

  lemma AtRest(s: State, loaded: Option<Config>)
    requires Inv(s, loaded) && !Busy(s)
    ensures s.holder == Last(s.delivered, loaded)
  {
    DrainedHolder(s, loaded);
  }

  /** From any reachable state, whatever the order of the steps: without another change there are
      only so many, and once neither a delivery nor the consumer can go on, the holder has the last
      configuration delivered. */
  lemma {:induction false} RunsComeToRest(s: State, es: seq<Event>, loaded: Option<Config>)
    requires Inv(s, loaded) && Possible(s, es) && forall e :: e in es ==> !e.Watch?
    ensures |es| <= Work(s) - Work(Run(s, es))
    ensures !Busy(Run(s, es)) ==> Run(s, es).holder == Last(s.delivered, loaded)
    decreases |es|
  {
    if es == [] {
      if !Busy(s) {
        AtRest(s, loaded);
      }
    } else {
      StepWorks(s, es[0]);
      StepKeepsInv(s, es[0], loaded);
      hide Inv, Next, Enabled, Work, Busy;
      RunsComeToRest(Next(s, es[0]), es[1..], loaded);
    }
  }
}

/// The delivery and the watch loop as a program, while no consumer receives.
module RemoteConfigStore {
  import opened Options
  import opened RemoteConfig

  class Channel {
    var waiting: seq<Config>

    constructor ()
      ensures waiting == []
    {
      waiting := [];
    }

    /** The latest configuration wins, and the sender never waits. */
    method Deliver(cfg: Config)
      requires |waiting| <= 1
      modifies this
      ensures waiting == [cfg]
    {
      if waiting == [] {
        waiting := waiting + [cfg];
        return;
      }
      if waiting != [] {
        waiting := waiting[1..];
      }
      waiting := waiting + [cfg];
    }

    method HandleChanges(changes: seq<Change>)
      requires |waiting| <= 1
      modifies this
      ensures Last(waiting, None) == Last(Decodable(Watches(changes)), Last(old(waiting), None))
      ensures |waiting| <= 1
    {
      ghost var all := Watches(changes);
      for i := 0 to |changes|
        invariant |waiting| <= 1
        invariant Last(waiting, None) == Last(Decodable(all[..i]), Last(old(waiting), None))
      {
        assert all[..i + 1] == all[..i] + [Watch(changes[i])];
        DecodableMore(all[..i], Watch(changes[i]));
        if changes[i].Removed? {
          continue;
        }
        if changes[i].decoded.None? {
          continue;
        }
        Deliver(changes[i].decoded.value);
      }
      assert all[..|changes|] == all;
    }
  }

  function Watches(changes: seq<Change>): seq<Event> {
    seq(|changes|, i requires 0 <= i < |changes| => Watch(changes[i]))
  }

  lemma {:induction false} DecodableMore(es: seq<Event>, e: Event)
    ensures Decodable(es + [e]) == Decodable(es) + Decodable([e])
  {
    if es == [] {
      assert [] + [e] == [e];
    } else {
      assert (es + [e])[1..] == es[1..] + [e];
      DecodableMore(es[1..], e);
    }
  }
}
