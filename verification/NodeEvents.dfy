/**
  The replayable event emitter of a node: bounded subscriber channels, the latest status
  event of every process retained for replay, and slow subscribers cut off rather than
  left with a gap. Here are the emitter as a value, its operations, and what every run
  of them keeps.
 */
module NodeEvents {
  import opened Wrappers
  import opened Streams

  const EVENT_BUFFER_SIZE := 1024

  /** `body` stands for the fields that no decision depends on. */
  datatype Event = Event(isStatus: bool, processId: string, replayed: bool, body: string)

  predicate IsRetained(e: Event) { e.isStatus && e.processId != "" }

  /** An event as it is sent: only retained ones have their replay mark cleared. */
  function Normalized(e: Event): Event { if IsRetained(e) then e.(replayed := false) else e }

  /**
    A channel with all that was ever sent on it; the first `taken` events have been
    received, the rest are queued. It follows the published events `from..upTo`, after
    the `replay` events queued at its creation, if it was created `withReplay`.
   */
  datatype Channel = Channel(
    capacity: nat, stream: seq<Event>, taken: nat, closed: bool,
    withReplay: bool, replay: nat, from: nat, upTo: nat)
  {
    predicate HasRoom() { |stream| - taken < capacity }
  }

  /** The emitter; `log` is everything published while it was open. */
  datatype Emitter = Emitter(
    subscribers: Option<set<nat>>, latest: map<string, Event>, closed: bool,
    channels: seq<Channel>, log: seq<Event>)

  const INITIAL := Emitter(Some({}), map[], false, [], [])

  // ----- operations

  /** Send if there is room; otherwise a status event cuts the channel off. */
  function Offer(c: Channel, e: Event, logged: nat): Channel {
    if c.HasRoom() then c.(stream := c.stream + [e], upTo := logged)
    else if e.isStatus then c.(closed := true)
    else c.(upTo := logged)
  }

  function ReplayOf(latest: map<string, Event>, order: seq<string>): seq<Event>
    requires forall p :: p in order ==> p in latest
  {
    seq(|order|, i requires 0 <= i < |order| => latest[order[i]].(replayed := true))
  }

  /** The order in which a map is iterated: any, but each key once. */
  ghost predicate IsOrder(keys: set<string>, order: seq<string>) {
    && (forall p :: p in keys <==> p in order)
    && (forall i, j :: 0 <= i < j < |order| ==> order[i] != order[j])
  }

  lemma {:induction false} OrderLength(keys: set<string>, order: seq<string>)
    requires IsOrder(keys, order)
    ensures |order| == |keys|
  {
    if order == [] {
      assert keys == {};
    } else {
      var n := |order| - 1;
      assert forall p :: p in order <==> p in order[..n] || p == order[n];
      OrderLength(keys - {order[n]}, order[..n]);
    }
  }

  datatype Op =
    | Subscribe(withReplay: bool, order: seq<string>)
    | Unsubscribe(id: nat)
    | Publish(event: Event)
    | Close
    | Receive(id: nat)

  ghost predicate Enabled(s: Emitter, op: Op) {
    op.Subscribe? ==> IsOrder(s.latest.Keys, op.order)
  }

  function NewChannel(s: Emitter, withReplay: bool, order: seq<string>): Channel
    requires forall p :: p in order ==> p in s.latest
  {
    var capacity := EVENT_BUFFER_SIZE + if withReplay then |order| else 0;
    var now := |s.log|;
    if s.closed then Channel(capacity, [], 0, true, false, 0, now, now)
    else if withReplay then Channel(capacity, ReplayOf(s.latest, order), 0, false, true, |order|, now, now)
    else Channel(capacity, [], 0, false, false, 0, now, now)
  }

  function SubscribeTo(s: Emitter, withReplay: bool, order: seq<string>): Emitter
    requires forall p :: p in order ==> p in s.latest
  {
    var subscribers := if s.subscribers.Some? && !s.closed then Some(s.subscribers.value + {|s.channels|}) else s.subscribers;
    s.(channels := s.channels + [NewChannel(s, withReplay, order)], subscribers := subscribers)
  }

  function CutOff(channels: seq<Channel>, ids: set<nat>): seq<Channel> {
    seq(|channels|, i requires 0 <= i < |channels| => if i in ids then channels[i].(closed := true) else channels[i])
  }

  function OfferAll(channels: seq<Channel>, ids: set<nat>, e: Event, logged: nat): seq<Channel> {
    seq(|channels|, i requires 0 <= i < |channels| => if i in ids then Offer(channels[i], e, logged) else channels[i])
  }

  function OpenAmong(channels: seq<Channel>, ids: set<nat>): set<nat> {
    set id | id in ids && id < |channels| && !channels[id].closed
  }

  function PublishTo(s: Emitter, event: Event): Emitter {
    if s.closed || s.subscribers.None? then s else
    var e := Normalized(event);
    var channels := OfferAll(s.channels, s.subscribers.value, e, |s.log| + 1);
    s.(latest := if IsRetained(e) then s.latest[e.processId := e] else s.latest,
       channels := channels,
       subscribers := Some(OpenAmong(channels, s.subscribers.value)),
       log := s.log + [e])
  }

  function Apply(s: Emitter, op: Op): Emitter
    requires op.Subscribe? ==> forall p :: p in op.order ==> p in s.latest
  {
    match op
    case Subscribe(withReplay, order) => SubscribeTo(s, withReplay, order)
    case Unsubscribe(id) =>
      if s.subscribers.Some? && id in s.subscribers.value
      then s.(subscribers := Some(s.subscribers.value - {id}), channels := CutOff(s.channels, {id}))
      else s
    case Publish(event) => PublishTo(s, event)
    case Close =>
      if s.closed || s.subscribers.None? then s
      else s.(closed := true, channels := CutOff(s.channels, s.subscribers.value), subscribers := None)
    case Receive(id) =>
      if id < |s.channels| && s.channels[id].taken < |s.channels[id].stream|
      then s.(channels := s.channels[id := s.channels[id].(taken := s.channels[id].taken + 1)])
      else s
  }

  // ----- reading a stream of events

  /** What a consumer knows after `events`: the last status of every process. */
  function LatestOf(events: seq<Event>): map<string, Event> {
    if events == [] then map[] else
    var e := events[|events| - 1];
    var earlier := LatestOf(events[..|events| - 1]);
    if IsRetained(e) then earlier[e.processId := e.(replayed := false)] else earlier
  }

  function StatusOnly(events: seq<Event>): seq<Event> {
    if events == [] then [] else
    var e := events[|events| - 1];
    StatusOnly(events[..|events| - 1]) + if e.isStatus then [e] else []
  }

  lemma {:induction false} LatestOfConcat(a: seq<Event>, b: seq<Event>)
    ensures LatestOf(a + b) == LatestOf(a) + LatestOf(b)
  {
    if b == [] {
      assert a + b == a;
    } else {
      var n := |b| - 1;
      LatestOfConcat(a, b[..n]);
      assert (a + b)[..|a + b| - 1] == a + b[..n];
    }
  }

  /** Only status events matter to a consumer. */
  lemma {:induction false} LatestOfStatusOnly(events: seq<Event>)
    ensures LatestOf(StatusOnly(events)) == LatestOf(events)
  {
    if events != [] {
      var n := |events| - 1;
      LatestOfStatusOnly(events[..n]);
      var front := StatusOnly(events[..n]);
      if events[n].isStatus {
        assert (front + [events[n]])[..|front|] == front;
      } else {
        assert StatusOnly(events) == front;
      }
    }
  }

  /** A replay of the retained events tells a consumer exactly those. */
  lemma {:induction false} ReplayTellsLatest(latest: map<string, Event>, order: seq<string>)
    requires forall p :: p in order ==> p in latest
    requires forall p :: p in latest ==> latest[p].isStatus && latest[p].processId == p && p != "" && !latest[p].replayed
    ensures LatestOf(ReplayOf(latest, order)) == map p | p in order :: latest[p]
  {
    if order != [] {
      var n := |order| - 1;
      ReplayTellsLatest(latest, order[..n]);
      assert ReplayOf(latest, order)[..n] == ReplayOf(latest, order[..n]);
      assert forall p :: p in order <==> p in order[..n] || p == order[n];
    }
  }

  // ----- what every run keeps

  /** What was queued at creation tells the consumer what was published before it. */
  ghost predicate ReplayComplete(c: Channel, log: seq<Event>)
    requires c.replay <= |c.stream| && c.from <= |log|
  {
    && (forall i :: 0 <= i < c.replay ==> c.stream[i].replayed && IsRetained(c.stream[i]))
    && (c.withReplay ==> LatestOf(c.stream[..c.replay]) == LatestOf(log[..c.from]))
    && (!c.withReplay ==> c.replay == 0)
  }

  /** After the replay: every status event with no gap, other events perhaps left out, in order. */
  ghost predicate Faithful(c: Channel, log: seq<Event>) {
    && c.taken <= |c.stream| && |c.stream| - c.taken <= c.capacity
    && c.replay <= |c.stream| && c.from <= c.upTo <= |log|
    && (!c.closed ==> c.upTo == |log| && c.capacity == 1024 + c.replay)
    && ReplayComplete(c, log)
    && Follows(c.stream[c.replay..], log[c.from..c.upTo])
  }

  ghost predicate Follows(part: seq<Event>, whole: seq<Event>) {
    StatusOnly(part) == StatusOnly(whole) && Subsequence(part, whole)
  }

  lemma FollowsNext(part: seq<Event>, whole: seq<Event>, e: Event)
    requires Follows(part, whole)
    ensures Follows(part + [e], whole + [e])
    ensures !e.isStatus ==> Follows(part, whole + [e])
  {
    SubsequenceExtends(part, whole, e);
    StatusOnlyExtends(part, e);
    StatusOnlyExtends(whole, e);
  }

  ghost predicate Good(s: Emitter) {
    && (s.closed <==> s.subscribers.None?)
    && s.latest == LatestOf(s.log)
    && (forall e :: e in s.log ==> e == Normalized(e))
    && (forall i :: 0 <= i < |s.channels| ==> Faithful(s.channels[i], s.log))
    && (forall i :: 0 <= i < |s.channels| ==> (!s.channels[i].closed <==> s.subscribers.Some? && i in s.subscribers.value))
    && (s.subscribers.Some? ==> forall i :: i in s.subscribers.value ==> i < |s.channels|)
  }

  lemma {:induction false} LatestIsRetained(events: seq<Event>)
    ensures forall p :: p in LatestOf(events) ==>
      var e := LatestOf(events)[p]; e.isStatus && e.processId == p && p != "" && !e.replayed
  {
    if events != [] {
      LatestIsRetained(events[..|events| - 1]);
    }
  }

  lemma StatusOnlyExtends(events: seq<Event>, e: Event)
    ensures StatusOnly(events + [e]) == StatusOnly(events) + if e.isStatus then [e] else []
  {
    assert (events + [e])[..|events|] == events;
  }

  lemma SentFaithful(c: Channel, log: seq<Event>, e: Event)
    requires Faithful(c, log) && !c.closed && c.HasRoom()
    ensures Faithful(c.(stream := c.stream + [e], upTo := |log| + 1), log + [e])
  {
    var c' := c.(stream := c.stream + [e], upTo := |log| + 1);
    var longer, part, whole := log + [e], c.stream[c.replay..], log[c.from..c.upTo];
    assert longer[..c.from] == log[..c.from];
    assert c'.stream[..c.replay] == c.stream[..c.replay];
    assert c'.stream[c.replay..] == part + [e];
    assert longer[c.from..|longer|] == whole + [e];
    FollowsNext(part, whole, e);
  }

  lemma SkippedFaithful(c: Channel, log: seq<Event>, e: Event)
    requires Faithful(c, log) && !c.closed && !e.isStatus
    ensures Faithful(c.(upTo := |log| + 1), log + [e])
  {
    var longer, part, whole := log + [e], c.stream[c.replay..], log[c.from..c.upTo];
    assert longer[..c.from] == log[..c.from];
    assert longer[c.from..|longer|] == whole + [e];
    FollowsNext(part, whole, e);
  }

  /** Offering the event just published keeps a subscriber faithful, sent or not. */
  lemma OfferFaithful(c: Channel, log: seq<Event>, e: Event)
    requires Faithful(c, log) && !c.closed
    ensures Faithful(Offer(c, e, |log| + 1), log + [e])
  {
    if c.HasRoom() {
      SentFaithful(c, log, e);
    } else if e.isStatus {
      ClosedFaithful(c.(closed := true), log, e);
    } else {
      SkippedFaithful(c, log, e);
    }
  }

  /** A channel that was cut off stays what it was. */
  lemma ClosedFaithful(c: Channel, log: seq<Event>, e: Event)
    requires Faithful(c, log) && c.closed
    ensures Faithful(c, log + [e])
  {
    assert (log + [e])[..c.from] == log[..c.from];
    assert (log + [e])[c.from..c.upTo] == log[c.from..c.upTo];
  }

  lemma NewChannelFaithful(s: Emitter, withReplay: bool, order: seq<string>)
    requires Good(s) && IsOrder(s.latest.Keys, order)
    ensures Faithful(NewChannel(s, withReplay, order), s.log)
  {
    LatestIsRetained(s.log);
    var c := NewChannel(s, withReplay, order);
    assert s.log[..|s.log|] == s.log && s.log[c.from..c.upTo] == [];
    assert c.stream[c.replay..] == [] && c.stream[..c.replay] == c.stream;
    if c.withReplay {
      ReplayTellsLatest(s.latest, order);
    }
  }

  lemma PublishKeeps(s: Emitter, event: Event)
    requires Good(s)
    ensures Good(PublishTo(s, event))
  {
    if !s.closed {
      var e, after := Normalized(event), PublishTo(s, event);
      assert after.log[..|s.log|] == s.log;
      forall i | 0 <= i < |s.channels| ensures Faithful(after.channels[i], after.log) {
        if i in s.subscribers.value {
          OfferFaithful(s.channels[i], s.log, e);
        } else {
          ClosedFaithful(s.channels[i], s.log, e);
        }
      }
    }
  }

  lemma {:induction false} StepKeeps(s: Emitter, op: Op)
    requires Good(s) && Enabled(s, op)
    ensures Good(Apply(s, op))
  {
    match op
    case Subscribe(withReplay, order) => SubscribeKeeps(s, withReplay, order);
    case Publish(event) => PublishKeeps(s, event);
    case Unsubscribe(id) => UnsubscribeKeeps(s, id);
    case Close => CloseKeeps(s);
    case Receive(id) => ReceiveKeeps(s, id);
  }

  lemma SubscribeKeeps(s: Emitter, withReplay: bool, order: seq<string>)
    requires Good(s) && IsOrder(s.latest.Keys, order)
    ensures Good(SubscribeTo(s, withReplay, order))
  {
    NewChannelFaithful(s, withReplay, order);
  }

  lemma UnsubscribeKeeps(s: Emitter, id: nat)
    requires Good(s)
    ensures Good(Apply(s, Unsubscribe(id)))
  {
    CutOffKeeps(s, {id});
  }

  lemma CloseKeeps(s: Emitter)
    requires Good(s)
    ensures Good(Apply(s, Close))
  {
    if s.subscribers.Some? { CutOffKeeps(s, s.subscribers.value); }
  }

  lemma CutOffKeeps(s: Emitter, ids: set<nat>)
    requires Good(s)
    ensures forall i :: 0 <= i < |s.channels| ==> Faithful(CutOff(s.channels, ids)[i], s.log)
  {
    forall i | 0 <= i < |s.channels| ensures Faithful(CutOff(s.channels, ids)[i], s.log) {
      assert Faithful(s.channels[i], s.log);
    }
  }

  lemma ReceiveKeeps(s: Emitter, id: nat)
    requires Good(s)
    ensures Good(Apply(s, Receive(id)))
  {
    if id < |s.channels| && s.channels[id].taken < |s.channels[id].stream| {
      TakenFaithful(s.channels[id], s.log);
      ChannelReplaced(s, id, s.channels[id].(taken := s.channels[id].taken + 1));
    }
  }

  lemma ChannelReplaced(s: Emitter, id: nat, c: Channel)
    requires Good(s) && id < |s.channels| && Faithful(c, s.log) && c.closed == s.channels[id].closed
    ensures Good(s.(channels := s.channels[id := c]))
  {
  }

  lemma TakenFaithful(c: Channel, log: seq<Event>)
    requires Faithful(c, log) && c.taken < |c.stream|
    ensures Faithful(c.(taken := c.taken + 1), log)
  {
  }

  /** The state after operations carried out in order, each enabled when it happens. */
  ghost predicate Reaches(ops: seq<Op>, s: Emitter)
    decreases |ops|, 1
  {
    if ops == [] then s == INITIAL
    else exists before :: Leads(ops, before, s)
  }

  ghost predicate Leads(ops: seq<Op>, before: Emitter, s: Emitter)
    requires ops != []
    decreases |ops|, 0
  {
    var op := ops[|ops| - 1];
    Reaches(ops[..|ops| - 1], before) && Enabled(before, op) && s == Apply(before, op)
  }

  lemma {:induction false} EveryRunIsGood(ops: seq<Op>, s: Emitter)
    requires Reaches(ops, s)
    ensures Good(s)
  {
    if ops != [] {
      var before :| Leads(ops, before, s);
      EveryRunIsGood(ops[..|ops| - 1], before);
      StepKeeps(before, ops[|ops| - 1]);
    }
  }

  // ----- what subscribers can rely on

  /**
    A channel created with replay tells its consumer, once drained, exactly the last
    status of every process among the events up to the point that it followed.
   */
  lemma ReplicaAgreesUpTo(ops: seq<Op>, s: Emitter, id: nat)
    requires Reaches(ops, s) && id < |s.channels| && s.channels[id].withReplay
    ensures s.channels[id].upTo <= |s.log|
    ensures LatestOf(s.channels[id].stream) == LatestOf(s.log[..s.channels[id].upTo])
  {
    EveryRunIsGood(ops, s);
    var c := s.channels[id];
    assert Faithful(c, s.log);
    var part, whole := c.stream[c.replay..], s.log[c.from..c.upTo];
    assert c.stream == c.stream[..c.replay] + part;
    assert s.log[..c.upTo] == s.log[..c.from] + whole;
    LatestOfConcat(c.stream[..c.replay], part);
    LatestOfConcat(s.log[..c.from], whole);
    LatestOfStatusOnly(part);
    LatestOfStatusOnly(whole);
  }

  /** While it is open, that is the emitter's own view. */
  lemma ReplicaAgrees(ops: seq<Op>, s: Emitter, id: nat)
    requires Reaches(ops, s) && id < |s.channels| && s.channels[id].withReplay && !s.channels[id].closed
    ensures LatestOf(s.channels[id].stream) == s.latest
  {
    EveryRunIsGood(ops, s);
    ReplicaAgreesUpTo(ops, s, id);
    assert Faithful(s.channels[id], s.log);
    assert s.log[..|s.log|] == s.log;
  }

  /** Whatever became of an old channel, a new one with replay agrees at once. */
  lemma ReconnectingAgrees(ops: seq<Op>, s: Emitter, order: seq<string>)
    requires Reaches(ops, s) && !s.closed && IsOrder(s.latest.Keys, order)
    ensures
      var after := Apply(s, Subscribe(true, order));
      LatestOf(after.channels[|s.channels|].stream) == s.latest == after.latest
  {
    var op := Subscribe(true, order);
    var after := Apply(s, op);
    assert (ops + [op])[..|ops|] == ops;
    assert Leads(ops + [op], s, after);
    ReplicaAgrees(ops + [op], after, |s.channels|);
  }

  /** A subscriber is cut off only with a full buffer behind it. */
  lemma {:induction false} CutOffOnlyWhenFull(s: Emitter, event: Event, id: nat)
    requires Good(s) && id < |s.channels| && !s.channels[id].closed && Apply(s, Publish(event)).channels[id].closed
    ensures event.isStatus && |s.channels[id].stream| - s.channels[id].taken == s.channels[id].capacity
  {
    assert Faithful(s.channels[id], s.log);
  }
}
