/**
  The process-local event bus as its lock lets it interleave: publishers hold only the read
  lock, so several may be under way at once, each sending to one subscriber after the
  other; subscribing and unsubscribing wait until none is. A step is one lock operation or
  one select of a publisher.

  Line numbers refer to `internal/eventbus/eventbus.go`.
 */
module BusInterleavings {
  import opened EventBus
  import opened Streams
  import opened Wrappers

  /** A publication under way, with the subscribers still to come. */
  datatype Publication = Publication(topic: string, data: Message, rest: seq<nat>)

  /** `begun` are the messages of each topic in the order in which their publication began. */
  datatype System = System(
    listeners: seq<Channel>, subscribers: Subscribers, active: seq<Publication>, begun: Logs)

  const INITIAL := System([], map[], [], map[])

  datatype Step =
    | Subscribe(topic: string, reliable: bool)
    | Unsubscribe(topic: string, i: nat)
    | Begin(topic: string, data: Message)
    | Send(k: nat, waiting: bool)
    | End(k: nat)
    | Receive(id: nat)

  predicate Enabled(s: System, step: Step) {
    match step
    case Subscribe(_, _) => s.active == []
    case Unsubscribe(topic, i) => s.active == [] && i < |ListOf(s.subscribers, topic)|
    case Begin(_, _) => true
    case Send(k, _) => k < |s.active| && s.active[k].rest != []
    case End(k) => k < |s.active| && s.active[k].rest == []
    case Receive(id) => id < |s.listeners| && s.listeners[id].taken < |s.listeners[id].stream|
  }

  function Next(p: Publication): Publication
    requires p.rest != []
  {
    p.(rest := p.rest[1..])
  }

  function Subscribed(s: System, topic: string, reliable: bool): System {
    var l := Channel(topic, if reliable then RELIABLE_BUFFER_SIZE else 0, false, |LogOf(s.begun, topic)|, [], [], 0);
    s.(listeners := s.listeners + [l], subscribers := s.subscribers[topic := ListOf(s.subscribers, topic) + [|s.listeners|]])
  }

  function Unsubscribed(s: System, topic: string, i: nat): System
    requires i < |ListOf(s.subscribers, topic)|
  {
    var listed := ListOf(s.subscribers, topic);
    s.(subscribers := s.subscribers[topic := listed[..i] + listed[i + 1..]],
       listeners := if listed[i] < |s.listeners|
                    then s.listeners[listed[i] := s.listeners[listed[i]].(closed := true)] else s.listeners)
  }

  function Begun(s: System, topic: string, data: Message): System {
    s.(active := s.active + [Publication(topic, data, ListOf(s.subscribers, topic))],
       begun := s.begun[topic := LogOf(s.begun, topic) + [data]])
  }

  function Sent(s: System, k: nat, waiting: bool): System
    requires k < |s.active| && s.active[k].rest != []
  {
    var p, id := s.active[k], s.active[k].rest[0];
    s.(active := s.active[k := Next(p)],
       listeners := if id < |s.listeners|
                    then s.listeners[id := Offer(s.listeners[id], waiting, p.data)] else s.listeners)
  }

  function Ended(s: System, k: nat): System
    requires k < |s.active|
  {
    s.(active := s.active[..k] + s.active[k + 1..])
  }

  function Received(s: System, id: nat): System
    requires id < |s.listeners|
  {
    s.(listeners := s.listeners[id := s.listeners[id].(taken := s.listeners[id].taken + 1)])
  }

  function Apply(s: System, step: Step): System
    requires Enabled(s, step)
  {
    match step
    case Subscribe(topic, reliable) => Subscribed(s, topic, reliable)
    case Unsubscribe(topic, i) => Unsubscribed(s, topic, i)
    case Begin(topic, data) => Begun(s, topic, data)
    case Send(k, waiting) => Sent(s, k, waiting)
    case End(k) => Ended(s, k)
    case Receive(id) => Received(s, id)
  }

  // ----- what every run keeps

  ghost predicate NoRepeats(ids: seq<nat>) { forall i, j :: 0 <= i < j < |ids| ==> ids[i] != ids[j] }

  /** Those a publication has still to send to are open, and each comes once. */
  ghost predicate SendsToOpen(s: System, p: Publication) {
    NoRepeats(p.rest) && forall id: nat :: id in p.rest ==> OpenOn(s.listeners, p.topic, id)
  }

  function Share(p: Publication, id: nat): multiset<Message> {
    if id in p.rest then multiset{p.data} else multiset{}
  }

  /** What the publications under way have still to offer to `id`. */
  function Owed(active: seq<Publication>, id: nat): multiset<Message> {
    if active == [] then multiset{} else
    Owed(active[..|active| - 1], id) + Share(active[|active| - 1], id)
  }

  /** Every message begun since the subscription was offered or is owed, once. */
  ghost predicate Balanced(l: Channel, owed: multiset<Message>, log: seq<Message>) {
    !l.closed ==> l.from <= |log| && multiset(l.offered) + owed == multiset(log[l.from..])
  }

  ghost predicate Accounted(s: System, id: nat)
    requires id < |s.listeners|
  {
    Balanced(s.listeners[id], Owed(s.active, id), LogOf(s.begun, s.listeners[id].topic))
  }

  ghost predicate Good(s: System) {
    && AllListed(s.listeners, s.subscribers)
    && (forall p :: p in s.active ==> SendsToOpen(s, p))
    && (forall id: nat :: id < |s.listeners| ==> Accounted(s, id) && Sound(s.listeners[id]))
  }

  lemma {:induction false} OwedReplaced(active: seq<Publication>, k: nat, p: Publication, id: nat)
    requires k < |active|
    ensures Owed(active[k := p], id) + Share(active[k], id) == Owed(active, id) + Share(p, id)
  {
    var n := |active| - 1;
    var after := active[k := p];
    if k == n {
      assert after[..n] == active[..n];
    } else {
      assert after[..n] == active[..n][k := p] && after[n] == active[n];
      OwedReplaced(active[..n], k, p, id);
      Regroup(Owed(after[..n], id), Share(active[n], id), Share(active[k], id), Owed(active[..n], id), Share(p, id));
    }
  }

  lemma Regroup(a: multiset<Message>, last: multiset<Message>, x: multiset<Message>, b: multiset<Message>, y: multiset<Message>)
    requires a + x == b + y
    ensures (a + last) + x == (b + last) + y
  {
    assert (a + last) + x == (a + x) + last && (b + last) + y == (b + y) + last;
  }

  lemma {:induction false} OwedRemoved(active: seq<Publication>, k: nat, id: nat)
    requires k < |active| && active[k].rest == []
    ensures Owed(active[..k] + active[k + 1..], id) == Owed(active, id)
  {
    var n := |active| - 1;
    var after := active[..k] + active[k + 1..];
    if k == n {
      assert after == active[..n];
    } else {
      OwedRemoved(active[..n], k, id);
      RemovedFront(active, k);
      OwedAdded(active[..n][..k] + active[..n][k + 1..], active[n], id);
    }
  }

  lemma RemovedFront(active: seq<Publication>, k: nat)
    requires k < |active| - 1
    ensures var n := |active| - 1;
            active[..k] + active[k + 1..] == active[..n][..k] + active[..n][k + 1..] + [active[n]]
  {}

  lemma OwedAdded(active: seq<Publication>, p: Publication, id: nat)
    ensures Owed(active + [p], id) == Owed(active, id) + Share(p, id)
  {
    assert (active + [p])[..|active|] == active;
  }

  lemma BeginKeeps(s: System, topic: string, data: Message)
    requires Good(s)
    ensures Good(Begun(s, topic, data))
  {
    var after := Begun(s, topic, data);
    assert Lists(s.listeners, topic, ListOf(s.subscribers, topic));
    SameLists(s.listeners, after.listeners, s.subscribers);
    forall p | p in after.active ensures SendsToOpen(after, p) {
      assert p in s.active ==> SendsToOpen(s, p);
    }
    forall id: nat | id < |s.listeners| ensures Accounted(after, id) { BeginAccounted(s, topic, data, id); }
  }

  lemma BeginAccounted(s: System, topic: string, data: Message, id: nat)
    requires id < |s.listeners| && Accounted(s, id) && Lists(s.listeners, topic, ListOf(s.subscribers, topic))
    ensures Accounted(Begun(s, topic, data), id)
  {
    var l, p := s.listeners[id], Publication(topic, data, ListOf(s.subscribers, topic));
    OwedAdded(s.active, p, id);
    if !l.closed {
      assert id in p.rest <==> l.topic == topic;
      if l.topic == topic { LogGrows(LogOf(s.begun, topic), data, l.from); }
    }
  }

  lemma LogGrows(log: seq<Message>, data: Message, from: nat)
    requires from <= |log|
    ensures multiset((log + [data])[from..]) == multiset(log[from..]) + multiset{data}
  {
    assert (log + [data])[from..] == log[from..] + [data];
  }

  /** The next receiver of a publication is open: nothing is ever sent on a closed channel. */
  lemma SendsOnlyToOpen(s: System, k: nat, waiting: bool)
    requires Good(s) && k < |s.active| && s.active[k].rest != []
    ensures OpenOn(s.listeners, s.active[k].topic, s.active[k].rest[0])
  {
    assert SendsToOpen(s, s.active[k]);
    assert s.active[k].rest[0] in s.active[k].rest;
  }

  lemma NextShares(p: Publication, id: nat)
    requires p.rest != [] && NoRepeats(p.rest)
    ensures NoRepeats(Next(p).rest) && forall other: nat :: other in Next(p).rest ==> other in p.rest
    ensures Share(p, id) == Share(Next(p), id) + if id == p.rest[0] then multiset{p.data} else multiset{}
  {
    assert p.rest == [p.rest[0]] + p.rest[1..];
  }

  lemma SendKeeps(s: System, k: nat, waiting: bool)
    requires Good(s) && k < |s.active| && s.active[k].rest != []
    ensures Good(Sent(s, k, waiting))
  {
    var after := Sent(s, k, waiting);
    SendKeepsOpen(s, k, waiting);
    SameLists(s.listeners, after.listeners, s.subscribers);
    forall p | p in after.active ensures SendsToOpen(after, p) { SendKeepsActive(s, k, waiting, p); }
    forall id: nat | id < |after.listeners| ensures Accounted(after, id) && Sound(after.listeners[id]) {
      SendKeepsListener(s, k, waiting, id);
    }
  }

  lemma SendKeepsOpen(s: System, k: nat, waiting: bool)
    requires Good(s) && k < |s.active| && s.active[k].rest != []
    ensures forall t, id: nat :: OpenOn(Sent(s, k, waiting).listeners, t, id) <==> OpenOn(s.listeners, t, id)
  {
    SendsOnlyToOpen(s, k, waiting);
  }

  lemma SendKeepsActive(s: System, k: nat, waiting: bool, p: Publication)
    requires Good(s) && k < |s.active| && s.active[k].rest != [] && p in Sent(s, k, waiting).active
    ensures SendsToOpen(Sent(s, k, waiting), p)
  {
    SendKeepsOpen(s, k, waiting);
    assert SendsToOpen(s, s.active[k]);
    NextShares(s.active[k], 0);
    assert p in s.active || p == Next(s.active[k]);
    assert p in s.active ==> SendsToOpen(s, p);
  }

  lemma SendKeepsListener(s: System, k: nat, waiting: bool, id: nat)
    requires Good(s) && k < |s.active| && s.active[k].rest != [] && id < |s.listeners|
    ensures var after := Sent(s, k, waiting);
            id < |after.listeners| && Accounted(after, id) && Sound(after.listeners[id])
  {
    assert Accounted(s, id) && Sound(s.listeners[id]) && SendsToOpen(s, s.active[k]);
    SendAccounted(s, k, waiting, id);
    var after := Sent(s, k, waiting);
    assert after.listeners[id] == After(s, k, waiting, id);
    OfferSound(s.listeners[id], waiting, s.active[k].data);
  }

  lemma SendAccounted(s: System, k: nat, waiting: bool, id: nat)
    requires k < |s.active| && s.active[k].rest != [] && NoRepeats(s.active[k].rest)
    requires id < |s.listeners| && Accounted(s, id)
    ensures Balanced(After(s, k, waiting, id), Owed(s.active[k := Next(s.active[k])], id), LogOf(s.begun, s.listeners[id].topic))
  {
    OwedAfterSend(s.active, k, id);
    if id == s.active[k].rest[0] {
      OfferBalances(s.listeners[id], waiting, s.active[k].data, Owed(s.active[k := Next(s.active[k])], id),
                    Owed(s.active, id), LogOf(s.begun, s.listeners[id].topic));
    }
  }

  /** What a send makes of a listener. */
  function After(s: System, k: nat, waiting: bool, id: nat): Channel
    requires k < |s.active| && s.active[k].rest != [] && id < |s.listeners|
  {
    var l := s.listeners[id];
    if id == s.active[k].rest[0] then Offer(l, waiting, s.active[k].data) else l
  }

  lemma OfferBalances(
    l: Channel, waiting: bool, data: Message, now: multiset<Message>, owed: multiset<Message>, log: seq<Message>)
    requires Balanced(l, owed, log) && now + multiset{data} == owed
    ensures Balanced(Offer(l, waiting, data), now, log)
  {
    assert multiset(l.offered + [data]) == multiset(l.offered) + multiset{data};
    assert multiset(l.offered + [data]) + now == multiset(l.offered) + (now + multiset{data});
  }

  lemma OwedAfterSend(active: seq<Publication>, k: nat, id: nat)
    requires k < |active| && active[k].rest != [] && NoRepeats(active[k].rest)
    ensures var p := active[k];
            var now, owed := Owed(active[k := Next(p)], id), Owed(active, id);
            if id == p.rest[0] then now + multiset{p.data} == owed else now == owed
  {
    var p := active[k];
    var now, extra := Owed(active[k := Next(p)], id), if id == p.rest[0] then multiset{p.data} else multiset{};
    OwedReplaced(active, k, Next(p), id);
    NextShares(p, id);
    Settle(now, Owed(active, id), Share(Next(p), id), extra);
  }

  lemma Settle(now: multiset<Message>, owed: multiset<Message>, x: multiset<Message>, extra: multiset<Message>)
    requires now + (x + extra) == owed + x
    ensures now + extra == owed
  {
    forall m ensures (now + extra)[m] == owed[m] {
      assert (now + (x + extra))[m] == now[m] + x[m] + extra[m] && (owed + x)[m] == owed[m] + x[m];
    }
  }

  lemma EndKeeps(s: System, k: nat)
    requires Good(s) && k < |s.active| && s.active[k].rest == []
    ensures Good(Ended(s, k))
  {
    var after := Ended(s, k);
    SameLists(s.listeners, after.listeners, s.subscribers);
    forall p | p in after.active ensures SendsToOpen(after, p) { assert SendsToOpen(s, p); }
    forall id: nat | id < |s.listeners| ensures Accounted(after, id) { EndAccounted(s, k, id); }
  }

  lemma EndAccounted(s: System, k: nat, id: nat)
    requires k < |s.active| && s.active[k].rest == [] && id < |s.listeners| && Accounted(s, id)
    ensures Accounted(Ended(s, k), id)
  {
    OwedRemoved(s.active, k, id);
  }

  lemma SubscribeKeeps(s: System, topic: string, reliable: bool)
    requires Good(s) && s.active == []
    ensures Good(Subscribed(s, topic, reliable))
  {
    var after := Subscribed(s, topic, reliable);
    AddingLists(s.listeners, s.subscribers, after.listeners[|s.listeners|]);
    forall id: nat | id < |after.listeners| ensures Accounted(after, id) && Sound(after.listeners[id]) {
      assert id < |s.listeners| ==> Accounted(s, id) && Sound(s.listeners[id]);
    }
  }

  lemma UnsubscribeKeeps(s: System, topic: string, i: nat)
    requires Good(s) && s.active == [] && i < |ListOf(s.subscribers, topic)|
    ensures Good(Unsubscribed(s, topic, i))
  {
    var after := Unsubscribed(s, topic, i);
    RemovingLists(s.listeners, s.subscribers, topic, i);
    forall id: nat | id < |after.listeners| ensures Accounted(after, id) && Sound(after.listeners[id]) {
      assert Accounted(s, id) && Sound(s.listeners[id]);
    }
  }

  lemma ReceiveKeeps(s: System, id: nat)
    requires Good(s) && id < |s.listeners| && s.listeners[id].taken < |s.listeners[id].stream|
    ensures Good(Received(s, id))
  {
    var after := Received(s, id);
    SameLists(s.listeners, after.listeners, s.subscribers);
    forall p | p in s.active ensures SendsToOpen(after, p) { assert SendsToOpen(s, p); }
    forall j: nat | j < |s.listeners| ensures Accounted(after, j) { assert Accounted(s, j); }
    forall j: nat | j < |s.listeners| ensures Sound(after.listeners[j]) { assert Sound(s.listeners[j]); }
  }

  lemma StepKeeps(s: System, step: Step)
    requires Good(s) && Enabled(s, step)
    ensures Good(Apply(s, step))
  {
    match step
    case Subscribe(topic, reliable) => SubscribeKeeps(s, topic, reliable);
    case Unsubscribe(topic, i) => UnsubscribeKeeps(s, topic, i);
    case Begin(topic, data) => BeginKeeps(s, topic, data);
    case Send(k, waiting) => SendKeeps(s, k, waiting);
    case End(k) => EndKeeps(s, k);
    case Receive(id) => ReceiveKeeps(s, id);
  }

  // ----- runs

  /** The state after steps carried out in order, if each is enabled when it happens. */
  function Run(steps: seq<Step>): Option<System> {
    if steps == [] then Some(INITIAL) else
    var before, last := Run(steps[..|steps| - 1]), steps[|steps| - 1];
    if before.Some? && Enabled(before.value, last) then Some(Apply(before.value, last)) else None
  }

  lemma {:induction false} EveryRunIsGood(steps: seq<Step>)
    ensures Run(steps).Some? ==> Good(Run(steps).value)
  {
    if steps != [] && Run(steps).Some? {
      EveryRunIsGood(steps[..|steps| - 1]);
      StepKeeps(Run(steps[..|steps| - 1]).value, steps[|steps| - 1]);
    }
  }

  lemma {:induction false} NothingOwed(active: seq<Publication>, id: nat)
    requires forall k :: 0 <= k < |active| ==> id !in active[k].rest
    ensures Owed(active, id) == multiset{}
  {
    if active != [] {
      NothingOwed(active[..|active| - 1], id);
    }
  }

  /**
    However publications interleave, an open subscriber that no publication has still to
    send to was offered exactly the messages published on its topic since it subscribed,
    each once; and it got them in the order of the offers, with some left out.
   */
  lemma OfferedExactlyOnce(steps: seq<Step>, s: System, id: nat)
    requires Run(steps) == Some(s) && id < |s.listeners| && !s.listeners[id].closed
    requires forall k :: 0 <= k < |s.active| ==> id !in s.active[k].rest
    ensures var l := s.listeners[id];
      && l.from <= |LogOf(s.begun, l.topic)|
      && multiset(l.offered) == multiset(LogOf(s.begun, l.topic)[l.from..])
      && Subsequence(l.stream, l.offered)
  {
    EveryRunIsGood(steps);
    assert Accounted(s, id) && Sound(s.listeners[id]);
    NothingOwed(s.active, id);
  }

  /** What is closed was open, and no publication is under way that could still send on it. */
  lemma ClosesOnlyOpen(steps: seq<Step>, s: System, topic: string, i: nat)
    requires Run(steps) == Some(s) && Enabled(s, Unsubscribe(topic, i))
    ensures OpenOn(s.listeners, topic, ListOf(s.subscribers, topic)[i]) && s.active == []
  {
    EveryRunIsGood(steps);
    assert Lists(s.listeners, topic, ListOf(s.subscribers, topic)) && ListOf(s.subscribers, topic)[i] in ListOf(s.subscribers, topic);
  }

  /** In no run is anything sent on a closed channel, or a channel closed while a publication may still send on it. */
  lemma NeverSendsOnClosed(steps: seq<Step>, s: System, k: nat)
    requires Run(steps) == Some(s) && k < |s.active|
    ensures forall id: nat :: id in s.active[k].rest ==> id < |s.listeners| && !s.listeners[id].closed
  {
    EveryRunIsGood(steps);
    assert SendsToOpen(s, s.active[k]);
  }

  /** A select sends to a reliable subscriber exactly if not all of its 1024 places are taken, to any other one exactly if it is waiting. */
  lemma SendsExactly(steps: seq<Step>, s: System, k: nat, waiting: bool)
    requires Run(steps) == Some(s) && Enabled(s, Send(k, waiting))
    ensures var to, after := s.active[k].rest[0], Apply(s, Send(k, waiting));
            && to < |s.listeners| == |after.listeners|
            && Delivers(s.listeners[to], after.listeners[to], waiting, s.active[k].data)
            && (forall id :: 0 <= id < |s.listeners| && id != to ==> after.listeners[id] == s.listeners[id])
            && after.active[k] == Publication(s.active[k].topic, s.active[k].data, s.active[k].rest[1..])
  {
    EveryRunIsGood(steps);
    SendsOnlyToOpen(s, k, waiting);
    OfferDelivers(s.listeners[s.active[k].rest[0]], waiting, s.active[k].data);
  }

  /** A publication goes to every subscriber of its topic there is, and into its log. */
  lemma BeginsForAll(steps: seq<Step>, s: System, topic: string, data: Message)
    requires Run(steps) == Some(s)
    ensures var after := Apply(s, Begin(topic, data));
            && after.listeners == s.listeners && |after.active| == |s.active| + 1
            && after.active[|s.active|].topic == topic && after.active[|s.active|].data == data
            && (forall id: nat :: id in after.active[|s.active|].rest <==> OpenOn(s.listeners, topic, id))
            && LogOf(after.begun, topic) == LogOf(s.begun, topic) + [data]
            && (forall other :: other != topic ==> LogOf(after.begun, other) == LogOf(s.begun, other))
  {
    EveryRunIsGood(steps);
    assert Lists(s.listeners, topic, ListOf(s.subscribers, topic));
  }

  /** A new subscriber is listed, open and empty, with 1024 places or none; one that leaves is closed, and nobody else. */
  lemma SubscribersComeAndGo(steps: seq<Step>, s: System, topic: string, reliable: bool, i: nat)
    requires Run(steps) == Some(s) && s.active == []
    ensures var after, id := Apply(s, Subscribe(topic, reliable)), |s.listeners|;
            && |after.listeners| == id + 1 && after.listeners[..id] == s.listeners
            && OpenOn(after.listeners, topic, id) && id in ListOf(after.subscribers, topic)
            && after.listeners[id].stream == [] && after.listeners[id].capacity == if reliable then 1024 else 0
    ensures i < |ListOf(s.subscribers, topic)| ==>
            var after, id := Apply(s, Unsubscribe(topic, i)), ListOf(s.subscribers, topic)[i];
            && id < |s.listeners| == |after.listeners| && after.listeners[id].closed && id !in ListOf(after.subscribers, topic)
            && (forall j :: 0 <= j < |s.listeners| && j != id ==> after.listeners[j] == s.listeners[j])
  {
    EveryRunIsGood(steps);
    assert Lists(s.listeners, topic, ListOf(s.subscribers, topic));
    if i < |ListOf(s.subscribers, topic)| {
      assert ListOf(s.subscribers, topic)[i] in ListOf(s.subscribers, topic);
    }
  }
}
