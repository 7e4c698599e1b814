/**
  The emitter as the object it is: methods that update its maps and send on channels.
  `Send` and `CloseChannel` carry the rules of channels as preconditions: no send on a
  closed channel, no blocking send while the lock is held, no second close. A `None`
  subscriber set is the nil map, to which nothing may be added.

  Line numbers refer to `internal/node/events.go`.
 */
module NodeEmitter {
  import opened Wrappers
  import opened NodeEvents

  class EventEmitter {
    var subscribers: Option<set<nat>>
    var latestProcessStatus: map<string, Event>
    var closed: bool
    /** Every channel ever made; a channel is its position here. */
    var channels: seq<Channel>
    /** History of what was published; nothing decides on it. */
    var log: seq<Event>

    constructor ()
      ensures State() == INITIAL && Good(State())
    {
      subscribers, latestProcessStatus, closed, channels, log := Some({}), map[], false, [], [];
    }

    ghost function State(): Emitter
      reads this
    {
      Emitter(subscribers, latestProcessStatus, closed, channels, log)
    }

    method Send(id: nat, e: Event)
      requires id < |channels| && !channels[id].closed && channels[id].HasRoom()
      modifies this`channels
      ensures channels == old(channels)[id := old(channels[id]).(stream := old(channels[id]).stream + [e])]
    {
      channels := channels[id := channels[id].(stream := channels[id].stream + [e])];
    }

    method CloseChannel(id: nat)
      requires id < |channels| && !channels[id].closed
      modifies this`channels
      ensures channels == old(channels)[id := old(channels[id]).(closed := true)]
    {
      channels := channels[id := channels[id].(closed := true)];
    }

    method AddSubscriber(id: nat)
      requires subscribers.Some?
      modifies this`subscribers
      ensures subscribers == Some(old(subscribers).value + {id})
    {
      subscribers := Some(subscribers.value + {id});
    }

    /** Lines 40-61. The map is iterated in any order, which is handed back. */
    method SubscribeWithReplay(replayProcessStatus: bool) returns (id: nat, ghost order: seq<string>)
      requires Good(State())
      modifies this`subscribers, this`channels
      ensures IsOrder(latestProcessStatus.Keys, order)
      ensures State() == Apply(old(State()), Subscribe(replayProcessStatus, order)) && Good(State())
      ensures id == |old(channels)|
    {
      order := SomeOrder(latestProcessStatus.Keys);
      OrderLength(latestProcessStatus.Keys, order);
      ghost var before := State();
      var bufferSize := EVENT_BUFFER_SIZE + if replayProcessStatus then |latestProcessStatus| else 0;
      var replays := replayProcessStatus && !closed;
      id := |channels|;
      channels := channels + [Channel(bufferSize, [], 0, false, replays, 0, |log|, |log|)];
      if closed {
        CloseChannel(id);
        assert State() == SubscribeTo(before, replayProcessStatus, order);
        StepKeeps(before, Subscribe(replayProcessStatus, order));
        return;
      }
      if replayProcessStatus {
        order := Replay(id);
      }
      AddSubscriber(id);
      assert channels[..id] == before.channels;
      assert State() == SubscribeTo(before, replayProcessStatus, order);
      StepKeeps(before, Subscribe(replayProcessStatus, order));
    }

    /** Lines 53-58: queue the retained events; they always fit. */
    method Replay(id: nat) returns (ghost order: seq<string>)
      requires id < |channels| && !channels[id].closed && channels[id].stream == [] && channels[id].taken == 0
      requires channels[id].capacity >= |latestProcessStatus|
      modifies this`channels
      ensures IsOrder(latestProcessStatus.Keys, order) && |order| == |latestProcessStatus|
      ensures channels == old(channels)[id :=
        old(channels[id]).(stream := ReplayOf(latestProcessStatus, order), replay := |order|)]
    {
      order := [];
      assert ReplayOf(latestProcessStatus, order) == [];
      var remaining := latestProcessStatus.Keys;
      while remaining != {}
        invariant remaining <= latestProcessStatus.Keys
        invariant IsOrder(latestProcessStatus.Keys - remaining, order)
        invariant |order| + |remaining| == |latestProcessStatus|
        invariant |channels| == |old(channels)|
        invariant channels == old(channels)[id := old(channels[id]).(stream := ReplayOf(latestProcessStatus, order))]
        decreases remaining
      {
        var p :| p in remaining;
        ReplayExtends(latestProcessStatus, order, p);
        Send(id, latestProcessStatus[p].(replayed := true));
        remaining := remaining - {p};
        order := order + [p];
      }
      channels := channels[id := channels[id].(replay := |channels[id].stream|)];
    }

    /** Lines 65-75. */
    method Unsubscribe(id: nat)
      requires Good(State())
      modifies this`subscribers, this`channels
      ensures State() == Apply(old(State()), NodeEvents.Unsubscribe(id)) && Good(State())
    {
      ghost var before := State();
      StepKeeps(before, NodeEvents.Unsubscribe(id));
      if subscribers.None? || id !in subscribers.value {
        return;
      }
      subscribers := Some(subscribers.value - {id});
      CloseChannel(id);
      assert channels == CutOff(before.channels, {id});
    }

    /** Lines 81-108. The subscribers are visited in any order. */
    method Publish(event: Event)
      requires Good(State())
      modifies this`subscribers, this`channels, this`latestProcessStatus, this`log
      ensures State() == Apply(old(State()), NodeEvents.Publish(event)) && Good(State())
    {
      ghost var before := State();
      StepKeeps(before, NodeEvents.Publish(event));
      PublishLocked(event);
    }

    method PublishLocked(event: Event)
      requires closed <==> subscribers.None?
      requires subscribers.Some? ==> forall id :: id in subscribers.value ==> id < |channels| && !channels[id].closed
      modifies this`subscribers, this`channels, this`latestProcessStatus, this`log
      ensures State() == PublishTo(old(State()), event)
    {
      if closed {
        return;
      }
      var e := event;
      if e.isStatus && e.processId != "" {
        e := e.(replayed := false);
        latestProcessStatus := latestProcessStatus[e.processId := e];
      }
      log := log + [e];
      DeliverAll(e);
    }

    /** Line 93. */
    method DeliverAll(e: Event)
      requires subscribers.Some? && forall id :: id in subscribers.value ==> id < |channels| && !channels[id].closed
      modifies this`subscribers, this`channels
      ensures channels == OfferAll(old(channels), old(subscribers).value, e, |log|)
      ensures subscribers == Some(OpenAmong(channels, old(subscribers).value))
    {
      var remaining := subscribers.value;
      OfferNone(channels, e, |log|);
      while remaining != {}
        invariant subscribers.Some? && remaining <= old(subscribers).value
        invariant channels == OfferAll(old(channels), old(subscribers).value - remaining, e, |log|)
        invariant subscribers.value == OpenAmong(channels, old(subscribers).value)
        decreases remaining
      {
        var id :| id in remaining;
        OfferOne(old(channels), old(subscribers).value - remaining, id, e, |log|);
        assert old(subscribers).value - (remaining - {id}) == old(subscribers).value - remaining + {id};
        remaining := remaining - {id};
        Deliver(id, e);
      }
      assert old(subscribers).value - {} == old(subscribers).value;
    }

    /** Lines 94-106: one subscriber. */
    method Deliver(id: nat, e: Event)
      requires id < |channels| && !channels[id].closed && subscribers.Some?
      modifies this`subscribers, this`channels
      ensures channels == old(channels)[id := Offer(old(channels)[id], e, |log|)]
      ensures subscribers == Some(if channels[id].closed then old(subscribers).value - {id} else old(subscribers).value)
    {
      if channels[id].HasRoom() {
        Send(id, e);
        channels := channels[id := channels[id].(upTo := |log|)];
      } else if e.isStatus {
        subscribers := Some(subscribers.value - {id});
        CloseChannel(id);
      } else {
        channels := channels[id := channels[id].(upTo := |log|)];
      }
    }

    /** Lines 112-124. */
    method Close()
      requires Good(State())
      modifies this`subscribers, this`channels, this`closed
      ensures State() == Apply(old(State()), NodeEvents.Close) && Good(State())
    {
      ghost var before := State();
      StepKeeps(before, NodeEvents.Close);
      if closed {
        return;
      }
      closed := true;
      CloseAll(subscribers.value);
      subscribers := None;
    }

    /** Lines 120-122. */
    method CloseAll(ids: set<nat>)
      requires forall id :: id in ids ==> id < |channels| && !channels[id].closed
      modifies this`channels
      ensures channels == CutOff(old(channels), ids)
    {
      var remaining := ids;
      assert CutOff(channels, {}) == channels;
      while remaining != {}
        invariant remaining <= ids
        invariant channels == CutOff(old(channels), ids - remaining)
        decreases remaining
      {
        var id :| id in remaining;
        CutOffOne(old(channels), ids - remaining, id);
        assert ids - (remaining - {id}) == ids - remaining + {id};
        remaining := remaining - {id};
        CloseChannel(id);
      }
      assert ids - {} == ids;
    }

    /** A consumer takes one event from its channel; a closed channel can still be drained. */
    method Receive(id: nat) returns (e: Option<Event>)
      requires Good(State())
      modifies this`channels
      ensures State() == Apply(old(State()), NodeEvents.Receive(id)) && Good(State())
      ensures e == if id < |old(channels)| && old(channels)[id].taken < |old(channels)[id].stream|
        then Some(old(channels)[id].stream[old(channels)[id].taken]) else None
    {
      ghost var before := State();
      StepKeeps(before, NodeEvents.Receive(id));
      if id >= |channels| || channels[id].taken >= |channels[id].stream| {
        return None;
      }
      e := Some(channels[id].stream[channels[id].taken]);
      channels := channels[id := channels[id].(taken := channels[id].taken + 1)];
    }
  }

  lemma ReplayExtends(latest: map<string, Event>, order: seq<string>, p: string)
    requires (forall q :: q in order ==> q in latest) && p in latest
    ensures ReplayOf(latest, order + [p]) == ReplayOf(latest, order) + [latest[p].(replayed := true)]
  {
  }

  lemma OfferNone(channels: seq<Channel>, e: Event, logged: nat)
    ensures OfferAll(channels, {}, e, logged) == channels
  {
  }

  lemma OfferOne(channels: seq<Channel>, ids: set<nat>, id: nat, e: Event, logged: nat)
    requires id < |channels| && id !in ids
    ensures OfferAll(channels, ids + {id}, e, logged) == OfferAll(channels, ids, e, logged)[id := Offer(channels[id], e, logged)]
    ensures OfferAll(channels, ids, e, logged)[id] == channels[id]
  {
  }

  lemma CutOffOne(channels: seq<Channel>, ids: set<nat>, id: nat)
    requires id < |channels| && id !in ids
    ensures CutOff(channels, ids + {id}) == CutOff(channels, ids)[id := channels[id].(closed := true)]
    ensures CutOff(channels, ids)[id] == channels[id]
  {
  }

  lemma {:induction false} SomeOrder(keys: set<string>) returns (order: seq<string>)
    ensures IsOrder(keys, order)
  {
    if keys == {} {
      order := [];
    } else {
      var p :| p in keys;
      order := SomeOrder(keys - {p});
      order := order + [p];
    }
  }
}
