/**
  The process-local event bus: topics with lossy subscribers, which get a message only if
  they are waiting for it, and reliable ones, which have a buffer. `Message` stands for
  any payload, and the receivers waiting at the moment of a publication are a parameter.

  Line numbers refer to `internal/eventbus/eventbus.go`.
 */
module EventBus {
  import opened Wrappers
  import opened Streams

  const RELIABLE_BUFFER_SIZE := 1024

  type Message = string

  /**
    A channel with all that was ever offered to it, in that order, and all that was sent on
    it, of which the first `taken` messages have been received. It follows its topic from
    the message `from` on.
   */
  datatype Channel = Channel(
    topic: string, capacity: nat, closed: bool, from: nat, offered: seq<Message>, stream: seq<Message>, taken: nat)

  type Logs = map<string, seq<Message>>

  function LogOf(logs: Logs, topic: string): seq<Message> { if topic in logs then logs[topic] else [] }

  /** Lines 79-87: one select; a message that cannot be sent is dropped. */
  function Offer(c: Channel, waiting: bool, data: Message): Channel {
    var heard := c.(offered := c.offered + [data]);
    if c.capacity == 0 && waiting && c.taken == |c.stream| then heard.(stream := c.stream + [data], taken := c.taken + 1)
    else if |c.stream| - c.taken < c.capacity then heard.(stream := c.stream + [data])
    else heard
  }

  /** What was sent is what was offered with some left out, and fits the buffer. */
  ghost predicate Sound(c: Channel) {
    && c.taken <= |c.stream| && |c.stream| - c.taken <= c.capacity && Subsequence(c.stream, c.offered)
    && (c.capacity == 0 || c.capacity == RELIABLE_BUFFER_SIZE)
  }

  lemma OfferSound(c: Channel, waiting: bool, data: Message)
    requires Sound(c)
    ensures Sound(Offer(c, waiting, data))
  {
    SubsequenceExtends(c.stream, c.offered, data);
  }

  /** A buffered subscriber gets the message if fewer than 1024 are queued, any other one if it is waiting. */
  ghost predicate Delivers(before: Channel, after: Channel, waiting: bool, data: Message) {
    var gets := if before.capacity == 0 then waiting else |before.stream| - before.taken < 1024;
    && after.stream == before.stream + (if gets then [data] else [])
    && after.taken == before.taken + (if gets && before.capacity == 0 then 1 else 0)
    && after.offered == before.offered + [data]
    && after == before.(stream := after.stream, taken := after.taken, offered := after.offered)
  }

  lemma OfferDelivers(c: Channel, waiting: bool, data: Message)
    requires Sound(c)
    ensures Delivers(c, Offer(c, waiting, data), waiting, data)
  {
  }

  /** An open subscriber was offered its topic, in order and without a gap, since it subscribed. */
  ghost predicate Faithful(c: Channel, logs: Logs) { FaithfulTo(c, LogOf(logs, c.topic)) }

  ghost predicate FaithfulTo(c: Channel, log: seq<Message>) {
    && Sound(c)
    && c.from + |c.offered| <= |log| && c.offered == log[c.from..c.from + |c.offered|]
    && (!c.closed ==> c.from + |c.offered| == |log|)
  }

  /** With nothing missed, the stream is the topic itself. */
  lemma NothingMissed(c: Channel, logs: Logs)
    requires Faithful(c, logs) && |c.stream| == |c.offered|
    ensures c.stream == LogOf(logs, c.topic)[c.from..c.from + |c.stream|]
  {
    SubsequenceNoLonger(c.stream, c.offered);
  }

  lemma OfferFaithful(c: Channel, log: seq<Message>, waiting: bool, data: Message)
    requires FaithfulTo(c, log) && !c.closed
    ensures FaithfulTo(Offer(c, waiting, data), log + [data])
  {
    OfferSound(c, waiting, data);
    SliceNext(log, c.from, data);
  }

  lemma SliceNext(log: seq<Message>, from: nat, data: Message)
    requires from <= |log|
    ensures (log + [data])[from..|log| + 1] == log[from..|log|] + [data]
  {
  }

  lemma ClosedFaithful(c: Channel, log: seq<Message>, data: Message)
    requires FaithfulTo(c, log) && c.closed
    ensures FaithfulTo(c, log + [data])
  {
    assert (log + [data])[c.from..c.from + |c.offered|] == log[c.from..c.from + |c.offered|];
  }

  // ----- who is listed where

  type Subscribers = map<string, seq<nat>>

  function ListOf(subscribers: Subscribers, topic: string): seq<nat> {
    if topic in subscribers then subscribers[topic] else []
  }

  predicate OpenOn(channels: seq<Channel>, topic: string, id: nat) {
    id < |channels| && !channels[id].closed && channels[id].topic == topic
  }

  /** The list of a topic holds each of its open channels, once. */
  ghost predicate Lists(channels: seq<Channel>, topic: string, listed: seq<nat>) {
    && (forall id: nat :: id in listed <==> OpenOn(channels, topic, id))
    && (forall i, j :: 0 <= i < j < |listed| ==> listed[i] != listed[j])
  }

  ghost predicate AllListed(channels: seq<Channel>, subscribers: Subscribers) {
    forall topic :: Lists(channels, topic, ListOf(subscribers, topic))
  }

  lemma AddingLists(channels: seq<Channel>, subscribers: Subscribers, c: Channel)
    requires AllListed(channels, subscribers) && !c.closed
    ensures AllListed(channels + [c], subscribers[c.topic := ListOf(subscribers, c.topic) + [|channels|]])
  {
    var longer, after := channels + [c], subscribers[c.topic := ListOf(subscribers, c.topic) + [|channels|]];
    forall topic ensures Lists(longer, topic, ListOf(after, topic)) {
      assert Lists(channels, topic, ListOf(subscribers, topic));
      assert |channels| !in ListOf(subscribers, topic);
      forall id: nat ensures id in ListOf(after, topic) <==> OpenOn(longer, topic, id) {
        assert id in ListOf(subscribers, topic) <==> OpenOn(channels, topic, id);
      }
    }
  }

  lemma RemovingLists(channels: seq<Channel>, subscribers: Subscribers, topic: string, i: nat)
    requires AllListed(channels, subscribers) && i < |ListOf(subscribers, topic)|
    ensures var listed := ListOf(subscribers, topic);
      && OpenOn(channels, topic, listed[i])
      && AllListed(channels[listed[i] := channels[listed[i]].(closed := true)], subscribers[topic := listed[..i] + listed[i + 1..]])
  {
    var listed := ListOf(subscribers, topic);
    var id := listed[i];
    assert Lists(channels, topic, listed) && id in listed;
    var fewer, after := channels[id := channels[id].(closed := true)], subscribers[topic := listed[..i] + listed[i + 1..]];
    forall t ensures Lists(fewer, t, ListOf(after, t)) {
      assert Lists(channels, t, ListOf(subscribers, t));
      forall x: nat ensures x in ListOf(after, t) <==> OpenOn(fewer, t, x) {
        assert x in ListOf(subscribers, t) <==> OpenOn(channels, t, x);
        if t == topic {
          assert x in listed <==> x in listed[..i] || x == id || x in listed[i + 1..];
        }
      }
    }
  }

  lemma SameLists(channels: seq<Channel>, after: seq<Channel>, subscribers: Subscribers)
    requires AllListed(channels, subscribers) && |after| == |channels|
    requires forall id :: 0 <= id < |channels| ==> after[id].closed == channels[id].closed && after[id].topic == channels[id].topic
    ensures AllListed(after, subscribers)
  {
    forall topic ensures Lists(after, topic, ListOf(subscribers, topic)) {
      assert Lists(channels, topic, ListOf(subscribers, topic));
      forall id: nat ensures id in ListOf(subscribers, topic) <==> OpenOn(after, topic, id) {
        assert id in ListOf(subscribers, topic) <==> OpenOn(channels, topic, id);
      }
    }
  }

  class Bus {
    var subscribers: Subscribers
    var reliableChans: set<nat>
    /** Every channel ever made; a channel is its position here. */
    var channels: seq<Channel>
    /** History of what was published per topic; nothing decides on it. */
    var logs: Logs

    constructor ()
      ensures Valid() && channels == [] && logs == map[]
    {
      subscribers, reliableChans, channels, logs := map[], {}, [], map[];
    }

    ghost predicate Valid()
      reads this
    {
      && AllListed(channels, subscribers)
      && (forall id: nat :: id in reliableChans <==> id < |channels| && !channels[id].closed && channels[id].capacity > 0)
      && (forall id :: 0 <= id < |channels| ==> Faithful(channels[id], logs))
    }

    /** Lines 52-58 and 63-74. */
    method Subscribe(topic: string, reliable: bool) returns (id: nat)
      requires Valid()
      modifies this`subscribers, this`reliableChans, this`channels
      ensures Valid() && id == |old(channels)|
      ensures channels == old(channels) + [
        Channel(topic, if reliable then RELIABLE_BUFFER_SIZE else 0, false, |LogOf(logs, topic)|, [], [], 0)]
    {
      var now := |LogOf(logs, topic)|;
      id := |channels|;
      var c := Channel(topic, if reliable then RELIABLE_BUFFER_SIZE else 0, false, now, [], [], 0);
      AddingLists(channels, subscribers, c);
      channels := channels + [c];
      subscribers := subscribers[topic := ListOf(subscribers, topic) + [id]];
      if reliable {
        reliableChans := reliableChans + {id};
      }
    }

    method Send(id: nat, waiting: bool, data: Message)
      requires id < |channels| && !channels[id].closed
      modifies this`channels
      ensures channels == old(channels)[id := Offer(old(channels)[id], waiting, data)]
    {
      channels := channels[id := Offer(channels[id], waiting, data)];
    }

    /** Lines 76-89; `waiting` are the unbuffered subscribers that are receiving. */
    method Publish(topic: string, data: Message, waiting: set<nat>)
      requires Valid()
      modifies this`channels, this`logs
      ensures Valid()
      ensures logs == old(logs)[topic := LogOf(old(logs), topic) + [data]]
      ensures |channels| == |old(channels)|
      ensures forall id :: 0 <= id < |channels| ==>
        channels[id] == if OpenOn(old(channels), topic, id)
                        then Offer(old(channels)[id], id in waiting, data) else old(channels)[id]
      ensures forall id: nat :: OpenOn(old(channels), topic, id) ==>
        Delivers(old(channels)[id], channels[id], id in waiting, data)
    {
      var listed := ListOf(subscribers, topic);
      assert Lists(channels, topic, listed);
      for k := 0 to |listed|
        invariant |channels| == |old(channels)| && logs == old(logs)
        invariant forall id :: 0 <= id < |channels| ==>
          channels[id] == if id in listed[..k] then Offer(old(channels)[id], id in waiting, data) else old(channels)[id]
      {
        assert listed[k] in listed && listed[k] !in listed[..k];
        assert OpenOn(old(channels), topic, listed[k]);
        Send(listed[k], listed[k] in waiting, data);
      }
      assert listed[..|listed|] == listed;
      logs := logs[topic := LogOf(logs, topic) + [data]];
      SameLists(old(channels), channels, subscribers);
      forall id: nat | id < |channels| ensures Faithful(channels[id], logs) {
        assert Faithful(old(channels)[id], old(logs));
        assert id in listed <==> OpenOn(old(channels), topic, id);
        if id in listed {
          OfferDelivers(old(channels)[id], id in waiting, data);
          OfferFaithful(old(channels)[id], LogOf(old(logs), topic), id in waiting, data);
        } else if old(channels)[id].topic == topic {
          ClosedFaithful(old(channels)[id], LogOf(old(logs), topic), data);
        }
      }
    }

    /** Lines 91-102: a channel not listed under the topic is left alone. */
    method Unsubscribe(topic: string, id: nat)
      requires Valid()
      modifies this`subscribers, this`reliableChans, this`channels
      ensures Valid()
      ensures OpenOn(old(channels), topic, id) ==>
        channels == old(channels)[id := old(channels)[id].(closed := true)]
      ensures !OpenOn(old(channels), topic, id) ==>
        channels == old(channels) && subscribers == old(subscribers)
    {
      var listed := ListOf(subscribers, topic);
      for i := 0 to |listed|
        invariant id !in listed[..i]
        invariant channels == old(channels) && subscribers == old(subscribers) && reliableChans == old(reliableChans)
      {
        if listed[i] == id {
          RemovingLists(channels, subscribers, topic, i);
          subscribers := subscribers[topic := listed[..i] + listed[i + 1..]];
          reliableChans := reliableChans - {id};
          assert Faithful(channels[id], logs);
          channels := channels[id := channels[id].(closed := true)];
          return;
        }
      }
      assert Lists(channels, topic, listed);
      assert id in listed <==> OpenOn(channels, topic, id);
    }

    method Receive(id: nat) returns (data: Option<Message>)
      requires Valid()
      modifies this`channels
      ensures Valid()
      ensures data == if id < |old(channels)| && old(channels)[id].taken < |old(channels)[id].stream|
        then Some(old(channels)[id].stream[old(channels)[id].taken]) else None
      ensures data.Some? ==> channels == old(channels)[id := old(channels)[id].(taken := old(channels)[id].taken + 1)]
      ensures data.None? ==> channels == old(channels)
    {
      if id >= |channels| || channels[id].taken >= |channels[id].stream| {
        return None;
      }
      data := Some(channels[id].stream[channels[id].taken]);
      assert Faithful(channels[id], logs);
      SameLists(channels, channels[id := channels[id].(taken := channels[id].taken + 1)], subscribers);
      channels := channels[id := channels[id].(taken := channels[id].taken + 1)];
    }
  }
}
