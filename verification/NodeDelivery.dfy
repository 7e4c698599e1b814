/**
  What single operations of the emitter do to each subscriber, in every run: who gets a
  published event, who is cut off, and what a new subscriber starts with.
 */
module NodeDelivery {
  import opened NodeEvents

  /** An event of a process's life cycle is sent without its replay mark, any other one as it is. */
  function AsSent(e: Event): Event { if e.isStatus && e.processId != "" then e.(replayed := false) else e }

  /**
    A published event reaches every open subscriber that has fewer than 1024 events more than
    its replay unreceived. One that has all of them unreceived is closed if the event is of a
    process's life cycle, and merely passed over otherwise.
   */
  lemma PublishDelivers(ops: seq<Op>, s: Emitter, event: Event, id: nat)
    requires Reaches(ops, s) && id < |s.channels| && !s.channels[id].closed
    ensures var c, after := s.channels[id], Apply(s, Publish(event));
            var waiting := |c.stream| - c.taken;
            && |after.channels| == |s.channels| && waiting <= 1024 + c.replay
            && if waiting < 1024 + c.replay
               then after.channels[id].stream == c.stream + [AsSent(event)] && !after.channels[id].closed
               else after.channels[id].stream == c.stream && (after.channels[id].closed <==> event.isStatus)
  {
    EveryRunIsGood(ops, s);
    assert Faithful(s.channels[id], s.log);
  }

  /** Closed channels stay as they are, and what is retained is the event's own process. */
  lemma PublishRetains(ops: seq<Op>, s: Emitter, event: Event)
    requires Reaches(ops, s)
    ensures var after := Apply(s, Publish(event));
            && (forall id :: 0 <= id < |s.channels| && s.channels[id].closed ==> after.channels[id] == s.channels[id])
            && after.log == (if s.closed then s.log else s.log + [AsSent(event)])
            && after.latest == if !s.closed && event.isStatus && event.processId != ""
                               then s.latest[event.processId := AsSent(event)] else s.latest
  {
    EveryRunIsGood(ops, s);
  }

  /** A new subscriber of an open emitter has the retained events queued, each once, if it asked for them. */
  lemma SubscriptionStarts(ops: seq<Op>, s: Emitter, withReplay: bool, order: seq<string>)
    requires Reaches(ops, s) && Enabled(s, Subscribe(withReplay, order))
    ensures var after := Apply(s, Subscribe(withReplay, order));
            && |after.channels| == |s.channels| + 1 && after.channels[..|s.channels|] == s.channels
            && after.latest == s.latest && after.log == s.log
            && var c := after.channels[|s.channels|];
               && (c.closed <==> s.closed) && c.taken == 0
               && (if s.closed || !withReplay then c.stream == [] && c.replay == 0
                   else |c.stream| == |s.latest| == c.replay
                        && forall p :: p in s.latest ==> s.latest[p].(replayed := true) in c.stream)
  {
    if withReplay && !s.closed {
      var c := Apply(s, Subscribe(withReplay, order)).channels[|s.channels|];
      OrderLength(s.latest.Keys, order);
      forall p | p in s.latest ensures s.latest[p].(replayed := true) in c.stream {
        var i :| 0 <= i < |order| && order[i] == p;
        assert c.stream[i] == s.latest[p].(replayed := true);
      }
    }
  }

  /** Unsubscribing closes that channel and no other, and neither sends nor takes anything. */
  lemma UnsubscribeCloses(ops: seq<Op>, s: Emitter, id: nat)
    requires Reaches(ops, s) && id < |s.channels|
    ensures var after := Apply(s, Unsubscribe(id));
            && |after.channels| == |s.channels| && after.channels[id] == s.channels[id].(closed := true)
            && forall j :: 0 <= j < |s.channels| && j != id ==> after.channels[j] == s.channels[j]
  {
    EveryRunIsGood(ops, s);
  }

  /** Closing the emitter closes them all. */
  lemma CloseClosesAll(ops: seq<Op>, s: Emitter)
    requires Reaches(ops, s)
    ensures var after := Apply(s, Close);
            && after.closed && |after.channels| == |s.channels|
            && forall j :: 0 <= j < |s.channels| ==> after.channels[j] == s.channels[j].(closed := true)
  {
    EveryRunIsGood(ops, s);
    forall j | 0 <= j < |s.channels| ensures Apply(s, Close).channels[j] == s.channels[j].(closed := true) {
      assert !s.channels[j].closed <==> s.subscribers.Some? && j in s.subscribers.value;
    }
  }

  /** A subscriber receives what is queued for it in the order in which it was sent. */
  lemma ReceivesInOrder(s: Emitter, id: nat)
    requires id < |s.channels| && s.channels[id].taken < |s.channels[id].stream|
    ensures var c, after := s.channels[id], Apply(s, Receive(id));
            && after == s.(channels := after.channels) && |after.channels| == |s.channels|
            && after.channels[id] == c.(taken := c.taken + 1)
            && forall j :: 0 <= j < |s.channels| && j != id ==> after.channels[j] == s.channels[j]
  {
  }
}
