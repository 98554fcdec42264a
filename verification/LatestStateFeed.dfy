/**
 The feed object: its topic table, the queues of its consumers and its counters,
 and the code that runs between two awaits of `serve`, the producer and the
 consumer.  Each stretch is one event of the machine in FeedModel.
 */
module LatestStateFeed {
  import opened FeedModel

  datatype Admission = Serving(id: nat) | Saturated(reason: Refusal)

  class Feed {
    const limits: Limits
    var topics: map<string, Topic>
    var consumers: seq<Consumer>
    var live: set<nat>
    var spawned: nat
    var active: int
    var activeSources: int
    var connected: int
    var disconnected: int
    var coalesced: nat
    var slow: nat
    var cancelled: nat
    var rejected: nat
    var sequence: nat

    ghost var published: seq<Publication>
    ghost var trace: seq<Event>

    ghost function View(): State
      reads this
    {
      State(limits, topics, consumers, live, spawned, published, active, activeSources, connected, disconnected,
            coalesced, slow, cancelled, rejected)
    }

    // A valid feed is where the machine is after the events so far.
    ghost predicate Valid()
      reads this
    {
      && limits.perTopic >= 1
      && sequence == |published|
      && View() == Run(Init(limits), trace)
    }

    // Each limit is raised to one.
    constructor (maxTopics: int, maxConsumers: int, maxPerTopic: int)
      ensures Valid() && trace == []
      ensures limits.topics >= 1 && limits.topics >= maxTopics && (limits.topics == 1 || limits.topics == maxTopics)
      ensures limits.consumers >= 1 && limits.consumers >= maxConsumers
      ensures limits.consumers == 1 || limits.consumers == maxConsumers
      ensures limits.perTopic >= 1 && limits.perTopic >= maxPerTopic
      ensures limits.perTopic == 1 || limits.perTopic == maxPerTopic
    {
      limits := Limits(if maxTopics > 1 then maxTopics else 1, if maxConsumers > 1 then maxConsumers else 1,
                       if maxPerTopic > 1 then maxPerTopic else 1);
      topics, consumers, live, spawned := map[], [], {}, 0;
      active, activeSources, connected, disconnected := 0, 0, 0, 0;
      coalesced, slow, cancelled, rejected, sequence := 0, 0, 0, 0, 0;
      published, trace := [], [];
    }

    ghost method Record(e: Event) returns (s: State)
      requires Valid() && Enabled(View(), e)
      modifies this`trace
      ensures trace == old(trace) + [e]
      ensures Run(Init(limits), trace) == s == Next(old(View()), e)
    {
      s := Next(View(), e);
      RunExtend(Init(limits), trace, e);
      trace := trace + [e];
    }

    ghost method RecordAdmission(topic: string) returns (s: State)
      requires Valid() && Refused(View(), topic).None?
      modifies this`trace
      ensures trace == old(trace) + [Join(topic)]
      ensures Run(Init(limits), trace) == s == Admit(old(View()), topic)
    {
      s := Record(Join(topic));
    }

    ghost method RecordDeparture(id: nat) returns (s: State)
      requires Valid() && 1 <= id <= |consumers| && Ready(View(), id, Leave)
      modifies this`trace
      ensures trace == old(trace) + [On(id, Leave)]
      ensures Run(Init(limits), trace) == s == Depart(old(View()), id)
    {
      s := Record(On(id, Leave));
    }

    // `serve`, up to its wait: the limits are looked at before anything is allocated.
    method Serve(topic: string) returns (r: Admission)
      requires Valid()
      modifies this
      ensures Valid() && trace == old(trace) + [Join(topic)]
      ensures r.Saturated? <==> Refused(old(View()), topic).Some?
      ensures r.Serving? <==>
                |Roster(old(topics))| < limits.consumers
                && (if topic in old(topics) then |old(topics)[topic].members| < limits.perTopic
                    else |old(topics)| < limits.topics)
      ensures r.Saturated? ==>
                r.reason == if |Roster(old(topics))| >= limits.consumers then ConsumerLimit
                            else if topic in old(topics) then PerTopicLimit else TopicLimit
      ensures r.Serving? ==> Joined(old(View()), View(), topic)
      ensures r.Saturated? ==>
                topics == old(topics) && consumers == old(consumers) && active == old(active)
                && rejected == old(rejected) + 1
      ensures r.Serving? ==> r.id == |consumers| && topic in topics && r.id in topics[topic].members
    {
      hide Joined, Roster;
      ActiveIsRoster(limits, trace);
      assert Joined(View(), Admit(View(), topic), topic) by {
        RunKeepsInv(Init(limits), trace);
        AdmitJoins(View(), topic);
      }
      if active >= limits.consumers {
        r := Saturated(ConsumerLimit);
      } else if topic !in topics && |topics| >= limits.topics {
        r := Saturated(TopicLimit);
      } else if topic in topics && |topics[topic].members| >= limits.perTopic {
        r := Saturated(PerTopicLimit);
      } else {
        ghost var after := RecordAdmission(topic);
        var id := Register(topic);
        return Serving(id);
      }
      ghost var after := Record(Join(topic));
      rejected := rejected + 1;
    }

    method Register(topic: string) returns (id: nat)
      requires Refused(View(), topic).None?
      modifies this`topics, this`consumers, this`live, this`spawned, this`active, this`activeSources, this`connected
      ensures View() == Admit(old(View()), topic)
      ensures id == |consumers| && topic in topics && id in topics[topic].members
    {
      id := |consumers| + 1;
      active := active + 1;
      connected := connected + 1;
      var source: Topic;
      if topic !in topics {
        source := Topic([id], spawned);
        activeSources := activeSources + 1;
        live := live + {spawned};
        spawned := spawned + 1;
      } else {
        source := topics[topic].(members := topics[topic].members + [id]);
      }
      topics := topics[topic := source];
      consumers := consumers + [Consumer(topic, Idle, [], [], 0, 0, 0)];
    }

    // One pass of the producer: a new frame, offered to every queue of the topic.
    method Produce(topic: string)
      requires Valid() && topic in topics && topics[topic].producer in live
      modifies this
      ensures Valid() && trace == old(trace) + [Publish(topic)]
      ensures sequence == old(sequence) + 1
    {
      MembersKnown(limits, trace, topic);
      ghost var after := Record(Publish(topic));
      sequence := sequence + 1;
      var frame := Frame(sequence, coalesced);
      Dispatch(topics[topic].members, frame);
      published := published + [Publication(topic, frame)];
    }

    // A full queue gives up its older frame before it takes the new one.
    method Dispatch(members: seq<nat>, frame: Frame)
      requires Known(consumers, members) && Distinct(members) && Bounded(consumers)
      modifies this`consumers, this`coalesced
      ensures consumers == OfferAll(old(consumers), members, frame)
      ensures coalesced == old(coalesced) + FullQueues(old(consumers), members)
    {
      ghost var before := consumers;
      for k := 0 to |members|
        invariant |consumers| == |before|
        invariant Known(before, members[..k])
        invariant consumers == OfferAll(before, members[..k], frame)
        invariant coalesced == old(coalesced) + FullQueues(before, members[..k])
      {
        assert members[..k+1][..k] == members[..k];
        var m := members[k] - 1;
        OfferAllAt(before, members[..k], frame, m);
        assert m + 1 !in members[..k];
        assert consumers[m] == before[m];
        if Full(consumers[m].queue) {
          consumers := consumers[m := consumers[m].(queue := consumers[m].queue[1..],
              dropped := consumers[m].dropped + 1)];
          coalesced := coalesced + 1;
        }
        Put(m, frame);
      }
      assert members[..|members|] == members;
    }

    // Putting into a full queue would raise.
    method Put(m: nat, frame: Frame)
      requires m < |consumers| && !Full(consumers[m].queue)
      modifies this`consumers
      ensures consumers == old(consumers)[m := old(consumers[m]).(queue := old(consumers[m]).queue + [frame],
                                                                  offered := old(consumers[m]).offered + 1)]
    {
      var c := consumers[m];
      consumers := consumers[m := c.(queue := c.queue + [frame], offered := c.offered + 1)];
    }

    // The snapshot raised: the producer task is over, the topic stays until its
    // connections have left.
    method ProducerRaised(topic: string)
      requires Valid() && topic in topics && topics[topic].producer in live
      modifies this
      ensures Valid() && trace == old(trace) + [ProducerFails(topic)]
      ensures topics == old(topics) && live == old(live) - {topics[topic].producer}
    {
      ghost var after := Record(ProducerFails(topic));
      live := live - {topics[topic].producer};
    }

    // `_consume`, resumed from its queue.
    method TakeFrame(id: nat) returns (frame: Frame)
      requires Valid() && 1 <= id <= |consumers| && consumers[id-1].phase == Idle && |consumers[id-1].queue| > 0
      modifies this
      ensures Valid() && trace == old(trace) + [On(id, Dequeue)]
      ensures |consumers| == |old(consumers)|
      ensures Newest(published, consumers[id-1].topic) == Some(frame)
      ensures consumers[id-1].taken == old(consumers[id-1].taken) + [Delivery(frame, sequence)]
    {
      RunKeepsInv(Init(limits), trace);
      assert Faithful(consumers, published, id - 1);
      ghost var after := Record(On(id, Dequeue));
      frame := consumers[id-1].queue[0];
      consumers := consumers[id-1 := Take(consumers[id-1], sequence)];
    }

    // The send ended: in time, past its budget, or with another error.
    method SendEnded(id: nat, outcome: Action)
      requires Valid() && 1 <= id <= |consumers| && consumers[id-1].phase == Sending
      requires outcome == Sent || outcome == SendTimeout || outcome == SendError
      modifies this
      ensures Valid() && trace == old(trace) + [On(id, outcome)]
      ensures slow == old(slow) + if outcome == SendTimeout then 1 else 0
      ensures |consumers| == |old(consumers)|
      ensures consumers[id-1].phase == if outcome == Sent then Idle else Ended
    {
      ghost var after := Record(On(id, outcome));
      if outcome == SendTimeout {
        slow := slow + 1;
      }
      consumers := consumers[id-1 := consumers[id-1].(phase := if outcome == Sent then Idle else Ended)];
    }

    // The wait of `serve` ended by cancellation, or because the producer is over.
    method StopServing(id: nat, cancel: bool)
      requires Valid() && 1 <= id <= |consumers| && Ready(View(), id, if cancel then Cancel else ProducerOver)
      modifies this
      ensures Valid() && trace == old(trace) + [On(id, if cancel then Cancel else ProducerOver)]
      ensures |consumers| == |old(consumers)| && consumers[id-1].phase == Ended
      ensures cancelled == old(cancelled) + if cancel then 1 else 0
    {
      ghost var after := Record(On(id, if cancel then Cancel else ProducerOver));
      if cancel {
        cancelled := cancelled + 1;
      }
      consumers := consumers[id-1 := consumers[id-1].(phase := Ended)];
    }

    // The clean-up of `serve`.
    method Disconnect(id: nat)
      requires Valid() && 1 <= id <= |consumers| && consumers[id-1].phase == Ended && consumers[id-1].topic in topics
      modifies this
      ensures Valid() && trace == old(trace) + [On(id, Leave)]
      ensures |consumers| == |old(consumers)| && consumers[id-1].phase == Left && consumers[id-1].queue == []
    {
      ghost var after := RecordDeparture(id);
      Unregister(id);
    }

    // The last connection takes the topic and its producer along.
    method Unregister(id: nat)
      requires 1 <= id <= |consumers| && consumers[id-1].topic in topics
      modifies this`topics, this`consumers, this`live, this`active, this`activeSources, this`disconnected
      ensures View() == Depart(old(View()), id)
    {
      var c := consumers[id-1];
      var source := topics[c.topic];
      var left := Without(source.members, id);
      if left == [] {
        topics := topics - {c.topic};
        live := live - {source.producer};
        activeSources := activeSources - 1;
      } else {
        topics := topics[c.topic := source.(members := left)];
      }
      active := active - 1;
      disconnected := disconnected + 1;
      consumers := consumers[id-1 := Gone(c)];
    }

    // `status`: the gauges against the table and the limits.
    method Status() returns (consumersNow: int, sources: int, total: int, dropped: nat)
      requires Valid()
      ensures consumersNow == |Roster(topics)| <= limits.consumers && sources == |topics| <= limits.topics
      ensures total == consumersNow + disconnected && dropped == Dropped(consumers)
    {
      GaugesAndLimits(limits, trace);
      consumersNow, sources, total, dropped := active, activeSources, connected, coalesced;
    }
  }

  lemma MembersKnown(limits: Limits, es: seq<Event>, t: string)
    requires limits.perTopic >= 1 && t in Run(Init(limits), es).topics
    ensures var s := Run(Init(limits), es);
      Known(s.consumers, s.topics[t].members) && Distinct(s.topics[t].members) && Bounded(s.consumers)
  {
    RunKeepsInv(Init(limits), es);
    var s := Run(Init(limits), es);
    assert TopicAt(s.topics, s.consumers, t);
    forall i | 0 <= i < |s.consumers| ensures |s.consumers[i].queue| <= QUEUE_SIZE {
      assert Faithful(s.consumers, s.published, i);
    }
  }

  // No queue holds more than it has room for.
  ghost predicate Bounded(cs: seq<Consumer>) {
    forall i :: 0 <= i < |cs| ==> |cs[i].queue| <= QUEUE_SIZE
  }
}
