/**
 Latest-state delivery: one producer per topic and a queue for one frame per
 consumer.  The events are the stretches of code between two awaits, so a run of
 the machine is an interleaving of the tasks of the feed.
 */
module FeedModel {

  datatype Option<T> = None | Some(value: T)

  datatype Frame = Frame(sequence: nat, coalescedTotal: nat)

  datatype Publication = Publication(topic: string, frame: Frame)

  // A frame taken off a queue, and how many frames the feed had published by then.
  datatype Delivery = Delivery(frame: Frame, at: nat)

  datatype Phase =
    | Idle                    // the consumer task waits on its queue
    | Sending                 // it is inside `send`
    | Ended                   // the task is over, the connection is still registered
    | Left

  datatype Consumer = Consumer(topic: string, phase: Phase, queue: seq<Frame>,
                               taken: seq<Delivery>, offered: nat, dropped: nat, abandoned: nat)

  // `members` are consumer ids in order of arrival, `producer` a task.
  datatype Topic = Topic(members: seq<nat>, producer: nat)

  datatype Limits = Limits(topics: nat, consumers: nat, perTopic: nat)

  datatype State = State(
    limits: Limits,
    topics: map<string, Topic>,
    consumers: seq<Consumer>,        // consumer id k is at index k - 1
    live: set<nat>,                  // producer tasks that are still running
    spawned: nat,
    published: seq<Publication>,
    active: int, activeSources: int, connected: int, disconnected: int,
    coalesced: nat, slow: nat, cancelled: nat, rejected: nat)

  datatype Action = Dequeue | Sent | SendTimeout | SendError | Cancel | ProducerOver | Leave

  datatype Event =
    | Join(topic: string)
    | Publish(topic: string)
    | ProducerFails(topic: string)
    | On(id: nat, act: Action)

  // ------------------------------------------------------------------- queues

  const QUEUE_SIZE := 1

  predicate Full(q: seq<Frame>) { |q| >= QUEUE_SIZE }

  // A full queue gives up its oldest frame.
  function MakeRoom(q: seq<Frame>): seq<Frame> { if Full(q) then q[1..] else q }

  // ---------------------------------------------------------------- admission

  datatype Refusal = ConsumerLimit | TopicLimit | PerTopicLimit

  // The first limit that refuses a connection, in the order they are looked at.
  function Refused(s: State, t: string): Option<Refusal> {
    if s.active >= s.limits.consumers then Some(ConsumerLimit)
    else if t !in s.topics && |s.topics| >= s.limits.topics then Some(TopicLimit)
    else if t in s.topics && |s.topics[t].members| >= s.limits.perTopic then Some(PerTopicLimit)
    else None
  }

  function Admit(s: State, t: string): State {
    var id := |s.consumers| + 1;
    var isNew := t !in s.topics;
    var topic := if isNew then Topic([id], s.spawned) else s.topics[t].(members := s.topics[t].members + [id]);
    s.(topics := s.topics[t := topic],
       consumers := s.consumers + [Consumer(t, Idle, [], [], 0, 0, 0)],
       live := if isNew then s.live + {s.spawned} else s.live,
       spawned := if isNew then s.spawned + 1 else s.spawned,
       active := s.active + 1, connected := s.connected + 1,
       activeSources := if isNew then s.activeSources + 1 else s.activeSources)
  }

  // -------------------------------------------------------------- publication

  function Offer(c: Consumer, f: Frame): Consumer {
    c.(queue := MakeRoom(c.queue) + [f], offered := c.offered + 1,
       dropped := if Full(c.queue) then c.dropped + 1 else c.dropped)
  }

  ghost predicate Known(cs: seq<Consumer>, members: seq<nat>) {
    forall k :: 0 <= k < |members| ==> 1 <= members[k] <= |cs|
  }

  // One pass of the producer over the queues of its topic.
  ghost function OfferAll(cs: seq<Consumer>, members: seq<nat>, f: Frame): (r: seq<Consumer>)
    requires Known(cs, members)
    ensures |r| == |cs|
  {
    if members == [] then cs
    else
      var rest := OfferAll(cs, members[..|members|-1], f);
      var m := members[|members|-1] - 1;
      rest[m := Offer(rest[m], f)]
  }

  ghost function FullQueues(cs: seq<Consumer>, members: seq<nat>): nat
    requires Known(cs, members)
  {
    if members == [] then 0
    else FullQueues(cs, members[..|members|-1]) + (if Full(cs[members[|members|-1]-1].queue) then 1 else 0)
  }

  function Dropped(cs: seq<Consumer>): nat {
    if cs == [] then 0 else Dropped(cs[..|cs|-1]) + cs[|cs|-1].dropped
  }

  // ------------------------------------------------------------------ leaving

  function Without(ms: seq<nat>, id: nat): seq<nat> {
    if ms == [] then []
    else if ms[0] == id then ms[1..]
    else [ms[0]] + Without(ms[1..], id)
  }

  function Gone(c: Consumer): Consumer {
    c.(phase := Left, queue := [], abandoned := c.abandoned + |c.queue|)
  }

  function Remaining(topics: map<string, Topic>, t: string, id: nat): map<string, Topic>
    requires t in topics
  {
    var left := Without(topics[t].members, id);
    if left == [] then topics - {t} else topics[t := topics[t].(members := left)]
  }

  function Depart(s: State, id: nat): State
    requires 1 <= id <= |s.consumers| && s.consumers[id-1].topic in s.topics
  {
    var c := s.consumers[id-1];
    var topic := s.topics[c.topic];
    var left := Without(topic.members, id);
    var last := left == [];
    s.(topics := Remaining(s.topics, c.topic, id),
       consumers := s.consumers[id-1 := Gone(c)],
       live := if last then s.live - {topic.producer} else s.live,
       activeSources := if last then s.activeSources - 1 else s.activeSources,
       active := s.active - 1, disconnected := s.disconnected + 1)
  }

  // -------------------------------------------------------------- transitions

  predicate Ready(s: State, id: nat, a: Action)
    requires 1 <= id <= |s.consumers|
  {
    var c := s.consumers[id-1];
    match a
    case Dequeue => c.phase == Idle && |c.queue| > 0
    case Sent => c.phase == Sending
    case SendTimeout => c.phase == Sending
    case SendError => c.phase == Sending
    case Cancel => c.phase == Idle || c.phase == Sending || c.phase == Ended
    case ProducerOver => (c.phase == Idle || c.phase == Sending) &&
                         c.topic in s.topics && s.topics[c.topic].producer !in s.live
    case Leave => c.phase == Ended && c.topic in s.topics
  }

  ghost predicate Enabled(s: State, e: Event) {
    match e
    case Join(_) => true
    case Publish(t) => t in s.topics && s.topics[t].producer in s.live  && Known(s.consumers, s.topics[t].members)
    case ProducerFails(t) => t in s.topics && s.topics[t].producer in s.live
    case On(id, a) => 1 <= id <= |s.consumers| && Ready(s, id, a)
  }

  function Take(c: Consumer, at: nat): Consumer
    requires |c.queue| > 0
  {
    c.(phase := Sending, queue := c.queue[1..], taken := c.taken + [Delivery(c.queue[0], at)])
  }

  // A connection after an action that touches nobody else.
  function Solo(c: Consumer, a: Action, at: nat): Consumer
    requires a != Leave && (a == Dequeue ==> |c.queue| > 0)
  {
    match a
    case Dequeue => Take(c, at)
    case Sent => c.(phase := Idle)
    case _ => c.(phase := Ended)
  }

  function NewFrame(s: State): Frame {
    Frame(|s.published| + 1, s.coalesced)
  }

  ghost function Next(s: State, e: Event): State
    requires Enabled(s, e)
  {
    match e
    case Join(t) =>
      if Refused(s, t).Some? then s.(rejected := s.rejected + 1) else Admit(s, t)
    case Publish(t) =>
      s.(published := s.published + [Publication(t, NewFrame(s))],
         consumers := OfferAll(s.consumers, s.topics[t].members, NewFrame(s)),
         coalesced := s.coalesced + FullQueues(s.consumers, s.topics[t].members))
    case ProducerFails(t) =>
      s.(live := s.live - {s.topics[t].producer})
    case On(id, a) =>
      var c := s.consumers[id-1];
      if a == Leave then Depart(s, id)
      else s.(consumers := s.consumers[id-1 := Solo(c, a, |s.published|)],
              slow := if a == SendTimeout then s.slow + 1 else s.slow,
              cancelled := if a == Cancel then s.cancelled + 1 else s.cancelled)
  }

  ghost function Run(s: State, es: seq<Event>): State
    decreases |es|
  {
    if es == [] then s else Run(if Enabled(s, es[0]) then Next(s, es[0]) else s, es[1..])
  }

  function Init(limits: Limits): State {
    State(limits, map[], [], {}, 0, [], 0, 0, 0, 0, 0, 0, 0, 0)
  }

  lemma {:induction false} RunExtend(s: State, es: seq<Event>, e: Event)
    requires Enabled(Run(s, es), e)
    ensures Run(s, es + [e]) == Next(Run(s, es), e)
    decreases |es|
  {
    if es == [] {
      assert (es + [e])[1..] == [];
    } else {
      assert (es + [e])[1..] == es[1..] + [e];
      RunExtend(if Enabled(s, es[0]) then Next(s, es[0]) else s, es[1..], e);
    }
  }

  // ---------------------------------------------------------------- invariant

  // The last frame published under a topic: what its consumers should be seeing.
  function Newest(log: seq<Publication>, t: string): Option<Frame> {
    if log == [] then None
    else if log[|log|-1].topic == t then Some(log[|log|-1].frame)
    else Newest(log[..|log|-1], t)
  }

  ghost predicate LogOk(log: seq<Publication>) {
    forall k :: 0 <= k < |log| ==> log[k].frame.sequence == k + 1
  }

  ghost predicate TakenOk(c: Consumer, log: seq<Publication>) {
    && (forall k :: 0 <= k < |c.taken| ==>
          c.taken[k].at <= |log| && Newest(log[..c.taken[k].at], c.topic) == Some(c.taken[k].frame)
          && c.taken[k].frame.sequence <= |log|)
    && (forall j, k :: 0 <= j < k < |c.taken| ==> c.taken[j].frame.sequence < c.taken[k].frame.sequence)
  }

  ghost predicate QueueOk(c: Consumer, log: seq<Publication>) {
    && |c.queue| <= QUEUE_SIZE
    && (|c.queue| > 0 ==>
          && c.phase != Left && Some(c.queue[0]) == Newest(log, c.topic)
          && (forall k :: 0 <= k < |c.taken| ==> c.taken[k].frame.sequence < c.queue[0].sequence))
    && c.offered == |c.taken| + c.dropped + |c.queue| + c.abandoned
    && c.abandoned <= (if c.phase == Left then 1 else 0)
  }

  ghost predicate Faithful(cs: seq<Consumer>, log: seq<Publication>, i: nat)
    requires i < |cs|
  {
    TakenOk(cs[i], log) && QueueOk(cs[i], log)
  }

  ghost predicate DeliveryOk(cs: seq<Consumer>, log: seq<Publication>) {
    forall i :: 0 <= i < |cs| ==> Faithful(cs, log, i)
  }

  predicate Distinct(ms: seq<nat>) {
    forall j, k :: 0 <= j < k < |ms| ==> ms[j] != ms[k]
  }

  ghost predicate TopicOk(t: string, topic: Topic, cs: seq<Consumer>) {
    && topic.members != [] && Distinct(topic.members) && Known(cs, topic.members)
    && forall k :: 0 <= k < |topic.members| ==>
         cs[topic.members[k]-1].topic == t && cs[topic.members[k]-1].phase != Left
  }

  ghost predicate TopicAt(topics: map<string, Topic>, cs: seq<Consumer>, t: string) {
    t in topics ==> TopicOk(t, topics[t], cs)
  }

  ghost predicate RosterOk(topics: map<string, Topic>, cs: seq<Consumer>) {
    && (forall t :: TopicAt(topics, cs, t))
    && (forall i :: 0 <= i < |cs| ==> InTable(topics, cs, i))
  }

  ghost predicate InTable(topics: map<string, Topic>, cs: seq<Consumer>, i: nat)
    requires i < |cs|
  {
    cs[i].phase != Left ==> cs[i].topic in topics && i + 1 in topics[cs[i].topic].members
  }

  function Producers(topics: map<string, Topic>): set<nat> {
    set t | t in topics :: topics[t].producer
  }

  ghost predicate ProducersOk(topics: map<string, Topic>, live: set<nat>, spawned: nat) {
    && (forall t :: t in topics ==> topics[t].producer < spawned)
    && (forall t, u :: t in topics && u in topics && t != u ==> topics[t].producer != topics[u].producer)
    && live <= Producers(topics)
  }

  function Present(cs: seq<Consumer>): nat {
    if cs == [] then 0 else Present(cs[..|cs|-1]) + (if cs[|cs|-1].phase != Left then 1 else 0)
  }

  ghost predicate CountersOk(s: State) {
    && s.active == Present(s.consumers) && s.activeSources == |s.topics|
    && s.connected == |s.consumers| && s.connected == s.active + s.disconnected
    && s.coalesced == Dropped(s.consumers)
    && s.active <= s.limits.consumers
  }

  ghost predicate LimitsOk(topics: map<string, Topic>, limits: Limits) {
    && limits.perTopic >= 1 && |topics| <= limits.topics
    && forall t :: t in topics ==> |topics[t].members| <= limits.perTopic
  }

  ghost predicate Inv(s: State) {
    && LogOk(s.published) && DeliveryOk(s.consumers, s.published)
    && RosterOk(s.topics, s.consumers) && ProducersOk(s.topics, s.live, s.spawned)
    && LimitsOk(s.topics, s.limits) && CountersOk(s)
  }

  // ------------------------------------------------------------ list reasoning

  lemma {:induction false} WithoutMembers(ms: seq<nat>, id: nat)
    requires Distinct(ms) && id in ms
    ensures var r := Without(ms, id);
      && |r| == |ms| - 1 && Distinct(r) && id !in r
      && (forall x :: x in r <==> x in ms && x != id)
  {
    var tail := ms[1..];
    assert ms == [ms[0]] + tail;
    assert ms[0] !in tail;
    assert Distinct(tail) by {
      forall j, k | 0 <= j < k < |tail| ensures tail[j] != tail[k] { assert ms[j+1] != ms[k+1]; }
    }
    if ms[0] != id {
      WithoutMembers(tail, id);
      var r := Without(tail, id);
      forall j, k | 0 <= j < k < |r| + 1 ensures ([ms[0]] + r)[j] != ([ms[0]] + r)[k] {
        assert r[k-1] in r;
      }
    }
  }

  lemma {:induction false} PresentUpdate(cs: seq<Consumer>, i: nat, c: Consumer)
    requires i < |cs|
    ensures Present(cs[i := c]) + (if cs[i].phase != Left then 1 else 0)
         == Present(cs) + (if c.phase != Left then 1 else 0)
    ensures Dropped(cs[i := c]) + cs[i].dropped == Dropped(cs) + c.dropped
  {
    var n := |cs| - 1;
    if i == n {
      assert cs[i := c][..n] == cs[..n];
    } else {
      assert cs[i := c][..n] == cs[..n][i := c];
      PresentUpdate(cs[..n], i, c);
    }
  }

  // What one pass of the producer does, consumer by consumer.
  lemma {:induction false} OfferAllAt(cs: seq<Consumer>, ms: seq<nat>, f: Frame, i: nat)
    requires Known(cs, ms) && Distinct(ms) && i < |cs|
    ensures OfferAll(cs, ms, f)[i] == if i + 1 in ms then Offer(cs[i], f) else cs[i]
  {
    if ms != [] {
      var init := ms[..|ms|-1];
      assert ms == init + [ms[|ms|-1]];
      OfferAllAt(cs, init, f, i);
      assert ms[|ms|-1] !in init;
    }
  }

  lemma {:induction false} OfferAllCounts(cs: seq<Consumer>, ms: seq<nat>, f: Frame)
    requires Known(cs, ms) && Distinct(ms)
    ensures Dropped(OfferAll(cs, ms, f)) == Dropped(cs) + FullQueues(cs, ms)
    ensures Present(OfferAll(cs, ms, f)) == Present(cs)
  {
    hide Present, Dropped;
    if ms != [] {
      var init := ms[..|ms|-1];
      var m := ms[|ms|-1] - 1;
      assert ms == init + [m + 1];
      OfferAllCounts(cs, init, f);
      assert m + 1 !in init;
      OfferAllAt(cs, init, f, m);
      var rest := OfferAll(cs, init, f);
      PresentUpdate(rest, m, Offer(rest[m], f));
    }
  }

  // ------------------------------------------------------------- preservation

  lemma NewestAppend(log: seq<Publication>, p: Publication, t: string)
    ensures Newest(log + [p], t) == if p.topic == t then Some(p.frame) else Newest(log, t)
  {
    assert (log + [p])[..|log|] == log;
  }

  lemma TakenStays(c: Consumer, log: seq<Publication>, p: Publication)
    requires TakenOk(c, log)
    ensures TakenOk(c, log + [p])
  {
    forall k | 0 <= k < |c.taken| ensures Newest((log + [p])[..c.taken[k].at], c.topic) == Some(c.taken[k].frame) {
      assert (log + [p])[..c.taken[k].at] == log[..c.taken[k].at];
    }
  }

  lemma PublishKeepsDelivery(topics: map<string, Topic>, cs: seq<Consumer>, log: seq<Publication>, t: string, f: Frame)
    requires LogOk(log) && DeliveryOk(cs, log) && RosterOk(topics, cs) && t in topics
    requires f.sequence == |log| + 1 && Known(cs, topics[t].members) && Distinct(topics[t].members)
    ensures DeliveryOk(OfferAll(cs, topics[t].members, f), log + [Publication(t, f)])
  {
    var ms := topics[t].members;
    var p := Publication(t, f);
    assert TopicAt(topics, cs, t);
    var cs' := OfferAll(cs, ms, f);
    forall i | 0 <= i < |cs'| ensures Faithful(cs', log + [p], i) {
      OfferAllAt(cs, ms, f, i);
      NewestAppend(log, p, cs[i].topic);
      assert Faithful(cs, log, i);
      TakenStays(cs[i], log, p);
      assert InTable(topics, cs, i);
    }
  }

  // Changes that leave every consumer's topic and registration alone leave the roster alone.
  lemma RosterStays(topics: map<string, Topic>, cs: seq<Consumer>, cs': seq<Consumer>)
    requires RosterOk(topics, cs) && |cs'| == |cs|
    requires forall i :: 0 <= i < |cs| ==>
        cs'[i].topic == cs[i].topic && (cs'[i].phase == Left <==> cs[i].phase == Left)
    ensures RosterOk(topics, cs')
  {
    forall t ensures TopicAt(topics, cs', t) {
      assert TopicAt(topics, cs, t);
    }
    forall i | 0 <= i < |cs'| ensures InTable(topics, cs', i) {
      assert InTable(topics, cs, i);
    }
  }

  lemma PublishKeepsRoster(topics: map<string, Topic>, cs: seq<Consumer>, t: string, f: Frame)
    requires RosterOk(topics, cs) && t in topics
    ensures Known(cs, topics[t].members) && RosterOk(topics, OfferAll(cs, topics[t].members, f))
  {
    var ms := topics[t].members;
    assert TopicAt(topics, cs, t);
    forall i | 0 <= i < |cs|
      ensures OfferAll(cs, ms, f)[i] == if i + 1 in ms then Offer(cs[i], f) else cs[i]
    {
      OfferAllAt(cs, ms, f, i);
    }
    RosterStays(topics, cs, OfferAll(cs, ms, f));
  }

  lemma PublishKeepsCounts(topics: map<string, Topic>, cs: seq<Consumer>, t: string, f: Frame)
    requires RosterOk(topics, cs) && t in topics
    ensures Known(cs, topics[t].members)
    ensures var cs' := OfferAll(cs, topics[t].members, f);
      Present(cs') == Present(cs) && Dropped(cs') == Dropped(cs) + FullQueues(cs, topics[t].members)
  {
    assert TopicAt(topics, cs, t);
    OfferAllCounts(cs, topics[t].members, f);
  }

  lemma PublishKeepsInv(s: State, t: string)
    requires Inv(s) && Enabled(s, Publish(t))
    ensures Inv(Next(s, Publish(t)))
  {
    assert TopicAt(s.topics, s.consumers, t);
    PublishKeepsDelivery(s.topics, s.consumers, s.published, t, NewFrame(s));
    PublishKeepsRoster(s.topics, s.consumers, t, NewFrame(s));
    PublishKeepsCounts(s.topics, s.consumers, t, NewFrame(s));
  }

  lemma AdmitKeepsTopic(u: string, topic: Topic, cs: seq<Consumer>, c: Consumer)
    requires TopicOk(u, topic, cs)
    ensures TopicOk(u, topic, cs + [c])
    ensures c.topic == u && c.phase != Left ==> TopicOk(u, topic.(members := topic.members + [|cs| + 1]), cs + [c])
  {
  }

  lemma AdmitKeepsRoster(topics: map<string, Topic>, cs: seq<Consumer>, c: Consumer, p: nat)
    requires RosterOk(topics, cs) && c.phase != Left
    ensures var id := |cs| + 1;
      var topic := if c.topic in topics then topics[c.topic].(members := topics[c.topic].members + [id])
          else Topic([id], p);
      RosterOk(topics[c.topic := topic], cs + [c])
  {
    var id := |cs| + 1;
    var topic := if c.topic in topics then topics[c.topic].(members := topics[c.topic].members + [id])
        else Topic([id], p);
    var topics', cs' := topics[c.topic := topic], cs + [c];
    forall u ensures TopicAt(topics', cs', u) {
      assert TopicAt(topics, cs, u);
      if u in topics { AdmitKeepsTopic(u, topics[u], cs, c); }
    }
    forall i | 0 <= i < |cs'| ensures InTable(topics', cs', i) {
      if i < |cs| { assert InTable(topics, cs, i); }
    }
  }

  lemma AdmitKeepsProducers(s: State, t: string)
    requires ProducersOk(s.topics, s.live, s.spawned)
    ensures var s' := Admit(s, t); ProducersOk(s'.topics, s'.live, s'.spawned)
  {
    var s' := Admit(s, t);
    forall x | x in s'.live ensures x in Producers(s'.topics) {
      if x in s.live {
        var u :| u in s.topics && s.topics[u].producer == x;
        assert u in s'.topics && s'.topics[u].producer == x;
      } else {
        assert t in s'.topics && s'.topics[t].producer == x;
      }
    }
  }

  lemma MapSize<K, V>(m: map<K, V>, k: K, v: V)
    ensures |m[k := v]| == |m| + (if k in m then 0 else 1)
    ensures k in m ==> |m - {k}| == |m| - 1
  {
    assert |m.Keys| == |m|;
    assert m[k := v].Keys == m.Keys + {k} && |m[k := v].Keys| == |m[k := v]|;
    assert (m - {k}).Keys == m.Keys - {k} && |(m - {k}).Keys| == |m - {k}|;
  }

  lemma DeliveryAppend(cs: seq<Consumer>, log: seq<Publication>, c: Consumer)
    requires DeliveryOk(cs, log) && TakenOk(c, log) && QueueOk(c, log)
    ensures DeliveryOk(cs + [c], log)
  {
    var cs' := cs + [c];
    forall i | 0 <= i < |cs'| ensures Faithful(cs', log, i) {
      if i < |cs| { assert Faithful(cs, log, i); }
    }
  }

  lemma AdmitKeepsInv(s: State, t: string)
    requires Inv(s) && Refused(s, t).None?
    ensures Inv(Admit(s, t))
  {
    var s' := Admit(s, t);
    var c := Consumer(t, Idle, [], [], 0, 0, 0);
    assert s'.consumers == s.consumers + [c];
    assert RosterOk(s'.topics, s'.consumers) by { AdmitKeepsRoster(s.topics, s.consumers, c, s.spawned); }
    assert ProducersOk(s'.topics, s'.live, s'.spawned) by { AdmitKeepsProducers(s, t); }
    DeliveryAppend(s.consumers, s.published, c);
    MapSize(s.topics, t, s'.topics[t]);
    assert CountersOk(s') by { assert s'.consumers[..|s.consumers|] == s.consumers; }
    assert LimitsOk(s'.topics, s'.limits);
  }

  lemma RegisteredWhere(topics: map<string, Topic>, cs: seq<Consumer>, id: nat)
    requires RosterOk(topics, cs) && 1 <= id <= |cs| && cs[id-1].phase != Left
    ensures cs[id-1].topic in topics && id in topics[cs[id-1].topic].members
    ensures TopicOk(cs[id-1].topic, topics[cs[id-1].topic], cs)
  {
    assert InTable(topics, cs, id - 1) && TopicAt(topics, cs, cs[id-1].topic);
  }

  lemma DepartKeepsOtherTopic(u: string, topic: Topic, cs: seq<Consumer>, id: nat)
    requires TopicOk(u, topic, cs) && 1 <= id <= |cs| && cs[id-1].topic != u
    ensures TopicOk(u, topic, cs[id-1 := Gone(cs[id-1])])
  {
  }

  lemma DepartKeepsOwnTopic(t: string, topic: Topic, cs: seq<Consumer>, id: nat)
    requires TopicOk(t, topic, cs) && id in topic.members
    requires Without(topic.members, id) != []
    ensures 1 <= id <= |cs|
    ensures TopicOk(t, topic.(members := Without(topic.members, id)), cs[id-1 := Gone(cs[id-1])])
  {
    WithoutMembers(topic.members, id);
    var left := Without(topic.members, id);
    forall k | 0 <= k < |left| ensures left[k] in topic.members && left[k] != id {
      assert left[k] in left;
    }
  }

  lemma DepartKeepsRoster(topics: map<string, Topic>, cs: seq<Consumer>, id: nat)
    requires RosterOk(topics, cs) && 1 <= id <= |cs| && cs[id-1].phase != Left
    ensures cs[id-1].topic in topics
    ensures RosterOk(Remaining(topics, cs[id-1].topic, id), cs[id-1 := Gone(cs[id-1])])
  {
    RegisteredWhere(topics, cs, id);
    var t := cs[id-1].topic;
    var left := Without(topics[t].members, id);
    var cs' := cs[id-1 := Gone(cs[id-1])];
    var topics' := Remaining(topics, t, id);
    forall u ensures TopicAt(topics', cs', u) {
      assert TopicAt(topics, cs, u);
      if u in topics' {
        if u == t { DepartKeepsOwnTopic(t, topics[t], cs, id); } else { DepartKeepsOtherTopic(u, topics[u], cs, id); }
      }
    }
    WithoutMembers(topics[t].members, id);
    forall i | 0 <= i < |cs'| ensures InTable(topics', cs', i) {
      assert InTable(topics, cs, i);
      if cs'[i].phase != Left && cs[i].topic == t { assert i + 1 in left; }
    }
  }

  lemma DepartKeepsProducers(s: State, id: nat)
    requires ProducersOk(s.topics, s.live, s.spawned) && 1 <= id <= |s.consumers| && s.consumers[id-1].topic in s.topics
    ensures var s' := Depart(s, id); ProducersOk(s'.topics, s'.live, s'.spawned)
  {
    var s' := Depart(s, id);
    forall x | x in s'.live ensures x in Producers(s'.topics) {
      var u :| u in s.topics && s.topics[u].producer == x;
      assert u in s'.topics && s'.topics[u].producer == x;
    }
  }

  lemma DeliveryUpdate(cs: seq<Consumer>, log: seq<Publication>, i: nat, c: Consumer)
    requires DeliveryOk(cs, log) && i < |cs| && TakenOk(c, log) && QueueOk(c, log)
    ensures DeliveryOk(cs[i := c], log)
  {
    var cs' := cs[i := c];
    forall j | 0 <= j < |cs'| ensures Faithful(cs', log, j) {
      assert Faithful(cs, log, j);
    }
  }

  lemma GoneOk(c: Consumer, log: seq<Publication>)
    requires TakenOk(c, log) && QueueOk(c, log) && c.phase != Left
    ensures TakenOk(Gone(c), log) && QueueOk(Gone(c), log)
  {
  }

  lemma DepartKeepsLimits(topics: map<string, Topic>, cs: seq<Consumer>, id: nat, limits: Limits)
    requires RosterOk(topics, cs) && 1 <= id <= |cs| && cs[id-1].phase != Left && LimitsOk(topics, limits)
    ensures var t := cs[id-1].topic;
      && t in topics && LimitsOk(Remaining(topics, t, id), limits)
      && |Remaining(topics, t, id)| == |topics| - (if Without(topics[t].members, id) == [] then 1 else 0)
  {
    RegisteredWhere(topics, cs, id);
    var t := cs[id-1].topic;
    WithoutMembers(topics[t].members, id);
    MapSize(topics, t, topics[t].(members := Without(topics[t].members, id)));
  }

  // Counters after one connection changed from `c` to `c'`.
  lemma ConsumerKeepsCounts(cs: seq<Consumer>, i: nat, c': Consumer)
    requires i < |cs| && c'.dropped == cs[i].dropped && cs[i].phase != Left
    ensures Dropped(cs[i := c']) == Dropped(cs)
    ensures Present(cs[i := c']) == Present(cs) - (if c'.phase == Left then 1 else 0)
  {
    PresentUpdate(cs, i, c');
  }

  lemma DepartKeepsCounters(s: State, id: nat)
    requires CountersOk(s) && 1 <= id <= |s.consumers| && s.consumers[id-1].phase != Left
    requires var c := s.consumers[id-1];
      && c.topic in s.topics
      && |Remaining(s.topics, c.topic, id)|
         == |s.topics| - (if Without(s.topics[c.topic].members, id) == [] then 1 else 0)
    ensures CountersOk(Depart(s, id))
  {
    var c := s.consumers[id-1];
    ConsumerKeepsCounts(s.consumers, id - 1, Gone(c));
  }

  lemma SoloKeepsCounters(s: State, id: nat, a: Action)
    requires CountersOk(s) && Enabled(s, On(id, a)) && a != Leave && s.consumers[id-1].phase != Left
    ensures CountersOk(Next(s, On(id, a)))
  {
    ConsumerKeepsCounts(s.consumers, id - 1, Solo(s.consumers[id-1], a, |s.published|));
  }

  lemma SoloKeepsDelivery(cs: seq<Consumer>, log: seq<Publication>, i: nat, a: Action)
    requires LogOk(log) && DeliveryOk(cs, log) && i < |cs| && cs[i].phase != Left
    requires a != Leave && (a == Dequeue ==> |cs[i].queue| > 0)
    ensures DeliveryOk(cs[i := Solo(cs[i], a, |log|)], log)
  {
    assert Faithful(cs, log, i);
    SoloStaysOk(cs[i], log, a);
    DeliveryUpdate(cs, log, i, Solo(cs[i], a, |log|));
  }

  lemma DepartKeepsDelivery(cs: seq<Consumer>, log: seq<Publication>, i: nat)
    requires DeliveryOk(cs, log) && i < |cs| && cs[i].phase != Left
    ensures DeliveryOk(cs[i := Gone(cs[i])], log)
  {
    assert Faithful(cs, log, i);
    GoneOk(cs[i], log);
    DeliveryUpdate(cs, log, i, Gone(cs[i]));
  }

  lemma DepartKeepsInv(s: State, id: nat)
    requires Inv(s) && Enabled(s, On(id, Leave))
    ensures Inv(Depart(s, id))
  {
    DepartKeepsDelivery(s.consumers, s.published, id - 1);
    DepartKeepsRoster(s.topics, s.consumers, id);
    DepartKeepsProducers(s, id);
    DepartKeepsLimits(s.topics, s.consumers, id, s.limits);
    DepartKeepsCounters(s, id);
  }

  lemma SoloStaysOk(c: Consumer, log: seq<Publication>, a: Action)
    requires LogOk(log) && TakenOk(c, log) && QueueOk(c, log) && c.phase != Left
    requires a != Leave && (a == Dequeue ==> |c.queue| > 0)
    ensures var c' := Solo(c, a, |log|); TakenOk(c', log) && QueueOk(c', log)
  {
    if a == Dequeue {
      assert log[..|log|] == log;
      NewestSequence(log, c.topic);
    }
  }

  lemma SoloKeepsRoster(topics: map<string, Topic>, cs: seq<Consumer>, i: nat, a: Action, at: nat)
    requires RosterOk(topics, cs) && i < |cs| && cs[i].phase != Left
    requires a != Leave && (a == Dequeue ==> |cs[i].queue| > 0)
    ensures RosterOk(topics, cs[i := Solo(cs[i], a, at)])
  {
    RosterStays(topics, cs, cs[i := Solo(cs[i], a, at)]);
  }

  lemma SoloKeepsInv(s: State, id: nat, a: Action)
    requires Inv(s) && Enabled(s, On(id, a)) && a != Leave
    ensures Inv(Next(s, On(id, a)))
  {
    SoloKeepsDelivery(s.consumers, s.published, id - 1, a);
    SoloKeepsCounters(s, id, a);
    SoloKeepsRoster(s.topics, s.consumers, id - 1, a, |s.published|);
  }

  lemma {:induction false} NewestSequence(log: seq<Publication>, t: string)
    requires LogOk(log)
    ensures Newest(log, t).Some? ==> Newest(log, t).value.sequence <= |log|
  {
    if log != [] && log[|log|-1].topic != t {
      NewestSequence(log[..|log|-1], t);
    }
  }

  lemma NextKeepsInv(s: State, e: Event)
    requires Inv(s) && Enabled(s, e)
    ensures Inv(Next(s, e))
  {
    match e
    case Join(t) => if Refused(s, t).None? { AdmitKeepsInv(s, t); }
    case Publish(t) => PublishKeepsInv(s, t);
    case ProducerFails(t) =>
    case On(id, a) => if a == Leave { DepartKeepsInv(s, id); } else { SoloKeepsInv(s, id, a); }
  }

  lemma {:induction false} RunKeepsInv(s: State, es: seq<Event>)
    requires Inv(s)
    ensures Inv(Run(s, es))
    decreases |es|
  {
    if es != [] {
      if Enabled(s, es[0]) { NextKeepsInv(s, es[0]); }
      RunKeepsInv(if Enabled(s, es[0]) then Next(s, es[0]) else s, es[1..]);
    }
  }

  // ------------------------------------------------------------- main results

  // Every consumer sees a strictly newer frame each time, the newest its topic had
  // published when the frame left the queue, and every frame offered to it is
  // accounted for.
  lemma ConsumersSeeTheNewest(limits: Limits, es: seq<Event>, i: nat)
    requires limits.perTopic >= 1 && i < |Run(Init(limits), es).consumers|
    ensures var s := Run(Init(limits), es); var c := s.consumers[i];
      && (forall k :: 0 <= k < |c.taken| ==>
            c.taken[k].at <= |s.published|
            && Newest(s.published[..c.taken[k].at], c.topic) == Some(c.taken[k].frame))
      && (forall j, k :: 0 <= j < k < |c.taken| ==> c.taken[j].frame.sequence < c.taken[k].frame.sequence)
      && c.offered == |c.taken| + c.dropped + |c.queue| + c.abandoned
      && |c.queue| <= QUEUE_SIZE && (|c.queue| > 0 ==> Some(c.queue[0]) == Newest(s.published, c.topic))
  {
    RunKeepsInv(Init(limits), es);
    var s := Run(Init(limits), es);
    assert Faithful(s.consumers, s.published, i);
  }

  lemma {:induction false} NewestIsPublished(log: seq<Publication>, t: string)
    requires LogOk(log) && Newest(log, t).Some?
    ensures var f := Newest(log, t).value; 1 <= f.sequence <= |log| && log[f.sequence-1] == Publication(t, f)
  {
    if log[|log|-1].topic != t {
      NewestIsPublished(log[..|log|-1], t);
    }
  }

  // One publication, one frame: deliveries with the same sequence number are the
  // same frame of the same topic, whichever connections they reached.
  lemma SharedFrames(limits: Limits, es: seq<Event>, i: nat, j: nat, a: nat, b: nat)
    requires limits.perTopic >= 1
    requires var cs := Run(Init(limits), es).consumers;
      && i < |cs| && j < |cs| && a < |cs[i].taken| && b < |cs[j].taken|
      && cs[i].taken[a].frame.sequence == cs[j].taken[b].frame.sequence
    ensures var cs := Run(Init(limits), es).consumers;
      cs[i].taken[a].frame == cs[j].taken[b].frame && cs[i].topic == cs[j].topic
  {
    hide Run;
    RunKeepsInv(Init(limits), es);
    var s := Run(Init(limits), es);
    var ci, cj := s.consumers[i], s.consumers[j];
    assert Faithful(s.consumers, s.published, i) && Faithful(s.consumers, s.published, j);
    NewestIsPublished(s.published[..ci.taken[a].at], ci.topic);
    NewestIsPublished(s.published[..cj.taken[b].at], cj.topic);
  }

  // The connections the topic table holds.
  function Roster(topics: map<string, Topic>): set<(string, nat)> {
    set t, c | t in topics && c in topics[t].members :: (t, c)
  }

  function Registered(cs: seq<Consumer>): set<(string, nat)> {
    set i | 0 <= i < |cs| && cs[i].phase != Left :: (cs[i].topic, i + 1)
  }

  lemma {:induction false} RegisteredSize(cs: seq<Consumer>)
    ensures |Registered(cs)| == Present(cs)
  {
    if cs != [] {
      var n := |cs| - 1;
      var init := cs[..n];
      RegisteredSize(init);
      assert forall i :: 0 <= i < n ==> init[i] == cs[i];
      if cs[n].phase != Left {
        assert Registered(cs) == Registered(init) + {(cs[n].topic, n + 1)};
      } else {
        assert Registered(cs) == Registered(init);
      }
    }
  }

  lemma RosterIsRegistered(topics: map<string, Topic>, cs: seq<Consumer>)
    requires RosterOk(topics, cs)
    ensures Roster(topics) == Registered(cs)
  {
    forall t, c | t in topics && c in topics[t].members ensures (t, c) in Registered(cs) {
      assert TopicAt(topics, cs, t);
      var k :| 0 <= k < |topics[t].members| && topics[t].members[k] == c;
      assert cs[c-1].topic == t && c - 1 + 1 == c;
    }
    forall p | p in Registered(cs) ensures p in Roster(topics) {
      var i :| 0 <= i < |cs| && cs[i].phase != Left && p == (cs[i].topic, i + 1);
      assert InTable(topics, cs, i);
    }
  }

  // The gauges are the real numbers of connections and topics, and no limit is passed.
  lemma GaugesAndLimits(limits: Limits, es: seq<Event>)
    requires limits.perTopic >= 1
    ensures var s := Run(Init(limits), es);
      && s.active == |Roster(s.topics)| <= limits.consumers
      && s.activeSources == |s.topics| <= limits.topics
      && (forall t :: t in s.topics ==> 1 <= |s.topics[t].members| <= limits.perTopic && Distinct(s.topics[t].members))
      && s.connected == s.active + s.disconnected && s.disconnected >= 0
      && s.coalesced == Dropped(s.consumers)
  {
    RunKeepsInv(Init(limits), es);
    RunKeepsLimits(Init(limits), es);
    var s := Run(Init(limits), es);
    RosterIsRegistered(s.topics, s.consumers);
    RegisteredSize(s.consumers);
    PresentAtMost(s.consumers);
    forall t | t in s.topics ensures 1 <= |s.topics[t].members| && Distinct(s.topics[t].members) {
      assert TopicAt(s.topics, s.consumers, t);
    }
  }

  lemma {:induction false} PresentAtMost(cs: seq<Consumer>)
    ensures Present(cs) <= |cs|
  {
    if cs != [] { PresentAtMost(cs[..|cs|-1]); }
  }

  lemma {:induction false} RunKeepsLimits(s: State, es: seq<Event>)
    ensures Run(s, es).limits == s.limits
    decreases |es|
  {
    if es != [] {
      RunKeepsLimits(if Enabled(s, es[0]) then Next(s, es[0]) else s, es[1..]);
    }
  }

  // --------------------------------------------------------------- who is let in

  // Topic `t` has a place for one more connection: a topic that is there has room, or there
  // is room for one more topic.
  predicate HasPlace(limits: Limits, topics: map<string, Topic>, t: string) {
    if t in topics then |topics[t].members| < limits.perTopic else |topics| < limits.topics
  }

  // The new connection is the newest of its topic, and nothing else in the table changes.
  ghost predicate Joined(s: State, s': State, t: string) {
    && |s'.consumers| == |s.consumers| + 1 && s'.consumers[..|s.consumers|] == s.consumers
    && t in s'.topics && s'.topics.Keys == s.topics.Keys + {t}
    && s'.topics[t].members == (if t in s.topics then s.topics[t].members else []) + [|s'.consumers|]
    && (forall u :: u in s.topics && u != t ==> s'.topics[u] == s.topics[u])
    && (if t in s.topics then s'.topics[t].producer == s.topics[t].producer && s'.live == s.live
        else s'.topics[t].producer !in s.live && s'.live == s.live + {s'.topics[t].producer})
  }

  // A connection is served exactly if there are fewer than the limit of them, counted over the
  // topics, and its topic has a place.  One that is not changes nothing but a count, and is
  // told the first limit it met.
  lemma JoinServedIff(limits: Limits, es: seq<Event>, t: string)
    requires limits.perTopic >= 1
    ensures var s, s' := Run(Init(limits), es), Run(Init(limits), es + [Join(t)]);
      && (Joined(s, s', t) <==> |Roster(s.topics)| < limits.consumers && HasPlace(limits, s.topics, t))
      && (!Joined(s, s', t) ==>
            && s' == s.(rejected := s.rejected + 1)
            && Refused(s, t) == Some(if |Roster(s.topics)| >= limits.consumers then ConsumerLimit
                                     else if t in s.topics then PerTopicLimit else TopicLimit))
  {
    hide Run, Inv, Roster, Joined;
    ActiveIsRoster(limits, es);
    RunKeepsInv(Init(limits), es);
    RunExtend(Init(limits), es, Join(t));
    AdmitJoins(Run(Init(limits), es), t);
    RefusedJoinsNot(Run(Init(limits), es), t);
  }

  lemma AdmitJoins(s: State, t: string)
    requires Inv(s)
    ensures Joined(s, Admit(s, t), t)
  {
    hide LogOk, DeliveryOk, RosterOk, LimitsOk, CountersOk;
    assert s.spawned !in Producers(s.topics);
  }

  lemma RefusedJoinsNot(s: State, t: string)
    ensures !Joined(s, s.(rejected := s.rejected + 1), t)
  {
  }

  // ------------------------------------------------------ every roster can be filled

  lemma {:induction false} RosterAtLeast(topics: map<string, Topic>, n: nat)
    requires forall t :: t in topics ==> Distinct(topics[t].members) && |topics[t].members| >= n
    ensures |Roster(topics)| >= |topics| * n
    decreases |topics|
  {
    hide Distinct, Roster;
    if t :| t in topics {
      var rest := topics - {t};
      OneLess(topics, t);
      RosterAtLeast(rest, n);
      RosterSplit(topics, t);
      OneMoreTimes(|rest|, n);
    }
  }

  lemma OneLess(topics: map<string, Topic>, t: string)
    requires t in topics
    ensures |topics - {t}| == |topics| - 1
  {
    assert (topics - {t}).Keys == topics.Keys - {t};
  }

  lemma OneMoreTimes(k: nat, n: nat)
    ensures (k + 1) * n == k * n + n
  {
  }

  lemma RosterSplit(topics: map<string, Topic>, t: string)
    requires t in topics && Distinct(topics[t].members)
    ensures |Roster(topics)| == |Roster(topics - {t})| + |topics[t].members|
  {
    hide Distinct;
    var own := RosterOf(t, topics[t].members);
    var rest := topics - {t};
    forall p | p in Roster(topics) ensures p in Roster(rest) + own {
      if p.0 != t { assert p.0 in rest && p.1 in rest[p.0].members; }
    }
    forall p | p in Roster(rest) ensures p in Roster(topics) && p !in own {
      assert p.0 in rest && p.1 in rest[p.0].members;
    }
    forall p | p in own ensures p in Roster(topics) { assert p.0 == t && p.1 in topics[t].members; }
    assert Roster(topics) == Roster(rest) + own;
    assert Roster(rest) !! own;
  }

  // The connections of one topic.
  lemma {:induction false} RosterOf(t: string, members: seq<nat>) returns (own: set<(string, nat)>)
    requires Distinct(members)
    ensures own == (set c | c in members :: (t, c)) && |own| == |members|
  {
    if members == [] {
      own := {};
    } else {
      var n := |members| - 1;
      var rest := RosterOf(t, members[..n]);
      assert members == members[..n] + [members[n]];
      assert members[n] !in members[..n];
      assert (t, members[n]) !in rest;
      own := rest + {(t, members[n])};
    }
  }

  // A name longer than any in the table.
  function LongerThan(names: set<string>, n: nat): string
    decreases n
  {
    if n == 0 then "t" else LongerThan(names, n - 1) + "t"
  }

  lemma {:induction false} LongerThanLength(names: set<string>, n: nat)
    ensures |LongerThan(names, n)| == n + 1
  {
    if n > 0 { LongerThanLength(names, n - 1); }
  }

  lemma FreshTopic(names: set<string>) returns (t: string)
    ensures t !in names
  {
    var n := Longest(names);
    t := LongerThan(names, n);
    LongerThanLength(names, n);
  }

  lemma Longest(names: set<string>) returns (n: nat)
    ensures forall x :: x in names ==> |x| <= n
    decreases names
  {
    if names == {} {
      n := 0;
    } else {
      var x :| x in names;
      n := Longest(names - {x});
      n := if |x| > n then |x| else n;
    }
  }

  // While the feed is not full some topic has a place.
  lemma SomePlace(limits: Limits, es: seq<Event>) returns (t: string)
    requires limits.perTopic >= 1
    requires |Roster(Run(Init(limits), es).topics)| < limits.topics * limits.perTopic
    ensures HasPlace(limits, Run(Init(limits), es).topics, t)
  {
    hide Run, Roster;
    GaugesAndLimits(limits, es);
    var topics := Run(Init(limits), es).topics;
    if |topics| < limits.topics {
      t := FreshTopic(topics.Keys);
    } else if u :| u in topics && |topics[u].members| < limits.perTopic {
      t := u;
    } else {
      RosterAtLeast(topics, limits.perTopic);
      t := "";
    }
  }

  // Every number of connections is reached that the limits allow, all of them full included.
  lemma {:induction false} RosterReached(limits: Limits, n: nat) returns (es: seq<Event>)
    requires limits.perTopic >= 1 && n <= limits.consumers && n <= limits.topics * limits.perTopic
    ensures |Roster(Run(Init(limits), es).topics)| == n
  {
    hide Run, Roster, Joined, HasPlace;
    if n == 0 {
      es := [];
      RosterOfNone(limits);
    } else {
      var before := RosterReached(limits, n - 1);
      var t := SomePlace(limits, before);
      es := before + [Join(t)];
      JoinServedIff(limits, before, t);
      ActiveIsRoster(limits, before);
      ActiveIsRoster(limits, es);
      JoinCounts(limits, before, t);
    }
  }

  lemma RosterOfNone(limits: Limits)
    ensures Roster(Run(Init(limits), []).topics) == {}
  {
  }

  lemma ActiveIsRoster(limits: Limits, es: seq<Event>)
    requires limits.perTopic >= 1
    ensures var s := Run(Init(limits), es); s.active == |Roster(s.topics)| && s.limits == limits
  {
    GaugesAndLimits(limits, es);
    RunKeepsLimits(Init(limits), es);
  }

  lemma JoinCounts(limits: Limits, es: seq<Event>, t: string)
    requires Joined(Run(Init(limits), es), Run(Init(limits), es + [Join(t)]), t)
    ensures Run(Init(limits), es + [Join(t)]).active == Run(Init(limits), es).active + 1
  {
    hide Run;
    RunExtend(Init(limits), es, Join(t));
  }

  // ---------------------------------------------------------- what a frame tells

  // A publication takes the next number and tells how many frames have been coalesced so far,
  // over all connections there ever were.
  lemma FrameTells(limits: Limits, es: seq<Event>, t: string)
    requires limits.perTopic >= 1 && Enabled(Run(Init(limits), es), Publish(t))
    ensures var s := Run(Init(limits), es);
      Next(s, Publish(t)).published
        == s.published + [Publication(t, Frame(|s.published| + 1, Dropped(s.consumers)))]
  {
    RunKeepsInv(Init(limits), es);
  }

  ghost predicate TotalsGrow(s: State) {
    && (forall k :: 0 <= k < |s.published| ==> s.published[k].frame.coalescedTotal <= s.coalesced)
    && (forall j, k :: 0 <= j < k < |s.published| ==>
          s.published[j].frame.coalescedTotal <= s.published[k].frame.coalescedTotal)
  }

  // What frames tell of it never goes down.
  lemma {:induction false} TotalsKeepGrowing(s: State, es: seq<Event>)
    requires TotalsGrow(s)
    ensures TotalsGrow(Run(s, es))
    decreases |es|
  {
    if es != [] {
      TotalsKeepGrowing(if Enabled(s, es[0]) then Next(s, es[0]) else s, es[1..]);
    }
  }

  // ------------------------------------------------------------- what is counted

  // How often an action happened in a run, and how often a connection was turned away.
  ghost function Times(s: State, es: seq<Event>, a: Action): nat
    decreases |es|
  {
    if es == [] then 0
    else if !Enabled(s, es[0]) then Times(s, es[1..], a)
    else (if es[0].On? && es[0].act == a then 1 else 0) + Times(Next(s, es[0]), es[1..], a)
  }

  ghost function TurnedAway(s: State, es: seq<Event>): nat
    decreases |es|
  {
    if es == [] then 0
    else if !Enabled(s, es[0]) then TurnedAway(s, es[1..])
    else
      (if es[0].Join? && !Joined(s, Next(s, es[0]), es[0].topic) then 1 else 0) + TurnedAway(Next(s, es[0]), es[1..])
  }

  lemma JoinedOrCounted(s: State, t: string)
    requires Inv(s)
    ensures Next(s, Join(t)).rejected == s.rejected + if Joined(s, Next(s, Join(t)), t) then 0 else 1
  {
    hide Inv, Joined;
    AdmitJoins(s, t);
    RefusedJoinsNot(s, t);
  }

  // Slow connections, cancellations and refusals are counted as they happen.
  lemma {:induction false} EventsCounted(s: State, es: seq<Event>)
    requires Inv(s)
    ensures var s' := Run(s, es);
      && s'.slow == s.slow + Times(s, es, SendTimeout)
      && s'.cancelled == s.cancelled + Times(s, es, Cancel)
      && s'.rejected == s.rejected + TurnedAway(s, es)
    decreases |es|
  {
    hide Inv, Joined;
    if es != [] {
      if Enabled(s, es[0]) {
        NextKeepsInv(s, es[0]);
        if es[0].Join? { JoinedOrCounted(s, es[0].topic); }
        EventsCounted(Next(s, es[0]), es[1..]);
      } else {
        EventsCounted(s, es[1..]);
      }
    }
  }

  // ------------------------------------------------------------- when a connection ends

  // Over: its task sends no more.
  predicate Over(c: Consumer) { c.phase == Ended || c.phase == Left }

  // A send that was late or failed, a cancellation or the end of the producer is the end of the
  // connection; a send in time lets it wait for the next frame.
  lemma EndsExactlyWhen(s: State, id: nat, a: Action)
    requires Enabled(s, On(id, a)) && !Over(s.consumers[id-1])
    ensures var c := Next(s, On(id, a)).consumers[id-1];
      && (Over(c) <==> a == SendTimeout || a == SendError || a == Cancel || a == ProducerOver)
      && (a == Sent ==> c.phase == Idle) && (a == Dequeue ==> c.phase == Sending)
  {
  }

  // What one step does to a connection that is over: it can only leave.
  lemma OverStep(s: State, e: Event, i: nat)
    requires Inv(s) && Enabled(s, e) && i < |s.consumers| && Over(s.consumers[i])
    ensures i < |Next(s, e).consumers| && Over(Next(s, e).consumers[i])
    ensures Next(s, e).consumers[i].taken == s.consumers[i].taken
  {
    if e.Publish? {
      assert TopicAt(s.topics, s.consumers, e.topic);
      OfferAllAt(s.consumers, s.topics[e.topic].members, NewFrame(s), i);
    }
  }

  // A connection that is over is sent nothing more, whatever happens.
  lemma {:induction false} OverStaysOver(s: State, es: seq<Event>, i: nat)
    requires Inv(s) && i < |s.consumers| && Over(s.consumers[i])
    ensures i < |Run(s, es).consumers| && Over(Run(s, es).consumers[i])
    ensures Run(s, es).consumers[i].taken == s.consumers[i].taken
    decreases |es|
  {
    hide Next, Enabled, Inv, Over;
    if es != [] {
      if Enabled(s, es[0]) {
        NextKeepsInv(s, es[0]);
        OverStep(s, es[0], i);
        OverStaysOver(Next(s, es[0]), es[1..], i);
      } else {
        OverStaysOver(s, es[1..], i);
      }
    }
  }

  lemma {:induction false} DeadStaysDead(s: State, es: seq<Event>, p: nat)
    requires p < s.spawned && p !in s.live
    ensures p !in Run(s, es).live
    decreases |es|
  {
    hide Next, Enabled;
    if es != [] {
      if Enabled(s, es[0]) {
        DeadStep(s, es[0], p);
        DeadStaysDead(Next(s, es[0]), es[1..], p);
      } else {
        DeadStaysDead(s, es[1..], p);
      }
    }
  }

  lemma DeadStep(s: State, e: Event, p: nat)
    requires Enabled(s, e) && p < s.spawned && p !in s.live
    ensures p < Next(s, e).spawned && p !in Next(s, e).live
  {
  }

  // A producer that failed publishes nothing more while its topic has it; each of its waiting or
  // sending connections can end, and no other topic is touched.
  lemma FailureEndsTopic(limits: Limits, es: seq<Event>, t: string, more: seq<Event>)
    requires limits.perTopic >= 1 && Enabled(Run(Init(limits), es), ProducerFails(t))
    ensures var s := Run(Init(limits), es); var s' := Next(s, ProducerFails(t)); var p := s.topics[t].producer;
      var u := Run(s', more);
      && s'.topics == s.topics && s'.published == s.published && s'.consumers == s.consumers
      && (forall v :: v in s.topics && v != t ==> (s.topics[v].producer in s'.live <==> s.topics[v].producer in s.live))
      && (forall i :: 0 <= i < |s.consumers| && s.consumers[i].topic == t && s.consumers[i].phase in {Idle, Sending}
            ==> Enabled(s', On(i + 1, ProducerOver)))
      && (t in u.topics && u.topics[t].producer == p ==> !Enabled(u, Publish(t)))
  {
    hide Run;
    RunKeepsInv(Init(limits), es);
    var s := Run(Init(limits), es);
    var s', p := Next(s, ProducerFails(t)), s.topics[t].producer;
    DeadStaysDead(s', more, p);
  }

  // A departure takes the one connection out of its topic.  The others of the topic keep its
  // producer; the last one takes it along.
  lemma LeavingTouchesOneTopic(limits: Limits, es: seq<Event>, id: nat)
    requires limits.perTopic >= 1 && Enabled(Run(Init(limits), es), On(id, Leave))
    ensures var s := Run(Init(limits), es); var s' := Next(s, On(id, Leave)); var t := s.consumers[id-1].topic;
      && s'.consumers[id-1].phase == Left
      && (forall u :: u != t ==> (u in s'.topics <==> u in s.topics))
      && (forall u :: u in s.topics && u != t ==> s'.topics[u] == s.topics[u])
      && (t in s'.topics <==> |s.topics[t].members| > 1)
      && (t in s'.topics ==>
            && s'.topics[t].producer == s.topics[t].producer && s'.live == s.live
            && forall c :: c in s'.topics[t].members <==> c in s.topics[t].members && c != id)
      && (t !in s'.topics ==> s'.live == s.live - {s.topics[t].producer})
  {
    hide Run;
    RunKeepsInv(Init(limits), es);
    var s := Run(Init(limits), es);
    RegisteredWhere(s.topics, s.consumers, id);
    WithoutMembers(s.topics[s.consumers[id-1].topic].members, id);
  }

  // A running producer belongs to exactly one topic of the table, so no producer
  // outlives its topic and no topic is computed twice.
  lemma OneProducerPerTopic(limits: Limits, es: seq<Event>, p: nat)
    requires limits.perTopic >= 1 && p in Run(Init(limits), es).live
    ensures var s := Run(Init(limits), es);
      exists t :: t in s.topics && s.topics[t].producer == p
        && (forall u :: u in s.topics && s.topics[u].producer == p ==> u == t)
  {
    RunKeepsInv(Init(limits), es);
    var s := Run(Init(limits), es);
    assert p in Producers(s.topics);
  }

  // ----------------------------------------------------------------- shutdown

  lemma RunOne(s: State, e: Event)
    requires Enabled(s, e)
    ensures Run(s, [e]) == Next(s, e)
  {
    assert [e][1..] == [];
  }

  lemma CancelOne(s: State, id: nat) returns (s': State)
    requires Inv(s) && 1 <= id <= |s.consumers| && s.consumers[id-1].phase != Left
    ensures s' == Run(s, [On(id, Cancel)])
    ensures Inv(s') && s'.active == s.active && Enabled(s', On(id, Leave))
  {
    RegisteredWhere(s.topics, s.consumers, id);
    RunOne(s, On(id, Cancel));
    s' := Next(s, On(id, Cancel));
    SoloKeepsInv(s, id, Cancel);
  }

  lemma LeaveOne(s: State, id: nat) returns (s': State)
    requires Inv(s) && Enabled(s, On(id, Leave))
    ensures s' == Run(s, [On(id, Leave)])
    ensures Inv(s') && s'.active == s.active - 1
  {
    RunOne(s, On(id, Leave));
    s' := Next(s, On(id, Leave));
    DepartKeepsInv(s, id);
  }

  lemma CloseOne(s: State, i: nat) returns (es: seq<Event>)
    requires Inv(s) && i < |s.consumers| && s.consumers[i].phase != Left
    ensures Inv(Run(s, es)) && Run(s, es).active == s.active - 1
  {
    var s1 := CancelOne(s, i + 1);
    var s2 := LeaveOne(s1, i + 1);
    RunConcat(s, [On(i + 1, Cancel)], [On(i + 1, Leave)]);
    es := [On(i + 1, Cancel)] + [On(i + 1, Leave)];
  }

  lemma {:induction false} RunConcat(s: State, a: seq<Event>, b: seq<Event>)
    ensures Run(s, a + b) == Run(Run(s, a), b)
    decreases |a|
  {
    if a == [] {
      assert a + b == b;
    } else {
      assert (a + b)[1..] == a[1..] + b;
      RunConcat(if Enabled(s, a[0]) then Next(s, a[0]) else s, a[1..], b);
    }
  }

  ghost predicate Empty(s: State) {
    s.topics == map[] && s.live == {} && s.active == 0 && s.activeSources == 0 && s.disconnected == s.connected
  }

  lemma NoConsumerNoTopic(topics: map<string, Topic>, cs: seq<Consumer>)
    requires RosterOk(topics, cs)
    ensures topics == map[] || exists i :: 0 <= i < |cs| && cs[i].phase != Left
  {
    if t :| t in topics {
      assert TopicAt(topics, cs, t);
      assert cs[topics[t].members[0] - 1].phase != Left;
    }
  }

  lemma CloseAll(s: State) returns (es: seq<Event>)
    requires Inv(s)
    ensures Empty(Run(s, es))
    decreases s.active
  {
    if i :| 0 <= i < |s.consumers| && s.consumers[i].phase != Left {
      NobodyPresent(s.consumers);
      var first := CloseOne(s, i);
      var rest := CloseAll(Run(s, first));
      es := first + rest;
      RunConcat(s, first, rest);
    } else {
      es := [];
      NobodyPresent(s.consumers);
      NoConsumerNoTopic(s.topics, s.consumers);
    }
  }

  lemma {:induction false} NobodyPresent(cs: seq<Consumer>)
    ensures Present(cs) == 0 <==> forall i :: 0 <= i < |cs| ==> cs[i].phase == Left
  {
    if cs != [] {
      NobodyPresent(cs[..|cs|-1]);
      assert forall i :: 0 <= i < |cs| - 1 ==> cs[i] == cs[..|cs|-1][i];
    }
  }

  // Whatever happened before, departures empty the feed: no topic, no producer
  // and no connection is left behind.
  lemma FeedCanEmpty(limits: Limits, es: seq<Event>)
    requires limits.perTopic >= 1
    ensures exists more :: Empty(Run(Run(Init(limits), es), more))
  {
    RunKeepsInv(Init(limits), es);
    var more := CloseAll(Run(Init(limits), es));
  }
}
