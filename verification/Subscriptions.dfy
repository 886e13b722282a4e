/** Who gets a packet: the subscription table and the dispatcher of components/mpubsub/multicast_pubsub.cpp,
    as functions of the table, and what they mean for the requests that built it. */
module Subscriptions {
  import opened Octets
  import opened Outcomes
  import opened TopicHash
  import Crc32
  import W = WireFormat

  datatype TypedCallback = TypedCallback(schemaId: u16, callback: nat)

  /** Callbacks are named by numbers. */
  datatype Subscription = Subscription(
    topic: Topic, crc: u32, group: GroupAddr, rawCallbacks: seq<nat>, typedCallbacks: seq<TypedCallback>,
    requireEncryption: bool)

  /** A call of subscribe or subscribe_typed. */
  datatype Request =
    | Raw(topic: Topic, callback: nat, requireEncryption: bool)
    | Typed(topic: Topic, schemaId: u16, callback: nat, requireEncryption: bool)

  /** One invocation of a callback, with the topic of the subscription it belongs to. */
  datatype Call = Call(topic: Topic, callback: nat, body: seq<byte>)

  // ----- The table

  /** find_subscription_: the first entry for the topic. */
  function Find(subs: seq<Subscription>, topic: Topic): (r: Option<nat>)
    ensures r.Some? ==> r.value < |subs| && subs[r.value].topic == topic
    ensures r.None? ==> forall i :: 0 <= i < |subs| ==> subs[i].topic != topic
  {
    if subs == [] then None
    else if subs[0].topic == topic then Some(0)
    else match Find(subs[1..], topic)
      case Some(i) => Some(i + 1)
      case None => None
  }

  function NewSubscription(topic: Topic, group: GroupAddr, requireEncryption: bool): Subscription {
    Subscription(topic, Crc32.Checksum(topic), group, [], [], requireEncryption)
  }

  /** find_or_create_subscription_; group is the topic's multicast group. */
  function FindOrCreate(subs: seq<Subscription>, topic: Topic, group: GroupAddr, requireEncryption: bool):
    (r: (seq<Subscription>, nat))
    ensures r.1 < |r.0| && r.0[r.1].topic == topic
  {
    match Find(subs, topic)
    case Some(i) => (if requireEncryption then subs[i := subs[i].(requireEncryption := true)] else subs, i)
    case None => (subs + [NewSubscription(topic, group, requireEncryption)], |subs|)
  }

  function WithCallback(sub: Subscription, r: Request): Subscription {
    match r
    case Raw(_, cb, _) => sub.(rawCallbacks := sub.rawCallbacks + [cb])
    case Typed(_, sid, cb, _) => sub.(typedCallbacks := sub.typedCallbacks + [TypedCallback(sid, cb)])
  }

  /** subscribe and subscribe_typed. */
  function Register(subs: seq<Subscription>, r: Request, group: GroupAddr): seq<Subscription> {
    var (t, i) := FindOrCreate(subs, r.topic, group, r.requireEncryption);
    t[i := WithCallback(t[i], r)]
  }

  // ----- What the requests ask for

  function RawRequests(h: seq<Request>, topic: Topic): seq<nat> {
    if h == [] then [] else
      var last := h[|h| - 1];
      RawRequests(h[..|h| - 1], topic) + if last.topic == topic && last.Raw? then [last.callback] else []
  }

  function TypedRequests(h: seq<Request>, topic: Topic): seq<TypedCallback> {
    if h == [] then [] else
      var last := h[|h| - 1];
      TypedRequests(h[..|h| - 1], topic)
      + if last.topic == topic && last.Typed? then [TypedCallback(last.schemaId, last.callback)] else []
  }

  predicate Requested(h: seq<Request>, topic: Topic) {
    exists i :: 0 <= i < |h| && h[i].topic == topic
  }

  predicate EncryptionRequested(h: seq<Request>, topic: Topic) {
    exists i :: 0 <= i < |h| && h[i].topic == topic && h[i].requireEncryption
  }

  /** The requested topics, each once, in the order of their first requests. */
  function RequestedTopics(h: seq<Request>): (ts: seq<Topic>)
    ensures forall t :: t in ts <==> Requested(h, t)
    ensures forall i, j :: 0 <= i < j < |ts| ==> ts[i] != ts[j]
  {
    if h == [] then [] else
      var front, t := h[..|h| - 1], h[|h| - 1].topic;
      RequestedMore(front, h[|h| - 1]);
      assert h == front + [h[|h| - 1]];
      if Requested(front, t) then RequestedTopics(front) else RequestedTopics(front) + [t]
  }

  lemma RequestedMore(h: seq<Request>, r: Request)
    ensures forall t :: Requested(h + [r], t) <==> Requested(h, t) || t == r.topic
    ensures forall t :: EncryptionRequested(h + [r], t) <==>
              EncryptionRequested(h, t) || (t == r.topic && r.requireEncryption)
  {
    var more := h + [r];
    assert more[|h|] == r;
    forall t ensures Requested(more, t) <==> Requested(h, t) || t == r.topic {
      if Requested(h, t) {
        var i :| 0 <= i < |h| && h[i].topic == t;
        assert more[i].topic == t;
      }
    }
    forall t ensures EncryptionRequested(more, t) <==>
                     EncryptionRequested(h, t) || (t == r.topic && r.requireEncryption)
    {
      if EncryptionRequested(h, t) {
        var i :| 0 <= i < |h| && h[i].topic == t && h[i].requireEncryption;
        assert more[i].topic == t && more[i].requireEncryption;
      }
    }
  }

  /** Callbacks stand in the order of their requests: what is requested later comes later, one callback a request. */
  lemma {:induction false} RequestsInOrder(h: seq<Request>, g: seq<Request>, topic: Topic)
    ensures RawRequests(h + g, topic) == RawRequests(h, topic) + RawRequests(g, topic)
    ensures TypedRequests(h + g, topic) == TypedRequests(h, topic) + TypedRequests(g, topic)
    decreases |g|
  {
    if g == [] {
      assert h + g == h;
    } else {
      assert (h + g)[..|h + g| - 1] == h + g[..|g| - 1];
      RequestsInOrder(h, g[..|g| - 1], topic);
    }
  }

  lemma OneRequest(r: Request, topic: Topic)
    ensures RawRequests([r], topic) == if r.topic == topic && r.Raw? then [r.callback] else []
    ensures TypedRequests([r], topic)
         == if r.topic == topic && r.Typed? then [TypedCallback(r.schemaId, r.callback)] else []
  {
    assert [r][..0] == [];
  }

  /** A topic keeps its place however many requests follow. */
  lemma {:induction false} TopicsInOrder(h: seq<Request>, g: seq<Request>)
    ensures RequestedTopics(h) <= RequestedTopics(h + g)
    decreases |g|
  {
    if g == [] {
      assert h + g == h;
    } else {
      assert (h + g)[..|h + g| - 1] == h + g[..|g| - 1];
      TopicsInOrder(h, g[..|g| - 1]);
    }
  }

  /** A table entry says of its topic what the requests say. */
  predicate Describes(sub: Subscription, h: seq<Request>) {
    && sub.crc == Crc32.Checksum(sub.topic)
    && sub.rawCallbacks == RawRequests(h, sub.topic)
    && sub.typedCallbacks == TypedRequests(h, sub.topic)
    && (sub.requireEncryption <==> EncryptionRequested(h, sub.topic))
  }

  /** One entry per requested topic, in order of first request, with everything that was asked for it. */
  predicate Tabulates(subs: seq<Subscription>, h: seq<Request>) {
    && |subs| == |RequestedTopics(h)|
    && forall i :: 0 <= i < |subs| ==> subs[i].topic == RequestedTopics(h)[i] && Describes(subs[i], h)
  }

  lemma NothingRequested(h: seq<Request>, topic: Topic)
    requires !Requested(h, topic)
    ensures RawRequests(h, topic) == [] && TypedRequests(h, topic) == [] && !EncryptionRequested(h, topic)
  {
    if h != [] {
      assert h[|h| - 1].topic != topic;
      assert forall i :: 0 <= i < |h| - 1 ==> h[..|h| - 1][i] == h[i];
      NothingRequested(h[..|h| - 1], topic);
    }
  }

  /** Another topic's request leaves an entry right; the topic's own adds its callback and its demand. */
  lemma DescribesMore(sub: Subscription, h: seq<Request>, r: Request)
    requires Describes(sub, h)
    ensures sub.topic != r.topic ==> Describes(sub, h + [r])
    ensures sub.topic == r.topic ==>
              Describes(WithCallback(sub.(requireEncryption := sub.requireEncryption || r.requireEncryption), r),
                        h + [r])
  {
    hide Crc32.Checksum;
    RequestedMore(h, r);
    assert (h + [r])[..|h|] == h;
  }

  /** Registering keeps the table right. */
  lemma RegisterTabulates(subs: seq<Subscription>, h: seq<Request>, r: Request, group: GroupAddr)
    requires Tabulates(subs, h)
    ensures Tabulates(Register(subs, r, group), h + [r])
  {
    hide Describes, WithCallback, Crc32.Checksum;
    var after := Register(subs, r, group);
    assert (h + [r])[..|h|] == h;
    RequestedMore(h, r);
    match Find(subs, r.topic)
    case Some(i) =>
      assert RequestedTopics(h)[i] in RequestedTopics(h);
      forall j | 0 <= j < |after|
        ensures after[j].topic == RequestedTopics(h + [r])[j] && Describes(after[j], h + [r])
      {
        DescribesMore(subs[j], h, r);
        TopicKept(subs[i], r);
      }
    case None =>
      assert r.topic !in RequestedTopics(h);
      var added := NewSubscription(r.topic, group, r.requireEncryption);
      FreshDescribes(added, h, r);
      TopicKept(added, r);
      forall j | 0 <= j < |after|
        ensures after[j].topic == RequestedTopics(h + [r])[j] && Describes(after[j], h + [r])
      {
        if j < |subs| {
          DescribesMore(subs[j], h, r);
        }
      }
  }

  lemma TopicKept(sub: Subscription, r: Request)
    ensures WithCallback(sub, r).topic == sub.topic
    ensures WithCallback(sub.(requireEncryption := true), r).topic == sub.topic
  {}

  lemma FreshDescribes(sub: Subscription, h: seq<Request>, r: Request)
    requires sub == Subscription(r.topic, Crc32.Checksum(r.topic), sub.group, [], [], r.requireEncryption)
    requires !Requested(h, r.topic)
    ensures Describes(WithCallback(sub, r), h + [r])
  {
    hide Crc32.Checksum;
    NothingRequested(h, r.topic);
    DescribesMore(sub.(requireEncryption := false), h, r);
    assert sub.(requireEncryption := false).(requireEncryption := r.requireEncryption) == sub;
  }

  /** Registering keeps the topics and groups of the table, and adds a topic that it does not have with the given
      group. */
  lemma RegisterKeepsGroups(subs: seq<Subscription>, r: Request, group: GroupAddr)
    ensures var after := Register(subs, r, group);
            && |after| == (if Find(subs, r.topic).Some? then |subs| else |subs| + 1)
            && (forall i :: 0 <= i < |subs| ==> after[i].topic == subs[i].topic && after[i].group == subs[i].group)
            && (Find(subs, r.topic).None? ==> after[|subs|].topic == r.topic && after[|subs|].group == group)
  {
    hide Crc32.Checksum, Find;
  }

  // ----- Dispatch

  function RawCalls(topic: Topic, callbacks: seq<nat>, body: seq<byte>): (cs: seq<Call>)
    ensures |cs| == |callbacks|
    ensures forall i :: 0 <= i < |cs| ==> cs[i] == Call(topic, callbacks[i], body)
  {
    seq(|callbacks|, i requires 0 <= i < |callbacks| => Call(topic, callbacks[i], body))
  }

  /** The callbacks registered for a schema, in order of registration. */
  function Matching(callbacks: seq<TypedCallback>, schemaId: u16): seq<nat> {
    if callbacks == [] then [] else
      var last := callbacks[|callbacks| - 1];
      Matching(callbacks[..|callbacks| - 1], schemaId) + if last.schemaId == schemaId then [last.callback] else []
  }

  /** The calls that a packet makes on one subscription whose CRC it carries. */
  function CallsOf(sub: Subscription, encoding: byte, payload: seq<byte>, wasEncrypted: bool): seq<Call> {
    if sub.requireEncryption && !wasEncrypted then []
    else if encoding == W.ENCODING_RAW then RawCalls(sub.topic, sub.rawCallbacks, payload)
    else if encoding == W.ENCODING_PROTO && |payload| >= 2 then
      RawCalls(sub.topic, Matching(sub.typedCallbacks, FromLe16(payload[..2])), payload[2..])
    else []
  }

  /** deliver_: all subscriptions with the packet's CRC, in table order. */
  function Delivered(subs: seq<Subscription>, crc: u32, encoding: byte, payload: seq<byte>, wasEncrypted: bool):
    seq<Call>
  {
    if subs == [] then [] else
      var last := subs[|subs| - 1];
      Delivered(subs[..|subs| - 1], crc, encoding, payload, wasEncrypted)
      + if last.crc == crc then CallsOf(last, encoding, payload, wasEncrypted) else []
  }

  /** What the requests for a topic make of a packet on it. */
  function Expected(h: seq<Request>, topic: Topic, encoding: byte, payload: seq<byte>, wasEncrypted: bool): seq<Call> {
    if EncryptionRequested(h, topic) && !wasEncrypted then []
    else if encoding == W.ENCODING_RAW then RawCalls(topic, RawRequests(h, topic), payload)
    else if encoding == W.ENCODING_PROTO && |payload| >= 2 then
      RawCalls(topic, Matching(TypedRequests(h, topic), FromLe16(payload[..2])), payload[2..])
    else []
  }

  /** The same for every topic with the packet's CRC. */
  function ExpectedOf(
      ts: seq<Topic>, h: seq<Request>, crc: u32, encoding: byte, payload: seq<byte>, wasEncrypted: bool): seq<Call>
  {
    if ts == [] then [] else
      var last := ts[|ts| - 1];
      ExpectedOf(ts[..|ts| - 1], h, crc, encoding, payload, wasEncrypted)
      + if Crc32.Checksum(last) == crc then Expected(h, last, encoding, payload, wasEncrypted) else []
  }

  /** The callbacks of a schema keep their order, and the calls for several topics the order of the topics. */
  lemma {:induction false} MatchingInOrder(a: seq<TypedCallback>, b: seq<TypedCallback>, schemaId: u16)
    ensures Matching(a + b, schemaId) == Matching(a, schemaId) + Matching(b, schemaId)
    decreases |b|
  {
    if b == [] {
      assert a + b == a;
    } else {
      assert (a + b)[..|a + b| - 1] == a + b[..|b| - 1];
      MatchingInOrder(a, b[..|b| - 1], schemaId);
    }
  }

  lemma OneMatching(c: TypedCallback, schemaId: u16)
    ensures Matching([c], schemaId) == if c.schemaId == schemaId then [c.callback] else []
  {
    assert [c][..0] == [];
  }

  lemma {:induction false} ExpectedInOrder(
      ts: seq<Topic>, us: seq<Topic>, h: seq<Request>, crc: u32, encoding: byte, payload: seq<byte>, wasEncrypted: bool)
    ensures ExpectedOf(ts + us, h, crc, encoding, payload, wasEncrypted)
         == ExpectedOf(ts, h, crc, encoding, payload, wasEncrypted)
            + ExpectedOf(us, h, crc, encoding, payload, wasEncrypted)
    decreases |us|
  {
    hide Expected, Crc32.Checksum;
    if us == [] {
      assert ts + us == ts;
    } else {
      assert (ts + us)[..|ts + us| - 1] == ts + us[..|us| - 1];
      ExpectedInOrder(ts, us[..|us| - 1], h, crc, encoding, payload, wasEncrypted);
    }
  }

  lemma {:induction false} DeliveredUpTo(
      subs: seq<Subscription>, h: seq<Request>, n: nat, crc: u32, encoding: byte, payload: seq<byte>,
      wasEncrypted: bool)
    requires Tabulates(subs, h) && n <= |subs|
    ensures Delivered(subs[..n], crc, encoding, payload, wasEncrypted)
         == ExpectedOf(RequestedTopics(h)[..n], h, crc, encoding, payload, wasEncrypted)
  {
    hide RequestedTopics, RawRequests, TypedRequests, EncryptionRequested, RawCalls, Matching, Crc32.Checksum;
    if n > 0 {
      var ts := RequestedTopics(h);
      DeliveredUpTo(subs, h, n - 1, crc, encoding, payload, wasEncrypted);
      assert subs[..n][..n - 1] == subs[..n - 1] && ts[..n][..n - 1] == ts[..n - 1];
      assert subs[..n][n - 1] == subs[n - 1] && ts[..n][n - 1] == ts[n - 1];
    }
  }

  /** A packet makes exactly the calls that the requests for the topics with its CRC ask for, in order. */
  lemma DeliveredAsRequested(
      subs: seq<Subscription>, h: seq<Request>, crc: u32, encoding: byte, payload: seq<byte>, wasEncrypted: bool)
    requires Tabulates(subs, h)
    ensures Delivered(subs, crc, encoding, payload, wasEncrypted)
         == ExpectedOf(RequestedTopics(h), h, crc, encoding, payload, wasEncrypted)
  {
    DeliveredUpTo(subs, h, |subs|, crc, encoding, payload, wasEncrypted);
    assert subs[..|subs|] == subs && RequestedTopics(h)[..|subs|] == RequestedTopics(h);
  }

  lemma {:induction false} ExpectedOfOne(
      ts: seq<Topic>, h: seq<Request>, topic: Topic, encoding: byte, payload: seq<byte>, wasEncrypted: bool)
    requires forall i, j :: 0 <= i < j < |ts| ==> ts[i] != ts[j]
    requires forall i :: 0 <= i < |ts| && Crc32.Checksum(ts[i]) == Crc32.Checksum(topic) ==> ts[i] == topic
    ensures ExpectedOf(ts, h, Crc32.Checksum(topic), encoding, payload, wasEncrypted)
         == if topic in ts then Expected(h, topic, encoding, payload, wasEncrypted) else []
  {
    hide Expected, Crc32.Checksum;
    if ts != [] {
      var front := ts[..|ts| - 1];
      assert forall i :: 0 <= i < |front| ==> front[i] == ts[i];
      ExpectedOfOne(front, h, topic, encoding, payload, wasEncrypted);
      assert ts == front + [ts[|ts| - 1]];
      if ts[|ts| - 1] == topic {
        assert topic !in front;
      }
    }
  }

  /** When no other requested topic has the topic's CRC, a packet on it makes exactly the calls requested for it. */
  lemma DeliveredToTopic(
      subs: seq<Subscription>, h: seq<Request>, topic: Topic, encoding: byte, payload: seq<byte>, wasEncrypted: bool)
    requires Tabulates(subs, h)
    requires forall t :: Requested(h, t) && Crc32.Checksum(t) == Crc32.Checksum(topic) ==> t == topic
    ensures Delivered(subs, Crc32.Checksum(topic), encoding, payload, wasEncrypted)
         == Expected(h, topic, encoding, payload, wasEncrypted)
  {
    hide Crc32.Checksum;
    DeliveredAsRequested(subs, h, Crc32.Checksum(topic), encoding, payload, wasEncrypted);
    var ts := RequestedTopics(h);
    forall i | 0 <= i < |ts| && Crc32.Checksum(ts[i]) == Crc32.Checksum(topic) ensures ts[i] == topic {
      assert ts[i] in ts;
    }
    ExpectedOfOne(ts, h, topic, encoding, payload, wasEncrypted);
    if topic !in ts {
      NothingRequested(h, topic);
      assert Matching([], 0) == [] ;
    }
  }

  /** A plaintext packet calls nothing on a topic for which anyone required encryption. */
  lemma {:induction false} PlaintextBlocked(
      subs: seq<Subscription>, h: seq<Request>, crc: u32, encoding: byte, payload: seq<byte>)
    requires Tabulates(subs, h)
    ensures forall c :: c in Delivered(subs, crc, encoding, payload, false) ==> !EncryptionRequested(h, c.topic)
  {
    DeliveredAsRequested(subs, h, crc, encoding, payload, false);
    ExpectedBlocked(RequestedTopics(h), h, crc, encoding, payload);
  }

  lemma {:induction false} ExpectedBlocked(
      ts: seq<Topic>, h: seq<Request>, crc: u32, encoding: byte, payload: seq<byte>)
    ensures forall c :: c in ExpectedOf(ts, h, crc, encoding, payload, false) ==> !EncryptionRequested(h, c.topic)
  {
    hide Crc32.Checksum, EncryptionRequested, RawRequests, TypedRequests, Matching;
    if ts != [] {
      ExpectedBlocked(ts[..|ts| - 1], h, crc, encoding, payload);
    }
  }
}
