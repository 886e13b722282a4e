/** Whole runs of a node: what its subscriptions, its datagrams and its dispatch are after any sequence of calls,
    packets and timer firings, and what one node's publish does at another. */
module NodeRuns {
  import opened Octets
  import opened Outcomes
  import opened TopicHash
  import opened Subscriptions
  import opened Node
  import R = Retransmits
  import Accounting
  import W = WireFormat
  import Crc32

  datatype Event =
    | Setup(created: bool)
    | Configure(config: Config)
    | Subscribe(request: Request)
    | Publish(topic: Topic, payload: seq<byte>, encoding: Encoding, ok: bool)
    | PublishDynamic(topic: Topic, schemaId: u16, body: seq<byte>, ok: bool)
    | Receive(raw: seq<byte>)
    | NamedFired(id: u32, ok: bool)
    | RepeatFired(k: nat, ok: bool)

  function Step(n: State, e: Event): State {
    match e
    case Setup(created) => n.(sender := R.Step(n.sender, R.Setup(created)))
    case Configure(config) => n.(config := config)
    case Subscribe(r) => Subscribed(n, r)
    case Publish(topic, payload, encoding, ok) => Published(n, topic, payload, encoding, ok)
    case PublishDynamic(topic, schemaId, body, ok) => PublishedDynamic(n, topic, schemaId, body, ok)
    case Receive(raw) => Received(n, raw)
    case NamedFired(id, ok) => n.(sender := R.Step(n.sender, R.NamedFired(id, ok)))
    case RepeatFired(k, ok) => n.(sender := R.Step(n.sender, R.RepeatFired(k, ok)))
  }

  function Run(es: seq<Event>): State {
    if es == [] then INITIAL else Step(Run(es[..|es| - 1]), es[|es| - 1])
  }

  /** The subscription requests of a run, in order. */
  function Requests(es: seq<Event>): seq<Request> {
    if es == [] then [] else
      Requests(es[..|es| - 1]) + if es[|es| - 1].Subscribe? then [es[|es| - 1].request] else []
  }

  // ----- Subscriptions

  /** After any run the subscription table is what the requests made so far ask for: one entry per topic, its CRC the
      topic's, its callbacks in order of registration, and encryption required if any request required it. */
  lemma {:induction false} TableFollowsRequests(es: seq<Event>)
    ensures Tabulates(Run(es).subs, Requests(es))
    decreases |es|
  {
    hide Tabulates, Register, GroupOf, W.DecodePacketSpec, Delivered, R.Publish, R.Step, DatagramFor;
    if es == [] {
      assert Tabulates([], []) by { EmptyTable(); }
    } else {
      var front, e := es[..|es| - 1], es[|es| - 1];
      TableFollowsRequests(front);
      if e.Subscribe? {
        var group := GroupOf(e.request.topic, Run(front).config.scope);
        RegisterTabulates(Run(front).subs, Requests(front), e.request, group);
      } else {
        SubsKept(Run(front), e);
        assert Requests(front) + [] == Requests(front);
      }
    }
  }

  lemma EmptyTable()
    ensures Tabulates([], [])
  {}

  lemma SubsKept(n: State, e: Event)
    requires !e.Subscribe?
    ensures Step(n, e).subs == n.subs
  {
    hide GroupOf, W.DecodePacketSpec, Delivered, R.Publish, R.Step, DatagramFor;
  }

  /** The scope in force at the first request for a topic. */
  function FirstScope(es: seq<Event>, topic: Topic): Option<Scope> {
    if es == [] then None
    else
      var front, e := es[..|es| - 1], es[|es| - 1];
      match FirstScope(front, topic)
      case Some(scope) => Some(scope)
      case None => if e.Subscribe? && e.request.topic == topic then Some(Run(front).config.scope) else None
  }

  /** Each subscription joins its topic's group in that scope, and keeps to it. */
  ghost predicate Joined(es: seq<Event>, subs: seq<Subscription>) {
    && (forall i :: 0 <= i < |subs| ==> FirstScope(es, subs[i].topic).Some?
                                        && subs[i].group == GroupOf(subs[i].topic, FirstScope(es, subs[i].topic).value))
    && (forall t :: FirstScope(es, t).Some? ==> exists i :: 0 <= i < |subs| && subs[i].topic == t)
  }

  lemma {:induction false} GroupsFollowScope(es: seq<Event>)
    ensures Joined(es, Run(es).subs)
    decreases |es|
  {
    hide Joined, Step, FirstScope;
    if es == [] {
      NothingJoined();
    } else {
      var front, e := es[..|es| - 1], es[|es| - 1];
      GroupsFollowScope(front);
      assert es == front + [e];
      if e.Subscribe? {
        SubscribeJoins(front, e);
      } else {
        SubsKept(Run(front), e);
        OthersKeepScope(front, e, Run(front).subs);
      }
    }
  }

  lemma NothingJoined()
    ensures Joined([], [])
  {}

  lemma FirstScopeMore(es: seq<Event>, e: Event, topic: Topic)
    ensures FirstScope(es + [e], topic) ==
              if FirstScope(es, topic).Some? then FirstScope(es, topic)
              else if e.Subscribe? && e.request.topic == topic then Some(Run(es).config.scope) else None
  {
    hide Run;
    assert (es + [e])[..|es|] == es;
  }

  lemma OthersKeepScope(es: seq<Event>, e: Event, subs: seq<Subscription>)
    requires Joined(es, subs) && !e.Subscribe?
    ensures Joined(es + [e], subs)
  {
    hide FirstScope, GroupOf, Run;
    forall t ensures FirstScope(es + [e], t) == FirstScope(es, t) {
      FirstScopeMore(es, e, t);
    }
  }

  lemma SubscribeJoins(es: seq<Event>, e: Event)
    requires Joined(es, Run(es).subs) && e.Subscribe?
    ensures Joined(es + [e], Step(Run(es), e).subs)
  {
    hide FirstScope, GroupOf, Run, Crc32.Checksum;
    var subs, r := Run(es).subs, e.request;
    var group := GroupOf(r.topic, Run(es).config.scope);
    var after := Register(subs, r, group);
    RegisterKeepsGroups(subs, r, group);
    forall t ensures FirstScope(es + [e], t) ==
                     if FirstScope(es, t).Some? then FirstScope(es, t)
                     else if r.topic == t then Some(Run(es).config.scope) else None
    {
      FirstScopeMore(es, e, t);
    }
    forall t | FirstScope(es + [e], t).Some? ensures exists i :: 0 <= i < |after| && after[i].topic == t {
      if FirstScope(es, t).Some? {
        var i :| 0 <= i < |subs| && subs[i].topic == t;
        assert after[i].topic == t;
      } else {
        assert after[|after| - 1].topic == t;
      }
    }
  }

  // ----- Dispatch

  /** The calls that a packet received after a run makes. */
  function CallsMade(es: seq<Event>, raw: seq<byte>): seq<Call> {
    Run(es + [Receive(raw)]).calls[|Run(es).calls|..]
  }

  lemma ReceiveCalls(es: seq<Event>, raw: seq<byte>)
    ensures Run(es + [Receive(raw)]) == Received(Run(es), raw)
    ensures |Run(es).calls| <= |Run(es + [Receive(raw)]).calls|
    ensures var n := Run(es);
            match W.DecodePacketSpec(raw, n.config.key)
            case Err(_) => CallsMade(es, raw) == []
            case Ok(p) =>
              CallsMade(es, raw) ==
                if p.wasEncrypted && |raw| > W.HEADER_LEN + W.MAX_DATAGRAM then []
                else Delivered(n.subs, p.topicCrc, p.encoding, p.payload, p.wasEncrypted)
  {
    hide W.DecodePacketSpec, Delivered, Subscribed, Published, PublishedDynamic, R.Step;
    assert (es + [Receive(raw)])[..|es|] == es;
  }

  /** After any request that required encryption for a topic, no datagram that is not encrypted calls any of the
      topic's callbacks, whatever happened before and since. */
  lemma PlaintextNeverReaches(es: seq<Event>, raw: seq<byte>)
    requires |raw| > 10 ==> raw[10] != W.ENC_MODE_XXTEA
    ensures forall c :: c in CallsMade(es, raw) ==> !EncryptionRequested(Requests(es), c.topic)
  {
    hide W.DecodePacketSpec, Delivered, Run, EncryptionRequested, CallsMade;
    ReceiveCalls(es, raw);
    var n := Run(es);
    TableFollowsRequests(es);
    PlaintextIsMarked(raw, n.config.key);
    var r := W.DecodePacketSpec(raw, n.config.key);
    if r.Ok? {
      PlaintextBlocked(n.subs, Requests(es), r.value.topicCrc, r.value.encoding, r.value.payload);
    }
  }

  lemma PlaintextIsMarked(raw: seq<byte>, key: Option<W.Key>)
    requires |raw| > 10 ==> raw[10] != W.ENC_MODE_XXTEA
    ensures W.DecodePacketSpec(raw, key).Ok? ==> !W.DecodePacketSpec(raw, key).value.wasEncrypted
  {
    hide W.Decipher, FromLe32;
  }

  /** An encryption demand is never forgotten. */
  lemma {:induction false} DemandIsSticky(es: seq<Event>, more: seq<Event>, topic: Topic)
    requires EncryptionRequested(Requests(es), topic)
    ensures EncryptionRequested(Requests(es + more), topic)
    decreases |more|
  {
    hide EncryptionRequested;
    if more == [] {
      assert es + more == es;
    } else {
      var all := es + more;
      assert all[..|all| - 1] == es + more[..|more| - 1];
      DemandIsSticky(es, more[..|more| - 1], topic);
      if more[|more| - 1].Subscribe? {
        RequestedMore(Requests(es + more[..|more| - 1]), more[|more| - 1].request);
      } else {
        assert Requests(es + more[..|more| - 1]) + [] == Requests(es + more[..|more| - 1]);
      }
    }
  }

  // ----- One node's publish at another

  /** The datagram of an accepted publish, received by a node whose key is the publisher's (or by any node, if the
      publisher has none), makes exactly the calls requested for the topics with its CRC, in order. */
  lemma PublishedReaches(sender: Config, topic: Topic, payload: seq<byte>, encoding: Encoding, es: seq<Event>)
    requires |payload| <= Cap(sender) && (sender.key.Some? ==> Run(es).config.key == sender.key)
    ensures CallsMade(es, DatagramFor(sender, topic, payload, encoding))
         == ExpectedOf(RequestedTopics(Requests(es)), Requests(es), Crc32.Checksum(topic), encoding, payload,
             sender.key.Some?)
  {
    hide W.DecodePacketSpec, W.Datagram, Delivered, Run, CallsMade, ExpectedOf, RequestedTopics, Crc32.Checksum,
        Tabulates;
    var raw := DatagramFor(sender, topic, payload, encoding);
    DatagramReads(sender, topic, payload, encoding, Run(es).config.key);
    ReceiveCalls(es, raw);
    TableFollowsRequests(es);
    DeliveredAsRequested(Run(es).subs, Requests(es), Crc32.Checksum(topic), encoding, payload, sender.key.Some?);
  }

  lemma DatagramReads(sender: Config, topic: Topic, payload: seq<byte>, encoding: Encoding, key: Option<W.Key>)
    requires |payload| <= Cap(sender) && (sender.key.Some? ==> key == sender.key)
    ensures var raw := DatagramFor(sender, topic, payload, encoding);
            && |raw| <= W.MAX_DATAGRAM
            && W.DecodePacketSpec(raw, key) == Ok(W.Packet(Crc32.Checksum(topic), encoding,
                 if sender.key.Some? then W.ENC_MODE_XXTEA else W.ENC_MODE_NONE, sender.key.Some?, payload))
  {
    hide Crc32.Checksum, W.Encipher, W.Decipher, FromLe32, FromLe16;
    W.DatagramDecodes(Crc32.Checksum(topic), encoding, payload, sender.key);
    W.EncryptedCapsAgree(|payload|);
    if sender.key.None? {
      assert W.DecodePacketSpec(W.Datagram(Crc32.Checksum(topic), encoding, payload, None), key)
          == W.DecodePacketSpec(W.Datagram(Crc32.Checksum(topic), encoding, payload, None), None);
    }
  }

  /** If no other topic requested at the receiver has the topic's CRC, these are the topic's own callbacks: the raw
      ones for a RAW payload, and for publish_dynamic those typed with the same SCHEMA_ID, which get the body. */
  lemma PublishedReachesTopic(sender: Config, topic: Topic, payload: seq<byte>, encoding: Encoding, es: seq<Event>)
    requires |payload| <= Cap(sender) && (sender.key.Some? ==> Run(es).config.key == sender.key)
    requires forall t :: Requested(Requests(es), t) && Crc32.Checksum(t) == Crc32.Checksum(topic) ==> t == topic
    ensures CallsMade(es, DatagramFor(sender, topic, payload, encoding))
         == Expected(Requests(es), topic, encoding, payload, sender.key.Some?)
  {
    hide Delivered, Run, CallsMade, Expected, Crc32.Checksum, Tabulates, DatagramFor, W.DecodePacketSpec;
    DatagramReads(sender, topic, payload, encoding, Run(es).config.key);
    ReceiveCalls(es, DatagramFor(sender, topic, payload, encoding));
    TableFollowsRequests(es);
    DeliveredToTopic(Run(es).subs, Requests(es), topic, encoding, payload, sender.key.Some?);
  }

  /** A RAW publish calls exactly the topic's raw callbacks, in order, with the payload as it was published. */
  lemma RawReachesTopic(sender: Config, topic: Topic, payload: seq<byte>, es: seq<Event>)
    requires |payload| <= Cap(sender) && (sender.key.Some? ==> Run(es).config.key == sender.key)
    requires forall t :: Requested(Requests(es), t) && Crc32.Checksum(t) == Crc32.Checksum(topic) ==> t == topic
    ensures CallsMade(es, DatagramFor(sender, topic, payload, 0))
         == if EncryptionRequested(Requests(es), topic) && sender.key.None? then []
            else RawCalls(topic, RawRequests(Requests(es), topic), payload)
  {
    hide Run, CallsMade, Crc32.Checksum, DatagramFor, Requests, EncryptionRequested, RawCalls;
    PublishedReachesTopic(sender, topic, payload, W.ENCODING_RAW, es);
  }

  lemma DynamicReachesTopic(sender: Config, topic: Topic, schemaId: u16, body: seq<byte>, es: seq<Event>)
    requires |body| + 2 <= Cap(sender) && (sender.key.Some? ==> Run(es).config.key == sender.key)
    requires forall t :: Requested(Requests(es), t) && Crc32.Checksum(t) == Crc32.Checksum(topic) ==> t == topic
    requires EncryptionRequested(Requests(es), topic) ==> sender.key.Some?
    ensures CallsMade(es, DatagramFor(sender, topic, TypedPayload(schemaId, body), W.ENCODING_PROTO))
         == RawCalls(topic, Matching(TypedRequests(Requests(es), topic), schemaId), body)
  {
    hide Run, CallsMade, Crc32.Checksum, DatagramFor, Requests, EncryptionRequested, Matching, Le16, FromLe16, RawCalls;
    var payload := TypedPayload(schemaId, body);
    PublishedReachesTopic(sender, topic, payload, W.ENCODING_PROTO, es);
    assert payload[..2] == Le16(schemaId) && payload[2..] == body;
    FromLe16OfLe16(schemaId);
  }

  // ----- Sending

  /** What a call of publish or publish_dynamic publishes. */
  datatype Message = Message(topic: Topic, payload: seq<byte>, encoding: Encoding, ok: bool)

  function MessageOf(e: Event): Option<Message> {
    match e
    case Publish(topic, payload, encoding, ok) => Some(Message(topic, payload, encoding, ok))
    case PublishDynamic(topic, schemaId, body, ok) =>
      if |body| + 2 <= W.MAX_PAYLOAD then Some(Message(topic, TypedPayload(schemaId, body), W.ENCODING_PROTO, ok))
      else None
    case _ => None
  }

  function PublicationOf(config: Config, m: Message): R.Publication {
    PublicationFor(config, m.topic, m.payload, m.encoding, m.ok)
  }

  /** What an event is to the sending half of a node. */
  function SenderEvents(n: State, e: Event): seq<R.Event> {
    match e
    case Setup(created) => [R.Setup(created)]
    case Publish(_, _, _, _) | PublishDynamic(_, _, _, _) =>
      (match MessageOf(e)
       case Some(m) => if Publishable(n, m.payload) then [R.Published(PublicationOf(n.config, m))] else []
       case None => [])
    case NamedFired(id, ok) => [R.NamedFired(id, ok)]
    case RepeatFired(k, ok) => [R.RepeatFired(k, ok)]
    case _ => []
  }

  function SenderRun(es: seq<Event>): seq<R.Event> {
    if es == [] then [] else SenderRun(es[..|es| - 1]) + SenderEvents(Run(es[..|es| - 1]), es[|es| - 1])
  }

  lemma SenderStep(n: State, e: Event)
    ensures |SenderEvents(n, e)| <= 1
    ensures Step(n, e).sender == if SenderEvents(n, e) == [] then n.sender else R.Step(n.sender, SenderEvents(n, e)[0])
  {
    hide PublicationFor, R.Publish, Register, GroupOf, W.DecodePacketSpec, Delivered, TypedPayload;
  }

  /** A node sends as its sending half does, so everything proved of Retransmits runs holds of node runs. */
  lemma {:induction false} NodeSends(es: seq<Event>)
    ensures Run(es).sender == R.Run(SenderRun(es))
    decreases |es|
  {
    hide Step, SenderEvents, R.Step;
    if es != [] {
      var front, e := es[..|es| - 1], es[|es| - 1];
      NodeSends(front);
      SenderStep(Run(front), e);
      var more, before := SenderEvents(Run(front), e), SenderRun(front);
      if more == [] {
        assert before + [] == before;
      } else {
        assert (before + more)[..|before|] == before && (before + more)[|before|] == more[0];
      }
    }
  }

  predicate PublishesOn(e: Event, topics: iset<Topic>) {
    (e.Publish? || e.PublishDynamic?) ==> e.topic in topics
  }

  lemma {:induction false} SenderTopics(es: seq<Event>, topics: iset<Topic>)
    requires forall i :: 0 <= i < |es| ==> PublishesOn(es[i], topics)
    ensures R.Publishes(SenderRun(es), topics)
    decreases |es|
  {
    hide DatagramFor, GroupOf, Run, TypedPayload, Publishable;
    if es != [] {
      var front := es[..|es| - 1];
      assert forall i :: 0 <= i < |front| ==> front[i] == es[i];
      SenderTopics(front, topics);
      assert PublishesOn(es[|es| - 1], topics);
    }
  }

  /** In every run whose published topics have pairwise different CRCs, a topic's chain timer is pending exactly if its
      latest successful publish was indefinite; there is one, and it sends that publish's datagram. */
  lemma NodeChainsAreCurrent(es: seq<Event>, topics: iset<Topic>, topic: Topic)
    requires R.Distinguished(topics) && topic in topics
    requires forall i :: 0 <= i < |es| ==> PublishesOn(es[i], topics)
    ensures var s := Run(es).sender;
            && (R.Indefinite(s.publications, topic) <==> exists id :: id in s.named && s.named[id].chain.topic == topic)
            && (forall id :: id in s.named && s.named[id].chain.topic == topic ==>
                  && id == Crc32.Checksum(topic) && R.Latest(s.publications, topic).Some?
                  && s.named[id].chain == R.ChainOf(s.publications[R.Latest(s.publications, topic).value],
                                                    R.Latest(s.publications, topic).value))
  {
    hide Run, SenderRun, R.Run, R.Distinguished, R.Indefinite, R.Latest, R.ChainOf, Crc32.Checksum;
    NodeSends(es);
    SenderTopics(es, topics);
    R.ChainsAreCurrent(SenderRun(es), topics, topic);
  }

  // ----- What calls and timers do, seen from outside

  lemma RunMore(es: seq<Event>, e: Event)
    ensures Run(es + [e]) == Step(Run(es), e)
  {
    hide Step;
    assert (es + [e])[..|es|] == es;
  }

  /** With a socket, publish sends the datagram of a payload of up to 1220 bytes, 1216 with a key, to the topic's group;
      otherwise it does nothing. */
  lemma PublishSends(es: seq<Event>, topic: Topic, payload: seq<byte>, encoding: Encoding, ok: bool)
    ensures var n, t := Run(es), Run(es + [Publish(topic, payload, encoding, ok)]);
            if n.sender.ready && |payload| <= (if n.config.key.Some? then 1216 else 1220) then
              var datagram := W.Datagram(Crc32.Checksum(topic), encoding, payload, n.config.key);
              var group := GroupOf(topic, n.config.scope);
              && t.sender.attempts == n.sender.attempts
                                      + [R.Attempt(datagram, group, |n.sender.publications|, R.First, ok)]
              && t.sender.publications == n.sender.publications
                                          + [R.Publication(topic, datagram, group, n.config.count, n.config.delay, ok)]
            else t == n
  {
    hide Run, W.Datagram, GroupOf, Crc32.Checksum;
    RunMore(es, Publish(topic, payload, encoding, ok));
    var n := Run(es);
    if Publishable(n, payload) {
      R.PublishJobTable(n.sender, PublicationFor(n.config, topic, payload, encoding, ok));
    }
  }

  /** publish_dynamic is publish of the SCHEMA_ID, low byte first, and up to 1218 bytes of body. */
  lemma PublishDynamicSends(es: seq<Event>, topic: Topic, schemaId: u16, body: seq<byte>, ok: bool)
    ensures Run(es + [PublishDynamic(topic, schemaId, body, ok)]) ==
              if |body| <= 1218 then
                Run(es + [Publish(topic, [schemaId % 256, schemaId / 256] + body, W.ENCODING_PROTO, ok)])
              else Run(es)
  {
    hide Run, Published;
    RunMore(es, PublishDynamic(topic, schemaId, body, ok));
    RunMore(es, Publish(topic, [schemaId % 256, schemaId / 256] + body, W.ENCODING_PROTO, ok));
  }

  /** Firing timers send what they hold. */
  lemma TimersSend(es: seq<Event>, id: u32, k: nat, ok: bool)
    ensures var s := Run(es).sender;
            && (id in s.named ==>
                  var c := s.named[id].chain;
                  Run(es + [NamedFired(id, ok)]).sender.attempts
                  == s.attempts + [R.Attempt(c.datagram, c.group, c.origin, R.Chained, s.ready && ok)])
            && (k < |s.repeats| ==>
                  var r := s.repeats[k];
                  Run(es + [RepeatFired(k, ok)]).sender.attempts
                  == s.attempts + [R.Attempt(r.datagram, r.group, r.origin, R.Repeated, s.ready && ok)])
  {
    hide Run;
    RunMore(es, NamedFired(id, ok));
    RunMore(es, RepeatFired(k, ok));
  }

  function Setups(es: seq<Event>): seq<bool> {
    if es == [] then [] else
      Setups(es[..|es| - 1]) + if es[|es| - 1].Setup? then [es[|es| - 1].created] else []
  }

  function Settings(es: seq<Event>): Config {
    if es == [] then Config(LinkLocal, 1, 100, None)
    else if es[|es| - 1].Configure? then es[|es| - 1].config
    else Settings(es[..|es| - 1])
  }

  function Receptions(es: seq<Event>): nat {
    if es == [] then 0 else Receptions(es[..|es| - 1]) + if es[|es| - 1].Receive? then 1 else 0
  }

  /** There is a socket exactly if the last setup made one; packets_received counts every datagram, accepted or not; the
      settings are the last ones made, or link-local, one send, 100 ms apart and no key. */
  lemma {:induction false} SocketAndCount(es: seq<Event>)
    ensures Run(es).sender.ready <==> Setups(es) != [] && Setups(es)[|Setups(es)| - 1]
    ensures Run(es).received == Receptions(es) % TWO32
    ensures Run(es).config == Settings(es)
    decreases |es|
  {
    hide Step;
    if es != [] {
      var front, e := es[..|es| - 1], es[|es| - 1];
      SocketAndCount(front);
      SocketAndCountStep(Run(front), e);
    }
  }

  lemma SocketAndCountStep(n: State, e: Event)
    ensures Step(n, e).sender.ready == if e.Setup? then e.created else n.sender.ready
    ensures Step(n, e).received == if e.Receive? then (n.received + 1) % TWO32 else n.received
    ensures Step(n, e).config == if e.Configure? then e.config else n.config
  {
    hide GroupOf, W.DecodePacketSpec, Delivered, DatagramFor, Register, TypedPayload;
    if e.Publish? || e.PublishDynamic? {
      PublishKeepsReady(n, e);
    }
  }

  lemma PublishKeepsReady(n: State, e: Event)
    requires e.Publish? || e.PublishDynamic?
    ensures Step(n, e).sender.ready == n.sender.ready && Step(n, e).received == n.received
    ensures Step(n, e).config == n.config
  {
    hide GroupOf, DatagramFor, TypedPayload;
  }

  // ----- From one node to another

  lemma PublicationsGrow(s: R.Sender, e: R.Event)
    ensures R.Step(s, e).publications == s.publications
         || (e.Published? && R.Step(s, e).publications == s.publications + [e.publication])
  {
    hide R.Publish;
    match e
    case Published(p) => if s.ready { R.PublishJobTable(s, p); }
    case _ =>
  }

  /** Event j of a run made this publication, with the settings in force then. */
  ghost predicate MadeBy(es: seq<Event>, j: nat, p: R.Publication) {
    && j < |es| && MessageOf(es[j]).Some?
    && Publishable(Run(es[..j]), MessageOf(es[j]).value.payload)
    && p == PublicationOf(Run(es[..j]).config, MessageOf(es[j]).value)
  }

  lemma MadeByMore(es: seq<Event>, e: Event, j: nat, p: R.Publication)
    requires MadeBy(es, j, p)
    ensures MadeBy(es + [e], j, p)
  {
    hide Run, MessageOf, PublicationOf, Publishable;
    assert (es + [e])[..j] == es[..j];
  }

  lemma LastMade(es: seq<Event>, e: Event)
    requires SenderEvents(Run(es), e) != [] && SenderEvents(Run(es), e)[0].Published?
    ensures MadeBy(es + [e], |es|, SenderEvents(Run(es), e)[0].publication)
  {
    hide Run, PublicationOf;
    assert (es + [e])[..|es|] == es;
  }

  ghost predicate Made(es: seq<Event>, p: R.Publication) {
    exists j :: MadeBy(es, j, p)
  }

  /** Every publication was made by a call in the run. */
  ghost predicate Traced(es: seq<Event>, ps: seq<R.Publication>) {
    forall i :: 0 <= i < |ps| ==> Made(es, ps[i])
  }

  lemma StepTraced(es: seq<Event>, e: Event)
    requires Traced(es, Run(es).sender.publications)
    ensures Traced(es + [e], Run(es + [e]).sender.publications)
  {
    hide MadeBy, Run, Step, R.Step, SenderEvents;
    RunMore(es, e);
    var made := SenderEvents(Run(es), e);
    var before, after := Run(es).sender.publications, Run(es + [e]).sender.publications;
    SenderStep(Run(es), e);
    if made != [] {
      PublicationsGrow(Run(es).sender, made[0]);
    }
    forall i | 0 <= i < |after| ensures Made(es + [e], after[i]) {
      if i < |before| {
        var j :| MadeBy(es, j, before[i]);
        MadeByMore(es, e, j, before[i]);
        assert after[i] == before[i];
      } else {
        LastMade(es, e);
        assert after[i] == made[0].publication;
      }
    }
  }

  lemma {:induction false} RunTraced(es: seq<Event>)
    ensures Traced(es, Run(es).sender.publications)
    decreases |es|
  {
    if es == [] {
      assert Run(es) == INITIAL;
    } else {
      hide Traced;
      RunTraced(es[..|es| - 1]);
      StepTraced(es[..|es| - 1], es[|es| - 1]);
      assert es == es[..|es| - 1] + [es[|es| - 1]];
    }
  }

  /** Any datagram a node ever sends, first or again, was published by a call j of its run: it goes to the group of
      that call's topic, is deliverable, and whenever it is received by a node with the key in force at the call (any
      node, if there was none) it makes exactly the calls requested there for the topics with its CRC, with the payload
      of the call. */
  lemma SentReaches(a: seq<Event>, k: nat, b: seq<Event>) returns (j: nat)
    requires k < |Run(a).sender.attempts|
    ensures j < |a| && MessageOf(a[j]).Some?
    ensures var config, m, sent := Run(a[..j]).config, MessageOf(a[j]).value, Run(a).sender.attempts[k];
            && |sent.datagram| <= W.MAX_DATAGRAM && sent.group == GroupOf(m.topic, config.scope)
            && ((config.key.Some? ==> Run(b).config.key == config.key) ==>
                  CallsMade(b, sent.datagram)
                  == ExpectedOf(RequestedTopics(Requests(b)), Requests(b), Crc32.Checksum(m.topic), m.encoding,
                                m.payload, config.key.Some?))
  {
    hide Run, R.Run, SenderRun, W.DecodePacketSpec, CallsMade, ExpectedOf, RequestedTopics, GroupOf, Crc32.Checksum;
    NodeSends(a);
    Accounting.RunUnchanged(SenderRun(a));
    RunTraced(a);
    var s := Run(a).sender;
    j :| MadeBy(a, j, s.publications[s.attempts[k].origin]);
    var config, m := Run(a[..j]).config, MessageOf(a[j]).value;
    DatagramReads(config, m.topic, m.payload, m.encoding, config.key);
    if config.key.Some? ==> Run(b).config.key == config.key {
      PublishedReaches(config, m.topic, m.payload, m.encoding, b);
    }
  }
}
