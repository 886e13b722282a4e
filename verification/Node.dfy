/** A node of the publish/subscribe network: the class of components/mpubsub/multicast_pubsub.cpp (socket branch),
    each method proved against what it does to the node's abstract state. sendto's verdict is a parameter. */
module Node {
  import opened Octets
  import opened Outcomes
  import opened TopicHash
  import opened Subscriptions
  import R = Retransmits
  import W = WireFormat
  import PacketCodec
  import Crc32
  import Xxtea

  type Encoding = e: byte | e == W.ENCODING_RAW || e == W.ENCODING_PROTO

  /** The settings; key is the encryption key while encryption is enabled. */
  datatype Config = Config(scope: Scope, count: R.i16, delay: u32, key: Option<W.Key>)

  datatype State = State(config: Config, subs: seq<Subscription>, received: u32, calls: seq<Call>, sender: R.Sender)

  const INITIAL: State := State(Config(LinkLocal, 1, 100, None), [], 0, [], R.IDLE)

  /** The largest payload that publish takes. */
  function Cap(config: Config): nat {
    if config.key.Some? then W.MAX_PAYLOAD - 4 else W.MAX_PAYLOAD
  }

  function DatagramFor(config: Config, topic: Topic, payload: seq<byte>, encoding: Encoding): seq<byte> {
    W.Datagram(Crc32.Checksum(topic), encoding, payload, config.key)
  }

  /** Whether publish gets as far as sending. */
  predicate Publishable(n: State, payload: seq<byte>) {
    n.sender.ready && |payload| <= Cap(n.config)
  }

  function PublicationFor(config: Config, topic: Topic, payload: seq<byte>, encoding: Encoding, ok: bool):
    R.Publication
  {
    R.Publication(topic, DatagramFor(config, topic, payload, encoding), GroupOf(topic, config.scope),
                  config.count, config.delay, ok)
  }

  /** publish. */
  function Published(n: State, topic: Topic, payload: seq<byte>, encoding: Encoding, ok: bool): State {
    if Publishable(n, payload) then
      n.(sender := R.Publish(n.sender, PublicationFor(n.config, topic, payload, encoding, ok)))
    else n
  }

  /** publish_dynamic: the SCHEMA_ID and then the body, as a PROTOBUF payload. */
  function TypedPayload(schemaId: u16, body: seq<byte>): seq<byte> {
    Le16(schemaId) + body
  }

  function PublishedDynamic(n: State, topic: Topic, schemaId: u16, body: seq<byte>, ok: bool): State {
    if |body| + 2 > W.MAX_PAYLOAD then n
    else Published(n, topic, TypedPayload(schemaId, body), W.ENCODING_PROTO, ok)
  }

  /** on_packet_: count the datagram; if it decodes, dispatch it. Ciphertext longer than the work buffer is dropped. */
  function Received(n: State, raw: seq<byte>): State {
    var counted := n.(received := (n.received + 1) % TWO32);
    match W.DecodePacketSpec(raw, n.config.key)
    case Err(_) => counted
    case Ok(p) =>
      if p.wasEncrypted && |raw| > W.HEADER_LEN + W.MAX_DATAGRAM then counted
      else counted.(calls := n.calls + Delivered(n.subs, p.topicCrc, p.encoding, p.payload, p.wasEncrypted))
  }

  function Subscribed(n: State, r: Request): State {
    n.(subs := Register(n.subs, r, GroupOf(r.topic, n.config.scope)))
  }

  lemma FindFirst(subs: seq<Subscription>, topic: Topic, i: nat)
    requires i <= |subs| && forall j :: 0 <= j < i ==> subs[j].topic != topic
    requires i < |subs| ==> subs[i].topic == topic
    ensures Find(subs, topic) == if i < |subs| then Some(i) else None
  {
    if i > 0 {
      FindFirst(subs[1..], topic, i - 1);
    }
  }

  lemma RawCallsMore(topic: Topic, callbacks: seq<nat>, j: nat, body: seq<byte>)
    requires j < |callbacks|
    ensures RawCalls(topic, callbacks[..j + 1], body)
        == RawCalls(topic, callbacks[..j], body) + [Call(topic, callbacks[j], body)]
  {}

  lemma MatchingMore(callbacks: seq<TypedCallback>, j: nat, schemaId: u16, topic: Topic, body: seq<byte>)
    requires j < |callbacks|
    ensures RawCalls(topic, Matching(callbacks[..j + 1], schemaId), body)
         == RawCalls(topic, Matching(callbacks[..j], schemaId), body)
            + if callbacks[j].schemaId == schemaId then [Call(topic, callbacks[j].callback, body)] else []
  {
    assert callbacks[..j + 1][..j] == callbacks[..j];
  }

  class MulticastPubSub {
    var scope: Scope
    var retransmitCount: R.i16
    var retransmitDelay: u32
    var encryptionEnabled: bool
    const encryptionKey: array<byte>
    var socketReady: bool
    var subscriptions: seq<Subscription>
    var packetsSent: u32
    var packetsReceived: u32
    var indefiniteJobs: map<Topic, R.Chain>
    /** The scheduler's pending timeouts with an id, and those without. */
    var namedTimers: map<u32, R.Timer>
    var repeatTimers: seq<R.Repeat>
    /** The record: publishes that reached the socket, sends, and callback invocations. */
    var publications: seq<R.Publication>
    var attempts: seq<R.Attempt>
    var calls: seq<Call>

    ghost predicate Valid() {
      encryptionKey.Length == 32
    }

    ghost function Settings(): Config
      reads this, encryptionKey
      requires Valid()
    {
      Config(scope, retransmitCount, retransmitDelay, if encryptionEnabled then Some(encryptionKey[..]) else None)
    }

    ghost function Sending(): R.Sender
      reads this
    {
      R.Sender(socketReady, packetsSent, indefiniteJobs, namedTimers, repeatTimers, publications, attempts)
    }

    ghost function Abstract(): State
      reads this, encryptionKey
      requires Valid()
    {
      State(Settings(), subscriptions, packetsReceived, calls, Sending())
    }

    constructor ()
      ensures Valid() && Abstract() == INITIAL && fresh(encryptionKey)
    {
      scope, retransmitCount, retransmitDelay, encryptionEnabled := LinkLocal, 1, 100, false;
      encryptionKey := new byte[32](_ => 0);
      socketReady, subscriptions, packetsSent, packetsReceived := false, [], 0, 0;
      indefiniteJobs, namedTimers, repeatTimers := map[], map[], [];
      publications, attempts, calls := [], [], [];
    }

    // ----- Settings

    method SetScope(newScope: Scope)
      requires Valid()
      modifies this
      ensures Abstract() == old(Abstract()).(config := old(Settings()).(scope := newScope))
    {
      scope := newScope;
    }

    method SetRetransmit(count: R.i16, delay: u32)
      requires Valid()
      modifies this
      ensures Abstract() == old(Abstract()).(config := old(Settings()).(count := count, delay := delay))
    {
      retransmitCount, retransmitDelay := count, delay;
    }

    /** set_encryption_key: 32 bytes enable encryption, any other length disables it. */
    method SetEncryptionKey(key: seq<byte>)
      requires Valid()
      modifies this, encryptionKey
      ensures Abstract() == old(Abstract()).(config := old(Settings()).(key := if |key| == 32 then Some(key) else None))
    {
      encryptionEnabled := |key| == 32;
      if encryptionEnabled {
        for i := 0 to 32
          invariant encryptionEnabled && Abstract() == old(Abstract()).(config := Settings())
          invariant Settings() == old(Settings()).(key := Some(encryptionKey[..]))
          invariant encryptionKey[..i] == key[..i]
        {
          encryptionKey[i] := key[i];
        }
        assert encryptionKey[..] == key;
      }
    }

    /** setup as far as it matters here: whether there is a socket. */
    method Setup(created: bool)
      requires Valid()
      modifies this
      ensures Abstract() == old(Abstract()).(sender := R.Step(old(Sending()), R.Setup(created)))
    {
      socketReady := created;
    }

    // ----- Subscriptions

    method FindSubscription(topic: Topic) returns (r: Option<nat>)
      ensures r == Find(subscriptions, topic)
    {
      hide Find;
      for i := 0 to |subscriptions|
        invariant forall j :: 0 <= j < i ==> subscriptions[j].topic != topic
      {
        if subscriptions[i].topic == topic {
          FindFirst(subscriptions, topic, i);
          return Some(i);
        }
      }
      FindFirst(subscriptions, topic, |subscriptions|);
      return None;
    }

    method FindOrCreateSubscription(topic: Topic, requireEncryption: bool) returns (i: nat)
      requires Valid()
      modifies this
      ensures (subscriptions, i) == FindOrCreate(old(subscriptions), topic, GroupOf(topic, old(scope)),
          requireEncryption)
      ensures Abstract() == old(Abstract()).(subs := subscriptions)
    {
      hide Find, GroupOf, Crc32.Crc;
      var found := FindSubscription(topic);
      if found.Some? {
        i := found.value;
        if requireEncryption {
          subscriptions := subscriptions[i := subscriptions[i].(requireEncryption := true)];
        }
        return;
      }
      var group := TopicToGroup(topic, scope);
      var crc := Crc32.TopicCrc32(topic);
      i := |subscriptions|;
      subscriptions := subscriptions + [Subscription(topic, crc as int, group[..], [], [], requireEncryption)];
    }

    method Subscribe(topic: Topic, callback: nat, requireEncryption: bool)
      requires Valid()
      modifies this
      ensures Abstract() == Subscribed(old(Abstract()), Raw(topic, callback, requireEncryption))
    {
      hide GroupOf, FindOrCreate;
      var i := FindOrCreateSubscription(topic, requireEncryption);
      var raw := subscriptions[i].rawCallbacks + [callback];
      subscriptions := subscriptions[i := subscriptions[i].(rawCallbacks := raw)];
    }

    method SubscribeTyped(topic: Topic, schemaId: u16, callback: nat, requireEncryption: bool)
      requires Valid()
      modifies this
      ensures Abstract() == Subscribed(old(Abstract()), Typed(topic, schemaId, callback, requireEncryption))
    {
      hide GroupOf, FindOrCreate;
      var i := FindOrCreateSubscription(topic, requireEncryption);
      var typed := subscriptions[i].typedCallbacks + [TypedCallback(schemaId, callback)];
      subscriptions := subscriptions[i := subscriptions[i].(typedCallbacks := typed)];
    }

    // ----- Sending

    method SendDatagram(datagram: seq<byte>, group: GroupAddr, origin: nat, cause: R.Cause, ok: bool)
      returns (sent: bool)
      requires Valid()
      modifies this
      ensures sent == (old(socketReady) && ok)
      ensures Abstract() == old(Abstract()).(sender := R.Send(old(Sending()), datagram, group, origin, cause, ok))
    {
      sent := socketReady && ok;
      attempts := attempts + [R.Attempt(datagram, group, origin, cause, sent)];
      if sent {
        packetsSent := (packetsSent + 1) % TWO32;
      }
    }

    method CancelIndefiniteRetransmit(topic: Topic)
      requires Valid()
      modifies this
      ensures Abstract() == old(Abstract()).(sender := R.Cancel(old(Sending()), topic))
    {
      hide Crc32.Crc;
      if topic in indefiniteJobs {
        var id := Crc32.TopicCrc32(topic);
        namedTimers := namedTimers - {id as int};
        indefiniteJobs := indefiniteJobs - {topic};
      }
    }

    method ScheduleRetransmits(topic: Topic, datagram: seq<byte>, group: GroupAddr, ghost p: R.Publication, origin: nat)
      requires Valid()
      requires p == R.Publication(topic, datagram, group, retransmitCount, retransmitDelay, p.sent)
      modifies this
      ensures Abstract() == old(Abstract()).(sender := R.Schedule(old(Sending()), p, origin))
    {
      hide Crc32.Crc, R.Cancel, R.RepeatsOf;
      CancelIndefiniteRetransmit(topic);
      if retransmitCount == -1 {
        var id := Crc32.TopicCrc32(topic);
        var chain := R.Chain(topic, datagram, group, retransmitDelay, id as int, origin);
        indefiniteJobs := indefiniteJobs[topic := chain];
        namedTimers := namedTimers[id as int := R.Timer(retransmitDelay, chain)];
        return;
      }
      AddRepeats(datagram, group, p, origin);
    }

    /** The loop of schedule_retransmits_. */
    method AddRepeats(datagram: seq<byte>, group: GroupAddr, ghost p: R.Publication, origin: nat)
      requires Valid() && p.datagram == datagram && p.group == group
      requires p.count == retransmitCount && p.delay == retransmitDelay
      modifies this
      ensures Abstract() == old(Abstract()).(
                sender := old(Sending()).(repeats := old(repeatTimers) + R.RepeatsOf(p, origin)))
    {
      var i: R.i16 := 1;
      ghost var all, before := R.RepeatsOf(p, origin), repeatTimers;
      while i < retransmitCount
        invariant Abstract() == old(Abstract()).(sender := old(Sending()).(repeats := repeatTimers))
        invariant 1 <= i && (i == 1 || i <= retransmitCount)
        invariant repeatTimers == before + all[..i - 1]
      {
        repeatTimers := repeatTimers + [R.Repeat(retransmitDelay * i % TWO32, datagram, group, origin)];
        i := i + 1;
      }
      assert all[..|all|] == all;
    }

    /** The buffer that publish fills: header and body, encrypted in place if encryption is on. */
    method BuildDatagram(crc: u32, encoding: Encoding, payload: seq<byte>) returns (datagram: seq<byte>)
      requires Valid() && |payload| <= Cap(Settings())
      ensures datagram == W.Datagram(crc, encoding, payload, Settings().key)
    {
      hide W.Header, W.Encipher, W.PlainBlock;
      if encryptionEnabled {
        var body := PacketCodec.Seal(crc, payload, W.CiphertextLen(|payload|), encryptionKey[..]);
        var buf := new byte[W.HEADER_LEN + |body|](_ => 0);
        PacketCodec.EncodeHeader(crc, encoding, |payload|, buf, W.ENC_MODE_XXTEA);
        PacketCodec.PutBytes(buf, W.HEADER_LEN, body);
        datagram := buf[..];
      } else {
        var buf := new byte[W.HEADER_LEN + |payload|](_ => 0);
        PacketCodec.EncodeHeader(crc, encoding, |payload|, buf, W.ENC_MODE_NONE);
        PacketCodec.PutBytes(buf, W.HEADER_LEN, payload);
        datagram := buf[..];
      }
    }

    method Publish(topic: Topic, payload: seq<byte>, encoding: Encoding, ok: bool) returns (done: bool)
      requires Valid()
      modifies this
      ensures done == (Publishable(old(Abstract()), payload) && ok)
      ensures Abstract() == Published(old(Abstract()), topic, payload, encoding, ok)
    {
      hide W.Datagram, GroupOf, R.Schedule, Crc32.Crc;
      if !socketReady {
        return false;
      }
      var max := if encryptionEnabled then W.MAX_PAYLOAD - 4 else W.MAX_PAYLOAD;
      if |payload| > max {
        return false;
      }
      var crc := Crc32.TopicCrc32(topic);
      var group := TopicToGroup(topic, scope);
      var datagram := BuildDatagram(crc as int, encoding, payload);
      var origin := |publications|;
      done := SendDatagram(datagram, group[..], origin, R.First, ok);
      var p := R.Publication(topic, datagram, group[..], retransmitCount, retransmitDelay, done);
      publications := publications + [p];
      assert p == PublicationFor(Settings(), topic, payload, encoding, ok);
      if done {
        ScheduleRetransmits(topic, datagram, group[..], p, origin);
      }
    }

    method PublishDynamic(topic: Topic, schemaId: u16, body: seq<byte>, ok: bool) returns (done: bool)
      requires Valid()
      modifies this
      ensures Abstract() == PublishedDynamic(old(Abstract()), topic, schemaId, body, ok)
      ensures done == (|body| + 2 <= W.MAX_PAYLOAD && Publishable(old(Abstract()), TypedPayload(schemaId, body)) && ok)
    {
      hide Published;
      if |body| + 2 > W.MAX_PAYLOAD {
        return false;
      }
      done := Publish(topic, Le16(schemaId) + body, W.ENCODING_PROTO, ok);
    }

    // ----- Timers

    /** The scheduler runs the timeout with this id: the closure of an indefinite chain. */
    method FireNamed(id: u32, ok: bool)
      requires Valid()
      modifies this
      ensures Abstract() == old(Abstract()).(sender := R.Step(old(Sending()), R.NamedFired(id, ok)))
    {
      hide R.Send;
      if id !in namedTimers {
        return;
      }
      var chain := namedTimers[id].chain;
      namedTimers := namedTimers - {id};
      var _ := SendDatagram(chain.datagram, chain.group, chain.origin, R.Chained, ok);
      if chain.topic in indefiniteJobs {
        namedTimers := namedTimers[chain.id := R.Timer(chain.delay, indefiniteJobs[chain.topic])];
      }
    }

    /** The scheduler runs one of the timeouts without an id. */
    method FireRepeat(k: nat, ok: bool)
      requires Valid()
      modifies this
      ensures Abstract() == old(Abstract()).(sender := R.Step(old(Sending()), R.RepeatFired(k, ok)))
    {
      hide R.Send;
      if k >= |repeatTimers| {
        return;
      }
      var t := repeatTimers[k];
      repeatTimers := repeatTimers[..k] + repeatTimers[k + 1..];
      var _ := SendDatagram(t.datagram, t.group, t.origin, R.Repeated, ok);
    }

    // ----- Receiving

    method OnPacket(raw: seq<byte>)
      requires Valid()
      modifies this
      ensures Abstract() == Received(old(Abstract()), raw)
    {
      hide FromLe32, FromLe16, Xxtea.Decrypted, BytesLE, WordsLE, Delivered;
      packetsReceived := (packetsReceived + 1) % TWO32;
      var decoded := PacketCodec.Decode(raw);
      if decoded.Err? {
        return;
      }
      var f := decoded.value;
      if f.encMode == W.ENC_MODE_XXTEA {
        if !encryptionEnabled {
          return;
        }
        if |f.payload| > W.MAX_DATAGRAM {
          return;
        }
        var words := PacketCodec.BytesToWordsLE(f.payload);
        var keyWords := PacketCodec.BytesToWordsLE(encryptionKey[..]);
        Xxtea.Decrypt(words, keyWords[..]);
        var work := PacketCodec.WordsToBytesLE(words);
        Deliver(FromLe32(work[0..4]), f.encoding, work[4..4 + f.plaintextLen], true);
        return;
      }
      Deliver(f.topicCrc, f.encoding, f.payload, false);
    }

    method Deliver(crc: u32, encoding: byte, payload: seq<byte>, wasEncrypted: bool)
      requires Valid()
      modifies this
      ensures Abstract() == old(Abstract()).(
                calls := old(calls) + Delivered(subscriptions, crc, encoding, payload, wasEncrypted))
    {
      hide CallsOf;
      for i := 0 to |subscriptions|
        invariant Abstract() == old(Abstract()).(calls := calls)
        invariant calls == old(calls) + Delivered(subscriptions[..i], crc, encoding, payload, wasEncrypted)
      {
        assert subscriptions[..i + 1][..i] == subscriptions[..i];
        if subscriptions[i].crc == crc {
          DeliverTo(subscriptions[i], encoding, payload, wasEncrypted);
        }
      }
      assert subscriptions[..|subscriptions|] == subscriptions;
    }

    /** The body of deliver_'s loop. */
    method DeliverTo(sub: Subscription, encoding: byte, payload: seq<byte>, wasEncrypted: bool)
      requires Valid()
      modifies this
      ensures Abstract() == old(Abstract()).(calls := old(calls) + CallsOf(sub, encoding, payload, wasEncrypted))
    {
      hide RawCalls, Matching;
      ghost var before := calls;
      assert calls + [] == calls;
      if sub.requireEncryption && !wasEncrypted {
        return;
      }
      if encoding == W.ENCODING_RAW {
        NoCalls(sub.topic, payload, 0);
        for j := 0 to |sub.rawCallbacks|
          invariant Abstract() == old(Abstract()).(calls := calls)
          invariant calls == before + RawCalls(sub.topic, sub.rawCallbacks[..j], payload)
        {
          calls := calls + [Call(sub.topic, sub.rawCallbacks[j], payload)];
          RawCallsMore(sub.topic, sub.rawCallbacks, j, payload);
        }
        assert sub.rawCallbacks[..|sub.rawCallbacks|] == sub.rawCallbacks;
      } else if encoding == W.ENCODING_PROTO {
        if |payload| < 2 {
          return;
        }
        var schemaId, body := FromLe16(payload[..2]), payload[2..];
        NoCalls(sub.topic, body, schemaId);
        for j := 0 to |sub.typedCallbacks|
          invariant Abstract() == old(Abstract()).(calls := calls)
          invariant calls == before + RawCalls(sub.topic, Matching(sub.typedCallbacks[..j], schemaId), body)
        {
          if sub.typedCallbacks[j].schemaId == schemaId {
            calls := calls + [Call(sub.topic, sub.typedCallbacks[j].callback, body)];
          }
          MatchingMore(sub.typedCallbacks, j, schemaId, sub.topic, body);
        }
        assert sub.typedCallbacks[..|sub.typedCallbacks|] == sub.typedCallbacks;
      }
    }
  }

  lemma NoCalls(topic: Topic, body: seq<byte>, schemaId: u16)
    ensures RawCalls(topic, [], body) == [] && Matching([], schemaId) == []
  {}
}
