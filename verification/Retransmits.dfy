/** Sending and resending in components/mpubsub/multicast_pubsub.cpp: the first send, finite repeats, and indefinite
    chains, with the scheduler's pending timers. A timeout set with an id replaces the pending one with that id;
    timeouts without an id are independent. When a timer fires is not modelled, only that it may. */
module Retransmits {
  import opened Octets
  import opened Outcomes
  import opened TopicHash
  import Crc32

  type i16 = x: int | -0x8000 <= x < 0x8000

  /** The self-rescheduling closure of an indefinite publish and what it captures. origin names the publish call. */
  datatype Chain = Chain(topic: Topic, datagram: seq<byte>, group: GroupAddr, delay: u32, id: u32, origin: nat)

  /** A pending timeout with an id. */
  datatype Timer = Timer(delay: u32, chain: Chain)

  /** A pending timeout without an id: one repeat of a finite publish. */
  datatype Repeat = Repeat(delay: u32, datagram: seq<byte>, group: GroupAddr, origin: nat)

  datatype Cause = First | Repeated | Chained

  /** One call of send_datagram_. */
  datatype Attempt = Attempt(datagram: seq<byte>, group: GroupAddr, origin: nat, cause: Cause, sent: bool)

  /** One call of publish that got as far as sending; the retransmit settings at that time. */
  datatype Publication = Publication(
    topic: Topic, datagram: seq<byte>, group: GroupAddr, count: i16, delay: u32, sent: bool)

  /** The sending half of a node, and the record of what it did. */
  datatype Sender = Sender(
    ready: bool, packetsSent: u32, jobs: map<Topic, Chain>, named: map<u32, Timer>, repeats: seq<Repeat>,
    publications: seq<Publication>, attempts: seq<Attempt>)

  const IDLE: Sender := Sender(false, 0, map[], map[], [], [], [])

  // ----- Steps

  /** send_datagram_; ok is the verdict of sendto. */
  function Send(s: Sender, datagram: seq<byte>, group: GroupAddr, origin: nat, cause: Cause, ok: bool): Sender {
    var sent := s.ready && ok;
    s.(packetsSent := if sent then (s.packetsSent + 1) % TWO32 else s.packetsSent,
       attempts := s.attempts + [Attempt(datagram, group, origin, cause, sent)])
  }

  /** cancel_indefinite_retransmit_. */
  function Cancel(s: Sender, topic: Topic): Sender {
    if topic in s.jobs then s.(jobs := s.jobs - {topic}, named := s.named - {Crc32.Checksum(topic)}) else s
  }

  function ChainOf(p: Publication, origin: nat): Chain {
    Chain(p.topic, p.datagram, p.group, p.delay, Crc32.Checksum(p.topic), origin)
  }

  /** The timeouts of a finite publish: i times the delay for i from 1 to count-1, in 32-bit arithmetic. */
  function RepeatsOf(p: Publication, origin: nat): (rs: seq<Repeat>)
    ensures |rs| == if p.count > 1 then p.count - 1 else 0
  {
    seq(if p.count > 1 then p.count - 1 else 0,
        i requires 0 <= i => Repeat(p.delay * (i + 1) % TWO32, p.datagram, p.group, origin))
  }

  /** schedule_retransmits_. */
  function Schedule(s: Sender, p: Publication, origin: nat): Sender {
    var c := Cancel(s, p.topic);
    if p.count == -1 then
      var chain := ChainOf(p, origin);
      c.(jobs := c.jobs[p.topic := chain], named := c.named[chain.id := Timer(p.delay, chain)])
    else c.(repeats := c.repeats + RepeatsOf(p, origin))
  }

  /** The sending part of publish: the first send and, only if it succeeds, the retransmits. */
  function Publish(s: Sender, p: Publication): Sender {
    var origin := |s.publications|;
    var r := Send(s, p.datagram, p.group, origin, First, p.sent);
    var done := r.(publications := s.publications + [p.(sent := s.ready && p.sent)]);
    if s.ready && p.sent then Schedule(done, p, origin) else done
  }

  /** The timeout with this id fires: send, then set it again with the topic's current job, if there is one. */
  function FireNamed(s: Sender, id: u32, ok: bool): Sender {
    if id !in s.named then s
    else
      var c := s.named[id].chain;
      var r := Send(s.(named := s.named - {id}), c.datagram, c.group, c.origin, Chained, ok);
      if c.topic in r.jobs then r.(named := r.named[c.id := Timer(c.delay, r.jobs[c.topic])]) else r
  }

  /** One pending repeat fires. */
  function FireRepeat(s: Sender, k: nat, ok: bool): Sender {
    if k >= |s.repeats| then s
    else
      var t := s.repeats[k];
      Send(s.(repeats := s.repeats[..k] + s.repeats[k + 1..]), t.datagram, t.group, t.origin, Repeated, ok)
  }

  datatype Event =
    | Setup(created: bool)
    | Published(publication: Publication)
    | NamedFired(id: u32, ok: bool)
    | RepeatFired(k: nat, ok: bool)

  function Step(s: Sender, e: Event): Sender {
    match e
    case Setup(created) => s.(ready := created)
    case Published(p) => if s.ready then Publish(s, p) else s
    case NamedFired(id, ok) => FireNamed(s, id, ok)
    case RepeatFired(k, ok) => FireRepeat(s, k, ok)
  }

  function Run(es: seq<Event>): Sender {
    if es == [] then IDLE else Step(Run(es[..|es| - 1]), es[|es| - 1])
  }

  // ----- What each event does, seen from outside

  lemma RunMore(es: seq<Event>, e: Event)
    ensures Run(es + [e]) == Step(Run(es), e)
  {
    hide Step;
    assert (es + [e])[..|es|] == es;
  }

  /** A pending chain timer that fires sends the chain's datagram once more, and the counter counts it if it got out;
      an id that is not pending does nothing. */
  lemma FiringSends(es: seq<Event>, id: u32, ok: bool)
    ensures var s, t := Run(es), Run(es + [NamedFired(id, ok)]);
            if id in s.named then
              var c := s.named[id].chain;
              && t.attempts == s.attempts + [Attempt(c.datagram, c.group, c.origin, Chained, s.ready && ok)]
              && t.packetsSent == (if s.ready && ok then (s.packetsSent + 1) % TWO32 else s.packetsSent)
            else t == s
  {
    hide Run;
    RunMore(es, NamedFired(id, ok));
  }

  /** So does a pending repeat, which is then no longer pending. */
  lemma RepeatSends(es: seq<Event>, k: nat, ok: bool)
    ensures var s, t := Run(es), Run(es + [RepeatFired(k, ok)]);
            if k < |s.repeats| then
              var r := s.repeats[k];
              && t.attempts == s.attempts + [Attempt(r.datagram, r.group, r.origin, Repeated, s.ready && ok)]
              && t.packetsSent == (if s.ready && ok then (s.packetsSent + 1) % TWO32 else s.packetsSent)
              && t.repeats == s.repeats[..k] + s.repeats[k + 1..]
            else t == s
  {
    hide Run;
    RunMore(es, RepeatFired(k, ok));
  }

  /** With a socket a publish sends its datagram at once. Only if that succeeds it goes on: with count n above 1 it
      sets n-1 timeouts of 1, 2, ..., n-1 times the delay for the same datagram, with count -1 it sets the topic's. */
  lemma PublishSends(es: seq<Event>, p: Publication)
    ensures var s, t := Run(es), Run(es + [Published(p)]);
            if s.ready then
              && t.publications == s.publications + [p]
              && t.attempts == s.attempts + [Attempt(p.datagram, p.group, |s.publications|, First, p.sent)]
              && t.packetsSent == (if p.sent then (s.packetsSent + 1) % TWO32 else s.packetsSent)
              && |t.repeats| == |s.repeats| + (if p.sent && p.count > 1 then p.count - 1 else 0)
              && t.repeats[..|s.repeats|] == s.repeats
              && (forall i :: |s.repeats| <= i < |t.repeats| ==>
                    t.repeats[i] == Repeat(p.delay * (i - |s.repeats| + 1) % TWO32, p.datagram, p.group,
                                           |s.publications|))
              && (p.sent && p.count == -1 ==>
                    Crc32.Checksum(p.topic) in t.named
                    && t.named[Crc32.Checksum(p.topic)] ==
                         Timer(p.delay, Chain(p.topic, p.datagram, p.group, p.delay, Crc32.Checksum(p.topic),
                                              |s.publications|)))
            else t == s
  {
    hide Run, Crc32.Checksum;
    RunMore(es, Published(p));
    assert p.(sent := true && p.sent) == p;
  }

  /** Whether there is a socket, by the last setup. */
  function HasSocket(es: seq<Event>): bool {
    if es == [] then false
    else if es[|es| - 1].Setup? then es[|es| - 1].created
    else HasSocket(es[..|es| - 1])
  }

  lemma {:induction false} ReadyIsLastSetup(es: seq<Event>)
    ensures Run(es).ready == HasSocket(es)
    decreases |es|
  {
    hide Crc32.Checksum, RepeatsOf;
    if es != [] {
      ReadyIsLastSetup(es[..|es| - 1]);
    }
  }

  // ----- Jobs follow the latest successful publish

  /** The latest publication of a topic whose first send succeeded. */
  function Latest(ps: seq<Publication>, topic: Topic): (r: Option<nat>)
    ensures r.Some? ==> r.value < |ps| && ps[r.value].topic == topic && ps[r.value].sent
    ensures r.Some? ==> forall i :: r.value < i < |ps| ==> !(ps[i].topic == topic && ps[i].sent)
    ensures r.None? ==> forall i :: 0 <= i < |ps| ==> !(ps[i].topic == topic && ps[i].sent)
  {
    if ps == [] then None
    else if ps[|ps| - 1].topic == topic && ps[|ps| - 1].sent then Some(|ps| - 1)
    else Latest(ps[..|ps| - 1], topic)
  }

  predicate Indefinite(ps: seq<Publication>, topic: Topic) {
    Latest(ps, topic).Some? && ps[Latest(ps, topic).value].count == -1
  }

  /** The job table: one job for exactly the topics last published successfully with count -1, holding that
      publication's datagram, group and delay. */
  ghost predicate JobsCurrent(s: Sender) {
    && (forall t :: t in s.jobs <==> Indefinite(s.publications, t))
    && (forall t :: t in s.jobs ==>
        s.jobs[t] == ChainOf(s.publications[Latest(s.publications, t).value], Latest(s.publications, t).value))
  }

  lemma LatestMore(ps: seq<Publication>, p: Publication, t: Topic)
    ensures Latest(ps + [p], t) == if p.sent && p.topic == t then Some(|ps|) else Latest(ps, t)
  {
    assert (ps + [p])[..|ps|] == ps;
  }

  lemma IndefiniteMore(ps: seq<Publication>, p: Publication, t: Topic)
    ensures Indefinite(ps + [p], t) <==> if p.sent && p.topic == t then p.count == -1 else Indefinite(ps, t)
    ensures Indefinite(ps + [p], t) && Indefinite(ps, t) && !(p.sent && p.topic == t) ==>
              Latest(ps + [p], t) == Latest(ps, t) && (ps + [p])[Latest(ps, t).value] == ps[Latest(ps, t).value]
  {
    hide Latest;
    LatestMore(ps, p, t);
  }

  /** What publish does to the jobs. */
  lemma PublishJobTable(s: Sender, p: Publication)
    requires s.ready
    ensures Publish(s, p).publications == s.publications + [p]
    ensures Publish(s, p).jobs ==
              if !p.sent then s.jobs
              else if p.count == -1 then s.jobs[p.topic := ChainOf(p, |s.publications|)]
              else s.jobs - {p.topic}
  {
    hide Crc32.Checksum, RepeatsOf, ChainOf;
    assert p.(sent := s.ready && p.sent) == p;
    assert (s.jobs - {p.topic})[p.topic := ChainOf(p, |s.publications|)]
        == s.jobs[p.topic := ChainOf(p, |s.publications|)];
    assert p.topic !in s.jobs ==> s.jobs - {p.topic} == s.jobs;
  }

  lemma PublishJobs(s: Sender, p: Publication)
    requires JobsCurrent(s) && s.ready
    ensures JobsCurrent(Publish(s, p))
  {
    hide Publish, Latest, ChainOf;
    PublishJobTable(s, p);
    var ps, after := s.publications + [p], Publish(s, p);
    forall t ensures t in after.jobs <==> Indefinite(ps, t) {
      IndefiniteMore(s.publications, p, t);
    }
    forall t | t in after.jobs
      ensures after.jobs[t] == ChainOf(ps[Latest(ps, t).value], Latest(ps, t).value)
    {
      IndefiniteMore(s.publications, p, t);
      LatestMore(s.publications, p, t);
    }
  }

  lemma {:induction false} RunJobs(es: seq<Event>)
    ensures JobsCurrent(Run(es))
    decreases |es|
  {
    hide JobsCurrent, Publish;
    if es == [] {
      assert JobsCurrent(IDLE) by { NoJobs(); }
    } else {
      var s, e := Run(es[..|es| - 1]), es[|es| - 1];
      RunJobs(es[..|es| - 1]);
      if e.Published? {
        if s.ready { PublishJobs(s, e.publication); }
      } else {
        SameJobs(s, Step(s, e));
      }
    }
  }

  lemma NoJobs()
    ensures JobsCurrent(IDLE)
  {}

  lemma SameJobs(s: Sender, t: Sender)
    requires JobsCurrent(s) && t.jobs == s.jobs && t.publications == s.publications
    ensures JobsCurrent(t)
  {}

  // ----- Jobs and pending chain timers

  /** Jobs and pending timeouts with ids are one to one: the timeout that a topic's CRC names runs the topic's job. */
  ghost predicate Paired(s: Sender) {
    && (forall t :: t in s.jobs ==>
        Crc32.Checksum(t) in s.named && s.named[Crc32.Checksum(t)] == Timer(s.jobs[t].delay, s.jobs[t]))
    && (forall id :: id in s.named ==>
        s.named[id].chain.topic in s.jobs && Crc32.Checksum(s.named[id].chain.topic) == id)
  }

  /** No two of the topics share a CRC. */
  ghost predicate Distinguished(topics: iset<Topic>) {
    forall a, b :: a in topics && b in topics && Crc32.Checksum(a) == Crc32.Checksum(b) ==> a == b
  }

  ghost predicate Publishes(es: seq<Event>, topics: iset<Topic>) {
    forall i :: 0 <= i < |es| && es[i].Published? ==> es[i].publication.topic in topics
  }

  /** Jobs know their keys, and only the given topics have jobs. */
  ghost predicate Keyed(s: Sender, topics: iset<Topic>) {
    forall t :: t in s.jobs ==> t in topics && s.jobs[t].topic == t && s.jobs[t].id == Crc32.Checksum(t)
  }

  lemma CancelPaired(s: Sender, topic: Topic, topics: iset<Topic>)
    requires Distinguished(topics) && topic in topics && Paired(s) && Keyed(s, topics)
    ensures Paired(Cancel(s, topic)) && Keyed(Cancel(s, topic), topics)
    ensures topic !in Cancel(s, topic).jobs && Crc32.Checksum(topic) !in Cancel(s, topic).named
  {
    hide Crc32.Checksum;
  }

  lemma InstallPaired(s: Sender, p: Publication, origin: nat, topics: iset<Topic>)
    requires Distinguished(topics) && p.topic in topics && Paired(s) && Keyed(s, topics)
    requires p.topic !in s.jobs && Crc32.Checksum(p.topic) !in s.named
    ensures var chain := ChainOf(p, origin);
            var t := s.(jobs := s.jobs[p.topic := chain], named := s.named[chain.id := Timer(p.delay, chain)]);
            Paired(t) && Keyed(t, topics)
  {
    hide Crc32.Checksum;
  }

  lemma PublishPaired(s: Sender, p: Publication, topics: iset<Topic>)
    requires Distinguished(topics) && p.topic in topics && Paired(s) && Keyed(s, topics)
    ensures Paired(Publish(s, p)) && Keyed(Publish(s, p), topics)
  {
    hide Crc32.Checksum, Distinguished, ChainOf, RepeatsOf, Cancel;
    var origin := |s.publications|;
    var r := Send(s, p.datagram, p.group, origin, First, p.sent);
    var done := r.(publications := s.publications + [p.(sent := s.ready && p.sent)]);
    CancelPaired(done, p.topic, topics);
    InstallPaired(Cancel(done, p.topic), p, origin, topics);
  }

  /** A chain that fires while all is paired is set again as it was. */
  lemma FirePaired(s: Sender, id: u32, ok: bool, topics: iset<Topic>)
    requires Paired(s) && Keyed(s, topics)
    ensures FireNamed(s, id, ok).named == s.named && FireNamed(s, id, ok).jobs == s.jobs
  {
    hide Crc32.Checksum;
  }

  lemma SamePairs(s: Sender, t: Sender, topics: iset<Topic>)
    requires Paired(s) && Keyed(s, topics) && t.jobs == s.jobs && t.named == s.named
    ensures Paired(t) && Keyed(t, topics)
  {}

  lemma {:induction false} RunPaired(es: seq<Event>, topics: iset<Topic>)
    requires Distinguished(topics) && Publishes(es, topics)
    ensures Paired(Run(es)) && Keyed(Run(es), topics)
    decreases |es|
  {
    hide Paired, Keyed, Publish, FireNamed, Distinguished, Crc32.Checksum;
    if es == [] {
      assert Paired(IDLE) && Keyed(IDLE, topics) by { NoPairs(topics); }
    } else {
      var s, e := Run(es[..|es| - 1]), es[|es| - 1];
      RunPaired(es[..|es| - 1], topics);
      if e.Published? && s.ready {
        PublishPaired(s, e.publication, topics);
      } else {
        if e.NamedFired? { FirePaired(s, e.id, e.ok, topics); }
        SamePairs(s, Step(s, e), topics);
      }
    }
  }

  lemma NoPairs(topics: iset<Topic>)
    ensures Paired(IDLE) && Keyed(IDLE, topics)
  {}

  /** Two indefinite publishes after setup. */
  function TwoChains(a: Topic, b: Topic, group: GroupAddr): seq<Event> {
    [Setup(true), Published(Publication(a, [], group, -1, 1000, true)),
     Published(Publication(b, [], group, -1, 1000, true))]
  }

  /** When two topics share a CRC, the second chain takes over the first one's timeout: a job is left without. */
  lemma SharedCrcBreaksPairing(a: Topic, b: Topic, group: GroupAddr)
    requires a != b && Crc32.Checksum(a) == Crc32.Checksum(b)
    ensures !Paired(Run(TwoChains(a, b, group)))
  {
    hide Crc32.Checksum;
    var es := TwoChains(a, b, group);
    assert es[..2][..1] == [es[0]] && es[..1][..0] == [] && es[..2][1] == es[1];
    var s1 := Step(IDLE, es[0]);
    assert Run([es[0]]) == s1 by { assert [es[0]][..0] == []; }
    var s2 := Step(s1, es[1]);
    assert Run(es[..2]) == s2;
    var s3 := Step(s2, es[2]);
    assert a in s2.jobs && s2.jobs[a].topic == a;
    assert a in s3.jobs && s3.jobs[a].topic == a && s3.named[Crc32.Checksum(a)].chain.topic == b;
  }

  /** Jobs and pending chain timers stay one to one over every run on a set of topics exactly when no two of
      them share a CRC. */
  lemma AlwaysPairedIffDistinguished(topics: iset<Topic>)
    ensures (forall es :: Publishes(es, topics) ==> Paired(Run(es))) <==> Distinguished(topics)
  {
    hide Run, Paired, Crc32.Checksum;
    if Distinguished(topics) {
      forall es | Publishes(es, topics) ensures Paired(Run(es)) {
        RunPaired(es, topics);
      }
    } else {
      var a, b :| a in topics && b in topics && Crc32.Checksum(a) == Crc32.Checksum(b) && a != b;
      var group: GroupAddr := seq(16, _ => 0);
      SharedCrcBreaksPairing(a, b, group);
      assert Publishes(TwoChains(a, b, group), topics);
    }
  }

  /** On such topics, at every time and for every topic: its chain timer is pending exactly if the latest successful
      publish was indefinite, there is only one, and it will send that publish's datagram. */
  lemma ChainsAreCurrent(es: seq<Event>, topics: iset<Topic>, topic: Topic)
    requires Distinguished(topics) && Publishes(es, topics) && topic in topics
    ensures var s := Run(es);
            && (Indefinite(s.publications, topic) <==> exists id :: id in s.named && s.named[id].chain.topic == topic)
            && (forall id :: id in s.named && s.named[id].chain.topic == topic ==>
                  && id == Crc32.Checksum(topic) && Latest(s.publications, topic).Some?
                  && s.named[id].chain == ChainOf(s.publications[Latest(s.publications, topic).value],
                                                  Latest(s.publications, topic).value))
  {
    hide Crc32.Checksum, Run, Latest;
    RunPaired(es, topics);
    RunJobs(es);
    var s := Run(es);
    if topic in s.jobs {
      assert s.named[Crc32.Checksum(topic)].chain.topic == topic;
    }
  }
}
