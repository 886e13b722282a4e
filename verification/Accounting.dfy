/** Conservation of packets over every run of a sender: each publish's copies are sent or pending, nothing else is
    sent but chain firings, and the sent counter counts what got out. */
module Accounting {
  import opened Octets
  import opened TopicHash
  import opened Retransmits
  import Crc32

  /** How many times a publish sends its datagram, apart from chain firings: once if the first send fails or starts
      a chain, count times otherwise, and at least once. */
  function Copies(p: Publication): nat {
    if p.sent && p.count > 1 then p.count else 1
  }

  function TotalCopies(ps: seq<Publication>): nat {
    if ps == [] then 0 else TotalCopies(ps[..|ps| - 1]) + Copies(ps[|ps| - 1])
  }

  /** The attempts that publish number origin made, chain firings aside. */
  function Sends(log: seq<Attempt>, origin: nat): nat {
    if log == [] then 0
    else
      Sends(log[..|log| - 1], origin)
      + if log[|log| - 1].origin == origin && !log[|log| - 1].cause.Chained? then 1 else 0
  }

  function Firings(log: seq<Attempt>): nat {
    if log == [] then 0 else Firings(log[..|log| - 1]) + if log[|log| - 1].cause.Chained? then 1 else 0
  }

  function Failures(log: seq<Attempt>): nat {
    if log == [] then 0 else Failures(log[..|log| - 1]) + if log[|log| - 1].sent then 0 else 1
  }

  /** The pending repeats of publish number origin. */
  function Waiting(rs: seq<Repeat>, origin: nat): nat {
    if rs == [] then 0 else Waiting(rs[..|rs| - 1], origin) + if rs[|rs| - 1].origin == origin then 1 else 0
  }

  lemma {:induction false} WaitingConcat(a: seq<Repeat>, b: seq<Repeat>, origin: nat)
    ensures Waiting(a + b, origin) == Waiting(a, origin) + Waiting(b, origin)
    decreases |b|
  {
    if b == [] {
      assert a + b == a;
    } else {
      assert (a + b)[..|a + b| - 1] == a + b[..|b| - 1];
      WaitingConcat(a, b[..|b| - 1], origin);
    }
  }

  lemma WaitingWithout(rs: seq<Repeat>, k: nat, origin: nat)
    requires k < |rs|
    ensures Waiting(rs, origin) == Waiting(rs[..k] + rs[k + 1..], origin) + if rs[k].origin == origin then 1 else 0
  {
    assert rs == rs[..k] + [rs[k]] + rs[k + 1..];
    WaitingConcat(rs[..k] + [rs[k]], rs[k + 1..], origin);
    WaitingConcat(rs[..k], [rs[k]], origin);
    WaitingConcat(rs[..k], rs[k + 1..], origin);
    assert [rs[k]][..0] == [];
  }

  lemma {:induction false} WaitingSame(rs: seq<Repeat>, at: nat, origin: nat)
    requires forall k :: 0 <= k < |rs| ==> rs[k].origin == at
    ensures Waiting(rs, origin) == if origin == at then |rs| else 0
    decreases |rs|
  {
    if rs != [] {
      WaitingSame(rs[..|rs| - 1], at, origin);
    }
  }

  // ----- Unchanged datagrams

  predicate Carries(ps: seq<Publication>, origin: nat, datagram: seq<byte>, group: GroupAddr) {
    origin < |ps| && ps[origin].datagram == datagram && ps[origin].group == group
  }

  predicate ChainCarries(ps: seq<Publication>, c: Chain) {
    Carries(ps, c.origin, c.datagram, c.group) && ps[c.origin].sent && ps[c.origin].count == -1
  }

  /** Everything sent or pending is some publish's own datagram to its own group; chains belong to indefinite ones. */
  ghost predicate Unchanged(s: Sender) {
    && (forall k :: 0 <= k < |s.attempts| ==>
          Carries(s.publications, s.attempts[k].origin, s.attempts[k].datagram, s.attempts[k].group)
          && (s.attempts[k].cause.Chained? ==> s.publications[s.attempts[k].origin].count == -1))
    && (forall k :: 0 <= k < |s.repeats| ==>
        Carries(s.publications, s.repeats[k].origin, s.repeats[k].datagram, s.repeats[k].group))
    && (forall t :: t in s.jobs ==> ChainCarries(s.publications, s.jobs[t]))
    && (forall id :: id in s.named ==> ChainCarries(s.publications, s.named[id].chain))
  }

  /** Every publish's copies are all sent or pending. */
  ghost predicate Balanced(s: Sender) {
    && (forall o :: 0 <= o < |s.publications| ==>
        Sends(s.attempts, o) + Waiting(s.repeats, o) == Copies(s.publications[o]))
    && (forall o :: |s.publications| <= o ==> Sends(s.attempts, o) == 0 && Waiting(s.repeats, o) == 0)
  }

  /** All attempts and pending repeats together, and the counter. */
  ghost predicate Totalled(s: Sender) {
    && |s.attempts| + |s.repeats| == TotalCopies(s.publications) + Firings(s.attempts)
    && Failures(s.attempts) <= |s.attempts|
    && s.packetsSent == (|s.attempts| - Failures(s.attempts)) % TWO32
  }

  lemma SendsMore(log: seq<Attempt>, a: Attempt, o: nat)
    ensures Sends(log + [a], o) == Sends(log, o) + if a.origin == o && !a.cause.Chained? then 1 else 0
    ensures Firings(log + [a]) == Firings(log) + if a.cause.Chained? then 1 else 0
    ensures Failures(log + [a]) == Failures(log) + if a.sent then 0 else 1
  {
    assert (log + [a])[..|log|] == log;
  }

  // ----- Unchanged is kept

  lemma MorePublications(s: Sender, p: Publication)
    requires Unchanged(s)
    ensures Unchanged(s.(publications := s.publications + [p]))
  {
    var ps := s.publications + [p];
    assert forall o :: 0 <= o < |s.publications| ==> ps[o] == s.publications[o];
  }

  lemma MoreAttempts(s: Sender, a: Attempt, packetsSent: u32)
    requires Unchanged(s) && Carries(s.publications, a.origin, a.datagram, a.group) && !a.cause.Chained?
    ensures Unchanged(s.(attempts := s.attempts + [a], packetsSent := packetsSent))
  {
    hide Carries, ChainCarries;
  }

  lemma ScheduleUnchanged(s: Sender, p: Publication, origin: nat)
    requires Unchanged(s) && origin < |s.publications| && s.publications[origin] == p && p.sent
    ensures Unchanged(Schedule(s, p, origin))
  {
    hide Crc32.Checksum;
    if p.count == -1 {
      assert ChainCarries(s.publications, ChainOf(p, origin));
    } else {
      var rs := RepeatsOf(p, origin);
      assert forall k :: 0 <= k < |rs| ==> Carries(s.publications, rs[k].origin, rs[k].datagram, rs[k].group);
      hide RepeatsOf, Carries, ChainCarries;
    }
  }

  lemma PublishUnchanged(s: Sender, p: Publication)
    requires Unchanged(s) && s.ready
    ensures Unchanged(Publish(s, p))
  {
    hide Unchanged, Schedule;
    var origin := |s.publications|;
    var a := Attempt(p.datagram, p.group, origin, First, p.sent);
    var more := s.(publications := s.publications + [p]);
    MorePublications(s, p);
    MoreAttempts(more, a, Send(s, p.datagram, p.group, origin, First, p.sent).packetsSent);
    var sent := Send(s, p.datagram, p.group, origin, First, p.sent);
    var done := sent.(publications := s.publications + [p.(sent := s.ready && p.sent)]);
    assert p.(sent := s.ready && p.sent) == p;
    assert done == more.(attempts := s.attempts + [a], packetsSent := done.packetsSent);
    if p.sent {
      ScheduleUnchanged(done, p, origin);
    }
  }

  lemma FireNamedUnchanged(s: Sender, id: u32, ok: bool)
    requires Unchanged(s)
    ensures Unchanged(FireNamed(s, id, ok))
  {
    hide Carries;
  }

  lemma FireRepeatUnchanged(s: Sender, k: nat, ok: bool)
    requires Unchanged(s)
    ensures Unchanged(FireRepeat(s, k, ok))
  {
    hide Carries;
  }

  lemma {:induction false} RunUnchanged(es: seq<Event>)
    ensures Unchanged(Run(es))
    decreases |es|
  {
    hide Publish, FireNamed, FireRepeat, Carries, ChainCarries;
    if es != [] {
      var s, e := Run(es[..|es| - 1]), es[|es| - 1];
      RunUnchanged(es[..|es| - 1]);
      match e
      case Setup(_) =>
      case Published(p) => if s.ready { PublishUnchanged(s, p); }
      case NamedFired(id, ok) => FireNamedUnchanged(s, id, ok);
      case RepeatFired(k, ok) => FireRepeatUnchanged(s, k, ok);
    }
  }

  // ----- Balance is kept

  lemma PublishBalanced(s: Sender, p: Publication)
    requires Balanced(s) && s.ready
    ensures Balanced(Publish(s, p))
  {
    hide Crc32.Checksum, RepeatsOf, Sends, Waiting;
    var origin := |s.publications|;
    var after := Publish(s, p);
    var added := PublishAdds(s, p);
    forall o: nat ensures Sends(after.attempts, o) == Sends(s.attempts, o) + (if o == origin then 1 else 0)
      && Waiting(after.repeats, o) == Waiting(s.repeats, o) + if o == origin then Copies(p) - 1 else 0
    {
      SendsMore(s.attempts, Attempt(p.datagram, p.group, origin, First, s.ready && p.sent), o);
      WaitingConcat(s.repeats, added, o);
      WaitingSame(added, origin, o);
    }
    assert forall o :: 0 <= o < origin ==> after.publications[o] == s.publications[o];
  }

  /** What publish appends. */
  lemma PublishAdds(s: Sender, p: Publication) returns (added: seq<Repeat>)
    requires s.ready
    ensures Publish(s, p).publications == s.publications + [p]
    ensures Publish(s, p).attempts == s.attempts + [Attempt(p.datagram, p.group, |s.publications|, First, p.sent)]
    ensures Publish(s, p).repeats == s.repeats + added && |added| == Copies(p) - 1
    ensures forall k :: 0 <= k < |added| ==> added[k].origin == |s.publications|
    ensures Publish(s, p).packetsSent == (s.packetsSent + if p.sent then 1 else 0) % TWO32
  {
    hide Crc32.Checksum;
    assert s.repeats + [] == s.repeats;
    added := if p.sent then RepeatsOf(p, |s.publications|) else [];
  }

  lemma FireNamedBalanced(s: Sender, id: u32, ok: bool)
    requires Balanced(s)
    ensures Balanced(FireNamed(s, id, ok))
  {
    hide Sends, Waiting;
    if id in s.named {
      var c := s.named[id].chain;
      forall o: nat ensures Sends(FireNamed(s, id, ok).attempts, o) == Sends(s.attempts, o) {
        SendsMore(s.attempts, Attempt(c.datagram, c.group, c.origin, Chained, s.ready && ok), o);
      }
    }
  }

  lemma FireRepeatBalanced(s: Sender, k: nat, ok: bool)
    requires Balanced(s)
    ensures Balanced(FireRepeat(s, k, ok))
  {
    hide Sends, Waiting;
    if k < |s.repeats| {
      var t := s.repeats[k];
      var after := FireRepeat(s, k, ok);
      forall o: nat ensures Sends(after.attempts, o) + Waiting(after.repeats, o)
          == Sends(s.attempts, o) + Waiting(s.repeats, o)
      {
        SendsMore(s.attempts, Attempt(t.datagram, t.group, t.origin, Repeated, s.ready && ok), o);
        WaitingWithout(s.repeats, k, o);
      }
      assert forall o: nat :: |s.publications| <= o ==> Sends(s.attempts, o) + Waiting(s.repeats, o) == 0;
    }
  }

  lemma {:induction false} RunBalanced(es: seq<Event>)
    ensures Balanced(Run(es))
    decreases |es|
  {
    hide Publish, FireNamed, FireRepeat, Sends, Waiting, Copies;
    if es == [] {
      NothingYet();
    } else {
      var s, e := Run(es[..|es| - 1]), es[|es| - 1];
      RunBalanced(es[..|es| - 1]);
      match e
      case Setup(_) =>
      case Published(p) => if s.ready { PublishBalanced(s, p); }
      case NamedFired(id, ok) => FireNamedBalanced(s, id, ok);
      case RepeatFired(k, ok) => FireRepeatBalanced(s, k, ok);
    }
  }

  lemma NothingYet()
    ensures Balanced(IDLE) && Totalled(IDLE)
  {}

  // ----- Totals are kept

  lemma AttemptTotalled(s: Sender, t: Sender, a: Attempt)
    requires Totalled(s) && t.attempts == s.attempts + [a]
    requires t.packetsSent == (s.packetsSent + if a.sent then 1 else 0) % TWO32
    requires |t.repeats| + TotalCopies(s.publications) + (if a.cause.Chained? then 0 else 1)
          == |s.repeats| + TotalCopies(t.publications)
    ensures Totalled(t)
  {
    hide Firings, Failures, TotalCopies;
    SendsMore(s.attempts, a, 0);
    if a.sent {
      ModularSum(|s.attempts| - Failures(s.attempts), 1);
    }
  }

  lemma StepTotalled(s: Sender, e: Event)
    requires Totalled(s)
    ensures Totalled(Step(s, e))
  {
    hide Totalled, TotalCopies, Publish, Crc32.Checksum;
    var t := Step(s, e);
    match e
    case Setup(created) => SameTotals(s, created);
    case Published(p) =>
      if s.ready {
        var added := PublishAdds(s, p);
        CopiesMore(s.publications, p);
        AttemptTotalled(s, t, Attempt(p.datagram, p.group, |s.publications|, First, p.sent));
      }
    case NamedFired(id, ok) =>
      if id in s.named {
        var c := s.named[id].chain;
        AttemptTotalled(s, t, Attempt(c.datagram, c.group, c.origin, Chained, s.ready && ok));
      }
    case RepeatFired(k, ok) =>
      if k < |s.repeats| {
        var r := s.repeats[k];
        AttemptTotalled(s, t, Attempt(r.datagram, r.group, r.origin, Repeated, s.ready && ok));
      }
  }

  lemma SameTotals(s: Sender, ready: bool)
    requires Totalled(s)
    ensures Totalled(s.(ready := ready))
  {}

  lemma CopiesMore(ps: seq<Publication>, p: Publication)
    ensures TotalCopies(ps + [p]) == TotalCopies(ps) + Copies(p)
  {
    assert (ps + [p])[..|ps|] == ps;
  }

  lemma {:induction false} RunTotalled(es: seq<Event>)
    ensures Totalled(Run(es))
    decreases |es|
  {
    hide Totalled, Step;
    if es == [] {
      NothingYet();
    } else {
      RunTotalled(es[..|es| - 1]);
      StepTotalled(Run(es[..|es| - 1]), es[|es| - 1]);
    }
  }

  // ----- Theorems

  /** After any run, packets_sent plus what is pending plus what failed is the copies of all publishes plus the
      chain firings, modulo the counter's width. */
  lemma PacketsConserved(es: seq<Event>)
    ensures var s := Run(es);
            (s.packetsSent + |s.repeats| + Failures(s.attempts)) % TWO32
            == (TotalCopies(s.publications) + ChainFirings(es)) % TWO32
  {
    hide Run;
    RunTotalled(es);
    FiringsAreEvents(es);
    var s := Run(es);
    ModularSum(|s.attempts| - Failures(s.attempts), |s.repeats| + Failures(s.attempts));
  }

  lemma ModularSum(a: nat, b: nat)
    ensures (a % TWO32 + b) % TWO32 == (a + b) % TWO32
  {}

  /** The firings of pending chain timers in a run, counted from its events. */
  function ChainFirings(es: seq<Event>): nat {
    if es == [] then 0
    else
      var front, e := es[..|es| - 1], es[|es| - 1];
      ChainFirings(front) + if e.NamedFired? && e.id in Run(front).named then 1 else 0
  }

  /** Every firing of a pending chain timer is an attempt to send, and no other attempt is counted as one. */
  lemma {:induction false} FiringsAreEvents(es: seq<Event>)
    ensures Firings(Run(es).attempts) == ChainFirings(es)
    decreases |es|
  {
    hide Firings, Publish, Crc32.Checksum;
    if es == [] {
      NoFirings();
    } else {
      var front, e := es[..|es| - 1], es[|es| - 1];
      var s := Run(front);
      FiringsAreEvents(front);
      match e
      case Setup(_) =>
      case Published(p) =>
        if s.ready {
          var added := PublishAdds(s, p);
          SendsMore(s.attempts, Attempt(p.datagram, p.group, |s.publications|, First, p.sent), 0);
        }
      case NamedFired(id, ok) =>
        if id in s.named {
          var c := s.named[id].chain;
          SendsMore(s.attempts, Attempt(c.datagram, c.group, c.origin, Chained, s.ready && ok), 0);
        }
      case RepeatFired(k, ok) =>
        if k < |s.repeats| {
          var r := s.repeats[k];
          SendsMore(s.attempts, Attempt(r.datagram, r.group, r.origin, Repeated, s.ready && ok), 0);
        }
    }
  }

  lemma NoFirings()
    ensures Firings([]) == 0
  {}

  /** A publish whose repeats have all fired has sent its own datagram to its own group exactly its number of times;
      chain firings come only from indefinite publishes, with their datagrams. */
  lemma CopiesSentExactly(es: seq<Event>, o: nat)
    requires o < |Run(es).publications| && Waiting(Run(es).repeats, o) == 0
    ensures var s := Run(es);
            && Sends(s.attempts, o) == Copies(s.publications[o])
            && (s.publications[o].sent && s.publications[o].count >= 1 ==>
                  Sends(s.attempts, o) == s.publications[o].count)
            && (!s.publications[o].sent || s.publications[o].count < 1 ==> Sends(s.attempts, o) == 1)
            && forall k :: 0 <= k < |s.attempts| && s.attempts[k].origin == o ==>
                 && s.attempts[k].datagram == s.publications[o].datagram
                 && s.attempts[k].group == s.publications[o].group
                 && (s.attempts[k].cause.Chained? ==> s.publications[o].count == -1)
  {
    hide Run, Sends, Waiting;
    RunBalanced(es);
    RunUnchanged(es);
  }

  /** The repeats of a publish are due at successive multiples of the delay exactly if the last one fits 32 bits. */
  lemma RepeatsSpacedIffNoWrap(p: Publication, origin: nat)
    requires p.count > 1
    ensures (forall i :: 0 <= i < |RepeatsOf(p, origin)| ==> RepeatsOf(p, origin)[i].delay == p.delay * (i + 1))
            <==> p.delay * (p.count - 1) < TWO32
  {
    var rs := RepeatsOf(p, origin);
    if p.delay * (p.count - 1) < TWO32 {
      forall i | 0 <= i < |rs| ensures rs[i].delay == p.delay * (i + 1) {
        Product(p.delay, i + 1, p.count - 1);
      }
    } else {
      assert rs[p.count - 2].delay == p.delay * (p.count - 1) % TWO32;
    }
  }

  lemma Product(d: nat, a: nat, b: nat)
    requires a <= b
    ensures d * a <= d * b
  {}
}
