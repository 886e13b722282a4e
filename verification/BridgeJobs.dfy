/** The indefinite-retransmit jobs of bridges/mqtt-go/bridge.go under every interleaving of message handlers, resend
    goroutines and shutdown. The steps are the critical sections of indefiniteMu and the actions between them. */
module BridgeJobs {
  import opened TopicHash

  /** How far a call of handleMQTTMessage is; Made and Installed hold the cancel channel of its new job. */
  datatype Phase = Begun | Cancelled | Sent | Made(channel: nat) | Installed(channel: nat)

  datatype Handler = Handler(topic: Topic, indefinite: bool, phase: Phase)

  /** Channels are numbered in order of creation. panicked records a close of a closed channel, lost the channels
      whose map entry an install replaced. */
  datatype State = State(
    jobs: map<Topic, nat>, made: nat, closed: set<nat>, panicked: bool,
    handlers: map<nat, Handler>, resenders: set<nat>, lost: set<nat>)

  const INITIAL: State := State(map[], 0, {}, false, map[], {}, {})

  datatype Event =
    | Arrive(h: nat, topic: Topic, indefinite: bool)
    | Cancel(h: nat)
    | Send(h: nat, ok: bool)
    | Make(h: nat)
    | Install(h: nat)
    | Spawn(h: nat)
    | Exit(channel: nat)
    | Shutdown

  /** cancelIndefinite. */
  function CancelJob(s: State, topic: Topic): State {
    if topic in s.jobs then
      s.(closed := s.closed + {s.jobs[topic]}, panicked := s.panicked || s.jobs[topic] in s.closed,
         jobs := s.jobs - {topic})
    else s
  }

  /** The critical section of startIndefinite. */
  function InstallJob(s: State, topic: Topic, channel: nat): State {
    s.(jobs := s.jobs[topic := channel], lost := s.lost + if topic in s.jobs then {s.jobs[topic]} else {})
  }

  /** The critical section of Run's shutdown: close every job's channel and empty the map. */
  ghost function CloseAll(s: State): State {
    s.(jobs := map[], closed := s.closed + s.jobs.Values,
       panicked := s.panicked || (exists t :: t in s.jobs && s.jobs[t] in s.closed)
                   || (exists t, u :: t in s.jobs && u in s.jobs && t != u && s.jobs[t] == s.jobs[u]))
  }

  predicate At(s: State, h: nat, phase: Phase) {
    h in s.handlers && s.handlers[h].phase == phase
  }

  function Move(s: State, h: nat, phase: Phase): State
    requires h in s.handlers
  {
    s.(handlers := s.handlers[h := s.handlers[h].(phase := phase)])
  }

  ghost function Step(s: State, e: Event): State {
    match e
    case Arrive(h, topic, indefinite) =>
      if h in s.handlers then s else s.(handlers := s.handlers[h := Handler(topic, indefinite, Begun)])
    case Cancel(h) =>
      if At(s, h, Begun) then Move(CancelJob(s, s.handlers[h].topic), h, Cancelled) else s
    case Send(h, ok) =>
      if !At(s, h, Cancelled) then s
      else if ok && s.handlers[h].indefinite then Move(s, h, Sent)
      else s.(handlers := s.handlers - {h})
    case Make(h) =>
      if At(s, h, Sent) then Move(s, h, Made(s.made)).(made := s.made + 1) else s
    case Install(h) =>
      if h in s.handlers && s.handlers[h].phase.Made? then
        var channel := s.handlers[h].phase.channel;
        Move(InstallJob(s, s.handlers[h].topic, channel), h, Installed(channel))
      else s
    case Spawn(h) =>
      if h in s.handlers && s.handlers[h].phase.Installed? then
        s.(resenders := s.resenders + {s.handlers[h].phase.channel}, handlers := s.handlers - {h})
      else s
    case Exit(channel) =>
      if channel in s.closed then s.(resenders := s.resenders - {channel}) else s
    case Shutdown => CloseAll(s)
  }

  ghost function Run(es: seq<Event>): State {
    if es == [] then INITIAL else Step(Run(es[..|es| - 1]), es[|es| - 1])
  }

  // ----- What every interleaving keeps

  predicate HasChannel(p: Phase) {
    p.Made? || p.Installed?
  }

  /** A handler has just made this channel. */
  ghost predicate Pending(s: State, channel: nat) {
    exists h :: At(s, h, Made(channel))
  }

  /** A goroutine resends until this channel is closed, or is about to be started. */
  ghost predicate Serving(s: State, channel: nat) {
    channel in s.resenders || exists h :: At(s, h, Installed(channel))
  }

  ghost predicate JobsOpen(s: State) {
    && !s.panicked
    && (forall t :: t in s.jobs ==> s.jobs[t] < s.made && s.jobs[t] !in s.closed && s.jobs[t] !in s.lost)
    && (forall t, u :: t in s.jobs && u in s.jobs && s.jobs[t] == s.jobs[u] ==> t == u)
    && (forall c :: c in s.closed || c in s.lost || c in s.resenders ==> c < s.made)
    && s.lost !! s.closed
  }

  /** Handlers hold different channels; a channel just made is nowhere else yet. */
  ghost predicate HandlersApart(s: State) {
    && (forall h :: h in s.handlers && HasChannel(s.handlers[h].phase) ==>
          s.handlers[h].phase.channel < s.made && s.handlers[h].phase.channel !in s.resenders)
    && (forall h, g :: h in s.handlers && g in s.handlers && h != g && HasChannel(s.handlers[h].phase)
                       && HasChannel(s.handlers[g].phase) ==>
          s.handlers[h].phase.channel != s.handlers[g].phase.channel)
    && (forall h :: h in s.handlers && s.handlers[h].phase.Made? ==>
          s.handlers[h].phase.channel !in s.closed && s.handlers[h].phase.channel !in s.lost
          && s.handlers[h].phase.channel !in s.jobs.Values)
  }

  /** Every channel is pending, a job's, lost or closed. */
  ghost predicate Placed(s: State) {
    forall c: nat :: c < s.made ==> Pending(s, c) || c in s.jobs.Values || c in s.lost || c in s.closed
  }

  /** The jobs' and the lost channels are served. */
  ghost predicate Served(s: State) {
    forall c :: c in s.jobs.Values || c in s.lost ==> Serving(s, c)
  }

  ghost predicate Safe(s: State) {
    JobsOpen(s) && HandlersApart(s) && Placed(s) && Served(s)
  }

  lemma StepJobsOpen(s: State, e: Event)
    requires JobsOpen(s) && HandlersApart(s)
    ensures JobsOpen(Step(s, e))
  {}

  lemma CancelApart(s: State, h: nat)
    requires HandlersApart(s) && At(s, h, Begun)
    ensures HandlersApart(Step(s, Cancel(h)))
  {
    var t := Step(s, Cancel(h));
    assert t.jobs.Values <= s.jobs.Values;
    assert t.closed <= s.closed + s.jobs.Values;
  }

  lemma MakeApart(s: State, h: nat)
    requires JobsOpen(s) && HandlersApart(s)
    ensures HandlersApart(Step(s, Make(h)))
  {}

  lemma InstallApart(s: State, h: nat)
    requires JobsOpen(s) && HandlersApart(s) && h in s.handlers && s.handlers[h].phase.Made?
    ensures HandlersApart(Step(s, Install(h)))
  {
    var t, c := Step(s, Install(h)), s.handlers[h].phase.channel;
    assert t.jobs.Values <= s.jobs.Values + {c};
    assert t.lost <= s.lost + s.jobs.Values;
  }

  lemma SpawnApart(s: State, h: nat)
    requires HandlersApart(s)
    ensures HandlersApart(Step(s, Spawn(h)))
  {}

  lemma ArriveApart(s: State, h: nat, topic: Topic, indefinite: bool)
    requires HandlersApart(s)
    ensures HandlersApart(Step(s, Arrive(h, topic, indefinite)))
  {}

  lemma SendApart(s: State, h: nat, ok: bool)
    requires HandlersApart(s)
    ensures HandlersApart(Step(s, Send(h, ok)))
  {}

  lemma OtherApart(s: State, e: Event)
    requires JobsOpen(s) && HandlersApart(s) && (e.Exit? || e.Shutdown?)
    ensures HandlersApart(Step(s, e))
  {}

  lemma StepHandlersApart(s: State, e: Event)
    requires JobsOpen(s) && HandlersApart(s)
    ensures HandlersApart(Step(s, e))
  {
    hide JobsOpen, HandlersApart;
    match e
    case Cancel(h) => if At(s, h, Begun) { CancelApart(s, h); }
    case Make(h) => MakeApart(s, h);
    case Install(h) => if h in s.handlers && s.handlers[h].phase.Made? { InstallApart(s, h); }
    case Spawn(h) => SpawnApart(s, h);
    case Arrive(h, topic, indefinite) => ArriveApart(s, h, topic, indefinite);
    case Send(h, ok) => SendApart(s, h, ok);
    case _ => OtherApart(s, e);
  }

  /** A pending channel stays pending, or is installed. */
  lemma StepPending(s: State, e: Event, c: nat)
    requires Pending(s, c)
    ensures Pending(Step(s, e), c) || c in Step(s, e).jobs.Values
  {
    var h :| At(s, h, Made(c));
    var t := Step(s, e);
    if e == Install(h) {
      assert t.jobs[s.handlers[h].topic] == c;
    } else {
      assert At(t, h, Made(c));
    }
  }

  /** A job's channel stays a job's, or is lost or closed. */
  lemma StepInstalled(s: State, e: Event, c: nat)
    requires c in s.jobs.Values
    ensures var t := Step(s, e); c in t.jobs.Values || c in t.lost || c in t.closed
  {
    var topic :| topic in s.jobs && s.jobs[topic] == c;
    var t := Step(s, e);
    assert topic in t.jobs ==> t.jobs[topic] in t.jobs.Values;
  }

  lemma StepGone(s: State, e: Event)
    ensures s.lost <= Step(s, e).lost && s.closed <= Step(s, e).closed
    ensures Step(s, e).made == s.made || (Step(s, e).made == s.made + 1 && Pending(Step(s, e), s.made))
  {
    if e.Make? && At(s, e.h, Sent) {
      assert At(Step(s, e), e.h, Made(s.made));
    }
  }

  lemma StepPlaced(s: State, e: Event)
    requires Placed(s)
    ensures Placed(Step(s, e))
  {
    hide Step, Pending;
    var t := Step(s, e);
    StepGone(s, e);
    forall c: nat | c < t.made ensures Pending(t, c) || c in t.jobs.Values || c in t.lost || c in t.closed {
      if c < s.made {
        if Pending(s, c) {
          StepPending(s, e, c);
        } else if c in s.jobs.Values {
          StepInstalled(s, e, c);
        }
      }
    }
  }

  lemma StepServing(s: State, e: Event, c: nat)
    requires Serving(s, c)
    ensures Serving(Step(s, e), c) || c in Step(s, e).closed
  {
    if c !in s.resenders {
      var h :| At(s, h, Installed(c));
      assert e != Spawn(h) ==> At(Step(s, e), h, Installed(c));
    }
  }

  lemma StepNewJobs(s: State, e: Event, c: nat)
    requires c in Step(s, e).jobs.Values || c in Step(s, e).lost
    ensures c in s.jobs.Values || c in s.lost || Serving(Step(s, e), c)
  {
    if e.Install? && e.h in s.handlers && s.handlers[e.h].phase == Made(c) {
      assert At(Step(s, e), e.h, Installed(c));
    }
  }

  lemma StepServed(s: State, e: Event)
    requires JobsOpen(s) && HandlersApart(s) && Served(s)
    ensures Served(Step(s, e))
  {
    hide Step, Serving, HandlersApart;
    var t := Step(s, e);
    StepJobsOpen(s, e);
    forall c | c in t.jobs.Values || c in t.lost ensures Serving(t, c) {
      StepNewJobs(s, e, c);
      if Serving(s, c) {
        StepServing(s, e, c);
      }
    }
  }

  lemma {:induction false} RunSafe(es: seq<Event>)
    ensures Safe(Run(es))
    decreases |es|
  {
    hide Step, JobsOpen, HandlersApart, Placed, Served;
    if es == [] {
      InitialSafe();
    } else {
      var s, e := Run(es[..|es| - 1]), es[|es| - 1];
      RunSafe(es[..|es| - 1]);
      StepJobsOpen(s, e);
      StepHandlersApart(s, e);
      StepPlaced(s, e);
      StepServed(s, e);
    }
  }

  lemma InitialSafe()
    ensures Safe(INITIAL)
  {}

  // ----- Theorems about every interleaving

  /** No channel is ever closed twice, and every job has a channel of its own that is open. */
  lemma NeverClosedTwice(es: seq<Event>)
    ensures var s := Run(es);
            && !s.panicked
            && (forall t :: t in s.jobs ==> s.jobs[t] !in s.closed)
            && (forall t, u :: t in s.jobs && u in s.jobs && t != u ==> s.jobs[t] != s.jobs[u])
  {
    hide Run;
    RunSafe(es);
  }

  /** A resend goroutine, started or about to be, that nobody has told to stop. */
  ghost predicate Uncancelled(s: State, channel: nat) {
    Serving(s, channel) && channel !in s.closed
  }

  /** At every moment the uncancelled resend goroutines are those of the map's entries and the lost ones. */
  lemma UncancelledAreJobsAndLost(es: seq<Event>, c: nat)
    ensures Uncancelled(Run(es), c) <==> c in Run(es).jobs.Values || c in Run(es).lost
  {
    hide Run;
    RunSafe(es);
    var s := Run(es);
    if Uncancelled(s, c) {
      assert c < s.made;
    }
  }

  /** A channel is lost exactly when some install finds an entry for its topic. */
  ghost predicate Overwrites(s: State, e: Event) {
    e.Install? && e.h in s.handlers && s.handlers[e.h].phase.Made? && s.handlers[e.h].topic in s.jobs
  }

  ghost predicate NeverOverwrites(es: seq<Event>) {
    forall i :: 0 <= i < |es| ==> !Overwrites(Run(es[..i]), es[i])
  }

  lemma NeverOverwritesMore(es: seq<Event>, front: seq<Event>)
    requires es != [] && front == es[..|es| - 1]
    ensures NeverOverwrites(es) <==> NeverOverwrites(front) && !Overwrites(Run(front), es[|es| - 1])
  {
    hide Run, Overwrites;
    assert forall i :: 0 <= i < |front| ==> front[..i] == es[..i] && front[i] == es[i];
  }

  lemma {:induction false} LostIffOverwritten(es: seq<Event>)
    ensures Run(es).lost == {} <==> NeverOverwrites(es)
    decreases |es|
  {
    hide Step, Overwrites;
    if es != [] {
      var front := es[..|es| - 1];
      LostIffOverwritten(front);
      NeverOverwritesMore(es, front);
      OverwriteLoses(Run(front), es[|es| - 1]);
    }
  }

  lemma OverwriteLoses(s: State, e: Event)
    ensures Step(s, e).lost == {} <==> s.lost == {} && !Overwrites(s, e)
  {
    if Overwrites(s, e) {
      assert s.jobs[s.handlers[e.h].topic] in Step(s, e).lost;
    }
  }

  /** The uncancelled goroutines are exactly the map's entries if and only if no install has found an entry. */
  lemma UncancelledAreJobsIff(es: seq<Event>)
    ensures (forall c :: Uncancelled(Run(es), c) <==> c in Run(es).jobs.Values) <==> NeverOverwrites(es)
  {
    hide Run, Uncancelled, NeverOverwrites;
    LostIffOverwritten(es);
    RunSafe(es);
    var s := Run(es);
    forall c ensures Uncancelled(s, c) <==> c in s.jobs.Values || c in s.lost {
      UncancelledAreJobsAndLost(es, c);
    }
    if c :| c in s.lost {
      assert c !in s.jobs.Values;
    }
  }

  /** A lost goroutine is never cancelled, not even by shutdown. */
  lemma {:induction false} LostForever(es: seq<Event>, more: seq<Event>, c: nat)
    requires c in Run(es).lost
    ensures Uncancelled(Run(es + more), c)
    decreases |more|
  {
    hide Step;
    LostStays(es, more, c);
    UncancelledAreJobsAndLost(es + more, c);
  }

  lemma {:induction false} LostStays(es: seq<Event>, more: seq<Event>, c: nat)
    requires c in Run(es).lost
    ensures c in Run(es + more).lost
    decreases |more|
  {
    hide Step;
    if more == [] {
      assert es + more == es;
    } else {
      var all, front := es + more, more[..|more| - 1];
      assert all[..|all| - 1] == es + front;
      LostStays(es, front, c);
      StepGone(Run(es + front), all[|all| - 1]);
    }
  }

  // ----- Handlers that do not overlap

  /** No handler begins while another one for the same topic is at work. */
  ghost predicate Alone(s: State, e: Event) {
    e.Arrive? ==> forall h :: h in s.handlers ==> s.handlers[h].topic != e.topic
  }

  ghost predicate OneAtATime(es: seq<Event>) {
    forall i :: 0 <= i < |es| ==> Alone(Run(es[..i]), es[i])
  }

  /** A topic has one handler, and no job between its cancel and its install. */
  ghost predicate Orderly(s: State) {
    && (forall h, g :: h in s.handlers && g in s.handlers && h != g ==> s.handlers[h].topic != s.handlers[g].topic)
    && (forall h :: h in s.handlers && !s.handlers[h].phase.Begun? && !s.handlers[h].phase.Installed? ==>
          s.handlers[h].topic !in s.jobs)
  }

  lemma StepOrderly(s: State, e: Event)
    requires Orderly(s) && Alone(s, e)
    ensures Orderly(Step(s, e)) && !Overwrites(s, e)
  {}

  lemma {:induction false} RunOrderly(es: seq<Event>)
    requires OneAtATime(es)
    ensures Orderly(Run(es)) && Run(es).lost == {}
    decreases |es|
  {
    hide Step, Orderly, Overwrites, Alone;
    if es == [] {
      InitialOrderly();
    } else {
      var front, e := es[..|es| - 1], es[|es| - 1];
      assert forall i :: 0 <= i < |front| ==> front[..i] == es[..i] && front[i] == es[i];
      RunOrderly(front);
      assert Alone(Run(es[..|es| - 1]), es[|es| - 1]);
      StepOrderly(Run(front), e);
      OverwriteLoses(Run(front), e);
    }
  }

  lemma InitialOrderly()
    ensures Orderly(INITIAL)
  {}

  /** If handlers of a topic never overlap, uncancelled resend goroutines are exactly the map's entries. */
  lemma UncancelledAreJobs(es: seq<Event>, c: nat)
    requires OneAtATime(es)
    ensures Uncancelled(Run(es), c) <==> exists t :: t in Run(es).jobs && Run(es).jobs[t] == c
  {
    hide Run, Uncancelled;
    RunOrderly(es);
    UncancelledAreJobsAndLost(es, c);
  }

  /** Then shutdown leaves no resend goroutine uncancelled. */
  lemma ShutdownCancelsAll(es: seq<Event>, c: nat)
    requires OneAtATime(es)
    ensures !Uncancelled(Run(es + [Shutdown]), c)
  {
    hide Uncancelled;
    RunOrderly(es);
    assert (es + [Shutdown])[..|es|] == es;
    UncancelledAreJobsAndLost(es + [Shutdown], c);
  }

  // ----- When shutdown is final

  ghost predicate NoArrivals(es: seq<Event>) {
    forall i :: 0 <= i < |es| ==> !es[i].Arrive?
  }

  /** A handler that will not install a job any more: its message is not indefinite, or its job is installed. */
  predicate Settled(h: Handler) {
    !h.indefinite || h.phase.Installed?
  }

  /** Only indefinite messages make channels. */
  ghost predicate OnlyIndefiniteMake(s: State) {
    forall h :: h in s.handlers && (s.handlers[h].phase.Sent? || HasChannel(s.handlers[h].phase)) ==>
        s.handlers[h].indefinite
  }

  lemma {:induction false} RunOnlyIndefiniteMake(es: seq<Event>)
    ensures OnlyIndefiniteMake(Run(es))
    decreases |es|
  {
    hide Step, OnlyIndefiniteMake;
    if es == [] {
      InitialOnlyIndefiniteMake();
    } else {
      RunOnlyIndefiniteMake(es[..|es| - 1]);
      StepOnlyIndefiniteMake(Run(es[..|es| - 1]), es[|es| - 1]);
    }
  }

  lemma InitialOnlyIndefiniteMake()
    ensures OnlyIndefiniteMake(INITIAL)
  {}

  lemma StepOnlyIndefiniteMake(s: State, e: Event)
    requires OnlyIndefiniteMake(s)
    ensures OnlyIndefiniteMake(Step(s, e))
  {}

  /** Nothing is left to cancel and no handler will add anything. */
  ghost predicate Quiet(s: State) {
    && s.jobs == map[] && s.lost == {} && OnlyIndefiniteMake(s)
    && forall h :: h in s.handlers ==> Settled(s.handlers[h])
  }

  lemma StepQuiet(s: State, e: Event)
    requires Quiet(s) && !e.Arrive?
    ensures Quiet(Step(s, e))
  {}

  lemma {:induction false} StaysQuiet(es: seq<Event>, more: seq<Event>)
    requires Quiet(Run(es)) && NoArrivals(more)
    ensures Quiet(Run(es + more))
    decreases |more|
  {
    hide Step, Quiet;
    if more == [] {
      assert es + more == es;
    } else {
      var front := more[..|more| - 1];
      assert forall i :: 0 <= i < |front| ==> front[i] == more[i];
      StaysQuiet(es, front);
      assert (es + more)[..|es + more| - 1] == es + front;
      StepQuiet(Run(es + front), more[|more| - 1]);
    }
  }

  /** An unsettled handler can go on to install its job. */
  lemma {:induction false} InstallsLater(es: seq<Event>, h: nat) returns (more: seq<Event>, c: nat)
    requires h in Run(es).handlers && !Settled(Run(es).handlers[h])
    ensures NoArrivals(more) && c in Run(es + more).jobs.Values
    decreases match Run(es).handlers[h].phase
              case Begun => 3 case Cancelled => 2 case Sent => 1 case Made(_) => 0 case Installed(_) => 0
  {
    hide Run;
    var s := Run(es);
    var e := match s.handlers[h].phase
      case Begun => Cancel(h)
      case Cancelled => Send(h, true)
      case Sent => Make(h)
      case _ => Install(h);
    RunMore(es, e);
    if s.handlers[h].phase.Made? {
      more, c := [e], s.handlers[h].phase.channel;
      assert Run(es + [e]).jobs[s.handlers[h].topic] == c;
    } else {
      more, c := InstallsLater(es + [e], h);
      assert es + [e] + more == es + ([e] + more);
      more := [e] + more;
    }
  }

  ghost predicate FinalShutdown(es: seq<Event>) {
    forall more, c :: NoArrivals(more) ==> !Uncancelled(Run(es + [Shutdown] + more), c)
  }

  /** Without new messages nothing resends after shutdown, ever, exactly if no entry was overwritten before it and
      every handler at work is settled. */
  lemma ShutdownIsFinalIff(es: seq<Event>)
    ensures FinalShutdown(es)
            <==> Run(es).lost == {} && forall h :: h in Run(es).handlers ==> Settled(Run(es).handlers[h])
  {
    hide Run, Uncancelled, NoArrivals, Settled;
    var s, after := Run(es), es + [Shutdown];
    RunMore(es, Shutdown);
    if s.lost == {} && forall h :: h in s.handlers ==> Settled(s.handlers[h]) {
      RunOnlyIndefiniteMake(es);
      forall more, c | NoArrivals(more) ensures !Uncancelled(Run(after + more), c) {
        StaysQuiet(after, more);
        UncancelledAreJobsAndLost(after + more, c);
      }
    }
    if FinalShutdown(es) {
      if c :| c in s.lost {
        assert NoArrivals([]) by { NothingArrives(); }
        LostForever(after, [], c);
      }
      forall h | h in s.handlers ensures Settled(s.handlers[h]) {
        if !Settled(s.handlers[h]) {
          var more, c := InstallsLater(after, h);
          UncancelledAreJobsAndLost(after + more, c);
        }
      }
    }
  }

  lemma NothingArrives()
    ensures NoArrivals([])
  {}

  // ----- What becomes of a message

  /** What handler h is, as far as the run goes: it arrived at i with this topic and kind, and from then on its own
      events took it where it is. */
  ghost predicate Arrived(es: seq<Event>, h: nat, i: nat) {
    && i < |es| && h in Run(es).handlers
    && es[i] == Arrive(h, Run(es).handlers[h].topic, Run(es).handlers[h].indefinite)
  }

  /** Its send succeeded at j. */
  ghost predicate SentAt(es: seq<Event>, h: nat, i: nat, j: nat) {
    i < j < |es| && es[j] == Send(h, true) && At(Run(es[..j]), h, Cancelled)
  }

  predicate PastSend(p: Phase) {
    p.Sent? || p.Made? || p.Installed?
  }

  /** Every handler at work has arrived, and one that is past its send is of an indefinite message whose send
      succeeded. */
  ghost predicate Accountable(es: seq<Event>, h: nat) {
    exists i :: Arrived(es, h, i) && (PastSend(Run(es).handlers[h].phase) ==>
      Run(es).handlers[h].indefinite && exists j :: SentAt(es, h, i, j))
  }

  lemma SentAtMore(es: seq<Event>, e: Event, h: nat, i: nat, j: nat)
    requires SentAt(es, h, i, j)
    ensures SentAt(es + [e], h, i, j)
  {
    hide Run;
    assert (es + [e])[..j] == es[..j];
  }

  lemma StepAccountable(es: seq<Event>, e: Event, h: nat)
    requires h in Run(es).handlers ==> Accountable(es, h)
    requires h in Run(es + [e]).handlers
    ensures Accountable(es + [e], h)
  {
    hide Run, SentAt;
    RunMore(es, e);
    var s, t := Run(es), Run(es + [e]);
    if h !in s.handlers {
      assert Arrived(es + [e], h, |es|);
    } else {
      var i :| Arrived(es, h, i) && (PastSend(s.handlers[h].phase) ==>
        s.handlers[h].indefinite && exists j :: SentAt(es, h, i, j));
      assert Arrived(es + [e], h, i);
      if PastSend(s.handlers[h].phase) {
        var j :| SentAt(es, h, i, j);
        SentAtMore(es, e, h, i, j);
      } else if PastSend(t.handlers[h].phase) {
        assert e == Send(h, true);
        JustSent(es, h, i);
      }
    }
  }

  lemma JustSent(es: seq<Event>, h: nat, i: nat)
    requires i < |es| && At(Run(es), h, Cancelled)
    ensures SentAt(es + [Send(h, true)], h, i, |es|)
  {
    hide Run;
    assert (es + [Send(h, true)])[..|es|] == es;
  }

  lemma {:induction false} RunAccountable(es: seq<Event>, h: nat)
    requires h in Run(es).handlers
    ensures Accountable(es, h)
    decreases |es|
  {
    hide Step, Accountable;
    if es == [] {
      EmptyRun();
    } else {
      var front, e := es[..|es| - 1], es[|es| - 1];
      assert es == front + [e];
      if h in Run(front).handlers {
        RunAccountable(front, h);
      }
      StepAccountable(front, e, h);
    }
  }

  /** Every job of the map was installed for an indefinite message on its topic whose send had succeeded. */
  ghost predicate Earned(es: seq<Event>, topic: Topic) {
    exists h, i, j :: 0 <= i < j < |es| && es[i] == Arrive(h, topic, true) && es[j] == Send(h, true)
                      && At(Run(es[..j]), h, Cancelled)
  }

  lemma EarnedMore(es: seq<Event>, e: Event, topic: Topic)
    requires Earned(es, topic)
    ensures Earned(es + [e], topic)
  {
    hide Run;
    var h, i, j :| 0 <= i < j < |es| && es[i] == Arrive(h, topic, true) && es[j] == Send(h, true)
                   && At(Run(es[..j]), h, Cancelled);
    assert (es + [e])[..j] == es[..j] && (es + [e])[i] == es[i] && (es + [e])[j] == es[j];
  }

  lemma HandlerEarns(es: seq<Event>, h: nat)
    requires h in Run(es).handlers && Run(es).handlers[h].phase.Made?
    ensures Earned(es, Run(es).handlers[h].topic)
  {
    RunAccountable(es, h);
    hide Run;
    var i: nat :| Arrived(es, h, i) && (PastSend(Run(es).handlers[h].phase) ==>
      Run(es).handlers[h].indefinite && exists j :: SentAt(es, h, i, j));
    var j: nat :| SentAt(es, h, i, j);
    assert es[i] == Arrive(h, Run(es).handlers[h].topic, true);
  }

  lemma {:induction false} JobsAreEarned(es: seq<Event>, topic: Topic)
    requires topic in Run(es).jobs
    ensures Earned(es, topic)
    decreases |es|
  {
    hide Earned;
    if es == [] {
      EmptyRun();
    } else {
      var front, e := es[..|es| - 1], es[|es| - 1];
      assert es == front + [e];
      if topic in Run(front).jobs {
        JobsAreEarned(front, topic);
      } else {
        HandlerEarns(front, e.h);
      }
      EarnedMore(front, e, topic);
    }
  }

  /** A handler whose send failed is gone: it never makes or installs a channel, whatever comes. */
  lemma {:induction false} FailedSendIsOver(es: seq<Event>, h: nat, more: seq<Event>)
    requires At(Run(es), h, Cancelled)
    requires forall i :: 0 <= i < |more| ==> !(more[i].Arrive? && more[i].h == h)
    ensures h !in Run(es + [Send(h, false)] + more).handlers
    decreases |more|
  {
    hide Run;
    if more == [] {
      RunMore(es, Send(h, false));
      assert es + [Send(h, false)] + more == es + [Send(h, false)];
    } else {
      var front, e := more[..|more| - 1], more[|more| - 1];
      FailedSendIsOver(es, h, front);
      RunMore(es + [Send(h, false)] + front, e);
      assert es + [Send(h, false)] + more == es + [Send(h, false)] + front + [e];
    }
  }

  /** The steps of one handler that nothing interrupts. */
  function Handling(h: nat, topic: Topic, indefinite: bool, ok: bool): seq<Event> {
    [Arrive(h, topic, indefinite), Cancel(h), Send(h, ok), Make(h), Install(h), Spawn(h)]
  }

  /** A whole message: the old chain of the topic is cancelled in any case; if the send succeeds and the message is
      indefinite, there is a new job with a new channel and a goroutine for it, and otherwise neither. */
  lemma MessageHandled(es: seq<Event>, h: nat, topic: Topic, indefinite: bool, ok: bool)
    requires h !in Run(es).handlers
    ensures var s, t := Run(es), Run(es + Handling(h, topic, indefinite, ok));
            && t.handlers == s.handlers
            && t.closed == s.closed + (if topic in s.jobs then {s.jobs[topic]} else {})
            && t.lost == s.lost
            && (if ok && indefinite then
                  t.jobs == s.jobs[topic := s.made] && t.made == s.made + 1 && t.resenders == s.resenders + {s.made}
                else
                  t.jobs == s.jobs - {topic} && t.made == s.made && t.resenders == s.resenders)
  {
    hide Run, CancelJob;
    var e3 := es + [Arrive(h, topic, indefinite)] + [Cancel(h)] + [Send(h, ok)];
    assert es + Handling(h, topic, indefinite, ok) == e3 + [Make(h), Install(h), Spawn(h)];
    BeginHandling(es, h, topic, indefinite, ok);
    FinishHandling(e3, h);
    assert (Run(es).jobs - {topic})[topic := Run(es).made] == Run(es).jobs[topic := Run(es).made];
  }

  /** The beginning of a handler, up to its send. */
  lemma BeginHandling(es: seq<Event>, h: nat, topic: Topic, indefinite: bool, ok: bool)
    requires h !in Run(es).handlers
    ensures var s, t := Run(es), Run(es + [Arrive(h, topic, indefinite)] + [Cancel(h)] + [Send(h, ok)]);
            && t == s.(jobs := t.jobs, closed := t.closed, panicked := t.panicked, handlers := t.handlers)
            && t.jobs == s.jobs - {topic} && t.closed == s.closed + (if topic in s.jobs then {s.jobs[topic]} else {})
            && (if ok && indefinite then
                  h in t.handlers && t.handlers[h] == Handler(topic, true, Sent) && t.handlers - {h} == s.handlers
                else t.handlers == s.handlers)
  {
    hide Run, CancelJob;
    var e1 := es + [Arrive(h, topic, indefinite)];
    var e2 := e1 + [Cancel(h)];
    RunMore(es, Arrive(h, topic, indefinite));
    RunMore(e1, Cancel(h));
    RunMore(e2, Send(h, ok));
    CancelEffect(Run(e1), topic);
    var t := Run(e2 + [Send(h, ok)]);
    assert t.handlers - {h} == Run(es).handlers;
    assert h !in t.handlers ==> t.handlers - {h} == t.handlers;
  }

  lemma CancelEffect(s: State, topic: Topic)
    ensures var t := CancelJob(s, topic);
            && t.jobs == s.jobs - {topic} && t.closed == s.closed + (if topic in s.jobs then {s.jobs[topic]} else {})
            && t == s.(jobs := t.jobs, closed := t.closed, panicked := t.panicked)
  {
    assert topic !in s.jobs ==> s.jobs - {topic} == s.jobs;
  }

  /** The end of a handler, if it got past its send. */
  lemma FinishHandling(es: seq<Event>, h: nat)
    requires h in Run(es).handlers ==> Run(es).handlers[h].phase.Sent? && Run(es).handlers[h].topic !in Run(es).jobs
    ensures var s, t := Run(es), Run(es + [Make(h), Install(h), Spawn(h)]);
            if h in s.handlers then
              t == s.(jobs := s.jobs[s.handlers[h].topic := s.made], made := s.made + 1,
                      resenders := s.resenders + {s.made}, handlers := s.handlers - {h})
            else t == s
  {
    hide Run;
    assert es + [Make(h), Install(h), Spawn(h)] == es + [Make(h)] + [Install(h)] + [Spawn(h)];
    RunMore(es, Make(h));
    RunMore(es + [Make(h)], Install(h));
    RunMore(es + [Make(h)] + [Install(h)], Spawn(h));
    var t := Run(es + [Make(h)] + [Install(h)] + [Spawn(h)]);
    assert t.handlers == if h in Run(es).handlers then Run(es).handlers - {h} else Run(es).handlers;
    assert t.lost == Run(es).lost;
  }

  /** A resend goroutine exits once its channel is closed, and not before. */
  lemma ExitsWhenClosed(es: seq<Event>, c: nat)
    ensures Run(es + [Exit(c)]).resenders ==
              if c in Run(es).closed then Run(es).resenders - {c} else Run(es).resenders
  {
    RunMore(es, Exit(c));
  }

  // ----- What can go wrong otherwise

  /** Two handlers of one topic that have both made their channels: whichever installs last, the other's goroutine
      is never cancelled, whatever happens later, shutdown included. */
  lemma OverlapLeaks(es: seq<Event>, h: nat, g: nat, more: seq<Event>)
    requires h != g && h in Run(es).handlers && g in Run(es).handlers
    requires Run(es).handlers[h].phase.Made? && Run(es).handlers[g].phase.Made?
    requires Run(es).handlers[h].topic == Run(es).handlers[g].topic
    ensures Uncancelled(Run(es + [Install(h), Install(g)] + more), Run(es).handlers[h].phase.channel)
  {
    hide Run, Uncancelled;
    RunMore(es, Install(h));
    RunMore(es + [Install(h)], Install(g));
    assert es + [Install(h)] + [Install(g)] == es + [Install(h), Install(g)];
    LostForever(es + [Install(h), Install(g)], more, Run(es).handlers[h].phase.channel);
  }

  lemma RunMore(es: seq<Event>, e: Event)
    ensures Run(es + [e]) == Step(Run(es), e)
  {
    assert (es + [e])[..|es|] == es;
  }

  /** Two messages on one topic whose handlers overlap get there. */
  lemma OverlapHappens(topic: Topic)
    ensures var s := Run([Arrive(1, topic, true), Cancel(1), Send(1, true), Make(1),
                          Arrive(2, topic, true), Cancel(2), Send(2, true), Make(2)]);
            s.handlers == map[1 := Handler(topic, true, Made(0)), 2 := Handler(topic, true, Made(1))]
  {
    hide Run;
    var es := Quick([], 1, topic);
    assert Run([]) == INITIAL by { EmptyRun(); }
    QuickMakes([], 1, topic);
    QuickMakes(es, 2, topic);
    assert Quick(es, 2, topic) == [Arrive(1, topic, true), Cancel(1), Send(1, true), Make(1),
                                   Arrive(2, topic, true), Cancel(2), Send(2, true), Make(2)];
  }

  function Quick(es: seq<Event>, h: nat, topic: Topic): seq<Event> {
    es + [Arrive(h, topic, true)] + [Cancel(h)] + [Send(h, true)] + [Make(h)]
  }

  lemma QuickMakes(es: seq<Event>, h: nat, topic: Topic)
    requires h !in Run(es).handlers && topic !in Run(es).jobs
    ensures var s := Run(Quick(es, h, topic));
            && s.handlers == Run(es).handlers[h := Handler(topic, true, Made(Run(es).made))]
            && s.made == Run(es).made + 1 && s.jobs == Run(es).jobs
  {
    hide Run;
    RunMore(es, Arrive(h, topic, true));
    RunMore(es + [Arrive(h, topic, true)], Cancel(h));
    RunMore(es + [Arrive(h, topic, true)] + [Cancel(h)], Send(h, true));
    RunMore(es + [Arrive(h, topic, true)] + [Cancel(h)] + [Send(h, true)], Make(h));
  }

  lemma EmptyRun()
    ensures Run([]) == INITIAL
  {}

  /** A handler that installs its job after shutdown leaves it uncancelled too. */
  lemma LateInstallSurvives(es: seq<Event>, h: nat)
    requires h in Run(es).handlers && Run(es).handlers[h].phase.Made?
    ensures Uncancelled(Run(es + [Shutdown, Install(h)]), Run(es).handlers[h].phase.channel)
  {
    hide Run, Uncancelled;
    RunMore(es, Shutdown);
    RunMore(es + [Shutdown], Install(h));
    assert es + [Shutdown] + [Install(h)] == es + [Shutdown, Install(h)];
    var t := Run(es + [Shutdown, Install(h)]);
    assert t.jobs[Run(es).handlers[h].topic] == Run(es).handlers[h].phase.channel;
    UncancelledAreJobsAndLost(es + [Shutdown, Install(h)], Run(es).handlers[h].phase.channel);
  }

  /** One message whose handler is between making and installing its channel at shutdown gets there. */
  lemma LateInstallHappens(topic: Topic)
    ensures Uncancelled(Run([Arrive(1, topic, true), Cancel(1), Send(1, true), Make(1), Shutdown, Install(1)]), 0)
  {
    hide Run, Uncancelled;
    assert Run([]) == INITIAL by { EmptyRun(); }
    QuickMakes([], 1, topic);
    LateInstallSurvives(Quick([], 1, topic), 1);
    assert Quick([], 1, topic) + [Shutdown, Install(1)]
        == [Arrive(1, topic, true), Cancel(1), Send(1, true), Make(1), Shutdown, Install(1)];
  }

  /** The bridge cancels before it sends, so a failed send leaves the topic without its chain. */
  lemma FailedSendEndsChain(es: seq<Event>, h: nat, topic: Topic, indefinite: bool)
    requires h !in Run(es).handlers
    ensures Run(es + [Arrive(h, topic, indefinite)] + [Cancel(h)] + [Send(h, false)]).jobs == Run(es).jobs - {topic}
  {
    hide Run;
    RunMore(es, Arrive(h, topic, indefinite));
    RunMore(es + [Arrive(h, topic, indefinite)], Cancel(h));
    RunMore(es + [Arrive(h, topic, indefinite)] + [Cancel(h)], Send(h, false));
    assert topic !in Run(es).jobs ==> Run(es).jobs - {topic} == Run(es).jobs;
  }

  // ----- The critical sections on the bridge's own fields

  /** Closing the channels of these topics closes one that was closed, or one twice. */
  ghost predicate Clash(jobs: map<Topic, nat>, topics: set<Topic>, closed: set<nat>)
    requires topics <= jobs.Keys
  {
    || (exists t :: t in topics && jobs[t] in closed)
    || (exists t, u :: t in topics && u in topics && t != u && jobs[t] == jobs[u])
  }

  function Channels(jobs: map<Topic, nat>, topics: set<Topic>): set<nat>
    requires topics <= jobs.Keys
  {
    set t | t in topics :: jobs[t]
  }

  lemma ClashMore(jobs: map<Topic, nat>, topics: set<Topic>, closed: set<nat>, topic: Topic)
    requires topics <= jobs.Keys && topic in jobs && topic !in topics
    ensures Channels(jobs, topics + {topic}) == Channels(jobs, topics) + {jobs[topic]}
    ensures Clash(jobs, topics + {topic}, closed) <==>
              Clash(jobs, topics, closed) || jobs[topic] in closed + Channels(jobs, topics)
  {
    var more := topics + {topic};
    assert topic in more;
    if jobs[topic] in Channels(jobs, topics) {
      var t :| t in topics && jobs[t] == jobs[topic];
      assert t in more && t != topic;
    }
  }

  lemma Remaining(jobs: map<Topic, nat>, done: set<Topic>, topic: Topic)
    requires done <= jobs.Keys && topic in jobs - done
    ensures (jobs - done) - {topic} == jobs - (done + {topic})
    ensures done + {topic} <= jobs.Keys && jobs.Keys - (done + {topic}) < jobs.Keys - done
  {}

  lemma NoneRemaining(jobs: map<Topic, nat>, done: set<Topic>)
    requires done <= jobs.Keys && (jobs - done).Keys == {}
    ensures done == jobs.Keys && jobs - done == map[]
  {
    assert forall t :: t in jobs && t !in done ==> t in (jobs - done).Keys;
  }

  lemma NothingClosed(jobs: map<Topic, nat>, closed: set<nat>)
    ensures Channels(jobs, {}) == {} && !Clash(jobs, {}, closed)
  {}

  lemma CloseAllCloses(s: State)
    ensures CloseAll(s) == s.(jobs := map[], closed := s.closed + Channels(s.jobs, s.jobs.Keys),
                              panicked := s.panicked || Clash(s.jobs, s.jobs.Keys, s.closed))
  {
    assert Channels(s.jobs, s.jobs.Keys) == s.jobs.Values;
  }

  class Jobs {
    var indefiniteJobs: map<Topic, nat>
    /** What close did: the closed channels, and whether one was closed again. */
    var closed: set<nat>
    var panicked: bool

    /** A state with these fields. */
    ghost function Into(s: State): State
      reads this
    {
      s.(jobs := indefiniteJobs, closed := closed, panicked := panicked)
    }

    method Close(channel: nat)
      modifies this`closed, this`panicked
      ensures panicked == (old(panicked) || channel in old(closed)) && closed == old(closed) + {channel}
    {
      if channel in closed {
        panicked := true;
      }
      closed := closed + {channel};
    }

    method CancelIndefinite(topic: Topic)
      modifies this
      ensures forall s: State :: Into(s) == CancelJob(old(Into(s)), topic)
    {
      if topic in indefiniteJobs {
        Close(indefiniteJobs[topic]);
        indefiniteJobs := indefiniteJobs - {topic};
      }
    }

    /** The critical section of startIndefinite. */
    method Install(topic: Topic, channel: nat)
      modifies this
      ensures forall s: State :: Into(s) == InstallJob(old(Into(s)), topic, channel).(lost := s.lost)
    {
      indefiniteJobs := indefiniteJobs[topic := channel];
    }

    /** The critical section of Run at shutdown. */
    method CloseJobs()
      modifies this
      ensures forall s: State :: Into(s) == CloseAll(old(Into(s)))
    {
      hide Clash, Channels, CloseAll;
      ghost var all, done := indefiniteJobs, {};
      NothingClosed(all, closed);
      while indefiniteJobs.Keys != {}
        invariant done <= all.Keys && indefiniteJobs == all - done
        invariant closed == old(closed) + Channels(all, done)
        invariant panicked == (old(panicked) || Clash(all, done, old(closed)))
        decreases all.Keys - done
      {
        var topic :| topic in indefiniteJobs;
        ClashMore(all, done, old(closed), topic);
        Close(indefiniteJobs[topic]);
        Remaining(all, done, topic);
        indefiniteJobs := indefiniteJobs - {topic};
        done := done + {topic};
      }
      NoneRemaining(all, done);
      forall s: State ensures Into(s) == CloseAll(old(Into(s))) {
        CloseAllCloses(old(Into(s)));
      }
    }
  }
}
