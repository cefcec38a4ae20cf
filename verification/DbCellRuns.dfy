/** Whole runs of the two threads: every interleaving of their steps, timeouts and lost notifications included. */
module DbCellRuns {
  import opened DbCellLists

  function Run(s: System, events: seq<Event>): System
    requires Inv(s)
    decreases |events|
  {
    if events == [] then s
    else
      StepInv(s, events[0]);
      Run(Step(s, events[0]), events[1..])
  }

  lemma {:induction false} RunInv(s: System, events: seq<Event>)
    requires Inv(s)
    ensures Inv(Run(s, events))
    decreases |events|
  {
    hide Inv, Step;
    if events != [] {
      StepInv(s, events[0]);
      RunInv(Step(s, events[0]), events[1..]);
    }
  }

  lemma StartInv(initial: nat)
    ensures Inv(Start(initial))
  {
    hide Count;
    var s := Start(initial);
    forall c: cell
      ensures Tally(s, c) == if c < initial then 1 else 0
    {
      CountFresh(initial, c);
      CountOne(0, c);
    }
    assert InTransit(s) == [];
  }

  lemma {:induction false} CountFresh(n: nat, c: cell)
    ensures Count(seq(n, i => i), c) == if c < n then 1 else 0
  {
    if n > 0 {
      CountFresh(n - 1, c);
      CountBack(seq(n - 1, i => i), n - 1, c);
      CountOne(n - 1, c);
      assert seq(n, i => i) == seq(n - 1, i => i) + [n - 1];
    }
  }

  // ---------- Safety ----------

  /**
   * In every run the packets delivered, then those in the consumer's hand, the read list and the write list, are the
   * packets pushed: each once, in order, and with the bytes that were pushed although cells are used again.
   */
  lemma PacketsInOrder(initial: nat, events: seq<Event>)
    ensures Inv(Start(initial))
    ensures var s := Run(Start(initial), events);
            s.pushed == s.delivered + Contents(s.lists.data, HeldCells(s)) + Contents(s.lists.data, s.lists.Read())
                        + Contents(s.lists.data, s.lists.Write())
  {
    hide Contents, Run;
    StartInv(initial);
    RunInv(Start(initial), events);
    var s := Run(Start(initial), events);
    assert s.delivered + InTransit(s)
        == s.delivered + Contents(s.lists.data, HeldCells(s)) + Contents(s.lists.data, s.lists.Read())
           + Contents(s.lists.data, s.lists.Write());
  }

  /**
   * The lists are swapped only when the read list is empty and the write list is not; the front is taken only of a
   * list that has one.
   */
  lemma ExchangeGuarded(initial: nat, events: seq<Event>)
    ensures Inv(Start(initial))
    ensures var s := Run(Start(initial), events);
            && (s.consumer.Exchanging? ==> s.lists.Read() == [] && s.lists.Write() != [])
            && (s.consumer.Ready? ==> s.lists.Read() != [])
  {
    hide Run, Owned, Ordered, Thrifty;
    StartInv(initial);
    RunInv(Start(initial), events);
  }

  /**
   * In every run each allocated cell is in exactly one place, and as many are allocated as Init asked or the peak
   * demand needed.
   */
  lemma CellsOwned(initial: nat, events: seq<Event>)
    ensures Inv(Start(initial))
    ensures var s := Run(Start(initial), events);
            && (forall c: cell :: Tally(s, c) == if c < |s.lists.data| then 1 else 0)
            && |s.lists.data| == Max(initial, s.peak)
  {
    hide Run;
    StartInv(initial);
    RunInv(Start(initial), events);
    InitialKept(Start(initial), events);
  }

  lemma {:induction false} InitialKept(s: System, events: seq<Event>)
    requires Inv(s)
    ensures Run(s, events).initial == s.initial
    decreases |events|
  {
    hide Inv;
    if events != [] {
      StepInv(s, events[0]);
      InitialKept(Step(s, events[0]), events[1..]);
    }
  }

  // ---------- Progress ----------

  predicate Undelivered(s: System) {
    |s.delivered| < |s.pushed|
  }

  /** At most so many steps of the consumer until the oldest packet is delivered. */
  function Distance(s: System): nat {
    match s.consumer
    case Holding(_) => 1
    case Ready => 2
    case Exchanging => 3
    case Signalled => 4
    case TimedOut => 4
    case Waiting => 5
    case FlagUp => 6
    case Fetching => if s.lists.Read() == [] then 7 else 3
    case Processed(_) => 8
  }

  /** A step of the consumer delivers a packet or brings it closer. */
  lemma ConsumeCloser(s: System)
    requires Inv(s) && Undelivered(s)
    ensures var t := Step(s, Consume);
            t.pushed == s.pushed && (t.delivered == s.delivered ==> Distance(t) < Distance(s))
    ensures |Step(s, Consume).delivered| >= |s.delivered|
  {
    hide Owned, Contents, Thrifty;
    if s.consumer.TimedOut? {
      assert s.lists.Read() == [];
      assert |InTransit(s)| == |s.lists.Write()|;
    }
  }

  /** No step of the producer delays it. */
  lemma ProduceNoFarther(s: System, e: Event)
    requires Inv(s) && !e.Consume?
    ensures var t := Step(s, e); t.delivered == s.delivered && s.pushed <= t.pushed && Distance(t) <= Distance(s)
  {
    hide Owned, Ordered, Contents, Thrifty;
  }

  function ConsumerSteps(events: seq<Event>): nat {
    if events == [] then 0 else (if events[0].Consume? then 1 else 0) + ConsumerSteps(events[1..])
  }

  lemma {:induction false} RunGrows(s: System, events: seq<Event>)
    requires Inv(s)
    ensures |Run(s, events).delivered| >= |s.delivered| && s.pushed <= Run(s, events).pushed
    decreases |events|
  {
    hide Inv, Step;
    if events != [] {
      StepInv(s, events[0]);
      StepGrows(s, events[0]);
      RunGrows(Step(s, events[0]), events[1..]);
    }
  }

  lemma StepGrows(s: System, e: Event)
    requires Inv(s)
    ensures |Step(s, e).delivered| >= |s.delivered| && s.pushed <= Step(s, e).pushed
  {
    hide Owned, Ordered, Contents, Thrifty;
  }

  /**
   * No packet is stranded: from any reachable state with k packets undelivered, 8 k steps of the consumer deliver
   * them, however the producer's steps fall between and whether its notifications arrive or are lost.
   */
  lemma {:induction false} NoneStranded(s: System, events: seq<Event>, k: nat)
    requires Inv(s) && |s.delivered| + k <= |s.pushed|
    requires k > 0 ==> ConsumerSteps(events) >= Distance(s) + 8 * (k - 1)
    ensures |Run(s, events).delivered| >= |s.delivered| + k
    decreases |events|
  {
    hide Inv, Step, Distance;
    DistancePositive(s);
    if k == 0 {
      RunGrows(s, events);
    } else {
      var e, t := events[0], Step(s, events[0]);
      StepInv(s, e);
      StepGrows(s, e);
      DistancePositive(t);
      if e.Consume? {
        ConsumeCloser(s);
        DeliversOne(s);
        NoneStranded(t, events[1..], if t.delivered == s.delivered then k else k - 1);
      } else {
        ProduceNoFarther(s, e);
        NoneStranded(t, events[1..], k);
      }
    }
  }

  lemma DistancePositive(s: System)
    ensures 1 <= Distance(s) <= 8
  {
  }

  lemma DeliversOne(s: System)
    requires Inv(s)
    ensures Step(s, Consume).delivered == s.delivered || |Step(s, Consume).delivered| == |s.delivered| + 1
  {
    hide Owned, Ordered, Contents, Thrifty;
  }

  /** Delivered packets are a prefix of the pushed ones. */
  lemma DeliveredPrefix(s: System)
    requires Inv(s)
    ensures s.delivered <= s.pushed
  {
    hide Owned, Contents, Placed, Thrifty;
  }

  /**
   * After 8 steps of the consumer for each packet undelivered now, every packet pushed so far has been delivered,
   * in order.
   */
  lemma AllDelivered(s: System, events: seq<Event>)
    requires Inv(s) && ConsumerSteps(events) >= 8 * (|s.pushed| - |s.delivered|)
    ensures s.pushed <= Run(s, events).delivered
  {
    hide Inv, Step, Distance, Run, ConsumerSteps;
    DeliveredPrefix(s);
    DistancePositive(s);
    NoneStranded(s, events, |s.pushed| - |s.delivered|);
    RunGrows(s, events);
    RunInv(s, events);
    DeliveredPrefix(Run(s, events));
  }

  // ---------- Notification ----------

  /** Steps of the consumer alone. */
  function Consumes(n: nat): (events: seq<Event>)
    ensures |events| == n && forall i | 0 <= i < n :: events[i] == Consume
  {
    seq(n, _ => Consume)
  }

  /** A push reaches a waiting consumer exactly when more than ten cells wait then, and moves a consumer nowhere else. */
  lemma PushWakesIff(s: System)
    requires Inv(s) && s.producer.Loaded?
    ensures var t := Step(s, Push);
            && |t.lists.Write()| == |s.lists.Write()| + 1
            && t.pushed == s.pushed + [DataOf(s.lists.data, s.producer.c)]
            && (s.consumer.Waiting? ==> t.consumer == if |s.lists.Write()| >= 10 then Signalled else Waiting)
            && (!s.consumer.Waiting? ==> t.consumer == s.consumer)
  {
    hide Owned, Ordered, Contents, Thrifty;
    HandsAllocated(s);
  }

  /** No other step of the producer moves the consumer, and none longer than a cell is loaded. */
  lemma OnlyPushWakes(s: System, e: Event)
    requires Inv(s) && (e.Acquire? || e.Load?)
    ensures Step(s, e).consumer == s.consumer
    ensures e.Load? && s.producer.Acquired? && |e.p| <= 491 ==> Step(s, e).producer == Loaded(s.producer.c)
    ensures e.Load? && |e.p| > 491 ==> Step(s, e).lists == s.lists && Step(s, e).producer == s.producer
  {
    hide Owned, Ordered, Contents, Thrifty, Placed;
  }

  /** The consumer's next steps from a signal on: exchange, take, hand on. */
  lemma SignalDelivers(s: System)
    requires Inv(s) && s.consumer.Signalled?
    ensures |s.delivered| < |s.pushed|
    ensures Run(s, Consumes(1)).consumer == Exchanging && Run(s, Consumes(2)).consumer == Ready
    ensures Run(s, Consumes(3)).consumer.Holding?
    ensures var t := Run(s, Consumes(4));
            && t.consumer.Processed? && t.delivered == s.delivered + [s.pushed[|s.delivered|]] && t.pushed == s.pushed
  {
    hide Inv, Step;
    var s1, s2, s3, s4 := FourSteps(s);
    ExchangeNext(s);
    ExchangeNow(s1);
    TakeNow(s2);
    HandNow(s3);
  }

  lemma FourSteps(s: System) returns (s1: System, s2: System, s3: System, s4: System)
    requires Inv(s)
    ensures Inv(s1) && Inv(s2) && Inv(s3) && Inv(s4)
    ensures s1 == Step(s, Consume) && s2 == Step(s1, Consume) && s3 == Step(s2, Consume) && s4 == Step(s3, Consume)
    ensures Run(s, Consumes(1)) == s1 && Run(s, Consumes(2)) == s2 && Run(s, Consumes(3)) == s3 && Run(s, Consumes(4)) == s4
  {
    hide Inv, Step;
    assert Consumes(0) == [];
    ConsumeFirst(s, 1);
    ConsumeFirst(s, 2);
    ConsumeFirst(s, 3);
    ConsumeFirst(s, 4);
    s1 := Step(s, Consume);
    ConsumeFirst(s1, 1);
    ConsumeFirst(s1, 2);
    ConsumeFirst(s1, 3);
    s2 := Step(s1, Consume);
    ConsumeFirst(s2, 1);
    ConsumeFirst(s2, 2);
    s3 := Step(s2, Consume);
    ConsumeFirst(s3, 1);
    s4 := Step(s3, Consume);
  }

  lemma ConsumeFirst(s: System, n: nat)
    requires Inv(s) && n > 0
    ensures Inv(Step(s, Consume)) && Run(s, Consumes(n)) == Run(Step(s, Consume), Consumes(n - 1))
  {
    hide Inv, Step;
    StepInv(s, Consume);
    assert Consumes(n)[1..] == Consumes(n - 1);
  }

  lemma ExchangeNext(s: System)
    requires Inv(s) && s.consumer.Signalled?
    ensures var t := Step(s, Consume); t.consumer.Exchanging? && t.delivered == s.delivered && t.pushed == s.pushed
  {
    hide Owned, Ordered, Contents, Thrifty;
  }

  lemma ExchangeNow(s: System)
    requires Inv(s) && s.consumer.Exchanging?
    ensures var t := Step(s, Consume); t.consumer.Ready? && t.delivered == s.delivered && t.pushed == s.pushed
  {
    hide Owned, Ordered, Contents, Thrifty;
  }

  lemma TakeNow(s: System)
    requires Inv(s) && s.consumer.Ready?
    ensures var t := Step(s, Consume); t.consumer.Holding? && t.delivered == s.delivered && t.pushed == s.pushed
  {
    hide Owned, Ordered, Contents, Thrifty;
  }

  lemma HandNow(s: System)
    requires Inv(s) && s.consumer.Holding?
    ensures |s.delivered| < |s.pushed|
    ensures var t := Step(s, Consume);
            t.consumer.Processed? && t.delivered == s.delivered + [s.pushed[|s.delivered|]] && t.pushed == s.pushed
  {
    hide Owned, Placed, Thrifty;
    StepInv(s, Consume);
    HandsAllocated(s);
    DeliveredPrefix(Step(s, Consume));
  }

  /**
   * The wake-up: a push into a list that already holds ten cells ends the consumer's wait by a signal, and four steps of
   * the consumer, none of them a timeout, deliver the oldest packet.
   */
  lemma PushDelivers(s: System)
    requires Inv(s) && s.producer.Loaded? && s.consumer.Waiting? && |s.lists.Write()| >= 10
    ensures |s.delivered| < |s.pushed|
    ensures Inv(Step(s, Push)) && Step(s, Push).consumer == Signalled
    ensures Run(Step(s, Push), Consumes(1)).consumer == Exchanging && Run(Step(s, Push), Consumes(2)).consumer == Ready
    ensures Run(Step(s, Push), Consumes(3)).consumer.Holding?
    ensures var t := Run(Step(s, Push), Consumes(4));
            t.consumer.Processed? && t.delivered == s.delivered + [s.pushed[|s.delivered|]]
  {
    hide Inv, Step, Run, Consumes;
    var t := Step(s, Push);
    StepInv(s, Push);
    PushWakesIff(s);
    PushDeliversNone(s);
    SignalDelivers(t);
    WaitingCells(s);
  }

  lemma PushDeliversNone(s: System)
    requires Inv(s) && s.producer.Loaded?
    ensures Step(s, Push).delivered == s.delivered && s.pushed <= Step(s, Push).pushed
  {
    hide Owned, Ordered, Contents, Thrifty, Placed;
  }

  /** Cells in the write list are packets not yet delivered. */
  lemma WaitingCells(s: System)
    requires Inv(s)
    ensures |s.delivered| + |s.lists.Write()| <= |s.pushed|
  {
    hide Owned, Placed, Contents, Thrifty;
  }

  /** A state of a run from the start, where the lemmas above apply. */
  lemma RunsAreSound(initial: nat, events: seq<Event>)
    ensures Inv(Start(initial)) && Inv(Run(Start(initial), events))
  {
    hide Inv, Run;
    StartInv(initial);
    RunInv(Start(initial), events);
  }

  /** Whatever the wait is like, its steps: to a timeout, and on if there is anything to read. */
  lemma WaitSteps(s: System)
    requires Inv(s)
    ensures s.consumer.FlagUp? ==> Step(s, Consume).consumer == Waiting
    ensures s.consumer.Waiting? ==> Step(s, Consume).consumer == TimedOut
    ensures s.consumer.TimedOut? ==> Step(s, Consume).consumer == if s.lists.Write() != [] then Exchanging else FlagUp
    ensures s.consumer.Fetching? ==> Step(s, Consume).consumer == if s.lists.Read() == [] then FlagUp else Ready
    ensures s.consumer.Fetching? ==> Step(s, Consume).lists.flag == (s.lists.Read() == [] || s.lists.flag)
    ensures s.consumer.Processed? ==> Step(s, Consume).lists.idle == s.lists.idle + [s.consumer.c]
  {
    hide Owned, Ordered, Contents, Thrifty;
  }
}
