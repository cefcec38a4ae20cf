/** The double-buffered list of cells: its lists, and the steps that its two threads take on them. */
module DbCellLists {
  import opened Bytes

  const CELL_SIZE := 491
  const MIN_READ_CELL_NUM := 10

  type packet = seq<byte>

  /** Cells are named by the order of their allocation. */
  type cell = nat

  // ---------- The shared lists ----------

  /** Two work lists, the idle list, which work list is the written one, the flag, and the data of the cells. */
  datatype Lists =
    Lists(first: seq<cell>, second: seq<cell>, idle: seq<cell>, writeFirst: bool, flag: bool, data: seq<packet>)
  {
    function Write(): seq<cell> {
      if writeFirst then first else second
    }

    function Read(): seq<cell> {
      if writeFirst then second else first
    }

    /** `PopIdleCell`, with the allocation that follows when it finds nothing. */
    function Acquire(): (Lists, cell) {
      if idle == [] then (this.(data := data + [[]]), |data|)
      else (this.(idle := idle[1..]), idle[0])
    }

    function Load(c: cell, p: packet): Lists
      requires c < |data|
    {
      this.(data := data[c := p])
    }

    function PushWork(c: cell): Lists {
      if writeFirst then this.(first := first + [c]) else this.(second := second + [c])
    }

    /** After a push the waiting reader is notified. */
    predicate Notifies() {
      flag && |Write()| > MIN_READ_CELL_NUM
    }

    /** `ExchangeRwPtr` */
    function Exchange(): Lists {
      this.(writeFirst := !writeFirst, flag := false)
    }

    function RaiseFlag(): Lists {
      this.(flag := true)
    }

    function TakeFront(): (Lists, cell)
      requires Read() != []
    {
      (if writeFirst then this.(second := second[1..]) else this.(first := first[1..]), Read()[0])
    }

    /** `RecycleCell` */
    function Recycle(c: cell): Lists {
      this.(idle := idle + [c])
    }
  }

  function NewLists(initial: nat): Lists {
    Lists([], [], seq(initial, i => i), true, true, seq(initial, _ => []))
  }

  /** The object itself: each method is one section that runs under a lock or on data of a single thread. */
  class DbCellList {
    var workList1: seq<cell>
    var workList2: seq<cell>
    var idleList: seq<cell>
    var writeIsFirst: bool
    var readListEmpty: bool
    var cellData: seq<packet>

    function State(): Lists
      reads this
    {
      Lists(workList1, workList2, idleList, writeIsFirst, readListEmpty, cellData)
    }

    /** Construction and `Init`. */
    constructor (initCellNum: nat)
      ensures State() == NewLists(initCellNum)
      ensures workList1 == [] == workList2 && writeIsFirst && readListEmpty
      ensures |idleList| == initCellNum == |cellData| && forall i | 0 <= i < initCellNum :: idleList[i] == i
    {
      writeIsFirst, readListEmpty := true, true;
      workList1, workList2 := [], [];
      var idle: seq<cell> := [];
      var store: seq<packet> := [];
      var i := 0;
      while i < initCellNum
        invariant i <= initCellNum && idle == seq(i, k => k) && store == seq(i, _ => [])
      {
        idle := idle + [i];
        store := store + [[]];
        i := i + 1;
      }
      idleList := idle;
      cellData := store;
    }

    method AcquireCell() returns (c: cell)
      modifies this
      ensures (State(), c) == old(State().Acquire())
      ensures if old(idleList) == [] then c == old(|cellData|) && idleList == []
              else c == old(idleList)[0] && idleList == old(idleList)[1..] && cellData == old(cellData)
    {
      if |idleList| == 0 {
        c := |cellData|;
        cellData := cellData + [[]];
      } else {
        c := idleList[0];
        idleList := idleList[1..];
      }
    }

    method LoadCell(c: cell, p: packet)
      requires c < |cellData| && |p| <= 491
      modifies this
      ensures State() == old(State().Load(c, p))
    {
      cellData := cellData[c := p];
    }

    method PushCell(c: cell) returns (notify: bool)
      modifies this
      ensures State() == old(State().PushWork(c)) && notify == State().Notifies()
      ensures workList1 == (if writeIsFirst then old(workList1) + [c] else old(workList1))
      ensures workList2 == (if writeIsFirst then old(workList2) else old(workList2) + [c])
      ensures notify <==> readListEmpty && (if writeIsFirst then |workList1| else |workList2|) > 10
    {
      if writeIsFirst {
        workList1 := workList1 + [c];
      } else {
        workList2 := workList2 + [c];
      }
      notify := readListEmpty && (if writeIsFirst then |workList1| else |workList2|) > MIN_READ_CELL_NUM;
    }

    /** `PushPacket`, when the reader does not step in: its three sections in a row. */
    method PushPacket(p: packet) returns (notify: bool)
      requires |p| <= 491 && forall c | c in idleList :: c < |cellData|
      modifies this
      ensures var (lists, c) := old(State().Acquire());
              && c < |lists.data| && State() == lists.Load(c, p).PushWork(c) && notify == State().Notifies()
      ensures notify <==> readListEmpty && (if writeIsFirst then |workList1| else |workList2|) > 10
    {
      assert idleList != [] ==> idleList[0] in idleList;
      var c := AcquireCell();
      LoadCell(c, p);
      notify := PushCell(c);
    }

    method ExchangeRwPtr()
      modifies this
      ensures State() == old(State().Exchange())
      ensures writeIsFirst == !old(writeIsFirst) && !readListEmpty
    {
      writeIsFirst := !writeIsFirst;
      readListEmpty := false;
    }

    method PopFront() returns (c: cell)
      requires State().Read() != []
      modifies this
      ensures (State(), c) == old(State().TakeFront())
      ensures old(if writeIsFirst then workList2 else workList1) == [c] + (if writeIsFirst then workList2 else workList1)
    {
      if writeIsFirst {
        c := workList2[0];
        workList2 := workList2[1..];
      } else {
        c := workList1[0];
        workList1 := workList1[1..];
      }
    }

    method RecycleCell(c: cell)
      modifies this
      ensures State() == old(State().Recycle(c)) && idleList == old(idleList) + [c]
    {
      idleList := idleList + [c];
    }
  }

  // ---------- The two threads ----------

  /** In `PushPacket`: nothing in hand; a cell in hand; the packet copied into it. */
  datatype Producer = Outside | Acquired(c: cell) | Loaded(c: cell)

  /** In `PopAndProcsCell`: where the consumer stands. */
  datatype Consumer =
    | Fetching                // about to look at the read list
    | FlagUp                  // the flag is raised, the lock not yet taken: a notification is lost here
    | Waiting                 // inside the timed wait, lock released
    | TimedOut                // the wait ended by timeout
    | Signalled               // the wait ended by notification
    | Exchanging              // about to swap the lists
    | Ready                   // the loop is left, about to take the front
    | Holding(c: cell)        // a cell in hand
    | Processed(c: cell)      // its packet handed on, about to recycle

  /** The lists, both threads, and for the record: the packets pushed and delivered, Init's count, the peak demand. */
  datatype System = System(lists: Lists, producer: Producer, consumer: Consumer,
                           pushed: seq<packet>, delivered: seq<packet>, initial: nat, peak: nat)

  datatype Event = Acquire | Load(p: packet) | Push | Consume

  function Start(initial: nat): System {
    System(NewLists(initial), Outside, Fetching, [], [], initial, 0)
  }

  /** Cells in use: in a work list or in a hand. */
  function Demand(s: System): nat {
    |s.lists.first| + |s.lists.second|
    + (if s.producer.Outside? then 0 else 1)
    + (if s.consumer.Holding? || s.consumer.Processed? then 1 else 0)
  }

  function Max(a: nat, b: nat): nat {
    if a < b then b else a
  }

  function Watch(s: System): System {
    s.(peak := Max(s.peak, Demand(s)))
  }

  /** One step of the consumer; a wait that nobody ends runs into its timeout. */
  function Advance(s: System): System
    requires s.consumer.Ready? ==> s.lists.Read() != []
    requires s.consumer.Holding? ==> s.consumer.c < |s.lists.data|
  {
    match s.consumer
    case Fetching =>
      if s.lists.Read() == [] then s.(lists := s.lists.RaiseFlag(), consumer := FlagUp) else s.(consumer := Ready)
    case FlagUp => s.(consumer := Waiting)
    case Waiting => s.(consumer := TimedOut)
    case TimedOut => s.(consumer := if s.lists.Write() != [] then Exchanging else FlagUp)
    case Signalled => s.(consumer := Exchanging)
    case Exchanging => s.(lists := s.lists.Exchange(), consumer := Ready)
    case Ready => s.(lists := s.lists.TakeFront().0, consumer := Holding(s.lists.TakeFront().1))
    case Holding(c) => s.(consumer := Processed(c), delivered := s.delivered + [s.lists.data[c]])
    case Processed(c) => s.(lists := s.lists.Recycle(c), consumer := Fetching)
  }

  /** The step of the producer that the event names, if the producer is at that point. */
  function Produce(s: System, e: Event): System
    requires s.producer.Acquired? || s.producer.Loaded? ==> s.producer.c < |s.lists.data|
  {
    match (e, s.producer)
    case (Acquire, Outside) =>
      var (lists, c) := s.lists.Acquire();
      s.(lists := lists, producer := Acquired(c))
    case (Load(p), Acquired(c)) =>
      if |p| <= CELL_SIZE then s.(lists := s.lists.Load(c, p), producer := Loaded(c)) else s
    case (Push, Loaded(c)) =>
      var lists := s.lists.PushWork(c);
      s.(lists := lists, producer := Outside, pushed := s.pushed + [s.lists.data[c]],
         consumer := if lists.Notifies() && s.consumer.Waiting? then Signalled else s.consumer)
    case _ => s
  }

  // ---------- The invariant ----------

  function DataOf(data: seq<packet>, c: cell): packet {
    if c < |data| then data[c] else []
  }

  function Contents(data: seq<packet>, cells: seq<cell>): (r: seq<packet>)
    ensures |r| == |cells|
  {
    seq(|cells|, i requires 0 <= i < |cells| => DataOf(data, cells[i]))
  }

  function ProducerHand(s: System): seq<cell> {
    if s.producer.Outside? then [] else [s.producer.c]
  }

  function ConsumerHand(s: System): seq<cell> {
    if s.consumer.Holding? || s.consumer.Processed? then [s.consumer.c] else []
  }

  function Count(cells: seq<cell>, c: cell): nat {
    multiset(cells)[c]
  }

  /** How often cell c occurs in the five places a cell can be. */
  function Tally(s: System, c: cell): nat {
    Count(s.lists.idle, c) + Count(s.lists.first, c) + Count(s.lists.second, c)
    + Count(ProducerHand(s), c) + Count(ConsumerHand(s), c)
  }

  /** Each allocated cell is in exactly one place, and nothing else is anywhere. */
  ghost predicate Owned(s: System) {
    && (forall c: cell :: Tally(s, c) == if c < |s.lists.data| then 1 else 0)
    && |s.lists.data| == |s.lists.idle| + Demand(s)
  }

  /** Where the consumer stands in the wait loop, against the lists and the flag. */
  predicate Placed(s: System) {
    && (s.lists.flag ==> s.lists.Read() == [])
    && match s.consumer
       case FlagUp => s.lists.flag
       case Waiting => s.lists.flag
       case TimedOut => s.lists.flag
       case Signalled => s.lists.flag && s.lists.Write() != []
       case Exchanging => s.lists.flag && s.lists.Write() != []
       case Ready => s.lists.Read() != []
       case _ => true
  }

  function HeldCells(s: System): seq<cell> {
    if s.consumer.Holding? then ConsumerHand(s) else []
  }

  /** Packets on their way: in the consumer's hand, then in the read list, then in the write list. */
  function InTransit(s: System): seq<packet> {
    Contents(s.lists.data, HeldCells(s))
    + Contents(s.lists.data, s.lists.Read()) + Contents(s.lists.data, s.lists.Write())
  }

  /** Nothing is lost, repeated or reordered on the way. */
  predicate Ordered(s: System) {
    s.pushed == s.delivered + InTransit(s)
  }

  /** No cell was allocated in vain. */
  predicate Thrifty(s: System) {
    |s.lists.data| == Max(s.initial, s.peak) && Demand(s) <= s.peak
  }

  ghost predicate Inv(s: System) {
    Owned(s) && Placed(s) && Ordered(s) && Thrifty(s)
  }

  // ---------- Ownership ----------

  lemma CountIn(cells: seq<cell>, c: cell)
    ensures Count(cells, c) > 0 <==> c in cells
  {
  }

  lemma CountFront(cells: seq<cell>, c: cell)
    requires cells != []
    ensures Count(cells, c) == Count(cells[1..], c) + Count([cells[0]], c)
  {
    assert cells == [cells[0]] + cells[1..];
  }

  lemma CountBack(cells: seq<cell>, x: cell, c: cell)
    ensures Count(cells + [x], c) == Count(cells, c) + Count([x], c)
  {
  }

  lemma CountOne(x: cell, c: cell)
    ensures Count([x], c) == (if c == x then 1 else 0) && Count([], c) == 0
  {
  }

  /** A cell in a hand is allocated, and in no list and no other hand. */
  lemma Apart(s: System, c: cell)
    requires Owned(s)
    ensures c in s.lists.idle || c in s.lists.first || c in s.lists.second
            || c in ProducerHand(s) || c in ConsumerHand(s)
            <==> c < |s.lists.data|
    ensures c in ProducerHand(s) || c in ConsumerHand(s)
            ==> c !in s.lists.first && c !in s.lists.second && c !in s.lists.idle
    ensures c in ProducerHand(s) ==> c !in ConsumerHand(s)
  {
    hide Count;
    assert Tally(s, c) == if c < |s.lists.data| then 1 else 0;
    CountIn(s.lists.idle, c);
    CountIn(s.lists.first, c);
    CountIn(s.lists.second, c);
    CountIn(ProducerHand(s), c);
    CountIn(ConsumerHand(s), c);
  }

  lemma HandsAllocated(s: System)
    requires Owned(s)
    ensures !s.producer.Outside? ==> s.producer.c < |s.lists.data|
    ensures s.consumer.Holding? || s.consumer.Processed? ==> s.consumer.c < |s.lists.data|
  {
    hide Owned;
    if !s.producer.Outside? {
      Apart(s, s.producer.c);
    }
    if s.consumer.Holding? || s.consumer.Processed? {
      Apart(s, s.consumer.c);
    }
  }

  /** The step of one thread, before the peak is brought up to date. */
  function Act(s: System, e: Event): System
    requires Owned(s) && Placed(s)
  {
    HandsAllocated(s);
    if e.Consume? then Advance(s) else Produce(s, e)
  }

  function Step(s: System, e: Event): System
    requires Inv(s)
  {
    Watch(Act(s, e))
  }

  lemma AcquireOwned(s: System)
    requires Owned(s) && s.producer.Outside?
    ensures Owned(Produce(s, Acquire))
  {
    hide Count;
    var t, l := Produce(s, Acquire), s.lists;
    forall c: cell
      ensures Tally(t, c) == if c < |t.lists.data| then 1 else 0
    {
      assert Tally(s, c) == if c < |l.data| then 1 else 0;
      if l.idle == [] {
        CountOne(|l.data|, c);
      } else {
        CountFront(l.idle, c);
        CountOne(0, c);
      }
    }
  }

  lemma PushOwned(s: System)
    requires Owned(s) && s.producer.Loaded? && s.producer.c < |s.lists.data|
    ensures Owned(Produce(s, Push))
  {
    hide Count;
    var t, l, x := Produce(s, Push), s.lists, s.producer.c;
    forall c: cell
      ensures Tally(t, c) == if c < |t.lists.data| then 1 else 0
    {
      assert Tally(s, c) == if c < |l.data| then 1 else 0;
      CountBack(l.Write(), x, c);
      CountOne(x, c);
      assert Count(ConsumerHand(t), c) == Count(ConsumerHand(s), c);
    }
  }

  lemma TakeOwned(s: System)
    requires Owned(s) && s.consumer.Ready? && s.lists.Read() != []
    ensures Owned(Advance(s))
  {
    hide Count;
    var t, l := Advance(s), s.lists;
    forall c: cell
      ensures Tally(t, c) == if c < |t.lists.data| then 1 else 0
    {
      assert Tally(s, c) == if c < |l.data| then 1 else 0;
      CountFront(l.Read(), c);
      CountOne(0, c);
    }
  }

  lemma RecycleOwned(s: System)
    requires Owned(s) && s.consumer.Processed?
    ensures Owned(Advance(s))
  {
    hide Count;
    var t, l, x := Advance(s), s.lists, s.consumer.c;
    forall c: cell
      ensures Tally(t, c) == if c < |t.lists.data| then 1 else 0
    {
      assert Tally(s, c) == if c < |l.data| then 1 else 0;
      CountBack(l.idle, x, c);
      CountOne(x, c);
    }
  }

  /** A step that moves no cell. */
  lemma SameOwned(s: System, t: System)
    requires Owned(s) && s.lists.idle == t.lists.idle && s.lists.first == t.lists.first && s.lists.second == t.lists.second
    requires ProducerHand(s) == ProducerHand(t) && ConsumerHand(s) == ConsumerHand(t) && |s.lists.data| == |t.lists.data|
    ensures Owned(t)
  {
    hide Count;
    forall c: cell
      ensures Tally(t, c) == if c < |t.lists.data| then 1 else 0
    {
      assert Tally(s, c) == if c < |s.lists.data| then 1 else 0;
    }
  }

  lemma ActOwned(s: System, e: Event)
    requires Owned(s) && Placed(s)
    ensures Owned(Act(s, e))
  {
    hide Owned, Tally, Count;
    HandsAllocated(s);
    match (e, s.producer)
    case (Consume, _) =>
      match s.consumer {
        case Ready => TakeOwned(s);
        case Processed(_) => RecycleOwned(s);
        case _ => SameOwned(s, Act(s, e));
      }
    case (Acquire, Outside) => AcquireOwned(s);
    case (Push, Loaded(_)) => PushOwned(s);
    case _ => SameOwned(s, Act(s, e));
  }

  // ---------- The wait loop ----------

  lemma ActPlaced(s: System, e: Event)
    requires Owned(s) && Placed(s)
    ensures Placed(Act(s, e))
  {
    hide Owned;
  }

  // ---------- Order ----------

  lemma ContentsConcat(data: seq<packet>, a: seq<cell>, b: seq<cell>)
    ensures Contents(data, a + b) == Contents(data, a) + Contents(data, b)
  {
  }

  lemma ContentsOne(data: seq<packet>, c: cell)
    requires c < |data|
    ensures Contents(data, [c]) == [data[c]] && Contents(data, []) == []
  {
  }

  /** Changing a cell outside a list leaves what the list holds. */
  lemma ContentsLoad(data: seq<packet>, cells: seq<cell>, c: cell, p: packet)
    requires c < |data| && c !in cells
    ensures Contents(data[c := p], cells) == Contents(data, cells)
  {
  }

  lemma ContentsGrow(data: seq<packet>, cells: seq<cell>)
    ensures Contents(data + [[]], cells) == Contents(data, cells)
  {
  }

  lemma AcquireOrdered(s: System)
    requires Ordered(s) && s.producer.Outside?
    ensures Ordered(Produce(s, Acquire))
  {
    hide Contents;
    ContentsGrow(s.lists.data, HeldCells(s));
    ContentsGrow(s.lists.data, s.lists.first);
    ContentsGrow(s.lists.data, s.lists.second);
  }

  lemma LoadOrdered(s: System, p: packet)
    requires Owned(s) && Ordered(s) && s.producer.Acquired? && s.producer.c < |s.lists.data| && |p| <= CELL_SIZE
    ensures Ordered(Produce(s, Load(p)))
  {
    hide Contents, Owned;
    var l, c := s.lists, s.producer.c;
    Apart(s, c);
    assert c in ProducerHand(s);
    ContentsLoad(l.data, HeldCells(s), c, p);
    ContentsLoad(l.data, l.first, c, p);
    ContentsLoad(l.data, l.second, c, p);
  }

  lemma PushOrdered(s: System)
    requires Ordered(s) && s.producer.Loaded? && s.producer.c < |s.lists.data|
    ensures Ordered(Produce(s, Push))
  {
    hide Contents;
    var l, c, t := s.lists, s.producer.c, Produce(s, Push);
    ContentsConcat(l.data, l.Write(), [c]);
    ContentsOne(l.data, c);
    assert InTransit(t) == InTransit(s) + [l.data[c]];
  }

  lemma ProduceOrdered(s: System, e: Event)
    requires Owned(s) && Placed(s) && Ordered(s) && !e.Consume?
    ensures Ordered(Act(s, e))
  {
    hide Owned, Placed, Ordered;
    HandsAllocated(s);
    match (e, s.producer)
    case (Acquire, Outside) => AcquireOrdered(s);
    case (Load(p), Acquired(_)) => if |p| <= CELL_SIZE { LoadOrdered(s, p); }
    case (Push, Loaded(_)) => PushOrdered(s);
    case _ =>
  }

  lemma TakeOrdered(s: System)
    requires Ordered(s) && s.consumer.Ready? && s.lists.Read() != []
    ensures Ordered(Advance(s))
  {
    hide Contents;
    var l, t := s.lists, Advance(s);
    var c, rest := l.Read()[0], l.Read()[1..];
    assert l.Read() == [c] + rest;
    ContentsConcat(l.data, [c], rest);
    ContentsNone(l.data);
    assert InTransit(t) == InTransit(s);
  }

  lemma ExchangeOrdered(s: System)
    requires Ordered(s) && s.consumer.Exchanging? && s.lists.Read() == []
    ensures Ordered(Advance(s))
  {
    hide Contents;
    ContentsNone(s.lists.data);
    assert InTransit(Advance(s)) == InTransit(s);
  }

  lemma HandOnOrdered(s: System)
    requires Ordered(s) && s.consumer.Holding? && s.consumer.c < |s.lists.data|
    ensures Ordered(Advance(s))
  {
    hide Contents;
    var l, c := s.lists, s.consumer.c;
    ContentsOne(l.data, c);
    assert InTransit(s) == [l.data[c]] + InTransit(Advance(s));
  }

  lemma ConsumeOrdered(s: System)
    requires Owned(s) && Placed(s) && Ordered(s)
    ensures Ordered(Act(s, Consume))
  {
    hide Owned, Contents;
    HandsAllocated(s);
    match s.consumer
    case Ready => TakeOrdered(s);
    case Exchanging => ExchangeOrdered(s);
    case Holding(_) => HandOnOrdered(s);
    case _ => assert InTransit(Act(s, Consume)) == InTransit(s);
  }

  lemma ContentsNone(data: seq<packet>)
    ensures Contents(data, []) == []
  {
  }

  // ---------- Every step keeps the invariant ----------

  /** Only an acquisition that finds no idle cell allocates one. */
  lemma Allocates(s: System, e: Event)
    requires Owned(s) && Placed(s)
    ensures var t := Act(s, e);
            && t.initial == s.initial && t.peak == s.peak
            && (|t.lists.data| == |s.lists.data|
                || (|t.lists.data| == |s.lists.data| + 1 && s.lists.idle == [] == t.lists.idle))
  {
    hide Owned;
    HandsAllocated(s);
    if e.Consume? {
      ConsumerAllocatesNothing(s);
    }
  }

  lemma ConsumerAllocatesNothing(s: System)
    requires s.consumer.Ready? ==> s.lists.Read() != []
    requires s.consumer.Holding? ==> s.consumer.c < |s.lists.data|
    ensures var t := Advance(s); t.initial == s.initial && t.peak == s.peak && t.lists.data == s.lists.data
  {
  }

  lemma AllOwned(s: System)
    requires Owned(s)
    ensures |s.lists.data| == |s.lists.idle| + Demand(s)
  {
  }

  /** A cell is allocated only when all are in use, and no other step raises the demand. */
  lemma ActThrifty(s: System, e: Event)
    requires Owned(s) && Placed(s) && Thrifty(s)
    ensures Thrifty(Watch(Act(s, e)))
  {
    hide Owned, Placed, Act, Demand;
    Allocates(s, e);
    ActOwned(s, e);
    AllOwned(s);
    AllOwned(Act(s, e));
    DemandWatched(Act(s, e));
  }

  lemma DemandWatched(t: System)
    ensures Demand(Watch(t)) == Demand(t)
  {
  }

  lemma StepInv(s: System, e: Event)
    requires Inv(s)
    ensures Inv(Step(s, e))
  {
    hide Owned, Ordered, Placed, Thrifty, Act, InTransit, Contents;
    var t := Act(s, e);
    ActOwned(s, e);
    ActPlaced(s, e);
    ActThrifty(s, e);
    if e.Consume? {
      ConsumeOrdered(s);
    } else {
      ProduceOrdered(s, e);
    }
    WatchKeeps(t);
  }

  lemma WatchKeeps(t: System)
    ensures Owned(t) ==> Owned(Watch(t))
    ensures Placed(t) ==> Placed(Watch(t))
    ensures Ordered(t) ==> Ordered(Watch(t))
  {
    hide Count, Contents;
    var w := Watch(t);
    assert forall c: cell :: Tally(w, c) == Tally(t, c);
    assert InTransit(w) == InTransit(t);
  }
}
