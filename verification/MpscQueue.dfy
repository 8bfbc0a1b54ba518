/** The linked queue with many producers and one consumer, as a state machine over its atomic
    steps under sequential consistency. A step that touches a node that is not on the heap, or
    takes a value that is not there, raises `fault`. */
module MpscQueue {
  import opened Wrappers

  type Id = nat

  /** A value is None in a dummy and after it has been moved out. */
  datatype Node<+T> = Node(value: Option<T>, next: Option<Id>)

  /** Where a push call is: its node is allocated; the tail has been exchanged but the link not
      yet stored. `rank` is the history number of the exchange. */
  datatype Producer = Idle | HasNode(node: Id) | Swapped(node: Id, prev: Id, rank: nat)

  /** Where the consumer is inside pop, or inside pop_all. */
  datatype Consumer<+T> =
    | Free
    | SawHead(h: Id) | SawNext(h: Id, n: Id) | Moved(h: Id, n: Id, v: T) | Stored(h: Id)
    | DrainHead(h: Id) | DrainNext(h: Id, n: Id) | DrainDummy(h: Id, n: Id, d: Id) | DrainStored(h: Id, n: Id, d: Id)

  /** What pop_all returned; the other fields are history: the ranks of the two nodes. */
  datatype Drain = Drain(head: Id, tail: Id, from: nat, upto: nat)

  datatype State<+T> = State(
    heap: map<Id, Node<T>>, next: Id, head: Id, tail: Id,
    producers: map<nat, Producer>, consumer: Consumer<T>, fault: bool,
    // history: every node ever made tail, in exchange order, with its rank there and the value
    // pushed (None for a dummy); the rank the head has reached; the values handed to the
    // consumer; the ranks whose values pop moved out; the producers of the nodes not yet
    // exchanged, and of the ranks not yet linked; pop_all's results
    order: seq<Id>, ranks: map<Id, nat>, vals: seq<Option<T>>, hi: nat, consumed: seq<T>,
    taken: set<nat>, owner: map<Id, nat>, linker: map<nat, nat>, drains: seq<Drain>)

  datatype Step<+T> =
    | PushAlloc(p: nat, v: T) | PushExchange(p: nat) | PushLink(p: nat)
    | PopLoadHead | PopLoadNext | PopMove | PopStoreHead | PopDelete
    | DrainLoadHead | DrainLoadNext | DrainAlloc | DrainStoreHead | DrainExchange

  function ProducerOf<T>(s: State<T>, p: nat): Producer {
    if p in s.producers then s.producers[p] else Idle
  }

  function Init<T>(): State<T> {
    State(map[0 := Node(None, None)], 1, 0, 0, map[], Free, false,
          [0], map[0 := 0], [None], 0, [], {}, map[], map[], [])
  }

  function Fault<T>(s: State<T>): State<T> {
    s.(fault := true)
  }

  // ----- push -----

  function DoPushAlloc<T>(s: State<T>, p: nat, v: T): State<T> {
    if ProducerOf(s, p).Idle? then
      s.(heap := s.heap[s.next := Node(Some(v), None)], next := s.next + 1,
         producers := s.producers[p := HasNode(s.next)], owner := s.owner[s.next := p])
    else s
  }

  function DoPushExchange<T>(s: State<T>, p: nat): State<T> {
    match ProducerOf(s, p)
    case HasNode(n) =>
      if n !in s.heap then Fault(s) else
      s.(tail := n, producers := s.producers[p := Swapped(n, s.tail, |s.order|)],
         order := s.order + [n], ranks := s.ranks[n := |s.order|], vals := s.vals + [s.heap[n].value],
         owner := s.owner - {n}, linker := s.linker[|s.order| := p])
    case _ => s
  }

  function DoPushLink<T>(s: State<T>, p: nat): State<T> {
    match ProducerOf(s, p)
    case Swapped(n, prev, rank) =>
      if prev !in s.heap then Fault(s) else
      s.(heap := s.heap[prev := s.heap[prev].(next := Some(n))],
         producers := s.producers[p := Idle], linker := s.linker - {rank})
    case _ => s
  }

  // ----- pop -----

  function DoPopLoadHead<T>(s: State<T>): State<T> {
    if s.consumer.Free? then s.(consumer := SawHead(s.head)) else s
  }

  function DoPopLoadNext<T>(s: State<T>): State<T> {
    match s.consumer
    case SawHead(h) =>
      if h !in s.heap then Fault(s)
      else if s.heap[h].next.None? then s.(consumer := Free)
      else s.(consumer := SawNext(h, s.heap[h].next.value))
    case _ => s
  }

  function DoPopMove<T>(s: State<T>): State<T> {
    match s.consumer
    case SawNext(h, n) =>
      if n !in s.heap || s.heap[n].value.None? then Fault(s)
      else s.(heap := s.heap[n := s.heap[n].(value := None)], consumer := Moved(h, n, s.heap[n].value.value),
              taken := s.taken + {s.hi + 1})
    case _ => s
  }

  function DoPopStoreHead<T>(s: State<T>): State<T> {
    match s.consumer
    case Moved(h, n, v) => s.(head := n, consumer := Stored(h), hi := s.hi + 1, consumed := s.consumed + [v])
    case _ => s
  }

  function DoPopDelete<T>(s: State<T>): State<T> {
    match s.consumer
    case Stored(h) => if h !in s.heap then Fault(s) else s.(heap := s.heap - {h}, consumer := Free)
    case _ => s
  }

  // ----- pop_all -----

  function DoDrainLoadHead<T>(s: State<T>): State<T> {
    if s.consumer.Free? then s.(consumer := DrainHead(s.head)) else s
  }

  function DoDrainLoadNext<T>(s: State<T>): State<T> {
    match s.consumer
    case DrainHead(h) =>
      if h !in s.heap then Fault(s)
      else if s.heap[h].next.None? then s.(consumer := Free)
      else s.(consumer := DrainNext(h, s.heap[h].next.value))
    case _ => s
  }

  function DoDrainAlloc<T>(s: State<T>): State<T> {
    match s.consumer
    case DrainNext(h, n) =>
      s.(heap := s.heap[s.next := Node(None, None)], next := s.next + 1, consumer := DrainDummy(h, n, s.next))
    case _ => s
  }

  function DoDrainStoreHead<T>(s: State<T>): State<T> {
    match s.consumer
    case DrainDummy(h, n, d) => s.(head := d, consumer := DrainStored(h, n, d))
    case _ => s
  }

  function DoDrainExchange<T>(s: State<T>): State<T> {
    match s.consumer
    case DrainStored(h, n, d) =>
      if s.hi >= |s.vals| || s.order == [] then Fault(s) else
      s.(tail := d, consumer := Free, order := s.order + [d], ranks := s.ranks[d := |s.order|],
         vals := s.vals + [None], hi := |s.order|,
         consumed := s.consumed + Values(s.vals, s.hi + 1, |s.vals|),
         drains := s.drains + [Drain(n, s.tail, s.hi + 1, |s.order| - 1)])
    case _ => s
  }

  /** One atomic step; a step whose thread is elsewhere does nothing. */
  function Next<T>(s: State<T>, step: Step<T>): State<T> {
    match step
    case PushAlloc(p, v) => DoPushAlloc(s, p, v)
    case PushExchange(p) => DoPushExchange(s, p)
    case PushLink(p) => DoPushLink(s, p)
    case PopLoadHead => DoPopLoadHead(s)
    case PopLoadNext => DoPopLoadNext(s)
    case PopMove => DoPopMove(s)
    case PopStoreHead => DoPopStoreHead(s)
    case PopDelete => DoPopDelete(s)
    case DrainLoadHead => DoDrainLoadHead(s)
    case DrainLoadNext => DoDrainLoadNext(s)
    case DrainAlloc => DoDrainAlloc(s)
    case DrainStoreHead => DoDrainStoreHead(s)
    case DrainExchange => DoDrainExchange(s)
  }

  /** An interleaving: any sequence of steps of any threads. */
  function Run<T>(s: State<T>, steps: seq<Step<T>>): State<T>
    decreases |steps|
  {
    if steps == [] then s else Next(Run(s, steps[..|steps| - 1]), steps[|steps| - 1])
  }

  /** The values of ranks a to b - 1, dummies left out. */
  function Values<T>(vals: seq<Option<T>>, a: nat, b: nat): seq<T>
    requires a <= b <= |vals|
  {
    if a == b then [] else Values(vals, a, b - 1) + if vals[b - 1].Some? then [vals[b - 1].value] else []
  }

  /** The values pushed so far, in tail-exchange order. */
  function Log<T>(s: State<T>): seq<T> {
    Values(s.vals, 0, |s.vals|)
  }

  lemma {:induction false} ValuesSplit<T>(vals: seq<Option<T>>, a: nat, b: nat, c: nat)
    requires a <= b <= c <= |vals|
    ensures Values(vals, a, c) == Values(vals, a, b) + Values(vals, b, c)
  {
    if b < c { ValuesSplit(vals, a, b, c - 1); }
  }

  lemma {:induction false} ValuesAppend<T>(vals: seq<Option<T>>, x: Option<T>, a: nat, b: nat)
    requires a <= b <= |vals|
    ensures Values(vals + [x], a, b) == Values(vals, a, b)
  {
    if a < b { ValuesAppend(vals, x, a, b - 1); }
  }

  // ----- the invariant -----

  /** Rank i + 1 was pushed behind rank i, rather than installed by pop_all. */
  ghost predicate Linkable<T>(vals: seq<Option<T>>, i: nat) {
    i + 1 < |vals| && vals[i + 1].Some?
  }

  ghost predicate OrderOk(order: seq<Id>, ranks: map<Id, nat>, next: Id) {
    && (forall i :: 0 <= i < |order| ==> order[i] in ranks && ranks[order[i]] == i)
    && (forall id :: id in ranks ==> id < next && ranks[id] < |order| && order[ranks[id]] == id)
  }

  /** The node of rank i: deleted only after the value behind it was taken; linked to the next
      rank unless the producer of that rank has its store still to do. */
  ghost predicate NodeOk<T>(heap: map<Id, Node<T>>, order: seq<Id>, vals: seq<Option<T>>, taken: set<nat>,
                            linker: map<nat, nat>, i: nat)
    requires i < |order| == |vals|
  {
    && (order[i] !in heap ==> i + 1 in taken)
    && (order[i] in heap ==>
          heap[order[i]].next == if Linkable(vals, i) && i + 1 !in linker then Some(order[i + 1]) else None)
    && (vals[i].Some? && i !in taken ==> order[i] in heap && heap[order[i]].value == vals[i])
  }

  ghost predicate NodesOk<T>(heap: map<Id, Node<T>>, order: seq<Id>, vals: seq<Option<T>>, taken: set<nat>,
                             linker: map<nat, nat>)
    requires |order| == |vals|
  {
    forall i: nat :: i < |order| ==> NodeOk(heap, order, vals, taken, linker, i)
  }

  ghost predicate TakenOk<T>(vals: seq<Option<T>>, taken: set<nat>, linker: map<nat, nat>, bound: nat) {
    forall i :: i in taken ==> 0 < i <= bound && i < |vals| && vals[i].Some? && i !in linker
  }

  ghost predicate LinkersOk<T>(order: seq<Id>, vals: seq<Option<T>>, producers: map<nat, Producer>,
                               linker: map<nat, nat>) {
    forall r :: r in linker ==>
      0 < r < |order| == |vals| && vals[r].Some? && linker[r] in producers
      && producers[linker[r]] == Swapped(order[r], order[r - 1], r)
  }

  /** A node of a push not yet exchanged, or pop_all's dummy before its exchange. */
  ghost predicate Unpublished<T>(heap: map<Id, Node<T>>, ranks: map<Id, nat>, n: Id) {
    n in heap && heap[n].next.None? && n !in ranks
  }

  ghost predicate ProducersOk(producers: map<nat, Producer>, owner: map<Id, nat>, linker: map<nat, nat>) {
    forall p :: p in producers ==>
      && (producers[p].HasNode? ==> producers[p].node in owner && owner[producers[p].node] == p)
      && (producers[p].Swapped? ==> producers[p].rank in linker && linker[producers[p].rank] == p)
  }

  ghost predicate OwnersOk<T>(heap: map<Id, Node<T>>, ranks: map<Id, nat>, producers: map<nat, Producer>,
                              owner: map<Id, nat>) {
    forall n :: n in owner ==>
      && Unpublished(heap, ranks, n) && heap[n].value.Some?
      && owner[n] in producers && producers[owner[n]] == HasNode(n)
  }

  /** The consumer holds the head and its linked successor. */
  ghost predicate AtHead<T>(s: State<T>, h: Id, n: Id)
    requires s.hi < |s.order| == |s.vals|
  {
    h == s.order[s.hi] && Linkable(s.vals, s.hi) && n == s.order[s.hi + 1] && s.hi + 1 !in s.linker
  }

  ghost predicate ConsumerOk<T>(s: State<T>)
    requires s.hi < |s.order| == |s.vals|
  {
    && s.head == (if s.consumer.DrainStored? then s.consumer.d else s.order[s.hi])
    && s.order[s.hi] in s.heap && (s.vals[s.hi].Some? ==> s.hi in s.taken)
    && match s.consumer
       case Free => true
       case SawHead(h) => h == s.order[s.hi]
       case SawNext(h, n) => AtHead(s, h, n)
       case Moved(h, n, v) => AtHead(s, h, n) && s.vals[s.hi + 1] == Some(v) && s.hi + 1 in s.taken
       case Stored(h) => s.hi > 0 && h == s.order[s.hi - 1] && h in s.heap && s.hi in s.taken
                          && (s.vals[s.hi - 1].Some? ==> s.hi - 1 in s.taken)
       case DrainHead(h) => h == s.order[s.hi]
       case DrainNext(h, n) => AtHead(s, h, n)
       case DrainDummy(h, n, d) =>
         AtHead(s, h, n) && Unpublished(s.heap, s.ranks, d) && d !in s.owner
       case DrainStored(h, n, d) =>
         AtHead(s, h, n) && Unpublished(s.heap, s.ranks, d) && d !in s.owner
  }

  ghost predicate DrainOk<T>(order: seq<Id>, vals: seq<Option<T>>, taken: set<nat>, hi: nat, d: Drain)
    requires |order| == |vals|
  {
    && 0 < d.from <= d.upto < hi && d.upto + 1 < |order|
    && d.head == order[d.from] && d.tail == order[d.upto]
    && (forall i :: d.from <= i <= d.upto ==> vals[i].Some? && i !in taken)
    && vals[d.upto + 1].None?
  }

  /** Nothing else is on the heap. */
  ghost predicate Known<T>(s: State<T>) {
    forall id :: id in s.heap ==>
      id in s.ranks || id in s.owner || ((s.consumer.DrainDummy? || s.consumer.DrainStored?) && id == s.consumer.d)
  }

  /** Without pop_all, nothing the head has passed stays on the heap. */
  ghost predicate NoLeaks<T>(heap: map<Id, Node<T>>, order: seq<Id>, hi: nat, consumer: Consumer<T>) {
    forall i :: 0 <= i < hi && i < |order| && order[i] in heap ==> i + 1 == hi && consumer == Stored(order[i])
  }

  /** Producers, owners and linkers agree. */
  ghost predicate ThreadsOk<T>(heap: map<Id, Node<T>>, order: seq<Id>, ranks: map<Id, nat>, vals: seq<Option<T>>,
                               producers: map<nat, Producer>, owner: map<Id, nat>, linker: map<nat, nat>) {
    && LinkersOk(order, vals, producers, linker)
    && ProducersOk(producers, owner, linker)
    && OwnersOk(heap, ranks, producers, owner)
  }

  /** The consumer, what it has taken, and what it has left. */
  ghost predicate ReaderOk<T>(s: State<T>)
    requires s.hi < |s.order| == |s.vals|
  {
    && s.tail == s.order[|s.order| - 1]
    && (forall i :: s.hi < i < |s.vals| ==> s.vals[i].Some?)
    && s.consumed == Values(s.vals, 0, s.hi + 1)
    && TakenOk(s.vals, s.taken, s.linker, if s.consumer.Moved? then s.hi + 1 else s.hi)
    && ConsumerOk(s)
    && (forall k :: 0 <= k < |s.drains| ==> DrainOk(s.order, s.vals, s.taken, s.hi, s.drains[k]))
    && Known(s)
    && (s.drains == [] ==> NoLeaks(s.heap, s.order, s.hi, s.consumer))
  }

  ghost predicate Shape<T>(s: State<T>) {
    && !s.fault && s.hi < |s.order| == |s.vals| && OrderOk(s.order, s.ranks, s.next)
    && forall id :: id in s.heap ==> id < s.next
  }

  ghost predicate Nodes<T>(s: State<T>) {
    |s.order| == |s.vals| && NodesOk(s.heap, s.order, s.vals, s.taken, s.linker)
  }

  ghost predicate Threads<T>(s: State<T>) {
    ThreadsOk(s.heap, s.order, s.ranks, s.vals, s.producers, s.owner, s.linker)
  }

  ghost predicate Inv<T>(s: State<T>) {
    Shape(s) && Nodes(s) && Threads(s) && ReaderOk(s)
  }

  lemma InitInv<T>()
    ensures Inv(Init<T>())
  {
  }

  // ----- push -----

  lemma PushAllocNodes<T>(s: State<T>, p: nat, v: T)
    requires Shape(s) && Nodes(s)
    ensures Nodes(DoPushAlloc(s, p, v))
  {
    var s' := DoPushAlloc(s, p, v);
    forall i: nat | i < |s.order| ensures NodeOk(s'.heap, s'.order, s'.vals, s'.taken, s'.linker, i) {
      assert NodeOk(s.heap, s.order, s.vals, s.taken, s.linker, i);
    }
  }

  lemma PushAllocThreads<T>(s: State<T>, p: nat, v: T)
    requires Threads(s) && s.next !in s.heap && s.next !in s.ranks
    ensures Threads(DoPushAlloc(s, p, v))
  {
  }

  lemma PushAllocReader<T>(s: State<T>, p: nat, v: T)
    requires Shape(s) && ReaderOk(s)
    ensures ReaderOk(DoPushAlloc(s, p, v))
  {
  }

  lemma PushAllocInv<T>(s: State<T>, p: nat, v: T)
    requires Inv(s)
    ensures Inv(DoPushAlloc(s, p, v))
  {
    PushAllocNodes(s, p, v);
    PushAllocThreads(s, p, v);
    PushAllocReader(s, p, v);
  }

  lemma PushExchangeNodes<T>(s: State<T>, p: nat)
    requires Shape(s) && Nodes(s) && Threads(s) && |s.order| !in s.taken
    ensures Nodes(DoPushExchange(s, p)) && Shape(DoPushExchange(s, p))
  {
    var s' := DoPushExchange(s, p);
    if ProducerOf(s, p).HasNode? {
      forall i: nat | i < |s'.order| ensures NodeOk(s'.heap, s'.order, s'.vals, s'.taken, s'.linker, i) {
        assert i < |s.order| ==> NodeOk(s.heap, s.order, s.vals, s.taken, s.linker, i);
      }
    }
  }

  lemma PushExchangeLinkers<T>(s: State<T>, p: nat)
    requires Shape(s) && Threads(s) && s.tail == s.order[|s.order| - 1]
    ensures var t := DoPushExchange(s, p); LinkersOk(t.order, t.vals, t.producers, t.linker)
  {
  }

  lemma PushExchangeOwners<T>(s: State<T>, p: nat)
    requires Shape(s) && Threads(s)
    ensures var t := DoPushExchange(s, p);
      ProducersOk(t.producers, t.owner, t.linker) && OwnersOk(t.heap, t.ranks, t.producers, t.owner)
  {
  }

  lemma PushExchangeThreads<T>(s: State<T>, p: nat)
    requires Shape(s) && Threads(s) && s.tail == s.order[|s.order| - 1]
    ensures Threads(DoPushExchange(s, p))
  {
    PushExchangeLinkers(s, p);
    PushExchangeOwners(s, p);
  }

  lemma PushExchangeConsumer<T>(s: State<T>, p: nat)
    requires Shape(s) && Threads(s) && ConsumerOk(s)
    ensures ConsumerOk(DoPushExchange(s, p))
  {
  }

  lemma PushExchangeTaken<T>(s: State<T>, p: nat)
    requires Shape(s) && Threads(s)
    requires TakenOk(s.vals, s.taken, s.linker, if s.consumer.Moved? then s.hi + 1 else s.hi)
    ensures var s' := DoPushExchange(s, p);
      TakenOk(s'.vals, s'.taken, s'.linker, if s'.consumer.Moved? then s'.hi + 1 else s'.hi)
  {
  }

  lemma PushExchangeDrains<T>(s: State<T>, p: nat)
    requires Shape(s)
    requires forall k :: 0 <= k < |s.drains| ==> DrainOk(s.order, s.vals, s.taken, s.hi, s.drains[k])
    ensures var s' := DoPushExchange(s, p);
      && |s'.order| == |s'.vals|
      && forall k :: 0 <= k < |s'.drains| ==> DrainOk(s'.order, s'.vals, s'.taken, s'.hi, s'.drains[k])
  {
  }

  lemma PushExchangeKnown<T>(s: State<T>, p: nat)
    requires Shape(s) && Known(s) && (s.drains == [] ==> NoLeaks(s.heap, s.order, s.hi, s.consumer))
    ensures var s' := DoPushExchange(s, p);
      Known(s') && (s'.drains == [] ==> NoLeaks(s'.heap, s'.order, s'.hi, s'.consumer))
  {
  }

  lemma PushExchangeValues<T>(s: State<T>, p: nat)
    requires Shape(s) && Threads(s) && s.consumed == Values(s.vals, 0, s.hi + 1)
    requires forall i :: s.hi < i < |s.vals| ==> s.vals[i].Some?
    ensures var s' := DoPushExchange(s, p);
      s'.consumed == Values(s'.vals, 0, s'.hi + 1) && forall i :: s'.hi < i < |s'.vals| ==> s'.vals[i].Some?
  {
    if ProducerOf(s, p).HasNode? {
      ValuesAppend(s.vals, s.heap[s.producers[p].node].value, 0, s.hi + 1);
    }
  }

  lemma PushExchangeReader<T>(s: State<T>, p: nat)
    requires Shape(s) && Threads(s) && ReaderOk(s)
    ensures ReaderOk(DoPushExchange(s, p))
  {
    PushExchangeConsumer(s, p);
    PushExchangeTaken(s, p);
    PushExchangeDrains(s, p);
    PushExchangeKnown(s, p);
    PushExchangeValues(s, p);
  }

  lemma PushExchangeInv<T>(s: State<T>, p: nat)
    requires Inv(s)
    ensures Inv(DoPushExchange(s, p))
  {
    PushExchangeNodes(s, p);
    PushExchangeThreads(s, p);
    PushExchangeReader(s, p);
  }

  /** The node a producer is about to link is still there, and unlinked. */
  lemma PrevIsLive<T>(s: State<T>, p: nat)
    requires Shape(s) && Nodes(s) && Threads(s) && (forall i :: i in s.taken ==> i !in s.linker)
    requires ProducerOf(s, p).Swapped?
    ensures var q := ProducerOf(s, p);
      0 < q.rank < |s.order| && q.prev == s.order[q.rank - 1] && q.node == s.order[q.rank]
      && q.prev in s.heap && s.heap[q.prev].next.None?
  {
    assert NodeOk(s.heap, s.order, s.vals, s.taken, s.linker, s.producers[p].rank - 1);
  }

  /** One node, when the link from rank - 1 to rank is stored. */
  lemma LinkedNode<T>(heap: map<Id, Node<T>>, order: seq<Id>, vals: seq<Option<T>>, taken: set<nat>,
                      linker: map<nat, nat>, rank: nat, i: nat)
    requires 0 < rank < |order| == |vals| && i < |order| && order[rank - 1] in heap && vals[rank].Some?
    requires NodeOk(heap, order, vals, taken, linker, i) && (i != rank - 1 ==> order[i] != order[rank - 1])
    requires rank !in taken
    ensures NodeOk(heap[order[rank - 1] := heap[order[rank - 1]].(next := Some(order[rank]))],
                   order, vals, taken, linker - {rank}, i)
  {
  }

  lemma PushLinkNodes<T>(s: State<T>, p: nat)
    requires Shape(s) && Nodes(s) && Threads(s) && (forall i :: i in s.taken ==> i !in s.linker)
    ensures Nodes(DoPushLink(s, p))
  {
    var s' := DoPushLink(s, p);
    if ProducerOf(s, p).Swapped? {
      PrevIsLive(s, p);
      var rank := s.producers[p].rank;
      assert rank in s.linker;
      forall i: nat | i < |s.order| ensures NodeOk(s'.heap, s'.order, s'.vals, s'.taken, s'.linker, i) {
        assert s.ranks[s.order[i]] == i && s.ranks[s.order[rank - 1]] == rank - 1;
        LinkedNode(s.heap, s.order, s.vals, s.taken, s.linker, rank, i);
      }
    }
  }

  lemma PushLinkThreads<T>(s: State<T>, p: nat)
    requires Shape(s) && Threads(s)
    ensures Threads(DoPushLink(s, p))
  {
    if ProducerOf(s, p).Swapped? { assert s.order[s.producers[p].rank - 1] in s.ranks; }
  }

  lemma PushLinkConsumer<T>(s: State<T>, p: nat)
    requires Shape(s) && ConsumerOk(s)
    requires ProducerOf(s, p).Swapped? ==> ProducerOf(s, p).prev in s.ranks && ProducerOf(s, p).prev in s.heap
    ensures ConsumerOk(DoPushLink(s, p))
  {
  }

  lemma PushLinkReader<T>(s: State<T>, p: nat)
    requires Shape(s) && ReaderOk(s)
    requires ProducerOf(s, p).Swapped? ==> ProducerOf(s, p).prev in s.ranks && ProducerOf(s, p).prev in s.heap
    ensures ReaderOk(DoPushLink(s, p))
  {
    PushLinkConsumer(s, p);
  }

  lemma PushLinkInv<T>(s: State<T>, p: nat)
    requires Inv(s)
    ensures Inv(DoPushLink(s, p))
  {
    if ProducerOf(s, p).Swapped? { PrevIsLive(s, p); }
    PushLinkNodes(s, p);
    PushLinkThreads(s, p);
    PushLinkReader(s, p);
  }

  // ----- pop -----

  /** What the consumer's load of the head's link can see. */
  lemma HeadLink<T>(s: State<T>)
    requires Shape(s) && Nodes(s) && ConsumerOk(s)
    ensures var next := s.heap[s.order[s.hi]].next;
      next == if Linkable(s.vals, s.hi) && s.hi + 1 !in s.linker then Some(s.order[s.hi + 1]) else None
  {
    assert NodeOk(s.heap, s.order, s.vals, s.taken, s.linker, s.hi);
  }

  /** A step that only moves the consumer along. */
  lemma OnlyConsumer<T>(s: State<T>, s': State<T>)
    requires Shape(s) && Nodes(s) && Threads(s)
    requires s' == s.(consumer := s'.consumer, head := s'.head) && ReaderOk(s')
    ensures Inv(s')
  {
  }

  lemma PopLoadHeadReader<T>(s: State<T>)
    requires Shape(s) && ReaderOk(s)
    ensures ReaderOk(DoPopLoadHead(s))
  {
  }

  lemma PopLoadHeadInv<T>(s: State<T>)
    requires Inv(s)
    ensures Inv(DoPopLoadHead(s))
  {
    PopLoadHeadReader(s);
    OnlyConsumer(s, DoPopLoadHead(s));
  }

  lemma DrainLoadHeadReader<T>(s: State<T>)
    requires Shape(s) && ReaderOk(s)
    ensures ReaderOk(DoDrainLoadHead(s))
  {
  }

  lemma DrainLoadHeadInv<T>(s: State<T>)
    requires Inv(s)
    ensures Inv(DoDrainLoadHead(s))
  {
    DrainLoadHeadReader(s);
    OnlyConsumer(s, DoDrainLoadHead(s));
  }

  lemma PopLoadNextReader<T>(s: State<T>)
    requires Shape(s) && Nodes(s) && ReaderOk(s)
    ensures ReaderOk(DoPopLoadNext(s)) && (s.consumer.SawHead? ==> s.consumer.h in s.heap)
  {
    HeadLink(s);
  }

  lemma PopLoadNextInv<T>(s: State<T>)
    requires Inv(s)
    ensures Inv(DoPopLoadNext(s))
  {
    PopLoadNextReader(s);
    OnlyConsumer(s, DoPopLoadNext(s));
  }

  lemma DrainLoadNextReader<T>(s: State<T>)
    requires Shape(s) && Nodes(s) && ReaderOk(s)
    ensures ReaderOk(DoDrainLoadNext(s)) && (s.consumer.DrainHead? ==> s.consumer.h in s.heap)
  {
    HeadLink(s);
  }

  lemma DrainLoadNextInv<T>(s: State<T>)
    requires Inv(s)
    ensures Inv(DoDrainLoadNext(s))
  {
    DrainLoadNextReader(s);
    OnlyConsumer(s, DoDrainLoadNext(s));
  }

  lemma PopMoveNodes<T>(s: State<T>)
    requires Shape(s) && Nodes(s) && ConsumerOk(s) && s.consumer.SawNext? && s.hi + 1 !in s.taken
    ensures s.order[s.hi + 1] in s.heap && s.heap[s.order[s.hi + 1]].value == s.vals[s.hi + 1]
    ensures Nodes(DoPopMove(s))
  {
    var s' := DoPopMove(s);
    assert NodeOk(s.heap, s.order, s.vals, s.taken, s.linker, s.hi + 1);
    forall i: nat | i < |s.order| ensures NodeOk(s'.heap, s'.order, s'.vals, s'.taken, s'.linker, i) {
      assert NodeOk(s.heap, s.order, s.vals, s.taken, s.linker, i);
    }
  }

  /** A step that keeps the producers' nodes keeps the threads. */
  lemma ConsumerThreads<T>(s: State<T>, s': State<T>)
    requires Threads(s)
    requires s' == s.(heap := s'.heap, consumer := s'.consumer, taken := s'.taken, next := s'.next)
    requires forall n :: n in s.owner ==> n in s'.heap && s'.heap[n] == s.heap[n]
    ensures Threads(s')
  {
  }

  lemma PopMoveConsumer<T>(s: State<T>)
    requires Shape(s) && ConsumerOk(s) && s.consumer.SawNext?
    requires s.order[s.hi + 1] in s.heap && s.heap[s.order[s.hi + 1]].value == s.vals[s.hi + 1]
    ensures ConsumerOk(DoPopMove(s))
  {
  }

  lemma PopMoveReader<T>(s: State<T>)
    requires Shape(s) && ReaderOk(s) && s.consumer.SawNext?
    requires s.order[s.hi + 1] in s.heap && s.heap[s.order[s.hi + 1]].value == s.vals[s.hi + 1]
    ensures ReaderOk(DoPopMove(s))
  {
    PopMoveConsumer(s);
  }

  /** The value pop moves out is there. */
  lemma PopMoveTarget<T>(s: State<T>)
    requires Shape(s) && Nodes(s) && ReaderOk(s) && s.consumer.SawNext?
    ensures s.order[s.hi + 1] in s.heap && s.heap[s.order[s.hi + 1]].value == s.vals[s.hi + 1]
  {
    assert NodeOk(s.heap, s.order, s.vals, s.taken, s.linker, s.hi + 1);
  }

  lemma PopMoveShape<T>(s: State<T>)
    requires Shape(s) && ConsumerOk(s) && s.consumer.SawNext?
    requires s.order[s.hi + 1] in s.heap && s.heap[s.order[s.hi + 1]].value == s.vals[s.hi + 1]
    ensures Shape(DoPopMove(s))
  {
  }

  lemma PopMoveThreads<T>(s: State<T>)
    requires Shape(s) && Threads(s) && ConsumerOk(s) && s.consumer.SawNext?
    requires s.order[s.hi + 1] in s.heap && s.heap[s.order[s.hi + 1]].value == s.vals[s.hi + 1]
    ensures Threads(DoPopMove(s))
  {
    assert s.order[s.hi + 1] in s.ranks && s.order[s.hi + 1] !in s.owner;
    ConsumerThreads(s, DoPopMove(s));
  }

  lemma PopMoveInv<T>(s: State<T>)
    requires Inv(s)
    ensures Inv(DoPopMove(s))
  {
    if !s.consumer.SawNext? {
      assert DoPopMove(s) == s;
      return;
    }
    PopMoveTarget(s);
    PopMoveShape(s);
    PopMoveNodes(s);
    PopMoveReader(s);
    PopMoveThreads(s);
  }

  lemma PopStoreHeadReader<T>(s: State<T>)
    requires Shape(s) && Nodes(s) && ReaderOk(s)
    ensures ReaderOk(DoPopStoreHead(s)) && Shape(DoPopStoreHead(s))
  {
    if s.consumer.Moved? {
      assert NodeOk(s.heap, s.order, s.vals, s.taken, s.linker, s.hi + 1);
    }
  }

  lemma PopStoreHeadInv<T>(s: State<T>)
    requires Inv(s)
    ensures Inv(DoPopStoreHead(s))
  {
    PopStoreHeadReader(s);
  }

  lemma PopDeleteNodes<T>(s: State<T>)
    requires Shape(s) && Nodes(s) && ConsumerOk(s)
    ensures Nodes(DoPopDelete(s))
  {
    var s' := DoPopDelete(s);
    forall i: nat | i < |s.order| ensures NodeOk(s'.heap, s'.order, s'.vals, s'.taken, s'.linker, i) {
      assert NodeOk(s.heap, s.order, s.vals, s.taken, s.linker, i);
    }
  }

  lemma PopDeleteReader<T>(s: State<T>)
    requires Shape(s) && ReaderOk(s)
    ensures ReaderOk(DoPopDelete(s))
  {
  }

  lemma PopDeleteInv<T>(s: State<T>)
    requires Inv(s)
    ensures Inv(DoPopDelete(s))
  {
    PopDeleteNodes(s);
    PopDeleteReader(s);
    ConsumerThreads(s, DoPopDelete(s));
  }

  // ----- pop_all -----

  lemma DrainAllocNodes<T>(s: State<T>)
    requires Shape(s) && Nodes(s)
    ensures Nodes(DoDrainAlloc(s))
  {
    var s' := DoDrainAlloc(s);
    forall i: nat | i < |s.order| ensures NodeOk(s'.heap, s'.order, s'.vals, s'.taken, s'.linker, i) {
      assert NodeOk(s.heap, s.order, s.vals, s.taken, s.linker, i);
    }
  }

  lemma DrainAllocReader<T>(s: State<T>)
    requires Shape(s) && ReaderOk(s) && s.next !in s.owner
    ensures ReaderOk(DoDrainAlloc(s))
  {
  }

  lemma DrainAllocShape<T>(s: State<T>)
    requires Shape(s)
    ensures Shape(DoDrainAlloc(s))
  {
  }

  lemma DrainAllocThreads<T>(s: State<T>)
    requires Shape(s) && Threads(s)
    ensures Threads(DoDrainAlloc(s)) && s.next !in s.owner
  {
    ConsumerThreads(s, DoDrainAlloc(s));
  }

  lemma DrainAllocInv<T>(s: State<T>)
    requires Inv(s)
    ensures Inv(DoDrainAlloc(s))
  {
    DrainAllocShape(s);
    DrainAllocThreads(s);
    DrainAllocNodes(s);
    DrainAllocReader(s);
  }

  lemma DrainStoreHeadReader<T>(s: State<T>)
    requires Shape(s) && ReaderOk(s)
    ensures ReaderOk(DoDrainStoreHead(s))
  {
  }

  lemma DrainStoreHeadInv<T>(s: State<T>)
    requires Inv(s)
    ensures Inv(DoDrainStoreHead(s))
  {
    DrainStoreHeadReader(s);
    OnlyConsumer(s, DoDrainStoreHead(s));
  }

  lemma DrainExchangeNodes<T>(s: State<T>)
    requires Shape(s) && Nodes(s) && ConsumerOk(s)
    ensures Nodes(DoDrainExchange(s)) && Shape(DoDrainExchange(s))
  {
    var s' := DoDrainExchange(s);
    if s.consumer.DrainStored? {
      forall i: nat | i < |s'.order| ensures NodeOk(s'.heap, s'.order, s'.vals, s'.taken, s'.linker, i) {
        assert i < |s.order| ==> NodeOk(s.heap, s.order, s.vals, s.taken, s.linker, i);
      }
    }
  }

  lemma DrainExchangeThreads<T>(s: State<T>)
    requires Shape(s) && Threads(s) && ConsumerOk(s)
    ensures Threads(DoDrainExchange(s))
  {
  }

  lemma DrainExchangeReader<T>(s: State<T>)
    requires Shape(s) && ReaderOk(s)
    ensures ReaderOk(DoDrainExchange(s))
  {
    if s.consumer.DrainStored? {
      ValuesSplit(s.vals, 0, s.hi + 1, |s.vals|);
      ValuesAppend(s.vals, None, 0, |s.vals|);
    }
  }

  lemma DrainExchangeInv<T>(s: State<T>)
    requires Inv(s)
    ensures Inv(DoDrainExchange(s))
  {
    DrainExchangeNodes(s);
    DrainExchangeThreads(s);
    DrainExchangeReader(s);
  }

  // ----- every interleaving -----

  lemma PushNextInv<T>(s: State<T>, step: Step<T>)
    requires Inv(s) && (step.PushAlloc? || step.PushExchange? || step.PushLink?)
    ensures Inv(Next(s, step))
  {
    match step
    case PushAlloc(p, v) => PushAllocInv(s, p, v);
    case PushExchange(p) => PushExchangeInv(s, p);
    case PushLink(p) => PushLinkInv(s, p);
  }

  lemma PopNextInv<T>(s: State<T>, step: Step<T>)
    requires Inv(s)
    requires step.PopLoadHead? || step.PopLoadNext? || step.PopMove? || step.PopStoreHead? || step.PopDelete?
    ensures Inv(Next(s, step))
  {
    match step
    case PopLoadHead => PopLoadHeadInv(s);
    case PopLoadNext => PopLoadNextInv(s);
    case PopMove => PopMoveInv(s);
    case PopStoreHead => PopStoreHeadInv(s);
    case PopDelete => PopDeleteInv(s);
  }

  lemma DrainNextInv<T>(s: State<T>, step: Step<T>)
    requires Inv(s) && (step.DrainLoadHead? || step.DrainLoadNext? || step.DrainAlloc? || step.DrainStoreHead?
                        || step.DrainExchange?)
    ensures Inv(Next(s, step))
  {
    match step
    case DrainLoadHead => DrainLoadHeadInv(s);
    case DrainLoadNext => DrainLoadNextInv(s);
    case DrainAlloc => DrainAllocInv(s);
    case DrainStoreHead => DrainStoreHeadInv(s);
    case DrainExchange => DrainExchangeInv(s);
  }

  lemma NextInv<T>(s: State<T>, step: Step<T>)
    requires Inv(s)
    ensures Inv(Next(s, step))
  {
    if step.PushAlloc? || step.PushExchange? || step.PushLink? {
      PushNextInv(s, step);
    } else if step.PopLoadHead? || step.PopLoadNext? || step.PopMove? || step.PopStoreHead? || step.PopDelete? {
      PopNextInv(s, step);
    } else {
      DrainNextInv(s, step);
    }
  }

  lemma {:induction false} RunInv<T>(s: State<T>, steps: seq<Step<T>>)
    requires Inv(s)
    ensures Inv(Run(s, steps))
    decreases |steps|
  {
    if steps != [] {
      RunInv(s, steps[..|steps| - 1]);
      NextInv(Run(s, steps[..|steps| - 1]), steps[|steps| - 1]);
    }
  }

  /** Memory safety, and order against the history: no step of any interleaving touches a deleted
      node, deletes one twice or takes a value twice, and what the consumer has been given is a
      prefix of what was logged at the tail exchanges. */
  lemma LogSafety<T>(steps: seq<Step<T>>)
    ensures var s := Run(Init<T>(), steps); !s.fault && s.consumed <= Log(s)
  {
    InitInv<T>();
    RunInv(Init<T>(), steps);
    var s := Run(Init<T>(), steps);
    ValuesSplit(s.vals, 0, s.hi + 1, |s.vals|);
  }

  // ----- what pop_all returns -----

  /** The values met by following the links from one node to another. */
  function ChainValues<T>(heap: map<Id, Node<T>>, id: Id, last: Id, fuel: nat): Option<seq<T>>
    decreases fuel
  {
    if id !in heap || heap[id].value.None? then None
    else if id == last then Some([heap[id].value.value])
    else if fuel == 0 || heap[id].next.None? then None
    else
      match ChainValues(heap, heap[id].next.value, last, fuel - 1)
      case Some(rest) => Some([heap[id].value.value] + rest)
      case None => None
  }

  ghost predicate AllLinked<T>(s: State<T>, d: Drain) {
    forall p :: p in s.producers && s.producers[p].Swapped? ==> !(d.from < s.producers[p].rank <= d.upto)
  }

  /** The links and values of a drained chain on the heap. */
  ghost predicate ChainAt<T>(heap: map<Id, Node<T>>, order: seq<Id>, vals: seq<Option<T>>, upto: nat, r: nat)
    requires r <= upto < |order| == |vals|
  {
    && order[r] in heap && vals[r].Some? && heap[order[r]].value == vals[r]
    && (r < upto ==> heap[order[r]].next == Some(order[r + 1]) && order[r] != order[upto])
  }

  lemma {:induction false} ChainWalk<T>(heap: map<Id, Node<T>>, order: seq<Id>, vals: seq<Option<T>>, upto: nat, r: nat)
    requires r <= upto < |order| == |vals|
    requires forall i: nat :: r <= i <= upto ==> ChainAt(heap, order, vals, upto, i)
    ensures ChainValues(heap, order[r], order[upto], upto - r) == Some(Values(vals, r, upto + 1))
    decreases upto - r
  {
    assert ChainAt(heap, order, vals, upto, r);
    ValuesSplit(vals, r, r + 1, upto + 1);
    assert Values(vals, r, r + 1) == [vals[r].value];
    if r < upto { ChainWalk(heap, order, vals, upto, r + 1); }
  }

  lemma ChainReady<T>(s: State<T>, d: Drain, r: nat)
    requires Shape(s) && Nodes(s) && Threads(s) && DrainOk(s.order, s.vals, s.taken, s.hi, d) && AllLinked(s, d)
    requires d.from <= r <= d.upto
    ensures ChainAt(s.heap, s.order, s.vals, d.upto, r)
  {
    assert NodeOk(s.heap, s.order, s.vals, s.taken, s.linker, r);
    assert s.ranks[s.order[r]] == r && s.ranks[s.order[d.upto]] == d.upto;
    forall x | x in s.linker ensures !(d.from < x <= d.upto) {
      assert s.producers[s.linker[x]] == Swapped(s.order[x], s.order[x - 1], x);
    }
  }

  /** From any node of a drained chain, once its links are stored. */
  lemma ChainFrom<T>(s: State<T>, d: Drain, r: nat)
    requires Inv(s) && d in s.drains && d.from <= r <= d.upto && AllLinked(s, d)
    ensures ChainValues(s.heap, s.order[r], d.tail, d.upto - r) == Some(Values(s.vals, r, d.upto + 1))
  {
    assert DrainOk(s.order, s.vals, s.taken, s.hi, d);
    ChainOf(s, d, r);
  }

  lemma ChainOf<T>(s: State<T>, d: Drain, r: nat)
    requires Shape(s) && Nodes(s) && Threads(s) && DrainOk(s.order, s.vals, s.taken, s.hi, d)
    requires d.from <= r <= d.upto && AllLinked(s, d)
    ensures ChainValues(s.heap, s.order[r], d.tail, d.upto - r) == Some(Values(s.vals, r, d.upto + 1))
  {
    forall i: nat | r <= i <= d.upto ensures ChainAt(s.heap, s.order, s.vals, d.upto, i) {
      ChainReady(s, d, i);
    }
    ChainWalk(s.heap, s.order, s.vals, d.upto, r);
  }

  ghost predicate HistoryExtends<T>(s: State<T>, s': State<T>) {
    s.vals <= s'.vals && s.drains <= s'.drains
  }

  lemma PushExtends<T>(s: State<T>, p: nat, v: T)
    ensures HistoryExtends(s, DoPushAlloc(s, p, v))
  {
  }

  lemma LinkExtends<T>(s: State<T>, p: nat)
    ensures HistoryExtends(s, DoPushLink(s, p))
  {
  }

  lemma ExchangeExtends<T>(s: State<T>, p: nat)
    ensures HistoryExtends(s, DoPushExchange(s, p))
  {
  }

  lemma DrainExtends<T>(s: State<T>)
    ensures HistoryExtends(s, DoDrainExchange(s))
  {
  }

  lemma LoadExtends<T>(s: State<T>)
    ensures HistoryExtends(s, DoPopLoadHead(s)) && HistoryExtends(s, DoDrainLoadHead(s))
  {
  }

  lemma PopLoadNextExtends<T>(s: State<T>)
    ensures HistoryExtends(s, DoPopLoadNext(s))
  {
  }

  lemma DrainLoadNextExtends<T>(s: State<T>)
    ensures HistoryExtends(s, DoDrainLoadNext(s))
  {
  }

  lemma MoveExtends<T>(s: State<T>)
    ensures HistoryExtends(s, DoPopMove(s)) && HistoryExtends(s, DoDrainAlloc(s))
  {
  }

  lemma StoreExtends<T>(s: State<T>)
    ensures HistoryExtends(s, DoPopStoreHead(s)) && HistoryExtends(s, DoDrainStoreHead(s))
  {
  }

  lemma DeleteExtends<T>(s: State<T>)
    ensures HistoryExtends(s, DoPopDelete(s))
  {
  }

  lemma NextExtends<T>(s: State<T>, step: Step<T>)
    ensures HistoryExtends(s, Next(s, step))
  {
    match step
    case PushAlloc(p, v) => PushExtends(s, p, v);
    case PushExchange(p) => ExchangeExtends(s, p);
    case PushLink(p) => LinkExtends(s, p);
    case PopLoadHead => LoadExtends(s);
    case PopLoadNext => PopLoadNextExtends(s);
    case PopMove => MoveExtends(s);
    case PopStoreHead => StoreExtends(s);
    case PopDelete => DeleteExtends(s);
    case DrainLoadHead => LoadExtends(s);
    case DrainLoadNext => DrainLoadNextExtends(s);
    case DrainAlloc => MoveExtends(s);
    case DrainStoreHead => StoreExtends(s);
    case DrainExchange => DrainExtends(s);
  }

  /** History is never rewritten. */
  lemma {:induction false} RunExtends<T>(s: State<T>, steps: seq<Step<T>>)
    ensures HistoryExtends(s, Run(s, steps))
    decreases |steps|
  {
    if steps != [] {
      RunExtends(s, steps[..|steps| - 1]);
      NextExtends(Run(s, steps[..|steps| - 1]), steps[|steps| - 1]);
    }
  }

  lemma {:induction false} ValuesOfPrefix<T>(vals: seq<Option<T>>, vals': seq<Option<T>>, a: nat, b: nat)
    requires vals <= vals' && a <= b <= |vals|
    ensures Values(vals', a, b) == Values(vals, a, b)
  {
    if a < b { ValuesOfPrefix(vals, vals', a, b - 1); }
  }

  /** What pop_all's exchange records: its chain is everything pushed and not consumed. */
  lemma DrainRecord<T>(s: State<T>)
    requires Inv(s) && s.consumer.DrainStored?
    ensures var s' := DoDrainExchange(s);
      && s.vals <= s'.vals && |s'.drains| == |s.drains| + 1
      && var d := s'.drains[|s.drains|];
         && d.from <= d.upto < |s.vals| && |s.consumed| < |Log(s)|
         && Values(s.vals, d.from, d.upto + 1) == Log(s)[|s.consumed|..]
  {
    RestOfLog(s);
    DrainDone(s, Log(s)[|s.consumed|..]);
  }

  lemma DrainDone<T>(s: State<T>, rest: seq<T>)
    requires s.consumer.DrainStored? && s.hi + 1 < |s.order| == |s.vals|
    requires Values(s.vals, s.hi + 1, |s.vals|) == rest
    ensures var s' := DoDrainExchange(s);
      && s.vals <= s'.vals && |s'.drains| == |s.drains| + 1
      && var d := s'.drains[|s.drains|];
         d.from <= d.upto < |s.vals| && Values(s.vals, d.from, d.upto + 1) == rest
  {
  }

  /** What has not been consumed when pop_all exchanges the tail. */
  lemma RestOfLog<T>(s: State<T>)
    requires Inv(s) && s.hi + 1 < |s.order|
    ensures |s.consumed| < |Log(s)| && Values(s.vals, s.hi + 1, |s.vals|) == Log(s)[|s.consumed|..]
  {
    ValuesSplit(s.vals, 0, s.hi + 1, |s.vals|);
    ValuesSplit(s.vals, s.hi + 1, s.hi + 2, |s.vals|);
  }

  /** Pushes exchanged after pop_all's store their links outside its chain. */
  lemma LaterPushesElsewhere<T>(s: State<T>, d: Drain, p: nat)
    requires Inv(s) && d in s.drains && ProducerOf(s, p).Swapped? && ProducerOf(s, p).rank > d.upto
    ensures var q := ProducerOf(s, p);
      d.upto < q.rank - 1 < |s.order| && q.prev == s.order[q.rank - 1]
      && forall i :: d.from <= i <= d.upto ==> s.order[i] != q.prev
  {
    assert DrainOk(s.order, s.vals, s.taken, s.hi, d);
    LaterPush(s, d, p);
  }

  lemma LaterPush<T>(s: State<T>, d: Drain, p: nat)
    requires Shape(s) && Threads(s) && DrainOk(s.order, s.vals, s.taken, s.hi, d)
    requires ProducerOf(s, p).Swapped? && ProducerOf(s, p).rank > d.upto
    ensures var q := ProducerOf(s, p);
      d.upto < q.rank - 1 < |s.order| && q.prev == s.order[q.rank - 1]
      && forall i :: d.from <= i <= d.upto ==> s.order[i] != q.prev
  {
    var q := s.producers[p];
    assert q.rank in s.linker && s.producers[s.linker[q.rank]] == Swapped(s.order[q.rank], s.order[q.rank - 1], q.rank);
    forall i | d.from <= i <= d.upto ensures s.order[i] != q.prev {
      assert s.ranks[s.order[i]] == i && s.ranks[s.order[q.rank - 1]] == q.rank - 1;
    }
  }

  /** pop_all's k-th result is a chain holding exactly the given values, once the producers
      inside it have stored their links. */
  ghost predicate DrainHolds<T>(s: State<T>, k: nat, values: seq<T>) {
    && k < |s.drains| && s.drains[k].from <= s.drains[k].upto
    && (AllLinked(s, s.drains[k]) ==>
          ChainValues(s.heap, s.drains[k].head, s.drains[k].tail, s.drains[k].upto - s.drains[k].from) == Some(values))
  }

  lemma DrainValues<T>(s: State<T>, k: nat)
    requires Inv(s) && k < |s.drains|
    ensures var d := s.drains[k];
      && d.from <= d.upto < |s.vals|
      && (AllLinked(s, d) ==>
            ChainValues(s.heap, d.head, d.tail, d.upto - d.from) == Some(Values(s.vals, d.from, d.upto + 1)))
  {
    var d := s.drains[k];
    assert DrainOk(s.order, s.vals, s.taken, s.hi, d);
    WholeChain(s, d);
  }

  lemma WholeChain<T>(s: State<T>, d: Drain)
    requires Shape(s) && Nodes(s) && Threads(s) && DrainOk(s.order, s.vals, s.taken, s.hi, d)
    ensures AllLinked(s, d) ==>
      ChainValues(s.heap, d.head, d.tail, d.upto - d.from) == Some(Values(s.vals, d.from, d.upto + 1))
  {
    if AllLinked(s, d) { ChainOf(s, d, d.from); }
  }

  /** The values recorded when the chain was drained are still those of its ranks. */
  lemma DrainFollows<T>(s: State<T>, k: nat, vals: seq<Option<T>>)
    requires k < |s.drains| && s.drains[k].from <= s.drains[k].upto < |vals| && vals <= s.vals
    requires var d := s.drains[k]; AllLinked(s, d) ==>
      ChainValues(s.heap, d.head, d.tail, d.upto - d.from) == Some(Values(s.vals, d.from, d.upto + 1))
    ensures DrainHolds(s, k, Values(vals, s.drains[k].from, s.drains[k].upto + 1))
  {
    ValuesOfPrefix(vals, s.vals, s.drains[k].from, s.drains[k].upto + 1);
  }

  lemma DrainStill<T>(t: State<T>, k: nat, vals: seq<Option<T>>)
    requires Inv(t) && k < |t.drains| && vals <= t.vals
    requires t.drains[k].from <= t.drains[k].upto < |vals|
    ensures DrainHolds(t, k, Values(vals, t.drains[k].from, t.drains[k].upto + 1))
  {
    DrainValues(t, k);
    DrainFollows(t, k, vals);
  }

  lemma DrainLater<T>(s: State<T>, k: nat, vals: seq<Option<T>>, after: seq<Step<T>>)
    requires Inv(s) && k < |s.drains| && vals <= s.vals
    requires s.drains[k].from <= s.drains[k].upto < |vals|
    ensures DrainHolds(Run(s, after), k, Values(vals, s.drains[k].from, s.drains[k].upto + 1))
  {
    RunExtends(s, after);
    RunInv(s, after);
    DrainStill(Run(s, after), k, vals);
  }

  /** After pop_all's exchange, in every later state in which the producers inside its chain have
      stored their links, the chain from Drain.head to Drain.tail holds exactly the values pushed
      before the exchange and not popped, in order. */
  lemma DrainTakesTheRest<T>(s: State<T>, after: seq<Step<T>>)
    requires Inv(s) && s.consumer.DrainStored?
    ensures |s.consumed| < |Log(s)|
    ensures DrainHolds(Run(DoDrainExchange(s), after), |s.drains|, Log(s)[|s.consumed|..])
  {
    DrainRecord(s);
    DrainExchangeInv(s);
    DrainLater(DoDrainExchange(s), |s.drains|, s.vals, after);
  }

  // ----- the destructor and unsafe_size, when nothing else is running -----

  ghost predicate Quiescent<T>(s: State<T>) {
    s.consumer.Free? && forall p :: p in s.producers ==> s.producers[p].Idle?
  }

  function Pop<T>(s: State<T>): State<T> {
    DoPopDelete(DoPopStoreHead(DoPopMove(DoPopLoadNext(DoPopLoadHead(s)))))
  }

  lemma QuiescentHead<T>(s: State<T>)
    requires Inv(s) && Quiescent(s)
    ensures s.head in s.heap && s.head == s.order[s.hi]
    ensures s.heap[s.head].next == if s.hi + 1 < |s.order| then Some(s.order[s.hi + 1]) else None
  {
    HeadLink(s);
  }

  lemma PopKeepsInv<T>(s: State<T>)
    requires Inv(s)
    ensures Inv(Pop(s))
  {
    PopLoadHeadInv(s);
    var s1 := DoPopLoadHead(s);
    PopLoadNextInv(s1);
    PopMoveInv(DoPopLoadNext(s1));
    PopStoreHeadInv(DoPopMove(DoPopLoadNext(s1)));
    PopDeleteInv(DoPopStoreHead(DoPopMove(DoPopLoadNext(s1))));
  }

  lemma PopSeesNext<T>(s: State<T>)
    requires Inv(s) && Quiescent(s) && s.hi + 1 < |s.order|
    ensures var n := s.order[s.hi + 1];
      DoPopLoadNext(DoPopLoadHead(s)) == s.(consumer := SawNext(s.head, n)) && n in s.heap && s.heap[n].value.Some?
      && n != s.head
  {
    QuiescentHead(s);
    assert NodeOk(s.heap, s.order, s.vals, s.taken, s.linker, s.hi + 1);
  }

  lemma PopAdvances<T>(s: State<T>)
    requires Inv(s) && Quiescent(s) && s.hi + 1 < |s.order|
    ensures var s' := Pop(s);
      && Quiescent(s') && s'.hi == s.hi + 1 && s'.vals == s.vals && s'.order == s.order && s'.drains == s.drains
      && s.order[s.hi + 1] in s.heap && s.heap[s.order[s.hi + 1]].value.Some?
      && s'.consumed == s.consumed + [s.heap[s.order[s.hi + 1]].value.value]
  {
    QuiescentHead(s);
    PopSeesNext(s);
  }

  /** All that a pop does, with nothing else running and a value there. */
  lemma PopWorks<T>(s: State<T>)
    requires Inv(s) && Quiescent(s) && s.hi + 1 < |s.order|
    ensures var s', n := Pop(s), s.order[s.hi + 1];
      && Inv(s') && Quiescent(s') && s'.vals == s.vals && s'.order == s.order && s'.drains == s.drains
      && s'.hi == s.hi + 1 && n in s.heap && s.heap[n].value.Some?
      && s'.consumed == s.consumed + [s.heap[n].value.value]
  {
    PopSeesNext(s);
    PopKeepsInv(s);
    PopAdvances(s);
  }

  /** pop, with nothing else running: the oldest value, or None exactly when there is none. */
  method PopCall<T>(s: State<T>) returns (s': State<T>, r: Option<T>)
    requires Inv(s) && Quiescent(s)
    ensures Inv(s') && Quiescent(s') && s'.vals == s.vals && s'.order == s.order && s'.drains == s.drains
    ensures r.None? <==> s.hi + 1 == |s.order|
    ensures s'.hi == if r.Some? then s.hi + 1 else s.hi
    ensures s'.consumed == if r.Some? then s.consumed + [r.value] else s.consumed
  {
    QuiescentHead(s);
    if s.heap[s.head].next.None? {
      return s, None;
    }
    PopWorks(s);
    s' := Pop(s);
    r := s.heap[s.heap[s.head].next.value].value;
  }

  /** ~LockFreeQueue: pop until empty, then delete the dummy. It hands out every value left, and
      frees every node exactly when pop_all never returned a chain: otherwise at least the dummy
      that pop_all unhooked is still allocated, and it is not part of the chain returned. */
  method Destroy<T>(s0: State<T>) returns (heap: map<Id, Node<T>>, consumed: seq<T>)
    requires Inv(s0) && Quiescent(s0)
    ensures consumed == Log(s0)
    ensures heap == map[] <==> s0.drains == []
    ensures forall d :: d in s0.drains ==> 0 < d.from < |s0.order| && s0.order[d.from - 1] in heap
  {
    var s := PopUntilEmpty(s0);
    heap, consumed := s.heap - {s.head}, s.consumed;
    LeftInHeap(s);
    AllConsumed(s);
  }

  /** `while (pop());` */
  method PopUntilEmpty<T>(s0: State<T>) returns (s: State<T>)
    requires Inv(s0) && Quiescent(s0)
    ensures Inv(s) && Quiescent(s) && s.vals == s0.vals && s.order == s0.order && s.drains == s0.drains
    ensures s.hi + 1 == |s.order|
  {
    s := s0;
    var more := true;
    while more
      invariant Inv(s) && Quiescent(s) && s.vals == s0.vals && s.order == s0.order && s.drains == s0.drains
      invariant !more ==> s.hi + 1 == |s.order|
      decreases more, |s.order| - s.hi
    {
      var s', r := PopCall(s);
      s, more := s', r.Some?;
    }
  }

  lemma AllConsumed<T>(s: State<T>)
    requires Inv(s) && s.hi + 1 == |s.order|
    ensures s.consumed == Log(s)
  {
  }

  lemma LeftInHeap<T>(s: State<T>)
    requires Inv(s) && Quiescent(s) && s.hi + 1 == |s.order|
    ensures s.heap - {s.head} == map[] <==> s.drains == []
    ensures forall d :: d in s.drains ==> 0 < d.from < |s.order| && s.order[d.from - 1] in s.heap - {s.head}
  {
    forall d | d in s.drains ensures 0 < d.from < |s.order| && s.order[d.from - 1] in s.heap - {s.head} {
      DummyLeft(s, d);
    }
    if s.drains == [] {
      OnlyHeadLeft(s);
    } else {
      assert s.drains[0] in s.drains;
    }
  }

  /** The dummy that pop_all unhooked. */
  lemma DummyLeft<T>(s: State<T>, d: Drain)
    requires Shape(s) && Nodes(s) && DrainOk(s.order, s.vals, s.taken, s.hi, d) && s.head == s.order[s.hi]
    ensures 0 < d.from < |s.order| && s.order[d.from - 1] in s.heap && s.order[d.from - 1] != s.head
  {
    assert NodeOk(s.heap, s.order, s.vals, s.taken, s.linker, d.from - 1);
  }

  lemma OnlyHeadLeft<T>(s: State<T>)
    requires Shape(s) && OwnersOk(s.heap, s.ranks, s.producers, s.owner) && Known(s) && Quiescent(s)
    requires s.hi + 1 == |s.order| && s.head == s.order[s.hi] && NoLeaks(s.heap, s.order, s.hi, s.consumer)
    ensures s.heap.Keys <= {s.head}
  {
    forall id | id in s.heap ensures id == s.head {
      assert id !in s.owner;
      assert id == s.order[s.ranks[id]];
    }
  }

  /** From rank hi on, each node is there and linked to the next. */
  ghost predicate LinkedFrom<T>(heap: map<Id, Node<T>>, order: seq<Id>, vals: seq<Option<T>>, hi: nat) {
    |order| == |vals| && forall r: nat :: hi <= r < |order| ==> LinkedAt(heap, order, vals, r)
  }

  ghost predicate LinkedAt<T>(heap: map<Id, Node<T>>, order: seq<Id>, vals: seq<Option<T>>, r: nat)
    requires r < |order| == |vals|
  {
    && order[r] in heap && (r + 1 < |order| ==> vals[r + 1].Some?)
    && heap[order[r]].next == if r + 1 < |order| then Some(order[r + 1]) else None
  }

  lemma QuiescentLinks<T>(s: State<T>)
    requires Inv(s) && Quiescent(s)
    ensures s.hi < |s.order| && s.head == s.order[s.hi] && LinkedFrom(s.heap, s.order, s.vals, s.hi)
    ensures s.consumed == Values(s.vals, 0, s.hi + 1)
  {
    QuiescentHead(s);
    forall r: nat | s.hi <= r < |s.order| ensures LinkedAt(s.heap, s.order, s.vals, r) {
      assert NodeOk(s.heap, s.order, s.vals, s.taken, s.linker, r);
    }
  }

  lemma OneMoreValue<T>(vals: seq<Option<T>>, a: nat, b: nat)
    requires a <= b < |vals| && vals[b].Some?
    ensures |Values(vals, a, b + 1)| == |Values(vals, a, b)| + 1
  {
  }

  /** unsafe_size's walk along the links. */
  method CountLinks<T>(heap: map<Id, Node<T>>, head: Id, ghost order: seq<Id>, ghost vals: seq<Option<T>>,
                       ghost hi: nat) returns (count: nat)
    requires hi < |order| && head == order[hi] && LinkedFrom(heap, order, vals, hi)
    ensures count == |Values(vals, hi + 1, |vals|)|
  {
    count := 0;
    var node := head;
    ghost var r := hi;
    assert LinkedAt(heap, order, vals, r);
    while heap[node].next.Some?
      invariant hi <= r < |order| && node == order[r] && LinkedAt(heap, order, vals, r)
      invariant count == |Values(vals, hi + 1, r + 1)|
      decreases |order| - r
    {
      OneMoreValue(vals, hi + 1, r + 1);
      assert LinkedAt(heap, order, vals, r + 1);
      node, r, count := heap[node].next.value, r + 1, count + 1;
    }
  }

  /** unsafe_size counts the values pushed and not yet consumed. */
  method UnsafeSize<T>(s: State<T>) returns (count: nat)
    requires Inv(s) && Quiescent(s)
    ensures |s.consumed| + count == |Log(s)|
  {
    QuiescentLinks(s);
    ValuesSplit(s.vals, 0, s.hi + 1, |s.vals|);
    count := CountLinks(s.heap, s.head, s.order, s.vals, s.hi);
  }
}
