/** Whole calls, one after the other: the queue behaves as a sequence. */
module QueueCalls {
  import opened Wrappers
  import opened MpscQueue

  datatype Call<+T> = Push(p: nat, v: T) | Pop | PopAll

  /** What pop_all returns is given by the values met along its chain. */
  datatype Reply<+T> = Pushed | Popped(value: Option<T>) | Drained(values: Option<seq<T>>)

  /** The same calls on a sequence. */
  function After<T>(q: seq<T>, call: Call<T>): seq<T> {
    match call
    case Push(_, v) => q + [v]
    case Pop => if q == [] then [] else q[1..]
    case PopAll => []
  }

  function Answer<T>(q: seq<T>, call: Call<T>): Reply<T> {
    match call
    case Push(_, _) => Pushed
    case Pop => Popped(if q == [] then None else Some(q[0]))
    case PopAll => Drained(if q == [] then None else Some(q))
  }

  function AfterAll<T>(q: seq<T>, calls: seq<Call<T>>): seq<T>
    decreases |calls|
  {
    if calls == [] then q else AfterAll(After(q, calls[0]), calls[1..])
  }

  function Answers<T>(q: seq<T>, calls: seq<Call<T>>): seq<Reply<T>>
    decreases |calls|
  {
    if calls == [] then [] else [Answer(q, calls[0])] + Answers(After(q, calls[0]), calls[1..])
  }

  /** What has been logged and not consumed. */
  ghost predicate Holds<T>(s: State<T>, q: seq<T>) {
    s.consumed + q == Log(s)
  }

  /** Nothing is under way and the queue holds q. */
  ghost predicate Resting<T>(s: State<T>, q: seq<T>) {
    Inv(s) && Quiescent(s) && Holds(s, q)
  }

  lemma NewIsEmpty<T>()
    ensures Resting(Init<T>(), [])
  {
    InitInv<T>();
    assert Values<T>([None], 0, 0) == [] && Log(Init<T>()) == [];
  }

  lemma RestOf<T>(s: State<T>, q: seq<T>)
    requires Resting(s, q)
    ensures s.hi < |s.order| == |s.vals| && q == Values(s.vals, s.hi + 1, |s.vals|)
    ensures q == [] <==> s.hi + 1 == |s.order|
    ensures q != [] ==> s.vals[s.hi + 1] == Some(q[0])
  {
    var rest := Values(s.vals, s.hi + 1, |s.vals|);
    ValuesSplit(s.vals, 0, s.hi + 1, |s.vals|);
    assert (s.consumed + q)[|s.consumed|..] == q && (s.consumed + rest)[|s.consumed|..] == rest;
    if s.hi + 1 < |s.vals| { FirstOfValues(s.vals, s.hi + 1); }
  }

  lemma FirstOfValues<T>(vals: seq<Option<T>>, a: nat)
    requires a < |vals| && vals[a].Some?
    ensures Values(vals, a, |vals|) != [] && Values(vals, a, |vals|)[0] == vals[a].value
  {
    ValuesSplit(vals, a, a + 1, |vals|);
    assert Values(vals, a, a + 1) == [vals[a].value];
  }

  // ----- push -----

  function PushSteps<T>(s: State<T>, p: nat, v: T): State<T> {
    DoPushLink(DoPushExchange(DoPushAlloc(s, p, v), p), p)
  }

  lemma PushKeepsInv<T>(s: State<T>, p: nat, v: T)
    requires Inv(s)
    ensures Inv(PushSteps(s, p, v))
  {
    PushAllocInv(s, p, v);
    PushExchangeInv(DoPushAlloc(s, p, v), p);
    PushLinkInv(DoPushExchange(DoPushAlloc(s, p, v), p), p);
  }

  /** The three steps of one push, with nobody else at work. */
  lemma PushCompletes<T>(s: State<T>, p: nat, v: T)
    requires Shape(s) && Quiescent(s) && s.tail in s.heap
    ensures var t := PushSteps(s, p, v);
      Quiescent(t) && t.vals == s.vals + [Some(v)] && t.consumed == s.consumed
  {
    var s1 := DoPushAlloc(s, p, v);
    assert ProducerOf(s, p).Idle?;
    assert ProducerOf(s1, p) == HasNode(s.next);
    var s2 := DoPushExchange(s1, p);
    assert ProducerOf(s2, p) == Swapped(s.next, s.tail, |s.order|) && s.tail in s2.heap;
  }

  lemma TailIsLive<T>(s: State<T>)
    requires Inv(s) && Quiescent(s)
    ensures s.tail in s.heap
  {
    QuiescentLinks(s);
    assert LinkedAt(s.heap, s.order, s.vals, |s.order| - 1);
  }

  method PushCall<T>(s: State<T>, p: nat, v: T, ghost q: seq<T>) returns (s': State<T>)
    requires Resting(s, q)
    ensures Resting(s', q + [v])
  {
    TailIsLive(s);
    PushKeepsInv(s, p, v);
    PushCompletes(s, p, v);
    PushedLast(s.vals, s.consumed, q, v);
    s' := PushSteps(s, p, v);
  }

  lemma PushedLast<T>(vals: seq<Option<T>>, consumed: seq<T>, q: seq<T>, v: T)
    requires consumed + q == Values(vals, 0, |vals|)
    ensures consumed + (q + [v]) == Values(vals + [Some(v)], 0, |vals| + 1)
  {
    ValuesAppend(vals, Some(v), 0, |vals|);
  }

  // ----- pop_all -----

  function DrainBegun<T>(s: State<T>): State<T> {
    DoDrainStoreHead(DoDrainAlloc(DoDrainLoadNext(DoDrainLoadHead(s))))
  }

  lemma DrainKeepsInv<T>(s: State<T>)
    requires Inv(s)
    ensures Inv(DrainBegun(s))
  {
    DrainLoadHeadInv(s);
    DrainLoadNextInv(DoDrainLoadHead(s));
    DrainAllocInv(DoDrainLoadNext(DoDrainLoadHead(s)));
    DrainStoreHeadInv(DoDrainAlloc(DoDrainLoadNext(DoDrainLoadHead(s))));
  }

  lemma LoadedHead<T>(s: State<T>)
    requires s.consumer.Free?
    ensures DoDrainLoadHead(s) == s.(consumer := DrainHead(s.head))
  {
  }

  lemma LoadedNext<T>(s: State<T>, h: Id)
    requires s.consumer == DrainHead(h) && h in s.heap && s.heap[h].next.Some?
    ensures DoDrainLoadNext(s) == s.(consumer := DrainNext(h, s.heap[h].next.value))
  {
  }

  lemma Allocated<T>(s: State<T>)
    requires s.consumer.DrainNext?
    ensures var u := DoDrainAlloc(s);
      && u.consumer.DrainDummy? && u.vals == s.vals && u.order == s.order && u.consumed == s.consumed
      && u.producers == s.producers && u.drains == s.drains
  {
  }

  lemma StoredHead<T>(s: State<T>)
    requires s.consumer.DrainDummy?
    ensures var u := DoDrainStoreHead(s);
      && u.consumer.DrainStored? && u.vals == s.vals && u.order == s.order && u.consumed == s.consumed
      && u.producers == s.producers && u.drains == s.drains
  {
  }

  /** With something queued, pop_all gets as far as its exchange. */
  lemma DrainBegins<T>(s: State<T>)
    requires s.consumer.Free? && s.head in s.heap && s.heap[s.head].next.Some?
    ensures var u := DrainBegun(s);
      && u.consumer.DrainStored? && u.vals == s.vals && u.order == s.order && u.consumed == s.consumed
      && u.producers == s.producers && u.drains == s.drains
  {
    LoadedHead(s);
    LoadedNext(s.(consumer := DrainHead(s.head)), s.head);
    var s2 := s.(consumer := DrainNext(s.head, s.heap[s.head].next.value));
    Allocated(s2);
    StoredHead(DoDrainAlloc(s2));
  }

  lemma DrainEnds<T>(u: State<T>)
    requires u.consumer.DrainStored? && u.hi + 1 < |u.vals| == |u.order|
    ensures var t := DoDrainExchange(u);
      && t.consumer.Free? && t.producers == u.producers && t.vals == u.vals + [None]
      && t.consumed == u.consumed + Values(u.vals, u.hi + 1, |u.vals|) && |t.drains| == |u.drains| + 1
  {
  }

  lemma DrainReturns<T>(u: State<T>)
    requires Inv(u) && u.consumer.DrainStored?
    ensures |u.consumed| < |Log(u)| && DrainHolds(DoDrainExchange(u), |u.drains|, Log(u)[|u.consumed|..])
  {
    DrainTakesTheRest(u, []);
    assert Run(DoDrainExchange(u), []) == DoDrainExchange(u);
  }

  /** The chain pop_all returns, with no link pending. */
  function Chain<T>(s: State<T>, k: nat): Option<seq<T>>
    requires k < |s.drains|
  {
    var d := s.drains[k];
    if d.from <= d.upto then ChainValues(s.heap, d.head, d.tail, d.upto - d.from) else None
  }

  lemma ChainIs<T>(t: State<T>, k: nat, q: seq<T>)
    requires DrainHolds(t, k, q) && forall p :: p in t.producers ==> t.producers[p].Idle?
    ensures k < |t.drains| && Chain(t, k) == Some(q)
  {
  }

  lemma EmptiedLog<T>(u: State<T>)
    requires u.consumer.DrainStored? && u.hi + 1 < |u.vals| == |u.order| && u.consumed == Values(u.vals, 0, u.hi + 1)
    ensures Holds(DoDrainExchange(u), [])
  {
    DrainEnds(u);
    ValuesSplit(u.vals, 0, u.hi + 1, |u.vals|);
    ValuesAppend(u.vals, None, 0, |u.vals|);
    assert Log(u) + [] == Log(u);
  }

  lemma DrainEmpties<T>(u: State<T>)
    requires Inv(u) && u.consumer.DrainStored?
    ensures Inv(DoDrainExchange(u)) && Holds(DoDrainExchange(u), [])
  {
    EmptiedLog(u);
    DrainExchangeInv(u);
  }

  lemma DrainFrees<T>(u: State<T>)
    requires u.consumer.DrainStored? && u.hi < |u.vals| == |u.order|
    ensures DoDrainExchange(u).consumer.Free? && DoDrainExchange(u).producers == u.producers
  {
  }

  /** pop_all, and a walk along the chain it returns. */
  method DrainCall<T>(s: State<T>, ghost q: seq<T>) returns (s': State<T>, values: Option<seq<T>>)
    requires Resting(s, q)
    ensures Resting(s', []) && values == if q == [] then None else Some(q)
  {
    RestOf(s, q);
    QuiescentHead(s);
    if s.heap[s.head].next.None? { return s, None; }
    var u := BeginDrain(s, q);
    s', values := EndDrain(u, q);
  }

  method BeginDrain<T>(s: State<T>, ghost q: seq<T>) returns (u: State<T>)
    requires Resting(s, q) && s.head in s.heap && s.heap[s.head].next.Some?
    ensures Inv(u) && u.consumer.DrainStored? && Holds(u, q)
    ensures forall p :: p in u.producers ==> u.producers[p].Idle?
  {
    DrainBegins(s);
    DrainKeepsInv(s);
    u := DrainBegun(s);
  }

  method EndDrain<T>(u: State<T>, ghost q: seq<T>) returns (t: State<T>, values: Option<seq<T>>)
    requires Inv(u) && u.consumer.DrainStored? && Holds(u, q)
    requires forall p :: p in u.producers ==> u.producers[p].Idle?
    ensures Resting(t, []) && values == Some(q)
  {
    DrainEmpties(u);
    DrainFrees(u);
    DrainReturns(u);
    assert Log(u)[|u.consumed|..] == q;
    t := DoDrainExchange(u);
    ChainIs(t, |u.drains|, q);
    values := Chain(t, |u.drains|);
  }

  // ----- runs of calls -----

  method Perform<T>(s: State<T>, call: Call<T>, ghost q: seq<T>) returns (s': State<T>, reply: Reply<T>)
    requires Resting(s, q)
    ensures Resting(s', After(q, call)) && reply == Answer(q, call)
  {
    match call
    case Push(p, v) =>
      s' := PushCall(s, p, v, q);
      reply := Pushed;
    case Pop =>
      var r;
      s', r := PopOne(s, q);
      reply := Popped(r);
    case PopAll =>
      var values;
      s', values := DrainCall(s, q);
      reply := Drained(values);
  }

  method PopOne<T>(s: State<T>, ghost q: seq<T>) returns (s': State<T>, r: Option<T>)
    requires Resting(s, q)
    ensures Resting(s', if q == [] then [] else q[1..])
    ensures r == if q == [] then None else Some(q[0])
  {
    RestOf(s, q);
    s', r := PopCall(s);
    if r.Some? {
      ConsumedIsPrefix(s');
      PoppedFirst(s.consumed, Log(s), q, r.value);
    }
  }

  lemma ConsumedIsPrefix<T>(s: State<T>)
    requires Inv(s)
    ensures s.consumed <= Log(s)
  {
    ValuesSplit(s.vals, 0, s.hi + 1, |s.vals|);
  }

  lemma PoppedFirst<T>(consumed: seq<T>, log: seq<T>, q: seq<T>, v: T)
    requires consumed + q == log && q != [] && consumed + [v] <= log
    ensures v == q[0] && consumed + [v] + q[1..] == log
  {
    assert log[|consumed|] == q[0] && (consumed + [v])[|consumed|] == v;
    assert q == [q[0]] + q[1..];
  }

  lemma CallsNext<T>(q0: seq<T>, q: seq<T>, calls: seq<Call<T>>, i: nat, replies: seq<Reply<T>>)
    requires i < |calls| && AfterAll(q0, calls) == AfterAll(q, calls[i..])
    requires Answers(q0, calls) == replies + Answers(q, calls[i..])
    ensures AfterAll(q0, calls) == AfterAll(After(q, calls[i]), calls[i + 1..])
    ensures Answers(q0, calls) == replies + [Answer(q, calls[i])] + Answers(After(q, calls[i]), calls[i + 1..])
  {
    assert calls[i..][0] == calls[i] && calls[i..][1..] == calls[i + 1..];
  }

  /** Any run of whole calls answers as the same run on a sequence does. */
  method Replay<T>(calls: seq<Call<T>>) returns (s: State<T>, replies: seq<Reply<T>>)
    ensures Resting(s, AfterAll([], calls)) && replies == Answers([], calls)
  {
    NewIsEmpty<T>();
    s, replies := Init(), [];
    ghost var q: seq<T> := [];
    for i := 0 to |calls|
      invariant Resting(s, q) && AfterAll([], calls) == AfterAll(q, calls[i..])
      invariant Answers([], calls) == replies + Answers(q, calls[i..])
    {
      CallsNext([], q, calls, i, replies);
      var reply;
      s, reply := Perform(s, calls[i], q);
      q, replies := After(q, calls[i]), replies + [reply];
    }
  }
}
