/** The values pushed, read off the steps of an interleaving alone, and the order of the queue
    stated against them. */
module QueueHistory {
  import opened Wrappers
  import opened MpscQueue

  /** Where a producer's push call is: called with v and not yet exchanged, or exchanged and not
      yet linked. A producer between calls has no phase. */
  datatype Phase<+T> = Waiting(v: T) | Linking

  datatype Pushes<+T> = Pushes(phases: map<nat, Phase<T>>, values: seq<T>)

  /** What one step does to the calls under way. A value counts as pushed at the exchange. */
  function Noted<T>(w: Pushes<T>, step: Step<T>): Pushes<T> {
    match step
    case PushAlloc(p, v) => if p in w.phases then w else w.(phases := w.phases[p := Waiting(v)])
    case PushExchange(p) =>
      if p in w.phases && w.phases[p].Waiting?
      then Pushes(w.phases[p := Linking], w.values + [w.phases[p].v]) else w
    case PushLink(p) => if p in w.phases && w.phases[p].Linking? then w.(phases := w.phases - {p}) else w
    case _ => w
  }

  function NotedAll<T>(steps: seq<Step<T>>): Pushes<T>
    decreases |steps|
  {
    if steps == [] then Pushes(map[], []) else Noted(NotedAll(steps[..|steps| - 1]), steps[|steps| - 1])
  }

  /** The values given to push, in the order of the tail exchanges. */
  function PushedBy<T>(steps: seq<Step<T>>): seq<T> {
    NotedAll(steps).values
  }

  // ----- the state agrees with the calls -----

  ghost predicate PhaseOk<T>(producer: Producer, heap: map<Id, Node<T>>, phases: map<nat, Phase<T>>, p: nat) {
    match producer
    case Idle => p !in phases
    case HasNode(n) =>
      p in phases && phases[p].Waiting? && n in heap && heap[n].value == Some(phases[p].v)
    case Swapped(_, _, _) => p in phases && phases[p].Linking?
  }

  ghost predicate PhasesOk<T>(s: State<T>, phases: map<nat, Phase<T>>) {
    forall p: nat :: PhaseOk(ProducerOf(s, p), s.heap, phases, p)
  }

  ghost predicate Agrees<T>(s: State<T>, w: Pushes<T>) {
    PhasesOk(s, w.phases) && Log(s) == w.values
  }

  lemma AllocAgrees<T>(s: State<T>, w: Pushes<T>, p: nat, v: T)
    requires Shape(s) && Agrees(s, w)
    ensures Agrees(DoPushAlloc(s, p, v), Noted(w, PushAlloc(p, v)))
  {
    var s', w' := DoPushAlloc(s, p, v), Noted(w, PushAlloc(p, v));
    assert PhaseOk(ProducerOf(s, p), s.heap, w.phases, p);
    forall q: nat ensures PhaseOk(ProducerOf(s', q), s'.heap, w'.phases, q) {
      assert PhaseOk(ProducerOf(s, q), s.heap, w.phases, q);
    }
  }

  lemma LogGrows<T>(vals: seq<Option<T>>, x: Option<T>)
    ensures Values(vals + [x], 0, |vals| + 1) == Values(vals, 0, |vals|) + if x.Some? then [x.value] else []
  {
    ValuesAppend(vals, x, 0, |vals|);
  }

  lemma ExchangeAgrees<T>(s: State<T>, w: Pushes<T>, p: nat)
    requires Agrees(s, w)
    ensures Agrees(DoPushExchange(s, p), Noted(w, PushExchange(p)))
  {
    var s', w' := DoPushExchange(s, p), Noted(w, PushExchange(p));
    assert PhaseOk(ProducerOf(s, p), s.heap, w.phases, p);
    if ProducerOf(s, p).HasNode? { LogGrows(s.vals, s.heap[s.producers[p].node].value); }
    forall q: nat ensures PhaseOk(ProducerOf(s', q), s'.heap, w'.phases, q) {
      assert PhaseOk(ProducerOf(s, q), s.heap, w.phases, q);
    }
  }

  lemma LinkAgrees<T>(s: State<T>, w: Pushes<T>, p: nat)
    requires Shape(s) && Nodes(s) && Threads(s) && (forall i :: i in s.taken ==> i !in s.linker) && Agrees(s, w)
    ensures Agrees(DoPushLink(s, p), Noted(w, PushLink(p)))
  {
    var s', w' := DoPushLink(s, p), Noted(w, PushLink(p));
    assert PhaseOk(ProducerOf(s, p), s.heap, w.phases, p);
    if ProducerOf(s, p).Swapped? { PrevIsLive(s, p); }
    forall q: nat ensures PhaseOk(ProducerOf(s', q), s'.heap, w'.phases, q) {
      assert PhaseOk(ProducerOf(s, q), s.heap, w.phases, q);
    }
  }

  /** A step that leaves the producers and their nodes alone. */
  lemma OthersAgree<T>(s: State<T>, s': State<T>, w: Pushes<T>)
    requires Threads(s) && Agrees(s, w) && s'.producers == s.producers && Log(s') == Log(s)
    requires forall n :: n in s.owner ==> n in s'.heap && s'.heap[n] == s.heap[n]
    ensures Agrees(s', w)
  {
    forall q: nat ensures PhaseOk(ProducerOf(s', q), s'.heap, w.phases, q) {
      assert PhaseOk(ProducerOf(s, q), s.heap, w.phases, q);
    }
  }

  /** The consumer touches no node of a push not yet exchanged. */
  lemma MoveAgrees<T>(s: State<T>, w: Pushes<T>)
    requires Shape(s) && Threads(s) && ConsumerOk(s) && Agrees(s, w)
    ensures Agrees(DoPopMove(s), w)
  {
    if s.consumer.SawNext? { assert s.order[s.hi + 1] in s.ranks && s.order[s.hi + 1] !in s.owner; }
    OthersAgree(s, DoPopMove(s), w);
  }

  lemma DeleteAgrees<T>(s: State<T>, w: Pushes<T>)
    requires Shape(s) && Threads(s) && ConsumerOk(s) && Agrees(s, w)
    ensures Agrees(DoPopDelete(s), w)
  {
    if s.consumer.Stored? { assert s.order[s.hi - 1] in s.ranks && s.order[s.hi - 1] !in s.owner; }
    OthersAgree(s, DoPopDelete(s), w);
  }

  lemma DrainAllocAgrees<T>(s: State<T>, w: Pushes<T>)
    requires Shape(s) && Threads(s) && Agrees(s, w)
    ensures Agrees(DoDrainAlloc(s), w)
  {
    assert s.next !in s.heap;
    OthersAgree(s, DoDrainAlloc(s), w);
  }

  lemma DrainExchangeAgrees<T>(s: State<T>, w: Pushes<T>)
    requires Threads(s) && Agrees(s, w)
    ensures Agrees(DoDrainExchange(s), w)
  {
    LogGrows(s.vals, None);
    OthersAgree(s, DoDrainExchange(s), w);
  }

  lemma LoadsAgree<T>(s: State<T>, w: Pushes<T>)
    requires Threads(s) && Agrees(s, w)
    ensures Agrees(DoPopLoadHead(s), w) && Agrees(DoDrainLoadHead(s), w)
  {
    OthersAgree(s, DoPopLoadHead(s), w);
    OthersAgree(s, DoDrainLoadHead(s), w);
  }

  lemma LoadNextAgrees<T>(s: State<T>, w: Pushes<T>)
    requires Threads(s) && Agrees(s, w)
    ensures Agrees(DoPopLoadNext(s), w)
  {
    OthersAgree(s, DoPopLoadNext(s), w);
  }

  lemma DrainNextAgrees<T>(s: State<T>, w: Pushes<T>)
    requires Threads(s) && Agrees(s, w)
    ensures Agrees(DoDrainLoadNext(s), w)
  {
    OthersAgree(s, DoDrainLoadNext(s), w);
  }

  lemma StoresAgree<T>(s: State<T>, w: Pushes<T>)
    requires Threads(s) && Agrees(s, w)
    ensures Agrees(DoPopStoreHead(s), w) && Agrees(DoDrainStoreHead(s), w)
  {
    OthersAgree(s, DoPopStoreHead(s), w);
    OthersAgree(s, DoDrainStoreHead(s), w);
  }

  lemma NextAgrees<T>(s: State<T>, w: Pushes<T>, step: Step<T>)
    requires Inv(s) && Agrees(s, w)
    ensures Agrees(Next(s, step), Noted(w, step))
  {
    match step
    case PushAlloc(p, v) => AllocAgrees(s, w, p, v);
    case PushExchange(p) => ExchangeAgrees(s, w, p);
    case PushLink(p) => LinkAgrees(s, w, p);
    case PopLoadHead => LoadsAgree(s, w);
    case PopLoadNext => LoadNextAgrees(s, w);
    case PopMove => MoveAgrees(s, w);
    case PopStoreHead => StoresAgree(s, w);
    case PopDelete => DeleteAgrees(s, w);
    case DrainLoadHead => LoadsAgree(s, w);
    case DrainLoadNext => DrainNextAgrees(s, w);
    case DrainAlloc => DrainAllocAgrees(s, w);
    case DrainStoreHead => StoresAgree(s, w);
    case DrainExchange => DrainExchangeAgrees(s, w);
  }

  lemma {:induction false} RunAgrees<T>(steps: seq<Step<T>>)
    ensures Inv(Run(Init<T>(), steps)) && Agrees(Run(Init<T>(), steps), NotedAll(steps))
    decreases |steps|
  {
    InitInv<T>();
    RunInv(Init<T>(), steps);
    if steps != [] {
      var before := steps[..|steps| - 1];
      RunAgrees(before);
      NextAgrees(Run(Init<T>(), before), NotedAll(before), steps[|steps| - 1]);
    }
  }

  /** Memory safety and order, in every interleaving: no step touches a deleted node, deletes one
      twice or takes a value twice; and what the consumer has been given is a prefix of the values
      given to push, in the order of the tail exchanges. */
  lemma FifoSafety<T>(steps: seq<Step<T>>)
    ensures var s := Run(Init<T>(), steps); !s.fault && s.consumed <= PushedBy(steps) && Log(s) == PushedBy(steps)
  {
    RunAgrees(steps);
    LogSafety(steps);
  }
}
