/** A client of the C ABI: it passes only references it holds, or children it borrows from them.
    Whatever calls it makes, every count stays exact; the live values are those it can reach as
    long as no call closes a cycle; and dropping everything frees everything exactly when there
    is no cycle. */
module ValueClient {
  import opened ValueCells
  import opened ValueGraph
  import opened ValueReachability

  /** Numbers are positions in the client's list of references. */
  datatype Call =
    | NewValue(body: Body) | Retain(i: nat) | RetainChild(i: nat, j: nat) | Drop(i: nat)
    | Push(array: nat, v: nat) | SetField(object: nat, key: string, v: nat)

  datatype Snapshot = Snapshot(cells: seq<Cell>, refs: seq<nat>)

  predicate Childless(body: Body) {
    Kids(body) == [] && (body.Object? ==> body.keys == [])
  }

  /** The child RetainChild names, if it is there. */
  predicate HasChild(s: Snapshot, i: nat, j: nat) {
    i < |s.refs| && LiveAt(s.cells, s.refs[i]) && j < |Kids(s.cells[s.refs[i]].body)|
  }

  function Child(s: Snapshot, i: nat, j: nat): nat
    requires HasChild(s, i, j)
  {
    Kids(s.cells[s.refs[i]].body)[j]
  }

  predicate IsArray(s: Snapshot, a: nat) {
    a < |s.refs| && LiveAt(s.cells, s.refs[a]) && s.cells[s.refs[a]].body.Array?
  }

  predicate IsObject(s: Snapshot, o: nat) {
    o < |s.refs| && LiveAt(s.cells, s.refs[o]) && s.cells[s.refs[o]].body.Object?
  }

  ghost predicate Sound(s: Snapshot) {
    Accounted(s.cells, multiset(s.refs)) && Settled(s.cells)
  }

  ghost predicate Raised(s: seq<Cell>, v: nat, s': seq<Cell>) {
    LiveAt(s, v) && s' == s[v := s[v].(rc := s[v].rc + 1)]
  }

  /** What a call does to the heap and to the references; one that names no reference, or a child
      that is not there, does nothing. A release is fixed by Kept, and the counts by Sound. */
  ghost predicate StepOk(s: Snapshot, call: Call, s': Snapshot) {
    match call
    case NewValue(body) =>
      if Childless(body) then s' == Snapshot(s.cells + [Live(1, body)], s.refs + [|s.cells|]) else s' == s
    case Retain(i) =>
      if i < |s.refs| then Raised(s.cells, s.refs[i], s'.cells) && s'.refs == s.refs + [s.refs[i]] else s' == s
    case RetainChild(i, j) =>
      if HasChild(s, i, j) then Raised(s.cells, Child(s, i, j), s'.cells) && s'.refs == s.refs + [Child(s, i, j)]
      else s' == s
    case Drop(i) =>
      if i < |s.refs| then
        && s'.refs == Without(s.refs, i) && OneReleased(s.cells, s'.cells, s.refs[i])
        && ReleasedTo(s.cells, s'.cells, Kept(s.cells, multiset(s'.refs)))
      else s' == s
    case Push(a, v) =>
      if IsArray(s, a) && v < |s.refs| && LiveAt(s.cells, s.refs[v]) then
        var items := s.cells[s.refs[a]].body.items + [s.refs[v]];
        s' == Snapshot(Stored(s.cells, s.refs[a], Array(items), s.refs[v]), s.refs)
      else s' == s
    case SetField(o, key, v) =>
      if IsObject(s, o) && v < |s.refs| then
        FieldStored(s.cells, s'.cells, multiset(s.refs), s.refs[o], key, s.refs[v]) && s'.refs == s.refs
      else s' == s
  }

  /** The call stores a value into a container that can already be reached from the value. */
  ghost predicate Closes(s: Snapshot, call: Call) {
    match call
    case Push(a, v) => IsArray(s, a) && v < |s.refs| && Reaches(s.cells, s.refs[v], s.refs[a])
    case SetField(o, _, v) => IsObject(s, o) && v < |s.refs| && Reaches(s.cells, s.refs[v], s.refs[o])
    case _ => false
  }

  lemma FieldGains(s: seq<Cell>, o: nat, key: string, v: nat)
    requires o < |s| && s[o].Live? && s[o].body.Object? && v < |s|
    ensures Gains(s, o, WithField(s[o].body, key, v), v)
  {
    var b := s[o].body;
    if key in b.keys && FirstIndex(b.keys, key) < |b.values| {
      assert b.values[FirstIndex(b.keys, key) := v][FirstIndex(b.keys, key)] == v;
    } else {
      assert (b.values + [v])[|b.values|] == v;
    }
  }

  lemma ItemGains(s: seq<Cell>, a: nat, v: nat)
    requires a < |s| && s[a].Live? && s[a].body.Array? && v < |s|
    ensures Gains(s, a, Array(s[a].body.items + [v]), v)
  {
    assert (s[a].body.items + [v])[|s[a].body.items|] == v;
  }

  /** A store that closes no cycle. */
  lemma StoreAcyclic(s: seq<Cell>, s': seq<Cell>, c: nat, body: Body, v: nat)
    requires Acyclic(s) && Gains(s, c, body, v) && !Reaches(s, v, c) && |s'| == |s|
    requires forall i :: 0 <= i < |s'| && s'[i].Live? ==>
      s[i].Live? && s'[i].body == if i == c then body else s[i].body
    ensures Acyclic(s')
  {
    StoreKeepsAcyclicIff(s, c, body, v);
    FewerEdges(s[c := s[c].(body := body)], s');
  }

  lemma PushKeepsAcyclic(s: Snapshot, a: nat, v: nat, s': Snapshot)
    requires StepOk(s, Push(a, v), s') && Acyclic(s.cells) && !Closes(s, Push(a, v))
    ensures Acyclic(s'.cells)
  {
    if s' != s {
      var items := s.cells[s.refs[a]].body.items + [s.refs[v]];
      ItemGains(s.cells, s.refs[a], s.refs[v]);
      StoreAcyclic(s.cells, s'.cells, s.refs[a], Array(items), s.refs[v]);
    }
  }

  lemma SetKeepsAcyclic(s: Snapshot, o: nat, key: string, v: nat, s': Snapshot)
    requires StepOk(s, SetField(o, key, v), s') && Acyclic(s.cells) && !Closes(s, SetField(o, key, v))
    requires forall x :: x in multiset(s.refs) ==> LiveAt(s.cells, x)
    ensures Acyclic(s'.cells)
  {
    if s' != s {
      assert s.refs[v] in multiset(s.refs);
      FieldGains(s.cells, s.refs[o], key, s.refs[v]);
      StoreAcyclic(s.cells, s'.cells, s.refs[o], WithField(s.cells[s.refs[o]].body, key, s.refs[v]), s.refs[v]);
    }
  }

  /** Only a call that closes a cycle can make an acyclic heap cyclic. */
  lemma StepKeepsAcyclic(s: Snapshot, call: Call, s': Snapshot)
    requires StepOk(s, call, s') && Sound(s) && Acyclic(s.cells) && !Closes(s, call)
    ensures Acyclic(s'.cells)
  {
    HeldIsLive(s.cells, multiset(s.refs));
    match call
    case NewValue(body) =>
      if Childless(body) { NewKeepsAcyclic(s.cells, body); }
    case Push(a, v) => PushKeepsAcyclic(s, a, v, s');
    case SetField(o, key, v) => SetKeepsAcyclic(s, o, key, v, s');
    case _ => FewerEdges(s.cells, s'.cells);
  }

  ghost predicate LiveAreReachable(s: seq<Cell>, held: multiset<nat>) {
    forall id: nat :: LiveAt(s, id) <==> Reachable(s, held, id)
  }

  /** A run: each call leads from one state to the next. */
  ghost predicate RunOk(states: seq<Snapshot>, calls: seq<Call>) {
    && |states| == |calls| + 1
    && (forall i :: 0 <= i < |states| ==> Sound(states[i]))
    && forall i :: 0 <= i < |calls| ==> StepOk(states[i], calls[i], states[i + 1])
  }

  /** As long as no call has closed a cycle, the live values are those the client can reach. */
  lemma {:induction false} RunKeepsAcyclic(states: seq<Snapshot>, calls: seq<Call>, n: nat)
    requires RunOk(states, calls) && Acyclic(states[0].cells) && n <= |calls|
    requires forall i :: 0 <= i < n ==> !Closes(states[i], calls[i])
    ensures Acyclic(states[n].cells)
  {
    if n > 0 {
      RunKeepsAcyclic(states, calls, n - 1);
      StepKeepsAcyclic(states[n - 1], calls[n - 1], states[n - 1 + 1]);
    }
  }

  lemma RunIsReachable(states: seq<Snapshot>, calls: seq<Call>)
    requires RunOk(states, calls) && Acyclic(states[0].cells)
    requires forall i :: 0 <= i < |calls| ==> !Closes(states[i], calls[i])
    ensures var s := states[|calls|]; Acyclic(s.cells) && LiveAreReachable(s.cells, multiset(s.refs))
  {
    var s := states[|calls|];
    RunKeepsAcyclic(states, calls, |calls|);
    forall id: nat ensures LiveAt(s.cells, id) <==> Reachable(s.cells, multiset(s.refs), id) {
      LiveIffReachable(s.cells, multiset(s.refs), id);
    }
  }

  // ----- handles -----

  /** Freed values stay as they are, and a handle stays a handle until it is freed, on record. */
  ghost predicate HandlesKept(s: seq<Cell>, s': seq<Cell>) {
    |s| <= |s'| && forall id :: 0 <= id < |s| ==> HandleKept(s[id], s'[id])
  }

  ghost predicate HandleKept(c: Cell, c': Cell) {
    && (c.Freed? ==> c' == c)
    && (c.Live? && c.body.Handle? ==> c' == Freed(Destroyed(c.body)) || (c'.Live? && c'.body == c.body))
  }

  lemma StoreKeepsHandles(s: seq<Cell>, c: nat, body: Body, v: nat)
    requires LiveAt(s, c) && !s[c].body.Handle? && LiveAt(s, v)
    ensures HandlesKept(s, Stored(s, c, body, v))
  {
  }

  lemma ReleaseKeepsHandles(s: seq<Cell>, s': seq<Cell>)
    requires Released(s, s')
    ensures HandlesKept(s, s')
  {
  }

  lemma HandlesKeptTwice(s: seq<Cell>, s': seq<Cell>, s'': seq<Cell>)
    requires HandlesKept(s, s') && HandlesKept(s', s'')
    ensures HandlesKept(s, s'')
  {
    forall id | 0 <= id < |s| ensures HandleKept(s[id], s''[id]) {
      assert HandleKept(s[id], s'[id]) && HandleKept(s'[id], s''[id]);
    }
  }

  lemma FieldKeepsHandles(s: seq<Cell>, s': seq<Cell>, held: multiset<nat>, o: nat, key: string, v: nat)
    requires LiveAt(s, o) && s[o].body.Object? && FieldStored(s, s', held, o, key, v)
    ensures HandlesKept(s, s')
  {
    var body, rest := WithField(s[o].body, key, v), WithoutField(s, o, key);
    if rest == s {
      StoreKeepsHandles(s, o, body, v);
    } else {
      var mid :| SwappedVia(s, mid, s', Kept(rest, held), o, body, v);
      ReleaseKeepsHandles(s, mid);
      StoreKeepsHandles(mid, o, body, v);
      HandlesKeptTwice(s, mid, s');
    }
  }

  lemma StepKeepsHandles(s: Snapshot, call: Call, s': Snapshot)
    requires StepOk(s, call, s') && Sound(s)
    ensures HandlesKept(s.cells, s'.cells)
  {
    match call
    case NewValue(body) =>
    case Drop(i) => if i < |s.refs| { ReleaseKeepsHandles(s.cells, s'.cells); }
    case Push(a, v) =>
      if s' != s {
        var items := s.cells[s.refs[a]].body.items + [s.refs[v]];
        StoreKeepsHandles(s.cells, s.refs[a], Array(items), s.refs[v]);
      }
    case SetField(o, key, v) =>
      if s' != s { FieldKeepsHandles(s.cells, s'.cells, multiset(s.refs), s.refs[o], key, s.refs[v]); }
    case _ =>
  }

  lemma RunKeepsHandles(states: seq<Snapshot>, calls: seq<Call>, i: nat, n: nat)
    requires RunOk(states, calls) && i <= n <= |calls|
    ensures HandlesKept(states[i].cells, states[n].cells)
  {
    forall k | i <= k < n ensures HandlesKept(states[k].cells, states[k + 1].cells) {
      StepKeepsHandles(states[k], calls[k], states[k + 1]);
    }
    HandlesKeptAlong(states, i, n);
  }

  lemma {:induction false} HandlesKeptAlong(states: seq<Snapshot>, i: nat, n: nat)
    requires i <= n < |states|
    requires forall k :: i <= k < n ==> HandlesKept(states[k].cells, states[k + 1].cells)
    ensures HandlesKept(states[i].cells, states[n].cells)
  {
    if i < n {
      HandlesKeptAlong(states, i, n - 1);
      HandlesKeptTwice(states[i].cells, states[n - 1].cells, states[n - 1 + 1].cells);
    }
  }

  /** A handle that was there at any point of a run and is gone at its end has had its destructor
      called with its pointer exactly once, if it has one; and as long as it lives, never. */
  lemma HandleRun(states: seq<Snapshot>, calls: seq<Call>, made: seq<(nat, int)>, i: nat, id: nat, p: int)
    requires RunOk(states, calls) && i <= |calls| && CallsOk(states[|calls|].cells, made)
    requires LiveAt(states[i].cells, id) && states[i].cells[id].body.Handle?
    ensures id < |states[|calls|].cells|
    ensures var b := states[i].cells[id].body;
      multiset(made)[(id, p)] == (if states[|calls|].cells[id].Freed? && b.hasDestructor && p == b.ptr then 1 else 0)
  {
    RunKeepsHandles(states, calls, i, |calls|);
    assert HandleKept(states[i].cells[id], states[|calls|].cells[id]);
    DestroyedIs(states[i].cells[id].body, p);
  }

  lemma ChildIsLive(s: seq<Cell>, held: multiset<nat>, i: nat, kid: nat)
    requires Accounted(s, held) && Settled(s) && Edge(s, i, kid)
    ensures LiveAt(s, kid)
  {
    AccountedIsClosed(s, held);
  }

  lemma HeldOutliveField(s: seq<Cell>, held: multiset<nat>, o: nat, key: string)
    requires Accounted(s, held) && LiveAt(s, o) && s[o].body.Object?
    ensures forall x :: x in held ==> x in Kept(WithoutField(s, o, key), held)
  {
    HeldIsLive(s, held);
    HeldIsKept(WithoutField(s, o, key), held);
  }

  class Client {
    const heap: ValueHeap
    var refs: seq<nat>

    ghost predicate Valid()
      reads this, heap
    {
      heap.Valid() && heap.held == multiset(refs)
    }

    ghost function Now(): Snapshot
      reads this, heap
    {
      Snapshot(heap.cells, refs)
    }

    constructor ()
      ensures Valid() && fresh(heap) && Now() == Snapshot([], []) && heap.calls == []
    {
      heap := new ValueHeap();
      refs := [];
    }

    method DropAt(i: nat)
      requires Valid() && i < |refs|
      modifies this, heap
      ensures Valid() && StepOk(old(Now()), Drop(i), Now())
    {
      WithoutCounts(refs, i, refs[i]);
      assert multiset(refs) - multiset{refs[i]} == multiset(Without(refs, i));
      heap.Release(At(refs[i]));
      refs := refs[..i] + refs[i + 1..];
    }

    method RetainId(v: nat)
      requires Valid() && LiveAt(heap.cells, v)
      modifies this, heap
      ensures Valid() && refs == old(refs) + [v] && Raised(old(heap.cells), v, heap.cells)
    {
      heap.Incref(At(v));
      refs := refs + [v];
    }

    method RetainChildAt(i: nat, j: nat)
      requires Valid() && i < |refs|
      modifies this, heap
      ensures Valid() && StepOk(old(Now()), RetainChild(i, j), Now())
    {
      HeldIsLive(heap.cells, heap.held);
      assert refs[i] in heap.held;
      var kids := Kids(heap.cells[refs[i]].body);
      if j < |kids| {
        assert Edge(heap.cells, refs[i], kids[j]);
        ChildIsLive(heap.cells, heap.held, refs[i], kids[j]);
        RetainId(kids[j]);
      }
    }

    method PushAt(a: nat, v: nat)
      requires Valid() && a < |refs| && v < |refs|
      modifies heap
      ensures Valid() && StepOk(old(Now()), Push(a, v), Now())
    {
      HeldIsLive(heap.cells, heap.held);
      assert refs[a] in heap.held && refs[v] in heap.held;
      heap.ArrayPush(At(refs[a]), At(refs[v]));
    }

    method SetFieldAt(o: nat, key: string, v: nat)
      requires Valid() && o < |refs| && v < |refs|
      modifies heap
      ensures Valid() && StepOk(old(Now()), SetField(o, key, v), Now())
    {
      HeldIsLive(heap.cells, heap.held);
      assert refs[o] in heap.held && refs[v] in heap.held;
      if heap.cells[refs[o]].body.Object? { HeldOutliveField(heap.cells, heap.held, refs[o], key); }
      var dangling := heap.ObjectSet(At(refs[o]), key, At(refs[v]));
    }

    method Perform(call: Call)
      requires Valid()
      modifies this, heap
      ensures Valid() && StepOk(old(Now()), call, Now())
    {
      HeldIsLive(heap.cells, heap.held);
      match call
      case NewValue(body) =>
        if Childless(body) {
          var v := heap.New(body);
          refs := refs + [v];
        }
      case Retain(i) =>
        if i < |refs| {
          assert refs[i] in heap.held;
          RetainId(refs[i]);
        }
      case RetainChild(i, j) => if i < |refs| { RetainChildAt(i, j); }
      case Drop(i) => if i < |refs| { DropAt(i); }
      case Push(a, v) => if a < |refs| && v < |refs| { PushAt(a, v); }
      case SetField(o, key, v) => if o < |refs| && v < |refs| { SetFieldAt(o, key, v); }
    }

    /** Any run of calls: each does what StepOk says, so RunIsReachable holds of the run. Every
        freed handle with a destructor has had it called exactly once, and no live one has. */
    method Replay(calls: seq<Call>) returns (ghost states: seq<Snapshot>)
      requires Valid()
      modifies this, heap
      ensures Valid() && CallsOk(heap.cells, heap.calls)
      ensures RunOk(states, calls) && states[0] == old(Now()) && states[|calls|] == Now()
      ensures Acyclic(old(heap.cells)) && (forall i :: 0 <= i < |calls| ==> !Closes(states[i], calls[i])) ==>
        Acyclic(heap.cells) && LiveAreReachable(heap.cells, multiset(refs))
    {
      states := Trace(calls);
      if Acyclic(states[0].cells) && forall i :: 0 <= i < |calls| ==> !Closes(states[i], calls[i]) {
        RunIsReachable(states, calls);
      }
    }

    method Trace(calls: seq<Call>) returns (ghost states: seq<Snapshot>)
      requires Valid()
      modifies this, heap
      ensures Valid() && RunOk(states, calls) && states[0] == old(Now()) && states[|calls|] == Now()
    {
      states := [Now()];
      for k := 0 to |calls|
        invariant Valid() && RunOk(states, calls[..k]) && states[0] == old(Now()) && states[k] == Now()
      {
        states := TraceOne(calls[k], states, calls[..k]);
        assert calls[..k] + [calls[k]] == calls[..k + 1];
      }
      assert calls[..|calls|] == calls;
    }

    method TraceOne(call: Call, ghost states: seq<Snapshot>, ghost done: seq<Call>)
      returns (ghost more: seq<Snapshot>)
      requires Valid() && RunOk(states, done) && states[|done|] == Now()
      modifies this, heap
      ensures Valid() && RunOk(more, done + [call])
      ensures more[0] == states[0] && more[|done| + 1] == Now()
    {
      Perform(call);
      RunExtended(states, done, call, Now());
      more := states + [Now()];
    }

    /** Dropping a reference does not change what dropping all of them would leave. */
    method DropLast()
      requires Valid() && refs != []
      modifies this, heap
      ensures Valid() && |refs| == |old(refs)| - 1
      ensures Kept(heap.cells, multiset{}) == Kept(old(heap.cells), multiset{})
    {
      ghost var s := heap.cells;
      DropAt(|refs| - 1);
      KeptAcrossRelease(s, heap.cells, multiset(refs), multiset{});
    }

    /** Dropping every reference leaves what keeps itself, and so frees everything exactly when
        the heap had no cycle. */
    method DropAll()
      requires Valid()
      modifies this, heap
      ensures Valid() && refs == []
      ensures LiveSet(heap.cells) == Kept(old(heap.cells), multiset{})
      ensures (forall id :: 0 <= id < |heap.cells| ==> heap.cells[id].Freed?) <==> Acyclic(old(heap.cells))
    {
      AcyclicIffNothingKept(heap.cells, heap.held);
      while refs != []
        invariant Valid() && Kept(heap.cells, multiset{}) == Kept(old(heap.cells), multiset{})
        decreases |refs|
      {
        DropLast();
      }
      LiveIsKept(heap.cells, heap.held);
      NothingLive(heap.cells);
    }
  }

  lemma RunExtended(states: seq<Snapshot>, calls: seq<Call>, call: Call, next: Snapshot)
    requires RunOk(states, calls) && StepOk(states[|calls|], call, next) && Sound(next)
    ensures RunOk(states + [next], calls + [call])
  {
  }
}
