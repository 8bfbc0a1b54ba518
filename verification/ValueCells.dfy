/** The heap of reference-counted values as a value: what the counts account for, what a release
    may do, and which values outlive it. */
module ValueCells {
  import opened Wrappers

  datatype Body =
    | Nil | Bool(b: bool) | Int(i: int) | Float(f: real) | Str(s: Option<string>)
    | Handle(ptr: int, hasDestructor: bool)
    | Array(items: seq<nat>)
    | Object(keys: seq<string>, values: seq<nat>)

  /** A freed cell remembers the pointer its handle destructor was called with, if any. */
  datatype Cell = Freed(destroyed: Option<int>) | Live(rc: int, body: Body)

  function Kids(b: Body): seq<nat> {
    match b
    case Array(items) => items
    case Object(_, values) => values
    case _ => []
  }

  function Destroyed(b: Body): Option<int> {
    if b.Handle? && b.hasDestructor then Some(b.ptr) else None
  }

  /** How often a cell refers to id. A value whose count has dropped to zero is being torn down:
      the releases of its children are owed by the teardown, not by the cell. */
  function Owned(c: Cell, id: nat): nat {
    if c.Live? && c.rc > 0 then multiset(Kids(c.body))[id] else 0
  }

  function Refs(s: seq<Cell>, id: nat): nat {
    if s == [] then 0 else Refs(s[..|s| - 1], id) + Owned(s[|s| - 1], id)
  }

  function Rc(s: seq<Cell>, id: nat): int {
    if id < |s| && s[id].Live? then s[id].rc else 0
  }

  function Count(c: Cell): nat {
    if c.Live? && c.rc > 0 then c.rc else 0
  }

  /** The sum of all counts, which every release lowers. */
  function Total(s: seq<Cell>): nat {
    if s == [] then 0 else Total(s[..|s| - 1]) + Count(s[|s| - 1])
  }

  /** Every count is the number of references held outside plus those in live containers. */
  ghost predicate Accounted(s: seq<Cell>, held: multiset<nat>) {
    forall id: nat :: held[id] + Refs(s, id) == Rc(s, id)
  }

  lemma {:induction false} RefsUpdate(s: seq<Cell>, i: nat, c: Cell, id: nat)
    requires i < |s|
    ensures Refs(s[i := c], id) + Owned(s[i], id) == Refs(s, id) + Owned(c, id)
  {
    var n := |s| - 1;
    if i == n {
      assert s[i := c][..n] == s[..n];
    } else {
      RefsUpdate(s[..n], i, c, id);
      assert s[i := c][..n] == s[..n][i := c];
    }
  }

  lemma {:induction false} TotalUpdate(s: seq<Cell>, i: nat, c: Cell)
    requires i < |s|
    ensures Total(s[i := c]) + Count(s[i]) == Total(s) + Count(c)
  {
    var n := |s| - 1;
    if i == n {
      assert s[i := c][..n] == s[..n];
    } else {
      TotalUpdate(s[..n], i, c);
      assert s[i := c][..n] == s[..n][i := c];
    }
  }

  // ----- the release cascade -----

  /** The heap as the accounting sees it while some containers are in the middle of an update. */
  function View(s: seq<Cell>, mask: map<nat, Body>): (v: seq<Cell>)
    ensures |v| == |s|
  {
    seq(|s|, i requires 0 <= i < |s| => if i in mask && s[i].Live? then s[i].(body := mask[i]) else s[i])
  }

  /** What a release may do to the heap: counts go down, values whose count reaches zero are
      freed with their destructor's pointer on record, and nothing else changes; in particular
      nothing freed, and nothing in the middle of its own teardown, is touched. */
  ghost predicate Released(s: seq<Cell>, s': seq<Cell>) {
    && |s'| == |s|
    && forall i :: 0 <= i < |s| ==>
         || s'[i] == s[i]
         || (s[i].Live? && s[i].rc > 0 && s'[i] == Freed(Destroyed(s[i].body)))
         || (s[i].Live? && s'[i].Live? && s'[i].body == s[i].body && 0 < s'[i].rc < s[i].rc)
  }

  /** Whether a freed cell records a destructor call, and with which pointer. */
  lemma DestroyedIs(b: Body, p: int)
    ensures Destroyed(b) == Some(p) <==> b.Handle? && b.hasDestructor && b.ptr == p
  {
  }

  /** The value released loses one count, and is freed exactly when that was its last. */
  ghost predicate OneReleased(s: seq<Cell>, s': seq<Cell>, v: nat) {
    && v < |s| && s[v].Live?
    && (s[v].rc > 1 ==> s' == s[v := s[v].(rc := s[v].rc - 1)])
    && (s[v].rc == 1 ==> |s'| == |s| && s'[v] == Freed(Destroyed(s[v].body)))
  }

  /** Each destructor call on record belongs to one freed handle, and the other way round. */
  ghost predicate CallsOk(s: seq<Cell>, calls: seq<(nat, int)>) {
    forall id: nat, p :: multiset(calls)[(id, p)] == if id < |s| && s[id] == Freed(Some(p)) then 1 else 0
  }

  /** Between calls every value has a holder, and objects have a value for every key. */
  ghost predicate Settled(s: seq<Cell>) {
    forall i :: 0 <= i < |s| && s[i].Live? ==>
      s[i].rc > 0 && (s[i].body.Object? ==> |s[i].body.keys| == |s[i].body.values|)
  }

  /** The same values with the same bodies; only counts may differ. */
  ghost predicate SameBodies(s: seq<Cell>, s': seq<Cell>) {
    |s| == |s'| && forall i :: 0 <= i < |s| ==>
      s[i] == s'[i] || (s[i].Live? && s'[i].Live? && s[i].body == s'[i].body)
  }

  function Without(values: seq<nat>, i: nat): seq<nat>
    requires i < |values|
  {
    values[..i] + values[i + 1..]
  }

  /** An object after key := v: the first field of that key is replaced, or a field is added. */
  function WithField(o: Body, key: string, v: nat): Body
    requires o.Object?
  {
    if key in o.keys && FirstIndex(o.keys, key) < |o.values| then
      Object(o.keys, o.values[FirstIndex(o.keys, key) := v])
    else Object(o.keys + [key], o.values + [v])
  }

  function FirstIndex(keys: seq<string>, key: string): (i: nat)
    requires key in keys
    ensures i < |keys| && keys[i] == key && key !in keys[..i]
  {
    if keys[0] == key then 0 else
    assert forall j :: 0 <= j < |keys| && keys[j] == key ==> j > 0 && keys[1..][j - 1] == key;
    var i := FirstIndex(keys[1..], key);
    assert keys[..i + 1] == [keys[0]] + keys[1..][..i];
    1 + i
  }

  function Stored(s: seq<Cell>, c: nat, body: Body, v: nat): (s': seq<Cell>)
    requires c < |s| && s[c].Live? && v < |s| && s[v].Live?
  {
    var s1 := s[c := s[c].(body := body)];
    s1[v := s1[v].(rc := s1[v].rc + 1)]
  }

  /** A handle that a release frees has its destructor called with its pointer, once, if it has one;
      and nothing else frees it again. */
  lemma HandleDestroyed(s: seq<Cell>, s': seq<Cell>, calls: seq<(nat, int)>, id: nat)
    requires Released(s, s') && CallsOk(s', calls)
    requires id < |s| && s[id].Live? && s[id].body.Handle? && s'[id].Freed?
    ensures forall p ::
      multiset(calls)[(id, p)] == (if s[id].body.hasDestructor && p == s[id].body.ptr then 1 else 0)
  {
    forall p ensures multiset(calls)[(id, p)] == if s[id].body.hasDestructor && p == s[id].body.ptr then 1 else 0 {
      DestroyedIs(s[id].body, p);
    }
  }

  // ----- what outlives a release -----

  /** Each of these values is live, and is a root or held by another of them. */
  ghost predicate Supported(s: seq<Cell>, roots: multiset<nat>, keep: set<nat>) {
    forall x :: x in keep ==> SupportedAt(s, roots, keep, x)
  }

  ghost predicate SupportedAt(s: seq<Cell>, roots: multiset<nat>, keep: set<nat>, x: nat) {
    && LiveAt(s, x) && s[x].rc > 0
    && (x in roots || exists y :: y in keep && y < |s| && Owned(s[y], x) > 0)
  }

  predicate LiveAt(s: seq<Cell>, x: nat) {
    x < |s| && s[x].Live?
  }

  ghost predicate InSupported(s: seq<Cell>, roots: multiset<nat>, x: nat) {
    exists keep: set<nat> :: x in keep && Supported(s, roots, keep)
  }

  /** The largest such set: what is left when nothing but the roots is held. */
  ghost function Kept(s: seq<Cell>, roots: multiset<nat>): set<nat> {
    set x: nat | x < |s| && InSupported(s, roots, x)
  }

  lemma KeptIsLargest(s: seq<Cell>, roots: multiset<nat>, keep: set<nat>)
    requires Supported(s, roots, keep)
    ensures keep <= Kept(s, roots)
  {
    forall x | x in keep ensures x in Kept(s, roots) {
      assert SupportedAt(s, roots, keep, x);
    }
  }

  lemma KeptIsSupported(s: seq<Cell>, roots: multiset<nat>)
    ensures Supported(s, roots, Kept(s, roots))
  {
    forall x | x in Kept(s, roots) ensures SupportedAt(s, roots, Kept(s, roots), x) {
      var keep :| x in keep && Supported(s, roots, keep);
      KeptIsLargest(s, roots, keep);
      assert SupportedAt(s, roots, keep, x);
    }
  }

  lemma {:induction false} OwnedIsCounted(s: seq<Cell>, i: nat, id: nat)
    requires i < |s|
    ensures Owned(s[i], id) <= Refs(s, id)
  {
    if i < |s| - 1 { OwnedIsCounted(s[..|s| - 1], i, id); }
  }

  lemma {:induction false} SomeOwner(s: seq<Cell>, id: nat) returns (i: nat)
    requires Refs(s, id) > 0
    ensures i < |s| && Owned(s[i], id) > 0
  {
    if Owned(s[|s| - 1], id) > 0 {
      i := |s| - 1;
    } else {
      i := SomeOwner(s[..|s| - 1], id);
    }
  }

  ghost function LiveSet(s: seq<Cell>): set<nat> {
    set x: nat | x < |s| && s[x].Live?
  }

  ghost predicate Counted(s: seq<Cell>) {
    forall i :: 0 <= i < |s| && s[i].Live? ==> s[i].rc > 0
  }

  /** With exact counts, all live values support each other. */
  lemma LiveIsSupported(s: seq<Cell>, held: multiset<nat>)
    requires Accounted(s, held) && Counted(s)
    ensures Supported(s, held, LiveSet(s))
  {
    forall x | x in LiveSet(s) ensures SupportedAt(s, held, LiveSet(s), x) {
      assert held[x] + Refs(s, x) == Rc(s, x);
      if x !in held {
        var y := SomeOwner(s, x);
        assert y in LiveSet(s);
      }
    }
  }

  /** So what is live is exactly what is kept by the references held. */
  lemma LiveIsKept(s: seq<Cell>, held: multiset<nat>)
    requires Accounted(s, held) && Counted(s)
    ensures LiveSet(s) == Kept(s, held)
  {
    LiveIsSupported(s, held);
    KeptIsLargest(s, held, LiveSet(s));
    KeptIsSupported(s, held);
    forall x | x in Kept(s, held) ensures x in LiveSet(s) {
      assert SupportedAt(s, held, Kept(s, held), x);
    }
  }

  /** Every live value of s' was live in s with the same body. */
  ghost predicate Survives(s: seq<Cell>, s': seq<Cell>) {
    |s| == |s'| && forall i :: 0 <= i < |s| && s'[i].Live? ==> s[i].Live? && s[i].rc > 0 && s[i].body == s'[i].body
  }

  lemma SupportedBefore(s: seq<Cell>, s': seq<Cell>, roots: multiset<nat>, keep: set<nat>)
    requires Survives(s, s') && Supported(s', roots, keep)
    ensures Supported(s, roots, keep)
  {
    forall x | x in keep ensures SupportedAt(s, roots, keep, x) {
      assert SupportedAt(s', roots, keep, x);
      if y :| y in keep && y < |s'| && Owned(s'[y], x) > 0 { assert Owned(s[y], x) > 0; }
    }
  }

  lemma SupportedAfter(s: seq<Cell>, s': seq<Cell>, roots: multiset<nat>, keep: set<nat>)
    requires Survives(s, s') && Supported(s, roots, keep)
    requires forall x :: x in keep ==> LiveAt(s', x) && s'[x].rc > 0
    ensures Supported(s', roots, keep)
  {
    forall x | x in keep ensures SupportedAt(s', roots, keep, x) {
      assert SupportedAt(s, roots, keep, x);
      if y :| y in keep && y < |s| && Owned(s[y], x) > 0 { assert Owned(s'[y], x) > 0; }
    }
  }

  lemma KeptMonotone(s: seq<Cell>, roots: multiset<nat>, more: multiset<nat>)
    requires roots <= more
    ensures Kept(s, roots) <= Kept(s, more)
  {
    KeptIsSupported(s, roots);
    forall x | x in Kept(s, roots) ensures SupportedAt(s, more, Kept(s, roots), x) {
      assert SupportedAt(s, roots, Kept(s, roots), x);
    }
    KeptIsLargest(s, more, Kept(s, roots));
  }

  lemma KeptIsLive(s: seq<Cell>, roots: multiset<nat>, keep: set<nat>)
    requires Supported(s, roots, keep)
    ensures forall x :: x in keep ==> LiveAt(s, x)
  {
    forall x | x in keep ensures LiveAt(s, x) { assert SupportedAt(s, roots, keep, x); }
  }

  /** A release frees exactly what is not kept by the references that remain. */
  lemma ReleasedExactly(s: seq<Cell>, s': seq<Cell>, held: multiset<nat>)
    requires Survives(s, s') && Accounted(s', held) && Counted(s')
    requires forall x :: x in Kept(s, held) ==> LiveAt(s', x)
    ensures LiveSet(s') == Kept(s, held)
  {
    LiveIsSupported(s', held);
    SupportedBefore(s, s', held, LiveSet(s'));
    KeptIsLargest(s, held, LiveSet(s'));
  }

  /** What fewer references would keep is the same before and after a release. */
  lemma KeptAcrossRelease(s: seq<Cell>, s': seq<Cell>, held: multiset<nat>, roots: multiset<nat>)
    requires Survives(s, s') && Counted(s') && LiveSet(s') == Kept(s, held) && roots <= held
    ensures Kept(s', roots) == Kept(s, roots)
  {
    KeptIsSupported(s', roots);
    SupportedBefore(s, s', roots, Kept(s', roots));
    KeptIsLargest(s, roots, Kept(s', roots));
    KeptMonotone(s, roots, held);
    KeptIsSupported(s, roots);
    forall x | x in Kept(s, roots) ensures LiveAt(s', x) && s'[x].rc > 0 { assert x in LiveSet(s'); }
    SupportedAfter(s, s', roots, Kept(s, roots));
    KeptIsLargest(s', roots, Kept(s, roots));
  }

  // ----- what a release in progress may rely on -----

  /** Containers in the middle of an update, with their bodies as the accounting sees them; and
      values that support each other from references the release does not touch. */
  datatype Anchors = Anchors(mask: map<nat, Body>, roots: multiset<nat>, keep: set<nat>)

  ghost predicate Anchored(s: seq<Cell>, a: Anchors) {
    a.mask.Keys <= a.keep && Supported(View(s, a.mask), a.roots, a.keep)
  }

  /** Only a change to an anchored value's body, or its loss, could break the support. */
  lemma AnchorsHold(s: seq<Cell>, a: Anchors, i: nat, c: Cell)
    requires i < |s| && Anchored(s, a)
    requires i in a.keep ==> c.Live? && c.rc > 0 && s[i].Live? && c.body == s[i].body
    ensures Anchored(s[i := c], a)
  {
    var V, V' := View(s, a.mask), View(s[i := c], a.mask);
    forall x | x in a.keep ensures SupportedAt(V', a.roots, a.keep, x) {
      assert SupportedAt(V, a.roots, a.keep, x);
      if y :| y in a.keep && y < |V| && Owned(V[y], x) > 0 {
        assert SupportedAt(V, a.roots, a.keep, y);
        assert Owned(V'[y], x) > 0;
      }
    }
  }

  /** The last reference to an anchored value is not the release's to give up. */
  lemma AnchorsSpare(s: seq<Cell>, a: Anchors, held: multiset<nat>, v: nat)
    requires Accounted(View(s, a.mask), held) && Anchored(s, a)
    requires v in held && a.roots <= held - multiset{v} && v in a.keep
    ensures v < |s| && s[v].Live? && s[v].rc > 1
  {
    var V := View(s, a.mask);
    assert SupportedAt(V, a.roots, a.keep, v);
    assert held[v] + Refs(V, v) == Rc(V, v);
    if v in a.roots {
      assert (held - multiset{v})[v] == held[v] - 1;
    } else {
      var y :| y in a.keep && y < |V| && Owned(V[y], v) > 0;
      OwnedIsCounted(V, y, v);
    }
  }

  // ----- the accounting of one step -----

  lemma CountLowered(s: seq<Cell>, calls: seq<(nat, int)>, v: nat)
    requires v < |s| && s[v].Live? && s[v].rc > 0 && CallsOk(s, calls)
    ensures var s' := s[v := s[v].(rc := s[v].rc - 1)];
      CallsOk(s', calls) && (s[v].rc > 1 ==> Released(s, s'))
  {
  }

  lemma LastReleased(s: seq<Cell>, v: nat, s': seq<Cell>)
    requires v < |s| && s[v].Live? && s[v].rc > 0 && |s'| == |s| && s'[v] == Freed(Destroyed(s[v].body))
    requires Released(s[v := s'[v]], s')
    ensures Released(s, s')
  {
  }

  lemma ReleasedTwice(s: seq<Cell>, s': seq<Cell>, s'': seq<Cell>)
    requires Released(s, s') && Released(s', s'')
    ensures Released(s, s'')
  {
  }

  lemma RcIsPositive(s: seq<Cell>, mask: map<nat, Body>, held: multiset<nat>, id: nat)
    requires Accounted(View(s, mask), held) && id in held
    ensures id < |s| && s[id].Live? && s[id].rc > 0
  {
    assert held[id] + Refs(View(s, mask), id) == Rc(View(s, mask), id);
  }

  /** Changing one cell of the heap changes the same cell of the view. */
  lemma ViewUpdate(s: seq<Cell>, mask: map<nat, Body>, i: nat, c: Cell)
    requires i < |s|
    ensures i !in mask ==> View(s[i := c], mask) == View(s, mask)[i := c]
    ensures i in mask && c.Live? ==> View(s[i := c], mask) == View(s, mask)[i := c.(body := mask[i])]
  {
  }

  /** The accounting after one cell has changed, from the balance of that change for each id. */
  lemma Rebalance(s: seq<Cell>, i: nat, c: Cell, held: multiset<nat>, held': multiset<nat>)
    requires i < |s| && Accounted(s, held)
    requires forall id: nat :: held'[id] + Owned(c, id) + Rc(s, id) == held[id] + Owned(s[i], id) + Rc(s[i := c], id)
    ensures Accounted(s[i := c], held')
  {
    forall id: nat ensures held'[id] + Refs(s[i := c], id) == Rc(s[i := c], id) {
      RefsUpdate(s, i, c, id);
      assert held[id] + Refs(s, id) == Rc(s, id);
      assert held'[id] + Owned(c, id) + Rc(s, id) == held[id] + Owned(s[i], id) + Rc(s[i := c], id);
    }
  }

  /** One reference given up: either the count goes down, or the last one goes and the value's
      own references become owed. */
  lemma ReleaseOne(s: seq<Cell>, mask: map<nat, Body>, held: multiset<nat>, id: nat)
    requires Accounted(View(s, mask), held) && id in held
    ensures id < |s| && s[id].Live? && s[id].rc > 0
    ensures var s' := s[id := s[id].(rc := s[id].rc - 1)];
      && Total(s') == Total(s) - 1
      && (s[id].rc > 1 ==> Accounted(View(s', mask), held - multiset{id}))
      && (s[id].rc == 1 && id !in mask ==> Accounted(View(s', mask), held - multiset{id} + multiset(Kids(s[id].body))))
  {
    RcIsPositive(s, mask, held, id);
    var V, c := View(s, mask), s[id].(rc := s[id].rc - 1);
    assert held[id] + Refs(V, id) == Rc(V, id);
    TotalUpdate(s, id, c);
    ViewUpdate(s, mask, id, c);
    if s[id].rc > 1 {
      Rebalance(V, id, V[id].(rc := c.rc), held, held - multiset{id});
    } else if id !in mask {
      Rebalance(V, id, c, held, held - multiset{id} + multiset(Kids(s[id].body)));
    }
  }

  /** The heap after a decrement, before the value is freed if that was its last reference. */
  lemma GiveUp(s: seq<Cell>, calls: seq<(nat, int)>, a: Anchors, held: multiset<nat>, v: nat)
    requires Accounted(View(s, a.mask), held) && CallsOk(s, calls) && Anchored(s, a)
    requires v in held && a.roots <= held - multiset{v}
    ensures v < |s| && s[v].Live? && s[v].rc > 0
    ensures var s' := s[v := s[v].(rc := s[v].rc - 1)];
      && Total(s') == Total(s) - 1 && CallsOk(s', calls) && Anchored(s', a)
      && (s[v].rc > 1 ==> Accounted(View(s', a.mask), held - multiset{v}) && Released(s, s'))
      && (s[v].rc == 1 ==> v !in a.keep)
      && (s[v].rc == 1 ==> Accounted(View(s', a.mask), held - multiset{v} + multiset(Kids(s[v].body))))
  {
    ReleaseOne(s, a.mask, held, v);
    CountLowered(s, calls, v);
    if v in a.keep { AnchorsSpare(s, a, held, v); }
    AnchorsHold(s, a, v, s[v].(rc := s[v].rc - 1));
  }

  /** Freeing a value whose references have all been given up. */
  lemma FreeOne(s: seq<Cell>, mask: map<nat, Body>, held: multiset<nat>, v: nat)
    requires v < |s| && s[v].Live? && s[v].rc == 0 && v !in mask
    requires Accounted(View(s, mask), held)
    ensures var s' := s[v := Freed(Destroyed(s[v].body))];
      Accounted(View(s', mask), held) && Total(s') == Total(s)
  {
    var c := Freed(Destroyed(s[v].body));
    ViewUpdate(s, mask, v, c);
    TotalUpdate(s, v, c);
    Rebalance(View(s, mask), v, c, held, held);
  }

  lemma FreeCalls(s: seq<Cell>, calls: seq<(nat, int)>, v: nat)
    requires v < |s| && s[v].Live? && CallsOk(s, calls)
    ensures CallsOk(s[v := Freed(Destroyed(s[v].body))],
                    if Destroyed(s[v].body).Some? then calls + [(v, s[v].body.ptr)] else calls)
  {
    forall id: nat, p
      ensures Destroyed(s[v].body).Some? ==>
        multiset(calls + [(v, s[v].body.ptr)])[(id, p)] ==
        multiset(calls)[(id, p)] + if (id, p) == (v, s[v].body.ptr) then 1 else 0
    {
    }
  }

  lemma KidOwed(roots: multiset<nat>, held: multiset<nat>, owed: multiset<nat>, kid: nat)
    requires roots <= held && kid in owed
    ensures roots <= held + owed - multiset{kid}
    ensures held + owed - multiset{kid} == held + (owed - multiset{kid})
  {
    forall x ensures roots[x] <= (held + owed - multiset{kid})[x] {
      assert roots[x] <= held[x];
    }
  }

  // ----- the client's operations -----

  lemma {:induction false} NoRefsTo(s: seq<Cell>, c: Cell, id: nat)
    ensures Refs(s + [c], id) == Refs(s, id) + Owned(c, id)
  {
    assert (s + [c])[..|s|] == s;
  }

  lemma Appended(s: seq<Cell>, held: multiset<nat>, c: Cell)
    requires Accounted(s, held) && c.Live? && c.rc == 1 && Kids(c.body) == []
    ensures Accounted(s + [c], held + multiset{|s|})
  {
    forall id: nat ensures (held + multiset{|s|})[id] + Refs(s + [c], id) == Rc(s + [c], id) {
      NoRefsTo(s, c, id);
      assert held[id] + Refs(s, id) == Rc(s, id);
    }
  }

  lemma HeldIsLive(s: seq<Cell>, held: multiset<nat>)
    requires Accounted(s, held)
    ensures forall id :: id in held ==> id < |s| && s[id].Live? && s[id].rc > 0
  {
    forall id | id in held ensures id < |s| && s[id].Live? && s[id].rc > 0 {
      assert held[id] + Refs(s, id) == Rc(s, id);
    }
  }

  lemma CountUp(s: seq<Cell>, held: multiset<nat>, v: nat)
    requires Accounted(s, held) && v < |s| && s[v].Live? && s[v].rc > 0
    ensures Accounted(s[v := s[v].(rc := s[v].rc + 1)], held + multiset{v})
  {
    Rebalance(s, v, s[v].(rc := s[v].rc + 1), held, held + multiset{v});
  }

  /** Storing a live v in a container and counting it. */
  lemma ReferenceAdded(s: seq<Cell>, held: multiset<nat>, c: nat, body: Body, v: nat)
    requires Accounted(s, held) && v < |s| && s[v].Live? && s[v].rc > 0
    requires c < |s| && s[c].Live? && s[c].rc > 0
    requires multiset(Kids(body)) == multiset(Kids(s[c].body)) + multiset{v}
    ensures Accounted(Stored(s, c, body, v), held)
  {
    var s1 := s[v := s[v].(rc := s[v].rc + 1)];
    CountUp(s, held, v);
    HandIn(s1, held + multiset{v}, c, s1[c].(body := body), v);
    assert held + multiset{v} - multiset{v} == held;
    StoredEitherWay(s, c, body, v);
  }

  lemma StoredEitherWay(s: seq<Cell>, c: nat, body: Body, v: nat)
    requires c < |s| && s[c].Live? && v < |s| && s[v].Live?
    ensures var s1 := s[v := s[v].(rc := s[v].rc + 1)]; s1[c := s1[c].(body := body)] == Stored(s, c, body, v)
  {
  }

  lemma StoreKeeps(s: seq<Cell>, calls: seq<(nat, int)>, c: nat, body: Body, v: nat)
    requires c < |s| && s[c].Live? && v < |s| && s[v].Live? && CallsOk(s, calls)
    requires Settled(s) && (body.Object? ==> |body.keys| == |body.values|)
    ensures var s' := Stored(s, c, body, v);
      Settled(s') && CallsOk(s', calls) && SameBodies(s[c := s[c].(body := body)], s')
  {
  }

  /** A finished release: it may do what Released says, and leaves exactly `keep` live. */
  ghost predicate ReleasedTo(s: seq<Cell>, s': seq<Cell>, keep: set<nat>) {
    Released(s, s') && LiveSet(s') == keep
  }

  /** A reference moves from the hand into a container... */
  lemma HandIn(s: seq<Cell>, held: multiset<nat>, i: nat, c: Cell, x: nat)
    requires i < |s| && s[i].Live? && s[i].rc > 0 && c.Live? && c.rc == s[i].rc && x in held
    requires multiset(Kids(c.body)) == multiset(Kids(s[i].body)) + multiset{x}
    requires Accounted(s, held)
    ensures Accounted(s[i := c], held - multiset{x})
  {
    Rebalance(s, i, c, held, held - multiset{x});
  }

  /** ... or out of it. */
  lemma HandOut(s: seq<Cell>, held: multiset<nat>, i: nat, c: Cell, x: nat)
    requires i < |s| && s[i].Live? && s[i].rc > 0 && c.Live? && c.rc == s[i].rc
    requires multiset(Kids(s[i].body)) == multiset(Kids(c.body)) + multiset{x}
    requires Accounted(s, held)
    ensures Accounted(s[i := c], held + multiset{x})
  {
    Rebalance(s, i, c, held, held + multiset{x});
  }

  lemma WithoutCounts(values: seq<nat>, i: nat, v: nat)
    requires i < |values|
    ensures multiset(values) == multiset(Without(values, i)) + multiset{values[i]}
    ensures multiset(values[i := v]) == multiset(Without(values, i)) + multiset{v}
  {
    assert values == values[..i] + ([values[i]] + values[i + 1..]);
    assert values[i := v] == values[..i] + ([v] + values[i + 1..]);
  }

  lemma ViewOfOne(s: seq<Cell>, i: nat, body: Body, c: Cell)
    requires i < |s| && s[i].Live?
    ensures View(s, map[i := body]) == s[i := s[i].(body := body)]
    ensures View(s, map[i := body])[i := c] == s[i := c]
  {
  }

  function WithoutSlot(s: seq<Cell>, obj: nat, i: nat): (s': seq<Cell>)
    requires obj < |s| && s[obj].Live? && s[obj].body.Object? && i < |s[obj].body.values|
    ensures |s'| == |s|
  {
    s[obj := s[obj].(body := Object(s[obj].body.keys, Without(s[obj].body.values, i)))]
  }

  /** The heap before an object's field for a key is stored: without the field, if it is there. */
  function WithoutField(s: seq<Cell>, obj: nat, key: string): (s': seq<Cell>)
    requires obj < |s| && s[obj].Live? && s[obj].body.Object?
    ensures |s'| == |s|
  {
    var o := s[obj].body;
    if key in o.keys && FirstIndex(o.keys, key) < |o.values| then WithoutSlot(s, obj, FirstIndex(o.keys, key)) else s
  }

  /** What the search for the key has found. */
  lemma FieldFound(s: seq<Cell>, obj: nat, key: string, i: nat, v: nat)
    requires obj < |s| && s[obj].Live? && s[obj].body.Object? && |s[obj].body.keys| == |s[obj].body.values|
    requires var o := s[obj].body; i <= |o.keys| && key !in o.keys[..i] && (i < |o.keys| ==> o.keys[i] == key)
    ensures var o := s[obj].body;
      if i < |o.keys| then
        WithField(o, key, v) == Object(o.keys, o.values[i := v])
        && WithoutField(s, obj, key) == WithoutSlot(s, obj, i) != s
      else WithField(o, key, v) == Object(o.keys + [key], o.values + [v]) && WithoutField(s, obj, key) == s
  {
    var o := s[obj].body;
    if i < |o.keys| {
      assert FirstIndex(o.keys, key) == i;
      assert |Without(o.values, i)| < |o.values|;
      assert WithoutSlot(s, obj, i)[obj] != s[obj];
    } else {
      assert o.keys[..i] == o.keys;
    }
  }

  /** s' is s after object_set: the field's old value is released, then v is stored and counted. */
  ghost predicate FieldStored(s: seq<Cell>, s': seq<Cell>, held: multiset<nat>, obj: nat, key: string, v: nat)
    requires obj < |s| && s[obj].Live? && s[obj].body.Object?
  {
    var body, rest := WithField(s[obj].body, key, v), WithoutField(s, obj, key);
    if rest == s then v < |s| && s[v].Live? && s' == Stored(s, obj, body, v)
    else exists mid :: SwappedVia(s, mid, s', Kept(rest, held), obj, body, v)
  }

  ghost predicate SwappedVia(s: seq<Cell>, mid: seq<Cell>, s': seq<Cell>, keep: set<nat>, obj: nat, body: Body,
                             v: nat) {
    ReleasedTo(s, mid, keep) && LiveAt(mid, obj) && LiveAt(mid, v) && s' == Stored(mid, obj, body, v)
  }

  /** The reference in one field of an object, seen as a reference in hand. */
  lemma SlotReleased(s: seq<Cell>, held: multiset<nat>, obj: nat, i: nat)
    requires Accounted(s, held) && obj < |s| && s[obj].Live? && s[obj].rc > 0
    requires s[obj].body.Object? && i < |s[obj].body.values|
    ensures var o := s[obj].body;
      var mask := map[obj := Object(o.keys, Without(o.values, i))];
      Accounted(View(s, mask), held + multiset{o.values[i]})
  {
    var o := s[obj].body;
    var body := Object(o.keys, Without(o.values, i));
    WithoutCounts(o.values, i, 0);
    HandOut(s, held, obj, s[obj].(body := body), o.values[i]);
    ViewOfOne(s, obj, body, s[obj]);
  }

  function SlotMask(s: seq<Cell>, obj: nat, i: nat): map<nat, Body>
    requires obj < |s| && s[obj].Live? && s[obj].body.Object? && i < |s[obj].body.values|
  {
    map[obj := Object(s[obj].body.keys, Without(s[obj].body.values, i))]
  }

  /** While the field's old value is released, the object is anchored by what is held. */
  lemma SlotAnchored(s: seq<Cell>, held: multiset<nat>, obj: nat, i: nat)
    requires obj < |s| && s[obj].Live? && s[obj].body.Object? && i < |s[obj].body.values|
    requires obj in Kept(WithoutSlot(s, obj, i), held)
    ensures Anchored(s, Anchors(SlotMask(s, obj, i), held, Kept(WithoutSlot(s, obj, i), held)))
    ensures View(s, SlotMask(s, obj, i)) == WithoutSlot(s, obj, i)
  {
    assert View(s, SlotMask(s, obj, i)) == WithoutSlot(s, obj, i);
    KeptIsSupported(WithoutSlot(s, obj, i), held);
  }

  /** After that release. */
  lemma SlotSettled(s: seq<Cell>, s': seq<Cell>, held: multiset<nat>, obj: nat, i: nat)
    requires obj < |s| && s[obj].Live? && s[obj].body.Object? && i < |s[obj].body.values|
    requires Settled(s) && Released(s, s') && Accounted(View(s', SlotMask(s, obj, i)), held)
    requires Anchored(s', Anchors(SlotMask(s, obj, i), held, Kept(WithoutSlot(s, obj, i), held)))
    ensures ReleasedTo(s, s', Kept(WithoutSlot(s, obj, i), held))
    ensures LiveAt(s', obj) && s'[obj].body == s[obj].body && Settled(s')
  {
    var rest, V := WithoutSlot(s, obj, i), View(s', SlotMask(s, obj, i));
    KeptIsLive(V, held, Kept(rest, held));
    assert obj in Kept(rest, held);
    ReleasedExactly(rest, V, held);
    assert LiveSet(V) == LiveSet(s');
  }

  /** Filling the field with v and counting v. */
  lemma SlotFilled(s: seq<Cell>, held: multiset<nat>, obj: nat, values: seq<nat>, i: nat, v: nat)
    requires obj < |s| && s[obj].Live? && s[obj].rc > 0 && s[obj].body.Object? && i < |values|
    requires v < |s| && s[v].Live? && s[v].rc > 0
    requires Accounted(View(s, map[obj := Object(s[obj].body.keys, Without(values, i))]), held)
    ensures Accounted(Stored(s, obj, Object(s[obj].body.keys, values[i := v]), v), held)
  {
    var keys := s[obj].body.keys;
    ViewOfOne(s, obj, Object(keys, Without(values, i)), s[obj]);
    FieldSwapped(s, held, obj, Object(keys, Without(values, i)), Object(keys, values[i := v]), i, v);
  }

  lemma FieldSwapped(s: seq<Cell>, held: multiset<nat>, obj: nat, before: Body, after: Body, i: nat, v: nat)
    requires obj < |s| && s[obj].Live? && s[obj].rc > 0
    requires v < |s| && s[v].Live? && s[v].rc > 0
    requires after.Object? && i < |after.values| && after.values[i] == v && Kids(before) == Without(after.values, i)
    requires Accounted(s[obj := s[obj].(body := before)], held)
    ensures Accounted(Stored(s, obj, after, v), held)
  {
    var s0 := s[obj := s[obj].(body := before)];
    WithoutCounts(after.values, i, v);
    ReferenceAdded(s0, held, obj, after, v);
    assert s0[obj := s0[obj].(body := after)] == s[obj := s[obj].(body := after)];
  }
}
