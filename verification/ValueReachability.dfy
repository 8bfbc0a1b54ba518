/** What the counts mean: a value is live exactly when the client can reach it, provided the
    containers form no cycle; and storing keeps them acyclic exactly when it closes none. */
module ValueReachability {
  import opened ValueCells
  import opened ValueGraph

  /** The live container i holds a reference to kid. */
  ghost predicate Edge(s: seq<Cell>, i: nat, kid: nat) {
    i < |s| && s[i].Live? && kid in Kids(s[i].body)
  }

  ghost predicate IsPath(s: seq<Cell>, path: seq<nat>) {
    path != [] && forall k :: 0 <= k < |path| - 1 ==> Edge(s, path[k], path[k + 1])
  }

  ghost predicate PathFrom(s: seq<Cell>, path: seq<nat>, a: nat, b: nat) {
    IsPath(s, path) && path[0] == a && path[|path| - 1] == b
  }

  ghost predicate Reaches(s: seq<Cell>, a: nat, b: nat) {
    exists path :: PathFrom(s, path, a, b)
  }

  ghost predicate Reachable(s: seq<Cell>, held: multiset<nat>, id: nat) {
    exists root :: root in held && Reaches(s, root, id)
  }

  /** No dangling pointer: whatever a client can reach is live. */
  lemma {:induction false} PathIsLive(s: seq<Cell>, held: multiset<nat>, path: seq<nat>)
    requires Accounted(s, held) && Settled(s) && IsPath(s, path) && path[0] in held
    ensures path[|path| - 1] < |s| && s[path[|path| - 1]].Live?
    decreases |path|
  {
    var n := |path| - 1;
    var id := path[n];
    assert held[id] + Refs(s, id) == Rc(s, id);
    if n > 0 {
      assert Edge(s, path[n - 1], path[n - 1 + 1]);
      OwnedIsCounted(s, path[n - 1], id);
    }
  }

  ghost predicate Ranked(s: seq<Cell>, rank: seq<nat>) {
    && |rank| == |s|
    && forall i: nat, kid: nat :: Edge(s, i, kid) ==> kid < |s| && rank[kid] < rank[i]
  }

  ghost predicate Acyclic(s: seq<Cell>) {
    exists rank :: Ranked(s, rank)
  }

  lemma {:induction false} RankBound(rank: seq<nat>) returns (b: nat)
    ensures forall i :: 0 <= i < |rank| ==> rank[i] <= b
  {
    if rank == [] { return 0; }
    var b' := RankBound(rank[..|rank| - 1]);
    b := if rank[|rank| - 1] > b' then rank[|rank| - 1] else b';
    forall i | 0 <= i < |rank| ensures rank[i] <= b {
      assert i < |rank| - 1 ==> rank[i] == rank[..|rank| - 1][i];
    }
  }

  /** Climbing from a kept value to the values that keep it ends at a root. */
  lemma {:induction false} KeptIsReachable(s: seq<Cell>, roots: multiset<nat>, rank: seq<nat>, b: nat, id: nat)
    requires Ranked(s, rank) && forall i :: 0 <= i < |rank| ==> rank[i] <= b
    requires id in Kept(s, roots)
    ensures Reachable(s, roots, id)
    decreases b - rank[id]
  {
    KeptIsSupported(s, roots);
    assert SupportedAt(s, roots, Kept(s, roots), id);
    if id in roots {
      assert PathFrom(s, [id], id, id);
      assert Reaches(s, id, id);
    } else {
      var owner :| owner in Kept(s, roots) && owner < |s| && Owned(s[owner], id) > 0;
      assert Edge(s, owner, id);
      KeptIsReachable(s, roots, rank, b, owner);
      var root :| root in roots && Reaches(s, root, owner);
      PathExtended(s, root, owner, id);
    }
  }

  /** No pointer in a live value dangles. */
  ghost predicate Closed(s: seq<Cell>) {
    forall i: nat, kid: nat :: Edge(s, i, kid) ==> LiveAt(s, kid)
  }

  lemma {:induction false} PathIsKept(s: seq<Cell>, roots: multiset<nat>, path: seq<nat>)
    requires Counted(s) && Closed(s) && IsPath(s, path) && path[0] in roots && LiveAt(s, path[0])
    ensures path[|path| - 1] in Kept(s, roots)
    decreases |path|
  {
    var n := |path| - 1;
    KeptIsSupported(s, roots);
    var keep := Kept(s, roots) + {path[n]};
    if n > 0 {
      assert Edge(s, path[n - 1], path[n - 1 + 1]);
      PathIsKept(s, roots, path[..n]);
      assert Owned(s[path[n - 1]], path[n]) > 0;
    }
    forall x | x in keep ensures SupportedAt(s, roots, keep, x) {
      if x in Kept(s, roots) { assert SupportedAt(s, roots, Kept(s, roots), x); }
    }
    KeptIsLargest(s, roots, keep);
  }

  /** On acyclic containers, what some roots keep is what can be reached from them. */
  lemma KeptIffReachable(s: seq<Cell>, roots: multiset<nat>, id: nat)
    requires Acyclic(s) && Counted(s) && Closed(s) && forall x :: x in roots ==> LiveAt(s, x)
    ensures id in Kept(s, roots) <==> Reachable(s, roots, id)
  {
    var rank :| Ranked(s, rank);
    if id in Kept(s, roots) {
      var b := RankBound(rank);
      KeptIsReachable(s, roots, rank, b, id);
    }
    if Reachable(s, roots, id) {
      var root :| root in roots && Reaches(s, root, id);
      var path :| PathFrom(s, path, root, id);
      PathIsKept(s, roots, path);
    }
  }

  /** Exact counts leave no dangling pointer. */
  lemma AccountedIsClosed(s: seq<Cell>, held: multiset<nat>)
    requires Accounted(s, held) && Counted(s)
    ensures Closed(s)
  {
    forall i: nat, kid: nat | Edge(s, i, kid) ensures LiveAt(s, kid) {
      assert held[kid] + Refs(s, kid) == Rc(s, kid);
      OwnedIsCounted(s, i, kid);
    }
  }

  lemma PathExtended(s: seq<Cell>, a: nat, b: nat, c: nat)
    requires Reaches(s, a, b) && Edge(s, b, c)
    ensures Reaches(s, a, c)
  {
    var path :| PathFrom(s, path, a, b);
    assert PathFrom(s, path + [c], a, c);
  }

  lemma PathPrepended(s: seq<Cell>, a: nat, b: nat, c: nat)
    requires Reaches(s, b, c) && Edge(s, a, b)
    ensures Reaches(s, a, c)
  {
    var path :| PathFrom(s, path, b, c);
    assert PathFrom(s, [a] + path, a, c);
  }

  /** On acyclic containers, live and reachable from the client are the same thing. */
  lemma LiveIffReachable(s: seq<Cell>, held: multiset<nat>, id: nat)
    requires Accounted(s, held) && Settled(s) && Acyclic(s)
    ensures LiveAt(s, id) <==> Reachable(s, held, id)
  {
    LiveIsKept(s, held);
    AccountedIsClosed(s, held);
    HeldIsLive(s, held);
    KeptIffReachable(s, held, id);
    assert LiveAt(s, id) <==> id in LiveSet(s);
  }

  // ----- leaks -----

  /** Nothing keeps itself in an acyclic graph. */
  lemma {:induction false} NoSelfSupport(s: seq<Cell>, rank: seq<nat>, b: nat, x: nat)
    requires Ranked(s, rank) && forall i :: 0 <= i < |rank| ==> rank[i] <= b
    ensures x !in Kept(s, multiset{})
    decreases if x < |rank| then b - rank[x] else 0
  {
    if x in Kept(s, multiset{}) {
      KeptIsSupported(s, multiset{});
      assert SupportedAt(s, multiset{}, Kept(s, multiset{}), x);
      var owner :| owner in Kept(s, multiset{}) && owner < |s| && Owned(s[owner], x) > 0;
      assert Edge(s, owner, x);
      NoSelfSupport(s, rank, b, owner);
    }
  }

  /** A ranking of some values for the edges among them. */
  ghost predicate RanksWithin(s: seq<Cell>, part: set<nat>, rank: map<nat, nat>) {
    && rank.Keys == part && (forall x :: x in part ==> rank[x] < |part|)
    && forall x: nat, y: nat :: x in part && y in part && Edge(s, x, y) ==> rank[y] < rank[x]
  }

  /** A value that nothing in the set holds may be ranked above the others. */
  lemma RankExtended(s: seq<Cell>, part: set<nat>, top: nat, below: map<nat, nat>) returns (rank: map<nat, nat>)
    requires top in part && RanksWithin(s, part - {top}, below)
    requires forall x :: x in part ==> !Edge(s, x, top)
    ensures RanksWithin(s, part, rank)
  {
    rank := below[top := |part| - 1];
    forall x: nat, y: nat | x in part && y in part && Edge(s, x, y) ensures rank[y] < rank[x] {
      assert y in part - {top};
      if x in part - {top} { assert below[y] < below[x]; }
    }
  }

  /** Where no set of values supports itself, taking out a value nobody in the set holds leaves
      a smaller such set: all of them can be ranked. */
  lemma {:induction false} BuildRank(s: seq<Cell>, part: set<nat>) returns (rank: map<nat, nat>)
    requires Counted(s) && Kept(s, multiset{}) == {} && forall x :: x in part ==> LiveAt(s, x)
    ensures RanksWithin(s, part, rank)
    decreases part
  {
    if part == {} { return map[]; }
    var top := SomeUnheld(s, part);
    var below := BuildRank(s, part - {top});
    rank := RankExtended(s, part, top, below);
  }

  lemma SomeUnheld(s: seq<Cell>, part: set<nat>) returns (top: nat)
    requires Counted(s) && Kept(s, multiset{}) == {} && (forall x :: x in part ==> LiveAt(s, x)) && part != {}
    ensures top in part && forall x :: x in part ==> !Edge(s, x, top)
  {
    if forall x :: x in part ==> SupportedAt(s, multiset{}, part, x) {
      KeptIsLargest(s, multiset{}, part);
    }
    top :| top in part && !SupportedAt(s, multiset{}, part, top);
    forall x | x in part ensures !Edge(s, x, top) {
      assert Owned(s[x], top) == 0;
    }
  }

  /** A valid heap is acyclic exactly when dropping every reference would free everything. */
  lemma AcyclicIffNothingKept(s: seq<Cell>, held: multiset<nat>)
    requires Accounted(s, held) && Counted(s)
    ensures Acyclic(s) <==> Kept(s, multiset{}) == {}
  {
    if Acyclic(s) {
      var rank :| Ranked(s, rank);
      var b := RankBound(rank);
      forall x ensures x !in Kept(s, multiset{}) { NoSelfSupport(s, rank, b, x); }
    }
    if Kept(s, multiset{}) == {} {
      var within := BuildRank(s, LiveSet(s));
      AccountedIsClosed(s, held);
      var rank := seq(|s|, i requires 0 <= i < |s| => if i in within then within[i] else 0);
      forall i: nat, kid: nat | Edge(s, i, kid) ensures kid < |s| && rank[kid] < rank[i] {
        assert i in LiveSet(s) && kid in LiveSet(s);
      }
      assert Ranked(s, rank);
    }
  }

  lemma NothingLive(s: seq<Cell>)
    ensures LiveSet(s) == {} <==> forall id :: 0 <= id < |s| ==> s[id].Freed?
  {
    if LiveSet(s) == {} {
      forall id | 0 <= id < |s| ensures s[id].Freed? {
        assert id !in LiveSet(s);
      }
    }
  }

  /** A client that holds nothing has left nothing exactly when what is left has no cycle. */
  lemma NothingLeaks(s: seq<Cell>)
    requires Accounted(s, multiset{}) && Settled(s)
    ensures (forall id :: 0 <= id < |s| ==> s[id].Freed?) <==> Acyclic(s)
  {
    LiveIsKept(s, multiset{});
    AcyclicIffNothingKept(s, multiset{});
    NothingLive(s);
  }

  // ----- borrowed values -----

  /** What the client holds outlives any release of something else it holds. */
  lemma HeldIsKept(s: seq<Cell>, held: multiset<nat>)
    requires forall x :: x in held ==> LiveAt(s, x) && s[x].rc > 0
    ensures forall x :: x in held ==> x in Kept(s, held)
  {
    var keep := set x | x in held;
    forall x | x in keep ensures SupportedAt(s, held, keep, x) { }
    KeptIsLargest(s, held, keep);
  }

  /** A path up to its first visit to the node where it ends. */
  lemma {:induction false} FirstVisit(s: seq<Cell>, path: seq<nat>) returns (cut: seq<nat>)
    requires IsPath(s, path)
    ensures IsPath(s, cut) && cut[0] == path[0] && cut[|cut| - 1] == path[|path| - 1]
    ensures forall k :: 0 <= k < |cut| - 1 ==> cut[k] != cut[|cut| - 1]
    decreases |path|
  {
    var n := |path| - 1;
    if k :| 0 <= k < n && path[k] == path[n] {
      cut := FirstVisit(s, path[..k + 1]);
    } else {
      cut := path;
    }
  }

  lemma ClosedWithoutField(s: seq<Cell>, held: multiset<nat>, obj: nat, key: string)
    requires Accounted(s, held) && Settled(s) && LiveAt(s, obj) && s[obj].body.Object?
    ensures Counted(WithoutField(s, obj, key)) && Closed(WithoutField(s, obj, key))
  {
    var rest := WithoutField(s, obj, key);
    AccountedIsClosed(s, held);
    forall i: nat, kid: nat | Edge(rest, i, kid) ensures LiveAt(rest, kid) {
      assert Edge(s, i, kid);
    }
  }

  /** Whatever the client can reach outlives the release of one of its own fields, in any graph: a
      path to it need not leave through it. */
  lemma ReachableObjectIsKept(s: seq<Cell>, held: multiset<nat>, obj: nat, key: string)
    requires Accounted(s, held) && Settled(s) && LiveAt(s, obj) && s[obj].body.Object?
    requires Reachable(s, held, obj)
    ensures obj in Kept(WithoutField(s, obj, key), held)
  {
    var rest := WithoutField(s, obj, key);
    var root :| root in held && Reaches(s, root, obj);
    var path :| PathFrom(s, path, root, obj);
    var cut := FirstVisit(s, path);
    ClosedWithoutField(s, held, obj, key);
    HeldIsLive(s, held);
    forall k | 0 <= k < |cut| - 1 ensures Edge(rest, cut[k], cut[k + 1]) {
      assert Edge(s, cut[k], cut[k + 1]) && rest[cut[k]] == s[cut[k]];
    }
    PathIsKept(rest, held, cut);
  }

  /** So where nothing is cyclic every live object does. */
  lemma BorrowedObjectIsKept(s: seq<Cell>, held: multiset<nat>, obj: nat, key: string)
    requires Accounted(s, held) && Settled(s) && Acyclic(s) && LiveAt(s, obj) && s[obj].body.Object?
    ensures obj in Kept(WithoutField(s, obj, key), held)
  {
    LiveIffReachable(s, held, obj);
    ReachableObjectIsKept(s, held, obj, key);
  }

  // ----- which operations keep containers acyclic -----

  /** With fewer values, or fewer children, a heap stays acyclic. */
  lemma FewerEdges(s: seq<Cell>, s': seq<Cell>)
    requires Acyclic(s) && |s'| == |s|
    requires forall i :: 0 <= i < |s'| && s'[i].Live? ==> s[i].Live? && s[i].body == s'[i].body
    ensures Acyclic(s')
  {
    var rank :| Ranked(s, rank);
    forall i: nat, kid: nat | Edge(s', i, kid) ensures kid < |s'| && rank[kid] < rank[i] {
      assert Edge(s, i, kid);
    }
    assert Ranked(s', rank);
  }

  lemma NewKeepsAcyclic(s: seq<Cell>, body: Body)
    requires Acyclic(s) && Kids(body) == []
    ensures Acyclic(s + [Live(1, body)])
  {
    var rank :| Ranked(s, rank);
    var s', rank' := s + [Live(1, body)], rank + [0];
    forall i: nat, kid: nat | Edge(s', i, kid) ensures kid < |s'| && rank'[kid] < rank'[i] {
      assert Edge(s, i, kid);
    }
    assert Ranked(s', rank');
  }

  /** c comes to hold v, and otherwise no child it did not hold before. */
  ghost predicate Gains(s: seq<Cell>, c: nat, body: Body, v: nat) {
    && c < |s| && s[c].Live? && v < |s| && v in Kids(body)
    && forall x :: x in Kids(body) ==> x == v || x in Kids(s[c].body)
  }

  lemma StoreKeepsAcyclic(s: seq<Cell>, c: nat, body: Body, v: nat)
    requires Acyclic(s) && Gains(s, c, body, v) && !Reaches(s, v, c)
    ensures Acyclic(s[c := s[c].(body := body)])
  {
    var rank :| Ranked(s, rank);
    var s' := s[c := s[c].(body := body)];
    var rank' := seq(|s|, i requires 0 <= i < |s| => if Reaches(s, i, c) then rank[i] + rank[v] + 1 else rank[i]);
    assert Reaches(s, c, c) by { assert PathFrom(s, [c], c, c); }
    forall i: nat, kid: nat | Edge(s', i, kid)
      ensures kid < |s'| && rank'[kid] < rank'[i]
    {
      if Edge(s, i, kid) {
        assert kid < |s| && rank[kid] < rank[i];
        if Reaches(s, kid, c) { PathPrepended(s, i, kid, c); }
      } else {
        assert i == c && kid == v;
      }
    }
    assert Ranked(s', rank');
  }

  /** Along a path to c, a ranking of the heap after the store falls: only c's own children
      have changed. */
  lemma {:induction false} RankFalls(s: seq<Cell>, c: nat, body: Body, rank: seq<nat>, path: seq<nat>)
    requires c < |s| && s[c].Live? && Ranked(s[c := s[c].(body := body)], rank)
    requires IsPath(s, path) && path[|path| - 1] == c && path[0] < |s|
    ensures rank[c] <= rank[path[0]]
    decreases |path|
  {
    if path[0] != c {
      assert Edge(s, path[0], path[0 + 1]);
      assert Edge(s[c := s[c].(body := body)], path[0], path[1]);
      forall k | 0 <= k < |path[1..]| - 1 ensures Edge(s, path[1..][k], path[1..][k + 1]) {
        assert Edge(s, path[k + 1], path[k + 1 + 1]);
      }
      RankFalls(s, c, body, rank, path[1..]);
    }
  }

  /** array_push and object_set keep an acyclic heap acyclic exactly when the container is not
      already reachable from the value stored in it. */
  lemma StoreKeepsAcyclicIff(s: seq<Cell>, c: nat, body: Body, v: nat)
    requires Acyclic(s) && Gains(s, c, body, v)
    ensures Acyclic(s[c := s[c].(body := body)]) <==> !Reaches(s, v, c)
  {
    var s' := s[c := s[c].(body := body)];
    if !Reaches(s, v, c) {
      StoreKeepsAcyclic(s, c, body, v);
    } else if Acyclic(s') {
      var rank :| Ranked(s', rank);
      var path :| PathFrom(s, path, v, c);
      assert Edge(s', c, v);
      RankFalls(s, c, body, rank, path);
    }
  }

  /** Without acyclicity a value can outlive every reference to it: an array pushed into itself
      and then released stays live, with the client holding nothing. */
  method SelfPushLeaks() returns (h: ValueHeap, a: nat)
    ensures h.Valid() && h.held == multiset{}
    ensures a < |h.cells| && h.cells[a].Live? && !Reachable(h.cells, h.held, a)
  {
    h := new ValueHeap();
    a := h.New(Array([]));
    h.ArrayPush(At(a), At(a));
    OnlyCell(h.cells, h.held);
    h.Release(At(a));
    OnlyCell(h.cells, h.held);
  }

  lemma OnlyCell(s: seq<Cell>, held: multiset<nat>)
    requires |s| == 1 && Accounted(s, held) && s[0].Live? && s[0].rc > 0 && s[0].body == Array([0])
    ensures s[0].rc == held[0] + 1
  {
    assert held[0] + Refs(s, 0) == Rc(s, 0);
    assert s[..0] == [];
  }

  /** A heap on which setting a field to the value it already holds would free that value before
      storing it: nothing else holds it. */
  method FieldHoldsAlone() returns (h: ValueHeap, o: nat, v: nat)
    ensures h.Valid() && h.held == multiset{o} && LiveAt(h.cells, o) && LiveAt(h.cells, v)
    ensures h.cells[o].body == Object(["k"], [v])
    ensures o in Kept(WithoutField(h.cells, o, "k"), h.held) && v !in Kept(WithoutField(h.cells, o, "k"), h.held)
  {
    h := new ValueHeap();
    o := h.New(Object([], []));
    v := h.New(Int(1));
    HeldIsKept(h.cells, h.held);
    var _ := h.ObjectSet(At(o), "k", At(v));
    assert [] + ["k"] == ["k"] && [] + [v] == [v];
    assert h.cells == [Live(1, Object(["k"], [1])), Live(2, Int(1))];
    h.Release(At(v));
    assert h.cells == [Live(1, Object(["k"], [1])), Live(1, Int(1))];
    OnlyTheField(h.cells, h.held);
  }

  lemma OnlyTheField(s: seq<Cell>, held: multiset<nat>)
    requires s == [Live(1, Object(["k"], [1])), Live(1, Int(1))] && held == multiset{0}
    ensures 0 in Kept(WithoutField(s, 0, "k"), held) && 1 !in Kept(WithoutField(s, 0, "k"), held)
  {
    var rest := WithoutField(s, 0, "k");
    assert FirstIndex(["k"], "k") == 0 && Without([1], 0) == [];
    assert rest == [Live(1, Object(["k"], [])), Live(1, Int(1))];
    HeldIsKept(rest, held);
    KeptIsSupported(rest, held);
    assert !SupportedAt(rest, held, Kept(rest, held), 1);
  }
}
