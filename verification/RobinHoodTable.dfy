/** The slot array of the Robin Hood map as a value: what makes it searchable, and what one
    step of insertion, deletion and lookup does to it. */
module RobinHoodTable {
  import opened Ring

  /** A slot; `Empty` is the source's dib of -1. */
  datatype Entry<K, V> = Empty | Full(key: K, value: V, dib: nat)

  function Dib<K, V>(e: Entry<K, V>): int {
    if e.Full? then e.dib else -1
  }

  /** Every stored dib is the distance from the home slot. */
  ghost predicate Placed<K, V>(t: seq<Entry<K, V>>, hash: K -> nat) {
    forall p :: 0 <= p < |t| && t[p].Full? ==>
      t[p].dib < |t| && At(Home(hash, t[p].key, |t|), t[p].dib, |t|) == p
  }

  ghost predicate RiseAt<K, V>(t: seq<Entry<K, V>>, p: nat)
    requires p < |t|
  {
    Dib(t[Next(p, |t|)]) <= Dib(t[p]) + 1
  }

  /** From slot to slot the dib rises by at most one. */
  ghost predicate Rises<K, V>(t: seq<Entry<K, V>>) {
    forall p: nat :: p < |t| ==> RiseAt(t, p)
  }

  ghost predicate HasEmpty<K, V>(t: seq<Entry<K, V>>) {
    exists p :: 0 <= p < |t| && t[p].Empty?
  }

  ghost predicate Stores<K, V>(t: seq<Entry<K, V>>, k: K) {
    exists p :: 0 <= p < |t| && t[p].Full? && t[p].key == k
  }

  /** t holds exactly the pairs of m, each once. */
  ghost predicate Represents<K, V>(t: seq<Entry<K, V>>, m: map<K, V>) {
    && (forall p :: 0 <= p < |t| && t[p].Full? ==> t[p].key in m && m[t[p].key] == t[p].value)
    && (forall k :: k in m ==> Stores(t, k))
    && (forall p, q :: 0 <= p < q < |t| && t[p].Full? && t[q].Full? ==> t[p].key != t[q].key)
  }

  ghost predicate Searchable<K, V>(t: seq<Entry<K, V>>, hash: K -> nat) {
    Placed(t, hash) && Rises(t) && HasEmpty(t)
  }

  function Occupied<K, V>(t: seq<Entry<K, V>>): nat {
    if t == [] then 0 else Occupied(t[..|t| - 1]) + if t[|t| - 1].Full? then 1 else 0
  }

  /** A table represents at most one map. */
  lemma RepresentsOnce<K, V>(t: seq<Entry<K, V>>, m: map<K, V>, m': map<K, V>)
    requires Represents(t, m) && Represents(t, m')
    ensures m == m'
  {
    assert forall k :: k in m ==> Stores(t, k);
    assert forall k :: k in m' ==> Stores(t, k);
  }

  lemma RepresentsPrefix<K, V>(t: seq<Entry<K, V>>, i: nat, m: map<K, V>)
    requires i < |t| && Represents(t[..i], m)
    requires forall p, q :: 0 <= p < q < |t| && t[p].Full? && t[q].Full? ==> t[p].key != t[q].key
    ensures t[i].Empty? ==> Represents(t[..i + 1], m)
    ensures t[i].Full? ==> t[i].key !in m && Represents(t[..i + 1], m[t[i].key := t[i].value])
  {
    var s, s' := t[..i], t[..i + 1];
    forall k | Stores(s, k) ensures Stores(s', k) {
      var p :| 0 <= p < i && s[p].Full? && s[p].key == k;
      assert s'[p] == s[p];
    }
    assert s'[i] == t[i] && forall p :: 0 <= p < i ==> s'[p] == s[p] && s[p] == t[p];
    if t[i].Full? {
      assert Stores(s', t[i].key);
      assert !Stores(s, t[i].key);
    } else {
      assert forall k :: k in m ==> Stores(s', k);
    }
  }

  /** The number of occupied slots is the size of the map represented. */
  lemma {:induction false} OccupiedIsSize<K, V>(t: seq<Entry<K, V>>, m: map<K, V>)
    requires Represents(t, m)
    ensures Occupied(t) == |m|
  {
    if t == [] {
      assert m == map[] by { assert forall k :: k in m ==> Stores(t, k); }
    } else {
      var n := |t| - 1;
      RepresentsShorter(t, m);
      if t[n].Full? {
        OccupiedIsSize(t[..n], m - {t[n].key});
        assert m.Keys == (m - {t[n].key}).Keys + {t[n].key};
      } else {
        OccupiedIsSize(t[..n], m);
      }
    }
  }

  /** Without its last slot a table represents the map without that slot's key. */
  lemma RepresentsShorter<K, V>(t: seq<Entry<K, V>>, m: map<K, V>)
    requires t != [] && Represents(t, m)
    ensures var n := |t| - 1;
      && (t[n].Full? ==> t[n].key in m)
      && Represents(t[..n], if t[n].Full? then m - {t[n].key} else m)
  {
    var n := |t| - 1;
    var s := t[..n];
    var m' := if t[n].Full? then m - {t[n].key} else m;
    forall k | k in m' ensures Stores(s, k) {
      assert Stores(t, k);
      var p :| 0 <= p < |t| && t[p].Full? && t[p].key == k;
      assert s[p] == t[p];
    }
  }

  lemma {:induction false} FullTable<K, V>(t: seq<Entry<K, V>>)
    requires !HasEmpty(t)
    ensures Occupied(t) == |t|
  {
    if t != [] {
      var s := t[..|t| - 1];
      assert forall p :: 0 <= p < |s| ==> s[p] == t[p];
      FullTable(s);
    }
  }

  lemma SmallMapLeavesRoom<K, V>(t: seq<Entry<K, V>>, m: map<K, V>)
    requires Represents(t, m) && |m| < |t|
    ensures HasEmpty(t)
  {
    OccupiedIsSize(t, m);
    if !HasEmpty(t) { FullTable(t); }
  }

  /** Walking from an entry's home slot to the entry, no slot on the way has a smaller dib than
      the walk is long. */
  lemma {:induction false} Climb<K, V>(t: seq<Entry<K, V>>, hash: K -> nat, p: nat, j: nat)
    requires Placed(t, hash) && Rises(t)
    requires p < |t| && t[p].Full? && j <= t[p].dib
    ensures Dib(t[At(Home(hash, t[p].key, |t|), j, |t|)]) >= j
    decreases t[p].dib - j
  {
    if j < t[p].dib {
      Climb(t, hash, p, j + 1);
      assert RiseAt(t, At(Home(hash, t[p].key, |t|), j, |t|));
    }
  }

  /** With a slot free, no entry is a whole turn away from its home. */
  lemma DibBound<K, V>(t: seq<Entry<K, V>>, hash: K -> nat, p: nat)
    requires Searchable(t, hash) && p < |t| && t[p].Full?
    ensures t[p].dib + 1 < |t|
  {
    var e :| 0 <= e < |t| && t[e].Empty?;
    var j := Dist(Home(hash, t[p].key, |t|), e, |t|);
    if j <= t[p].dib { Climb(t, hash, p, j); }
  }

  /** A probe for k has reached `pos` after d steps, and k is at no slot it has passed. */
  ghost predicate Probing<K, V>(t: seq<Entry<K, V>>, hash: K -> nat, k: K, d: nat, pos: nat) {
    && d < |t| && pos < |t| && pos == At(Home(hash, k, |t|), d, |t|)
    && forall p :: 0 <= p < |t| && t[p].Full? && t[p].key == k ==> t[p].dib >= d
  }

  /** The early exit is right: a slot poorer than the probe proves the key absent. */
  lemma EarlyExit<K, V>(t: seq<Entry<K, V>>, hash: K -> nat, k: K, d: nat, pos: nat)
    requires Searchable(t, hash) && Probing(t, hash, k, d, pos) && Dib(t[pos]) < d
    ensures !Stores(t, k)
  {
    if Stores(t, k) {
      var p :| 0 <= p < |t| && t[p].Full? && t[p].key == k;
      Climb(t, hash, p, d);
    }
  }

  lemma ProbeOn<K, V>(t: seq<Entry<K, V>>, hash: K -> nat, k: K, d: nat, pos: nat)
    requires Searchable(t, hash) && Probing(t, hash, k, d, pos)
    requires Dib(t[pos]) >= d && t[pos].key != k
    ensures Probing(t, hash, k, d + 1, Next(pos, |t|))
  {
    DibBound(t, hash, pos);
  }

  /** A pair carried to `pos` with dib d may be put there without breaking the rise. */
  ghost predicate Carried<K, V>(t: seq<Entry<K, V>>, hash: K -> nat, k: K, d: nat, pos: nat) {
    && Probing(t, hash, k, d, pos)
    && forall p: nat :: p < |t| && Next(p, |t|) == pos ==> d <= Dib(t[p]) + 1
  }

  /** Placing the carried pair in a poorer (or empty) slot keeps placement and rise. */
  lemma PutKeepsShape<K, V>(t: seq<Entry<K, V>>, hash: K -> nat, k: K, v: V, d: nat, pos: nat)
    requires Placed(t, hash) && Rises(t) && Carried(t, hash, k, d, pos) && Dib(t[pos]) < d
    ensures Placed(t[pos := Full(k, v, d)], hash) && Rises(t[pos := Full(k, v, d)])
  {
    var t' := t[pos := Full(k, v, d)];
    forall p: nat | p < |t'| ensures RiseAt(t', p) {
      assert RiseAt(t, p);
    }
  }

  /** Writing a new pair over a slot trades the slot's old pair for it. */
  lemma PutRepresents<K, V>(t: seq<Entry<K, V>>, m: map<K, V>, k: K, v: V, d: nat, pos: nat)
    requires Represents(t, m) && pos < |t| && k !in m
    ensures t[pos].Empty? ==> Represents(t[pos := Full(k, v, d)], m[k := v])
    ensures t[pos].Full? ==> Represents(t[pos := Full(k, v, d)], (m - {t[pos].key})[k := v])
  {
    var t' := t[pos := Full(k, v, d)];
    assert t'[pos].key == k && Stores(t', k);
    forall x | Stores(t, x) && (t[pos].Full? ==> x != t[pos].key) ensures Stores(t', x) {
      var p :| 0 <= p < |t| && t[p].Full? && t[p].key == x;
      assert t'[p] == t[p];
    }
  }

  /** Deleting a pair by emptying its slot. */
  lemma ClearRepresents<K, V>(t: seq<Entry<K, V>>, m: map<K, V>, pos: nat)
    requires Represents(t, m) && pos < |t| && t[pos].Full?
    ensures Represents(t[pos := Empty], m - {t[pos].key})
  {
    var t' := t[pos := Empty];
    forall x | Stores(t, x) && x != t[pos].key ensures Stores(t', x) {
      var p :| 0 <= p < |t| && t[p].Full? && t[p].key == x;
      assert t'[p] == t[p];
    }
  }

  /** Overwriting the value of a stored key. */
  lemma AssignRepresents<K, V>(t: seq<Entry<K, V>>, m: map<K, V>, v: V, pos: nat)
    requires Represents(t, m) && pos < |t| && t[pos].Full?
    ensures Represents(t[pos := t[pos].(value := v)], m[t[pos].key := v])
  {
    var t' := t[pos := t[pos].(value := v)];
    forall x | Stores(t, x) ensures Stores(t', x) {
      var p :| 0 <= p < |t| && t[p].Full? && t[p].key == x;
      assert t'[p].key == x;
    }
    assert Stores(t, t[pos].key);
  }

  /** After a displacement the poorer pair is carried on, one slot further. */
  lemma DisplacedIsCarried<K, V>(t: seq<Entry<K, V>>, hash: K -> nat, k: K, v: V, d: nat, pos: nat, m: map<K, V>)
    requires Searchable(t, hash) && Represents(t, m) && k !in m
    requires Carried(t, hash, k, d, pos) && t[pos].Full? && t[pos].dib < d
    ensures Carried(t[pos := Full(k, v, d)], hash, t[pos].key, t[pos].dib + 1, Next(pos, |t|))
  {
    DibBound(t, hash, pos);
  }

  lemma SkippedIsCarried<K, V>(t: seq<Entry<K, V>>, hash: K -> nat, k: K, d: nat, pos: nat)
    requires Searchable(t, hash) && Carried(t, hash, k, d, pos)
    requires Dib(t[pos]) >= d && t[pos].key != k
    ensures Carried(t, hash, k, d + 1, Next(pos, |t|))
  {
    ProbeOn(t, hash, k, d, pos);
  }

  // ----- insertion: a valid table plus one carried pair -----

  /** While `key := value` is being inserted into M: table t holds m, and putting the carried
      pair (k, v) into m gives the map wanted. As long as the key may still be found ahead,
      nothing has been displaced. */
  ghost predicate Inserting<K, V>(t: seq<Entry<K, V>>, hash: K -> nat, m: map<K, V>, k: K, v: V, d: nat, pos: nat,
                                  M: map<K, V>, key: K, value: V) {
    && Searchable(t, hash) && Represents(t, m) && Carried(t, hash, k, d, pos)
    && (k in m ==> m == M && k == key && v == value)
    && (k !in m ==> key !in M && m[k := v] == M[key := value])
  }

  lemma InsertEnds<K, V>(t: seq<Entry<K, V>>, hash: K -> nat, m: map<K, V>, k: K, v: V, d: nat, pos: nat,
                         M: map<K, V>, key: K, value: V)
    requires Inserting(t, hash, m, k, v, d, pos, M, key, value) && t[pos].Empty?
    ensures var t' := t[pos := Full(k, v, d)];
      key !in M && Placed(t', hash) && Rises(t') && Represents(t', M[key := value])
  {
    EarlyExit(t, hash, k, d, pos);
    assert k !in m;
    PutKeepsShape(t, hash, k, v, d, pos);
    PutRepresents(t, m, k, v, d, pos);
  }

  lemma InsertDisplaces<K, V>(t: seq<Entry<K, V>>, hash: K -> nat, m: map<K, V>, k: K, v: V, d: nat, pos: nat,
                              M: map<K, V>, key: K, value: V)
    returns (m': map<K, V>)
    requires Inserting(t, hash, m, k, v, d, pos, M, key, value) && t[pos].Full? && t[pos].dib < d
    ensures Inserting(t[pos := Full(k, v, d)], hash, m', t[pos].key, t[pos].value, t[pos].dib + 1,
                      Next(pos, |t|), M, key, value)
    ensures t[pos].key !in m' && key !in M
  {
    EarlyExit(t, hash, k, d, pos);
    assert k !in m;
    PutKeepsShape(t, hash, k, v, d, pos);
    PutRepresents(t, m, k, v, d, pos);
    DisplacedIsCarried(t, hash, k, v, d, pos, m);
    m' := (m - {t[pos].key})[k := v];
    var e :| 0 <= e < |t| && t[e].Empty?;
    assert t[pos := Full(k, v, d)][e].Empty?;
    assert m'[t[pos].key := t[pos].value] == m[k := v];
  }

  // ----- backward-shift deletion -----

  /** The state between two backward shifts: slot `hole` has just been emptied, and the only
      rise that may be broken is the one from the hole to its successor. */
  ghost predicate Holed<K, V>(t: seq<Entry<K, V>>, hash: K -> nat, hole: nat) {
    && hole < |t| && t[hole].Empty? && Placed(t, hash)
    && (forall p: nat :: p < |t| && p != hole ==> RiseAt(t, p))
    && forall p: nat :: p < |t| && Next(p, |t|) == hole ==> Dib(t[Next(hole, |t|)]) <= Dib(t[p]) + 2
  }

  lemma ClearingMakesHole<K, V>(t: seq<Entry<K, V>>, hash: K -> nat, pos: nat)
    requires Placed(t, hash) && Rises(t) && pos < |t| && |t| > 1
    ensures Holed(t[pos := Empty], hash, pos)
  {
    var t' := t[pos := Empty];
    assert RiseAt(t, pos);
    forall p: nat | p < |t| && p != pos ensures RiseAt(t', p) {
      assert RiseAt(t, p);
    }
    forall p: nat | p < |t| && Next(p, |t|) == pos
      ensures Dib(t'[Next(pos, |t|)]) <= Dib(t'[p]) + 2
    {
      assert RiseAt(t, p);
    }
  }

  function Shifted<K, V>(t: seq<Entry<K, V>>, hole: nat): (t': seq<Entry<K, V>>)
    requires hole < |t| && t[Next(hole, |t|)].Full? && t[Next(hole, |t|)].dib > 0
    ensures |t'| == |t|
  {
    var e := t[Next(hole, |t|)];
    t[hole := e.(dib := e.dib - 1)][Next(hole, |t|) := Empty]
  }

  /** One backward shift moves the hole one slot on... */
  lemma ShiftMovesHole<K, V>(t: seq<Entry<K, V>>, hash: K -> nat, hole: nat)
    requires |t| > 2 && Holed(t, hash, hole)
    requires t[Next(hole, |t|)].Full? && t[Next(hole, |t|)].dib > 0
    ensures Holed(Shifted(t, hole), hash, Next(hole, |t|))
  {
    var t', next := Shifted(t, hole), Next(hole, |t|);
    assert RiseAt(t, next);
    forall p: nat | p < |t| && p != next ensures RiseAt(t', p) {
      assert p != hole ==> RiseAt(t, p);
    }
    forall p: nat | p < |t| && Next(p, |t|) == next
      ensures Dib(t'[Next(next, |t|)]) <= Dib(t'[p]) + 2
    {
      assert p == hole;
    }
  }

  /** ... and keeps the contents. */
  lemma ShiftKeepsContents<K, V>(t: seq<Entry<K, V>>, hole: nat, m: map<K, V>)
    requires |t| > 2 && hole < |t| && t[hole].Empty? && Represents(t, m)
    requires t[Next(hole, |t|)].Full? && t[Next(hole, |t|)].dib > 0
    ensures Represents(Shifted(t, hole), m)
  {
    var t', next := Shifted(t, hole), Next(hole, |t|);
    forall k | k in m ensures Stores(t', k) {
      assert Stores(t, k);
      var p :| 0 <= p < |t| && t[p].Full? && t[p].key == k;
      assert t'[if p == next then hole else p].key == k;
    }
  }

  /** When the slot after the hole is empty or at home, the table is whole again. */
  lemma HoleCloses<K, V>(t: seq<Entry<K, V>>, hash: K -> nat, hole: nat)
    requires Holed(t, hash, hole) && Dib(t[Next(hole, |t|)]) <= 0
    ensures Searchable(t, hash)
  {
  }
}
