/** The slot array of the configuration map as a value: linear probing without tombstones. */
module ConfigTable {
  import opened Wrappers
  import opened Ring

  datatype Slot = Vacant | Taken(key: string, value: string)

  /** Slot p does not end a probe for key. */
  predicate Skips(t: seq<Slot>, p: nat, key: string)
    requires p < |t|
  {
    t[p].Taken? && t[p].key != key
  }

  /** cfgMapFindSlot from its i-th probe on: the first slot that is vacant or holds the key. */
  function Probe(t: seq<Slot>, h: nat, key: string, i: nat): (r: Option<nat>)
    requires h < |t| && i <= |t|
    ensures r.Some? ==> r.value < |t|
    decreases |t| - i
  {
    if i == |t| then None
    else if Skips(t, At(h, i, |t|), key) then Probe(t, h, key, i + 1)
    else Some(At(h, i, |t|))
  }

  function FindSlot(t: seq<Slot>, hash: string -> nat, key: string): (r: Option<nat>)
    requires |t| > 0
    ensures r.Some? ==> r.value < |t|
  {
    Probe(t, Home(hash, key, |t|), key, 0)
  }

  /** What cfgMapGet answers. */
  function Lookup(t: seq<Slot>, hash: string -> nat, key: string): Option<string>
    requires |t| > 0
  {
    match FindSlot(t, hash, key)
    case Some(p) => if t[p].Taken? then Some(t[p].value) else None
    case None => None
  }

  /** p is where a probe from h ends. */
  ghost predicate EndsAt(t: seq<Slot>, h: nat, key: string, p: nat)
    requires h < |t|
  {
    && p < |t| && !Skips(t, p, key)
    && forall q: nat :: q < |t| && Dist(h, q, |t|) < Dist(h, p, |t|) ==> Skips(t, q, key)
  }

  lemma {:induction false} ProbeEnds(t: seq<Slot>, h: nat, key: string, i: nat)
    requires h < |t| && i <= |t|
    requires forall q: nat :: q < |t| && Dist(h, q, |t|) < i ==> Skips(t, q, key)
    ensures match Probe(t, h, key, i)
      case Some(p) => EndsAt(t, h, key, p)
      case None => forall q: nat :: q < |t| ==> Skips(t, q, key)
    decreases |t| - i
  {
    if i < |t| && Skips(t, At(h, i, |t|), key) {
      forall q: nat | q < |t| && Dist(h, q, |t|) < i + 1 ensures Skips(t, q, key) {
        if Dist(h, q, |t|) == i { assert At(h, i, |t|) == q; }
      }
      ProbeEnds(t, h, key, i + 1);
    }
  }

  /** The probe ends at the one place where it can. */
  lemma FoundIff(t: seq<Slot>, hash: string -> nat, key: string, p: nat)
    requires |t| > 0
    ensures FindSlot(t, hash, key) == Some(p) <==> EndsAt(t, Home(hash, key, |t|), key, p)
  {
    var h := Home(hash, key, |t|);
    ProbeEnds(t, h, key, 0);
    if EndsAt(t, h, key, p) {
      var r := FindSlot(t, hash, key).value;
      assert EndsAt(t, h, key, r);
      assert At(h, Dist(h, p, |t|), |t|) == p && At(h, Dist(h, r, |t|), |t|) == r;
    }
  }

  /** Slot q lies on the way from the home of the key stored at p to p. */
  ghost predicate OnPath(t: seq<Slot>, hash: string -> nat, p: nat, q: nat)
    requires p < |t| && q < |t| && t[p].Taken?
  {
    Dist(Home(hash, t[p].key, |t|), q, |t|) < Dist(Home(hash, t[p].key, |t|), p, |t|)
  }

  /** Every stored key's probe reaches it. */
  ghost predicate Intact(t: seq<Slot>, hash: string -> nat) {
    forall p: nat, q: nat :: p < |t| && q < |t| && t[p].Taken? && OnPath(t, hash, p, q) ==> Skips(t, q, t[p].key)
  }

  ghost predicate Has(t: seq<Slot>, key: string, value: string) {
    exists p :: 0 <= p < |t| && t[p] == Taken(key, value)
  }

  lemma IntactFinds(t: seq<Slot>, hash: string -> nat, p: nat)
    requires Intact(t, hash) && p < |t| && t[p].Taken?
    ensures FindSlot(t, hash, t[p].key) == Some(p)
  {
    FoundIff(t, hash, t[p].key, p);
    forall q: nat | q < |t| && Dist(Home(hash, t[p].key, |t|), q, |t|) < Dist(Home(hash, t[p].key, |t|), p, |t|)
      ensures Skips(t, q, t[p].key)
    {
      assert OnPath(t, hash, p, q);
    }
  }

  /** In an intact table the answers are exactly the pairs stored. */
  lemma LookupIff(t: seq<Slot>, hash: string -> nat, key: string, value: string)
    requires |t| > 0 && Intact(t, hash)
    ensures Lookup(t, hash, key) == Some(value) <==> Has(t, key, value)
  {
    if Has(t, key, value) {
      var p :| 0 <= p < |t| && t[p] == Taken(key, value);
      IntactFinds(t, hash, p);
    }
    if Lookup(t, hash, key) == Some(value) {
      var p := FindSlot(t, hash, key).value;
      FoundIff(t, hash, key, p);
      assert t[p] == Taken(key, value);
    }
  }

  /** Storing at the slot found keeps the table intact and changes the one pair. */
  lemma StoreIntact(t: seq<Slot>, hash: string -> nat, key: string, value: string, p: nat)
    requires |t| > 0 && Intact(t, hash) && FindSlot(t, hash, key) == Some(p)
    ensures Intact(t[p := Taken(key, value)], hash)
  {
    FoundIff(t, hash, key, p);
    var t' := t[p := Taken(key, value)];
    forall a: nat, b: nat | a < |t'| && b < |t'| && t'[a].Taken? && OnPath(t', hash, a, b)
      ensures Skips(t', b, t'[a].key)
    {
      if a != p {
        assert OnPath(t, hash, a, b) && Skips(t, b, t[a].key);
      }
    }
  }

  lemma StorePairs(t: seq<Slot>, hash: string -> nat, key: string, value: string, p: nat, k: string, v: string)
    requires |t| > 0 && Intact(t, hash) && FindSlot(t, hash, key) == Some(p)
    ensures Has(t[p := Taken(key, value)], k, v) <==> if k == key then v == value else Has(t, k, v)
  {
    var t' := t[p := Taken(key, value)];
    FoundIff(t, hash, key, p);
    assert t'[p] == Taken(key, value);
    if Has(t', k, v) {
      var q :| 0 <= q < |t'| && t'[q] == Taken(k, v);
      if q != p {
        assert t[q] == Taken(k, v);
        IntactFinds(t, hash, q);
      }
    }
    if k != key && Has(t, k, v) {
      var q :| 0 <= q < |t| && t[q] == Taken(k, v);
      assert t'[q] == Taken(k, v);
    }
  }

  lemma StoreLookup(t: seq<Slot>, hash: string -> nat, key: string, value: string, p: nat)
    requires |t| > 0 && Intact(t, hash) && FindSlot(t, hash, key) == Some(p)
    ensures forall k ::
      Lookup(t[p := Taken(key, value)], hash, k) == if k == key then Some(value) else Lookup(t, hash, k)
  {
    var t' := t[p := Taken(key, value)];
    StoreIntact(t, hash, key, value, p);
    forall k ensures Lookup(t', hash, k) == if k == key then Some(value) else Lookup(t, hash, k) {
      var v := if Lookup(t', hash, k).Some? then Lookup(t', hash, k).value
               else if Lookup(t, hash, k).Some? then Lookup(t, hash, k).value else value;
      LookupIff(t', hash, k, v);
      LookupIff(t, hash, k, v);
      StorePairs(t, hash, key, value, p, k, v);
      LookupIff(t', hash, key, value);
      StorePairs(t, hash, key, value, p, key, value);
    }
  }

  // ----- removal -----

  /** Some other key is found past slot r. */
  ghost predicate Crossed(t: seq<Slot>, hash: string -> nat, r: nat)
    requires r < |t|
  {
    exists p: nat :: p < |t| && p != r && FoundPast(t, hash, p, r)
  }

  /** The key stored at p is found there, and its probe path crosses slot r. */
  ghost predicate FoundPast(t: seq<Slot>, hash: string -> nat, p: nat, r: nat)
    requires p < |t| && r < |t|
  {
    t[p].Taken? && FindSlot(t, hash, t[p].key) == Some(p) && OnPath(t, hash, p, r)
  }

  /** t' answers like t, except that key is gone. */
  ghost predicate RemovedExactly(t: seq<Slot>, t': seq<Slot>, hash: string -> nat, key: string)
    requires |t| > 0 && |t'| > 0
  {
    forall k :: Lookup(t', hash, k) == if k == key then None else Lookup(t, hash, k)
  }

  /** Where a probe ends once slot r is freed: there, if it used to end there or later. */
  lemma FreedFind(t: seq<Slot>, hash: string -> nat, r: nat, key: string)
    requires r < |t| && t[r].Taken?
    ensures var h := Home(hash, key, |t|);
      FindSlot(t[r := Vacant], hash, key) ==
        match FindSlot(t, hash, key)
        case Some(p) => if Dist(h, p, |t|) < Dist(h, r, |t|) then Some(p) else Some(r)
        case None => Some(r)
  {
    var h, t' := Home(hash, key, |t|), t[r := Vacant];
    ProbeEnds(t, h, key, 0);
    var end := match FindSlot(t, hash, key)
      case Some(p) => if Dist(h, p, |t|) < Dist(h, r, |t|) then p else r
      case None => r;
    forall q: nat | q < |t'| && Dist(h, q, |t'|) < Dist(h, end, |t'|) ensures Skips(t', q, key) {
      assert Skips(t, q, key);
    }
    FoundIff(t', hash, key, end);
  }

  /** What each key answers once the slot found for one of them is freed. */
  lemma FreedAnswer(t: seq<Slot>, hash: string -> nat, r: nat, k: string)
    requires r < |t| && t[r].Taken? && FindSlot(t, hash, t[r].key) == Some(r)
    ensures Lookup(t[r := Vacant], hash, k) ==
      match FindSlot(t, hash, k)
      case Some(p) => if p == r || FoundPast(t, hash, p, r) then None else Lookup(t, hash, k)
      case None => None
  {
    FreedFind(t, hash, r, k);
    if FindSlot(t, hash, k).Some? {
      FoundIff(t, hash, k, FindSlot(t, hash, k).value);
    }
  }

  /** A key found past the freed slot can no longer be found. */
  lemma CrossedIsLost(t: seq<Slot>, hash: string -> nat, r: nat, p: nat)
    requires r < |t| && t[r].Taken? && FindSlot(t, hash, t[r].key) == Some(r)
    requires p < |t| && p != r && FoundPast(t, hash, p, r)
    ensures t[p].key != t[r].key
    ensures Lookup(t, hash, t[p].key) == Some(t[p].value)
    ensures Lookup(t[r := Vacant], hash, t[p].key) == None
  {
    FreedAnswer(t, hash, r, t[p].key);
  }

  /** In any table, freeing the slot found for a key, without a tombstone, removes exactly that key
      if and only if no other key is found past the slot. */
  lemma RemoveIff(t: seq<Slot>, hash: string -> nat, r: nat)
    requires r < |t| && t[r].Taken? && FindSlot(t, hash, t[r].key) == Some(r)
    ensures RemovedExactly(t, t[r := Vacant], hash, t[r].key) <==> !Crossed(t, hash, r)
  {
    var t' := t[r := Vacant];
    if Crossed(t, hash, r) {
      var p: nat :| p < |t| && p != r && FoundPast(t, hash, p, r);
      CrossedIsLost(t, hash, r, p);
      assert Lookup(t', hash, t[p].key) != Lookup(t, hash, t[p].key);
    } else {
      forall k ensures Lookup(t', hash, k) == if k == t[r].key then None else Lookup(t, hash, k) {
        FreedAnswer(t, hash, r, k);
        if FindSlot(t, hash, k).Some? { FoundIff(t, hash, k, FindSlot(t, hash, k).value); }
      }
    }
  }

  /** The same condition decides whether an intact table stays intact. */
  lemma RemoveKeepsIntactIff(t: seq<Slot>, hash: string -> nat, r: nat)
    requires r < |t| && t[r].Taken? && Intact(t, hash)
    ensures Intact(t[r := Vacant], hash) <==> !Crossed(t, hash, r)
  {
    var t' := t[r := Vacant];
    if Crossed(t, hash, r) {
      var p: nat :| p < |t| && p != r && FoundPast(t, hash, p, r);
      assert t'[p] == t[p] && OnPath(t', hash, p, r);
    } else {
      forall a: nat, b: nat | a < |t'| && b < |t'| && t'[a].Taken? && OnPath(t', hash, a, b)
        ensures Skips(t', b, t'[a].key)
      {
        IntactFinds(t, hash, a);
        assert OnPath(t, hash, a, b) && Skips(t, b, t[a].key);
        assert !FoundPast(t, hash, a, r);
      }
    }
  }

  // ----- counting -----

  function Occupied(t: seq<Slot>): nat {
    if t == [] then 0 else Occupied(t[..|t| - 1]) + if t[|t| - 1].Taken? then 1 else 0
  }

  /** The keys in slot order. */
  function KeysOf(t: seq<Slot>): (keys: seq<string>)
    ensures |keys| == Occupied(t)
  {
    if t == [] then [] else KeysOf(t[..|t| - 1]) + if t[|t| - 1].Taken? then [t[|t| - 1].key] else []
  }

  lemma {:induction false} OccupiedUpdate(t: seq<Slot>, p: nat, s: Slot)
    requires p < |t|
    ensures Occupied(t[p := s]) + (if t[p].Taken? then 1 else 0) == Occupied(t) + if s.Taken? then 1 else 0
  {
    var n := |t| - 1;
    if p == n {
      assert t[p := s][..n] == t[..n];
    } else {
      OccupiedUpdate(t[..n], p, s);
      assert t[p := s][..n] == t[..n][p := s];
    }
  }

  lemma {:induction false} OccupiedPrefix(t: seq<Slot>, i: nat)
    requires i <= |t|
    ensures Occupied(t[..i]) <= Occupied(t) && Occupied(t[..i]) <= i
    decreases |t|
  {
    if i < |t| {
      OccupiedPrefix(t[..|t| - 1], i);
      assert t[..|t| - 1][..i] == t[..i];
    } else {
      assert t[..i] == t;
      if t != [] { OccupiedPrefix(t[..|t| - 1], |t| - 1); assert t[..|t| - 1][..|t| - 1] == t[..|t| - 1]; }
    }
  }

  lemma {:induction false} AllTaken(t: seq<Slot>)
    requires forall p :: 0 <= p < |t| ==> t[p].Taken?
    ensures Occupied(t) == |t|
  {
    if t != [] {
      assert forall p :: 0 <= p < |t| - 1 ==> t[..|t| - 1][p] == t[p];
      AllTaken(t[..|t| - 1]);
    }
  }

  /** With a slot free, the probe always ends. */
  lemma ProbeSucceeds(t: seq<Slot>, hash: string -> nat, key: string)
    requires Occupied(t) < |t|
    ensures FindSlot(t, hash, key).Some?
  {
    ProbeEnds(t, Home(hash, key, |t|), key, 0);
    if FindSlot(t, hash, key).None? {
      forall p | 0 <= p < |t| ensures t[p].Taken? {
        assert Skips(t, p, key);
      }
      AllTaken(t);
    }
  }

  /** Storing at the slot found, whatever the state of the table. */
  lemma StorePut(t: seq<Slot>, hash: string -> nat, key: string, value: string, p: nat)
    requires |t| > 0 && FindSlot(t, hash, key) == Some(p)
    ensures var t' := t[p := Taken(key, value)];
      && (t[p].Taken? ==> t[p].key == key && Occupied(t') == Occupied(t))
      && (t[p].Vacant? ==> Occupied(t') == Occupied(t) + 1)
      && Lookup(t', hash, key) == Some(value)
      && (Intact(t, hash) ==> Intact(t', hash))
      && (Intact(t, hash) ==> forall k :: Lookup(t', hash, k) == if k == key then Some(value) else Lookup(t, hash, k))
  {
    var t' := t[p := Taken(key, value)];
    FoundIff(t, hash, key, p);
    FoundIff(t', hash, key, p);
    OccupiedUpdate(t, p, Taken(key, value));
    if Intact(t, hash) {
      StoreIntact(t, hash, key, value, p);
      StoreLookup(t, hash, key, value, p);
    }
  }

  // ----- growing -----

  ghost predicate SameAnswers(t: seq<Slot>, t': seq<Slot>, hash: string -> nat)
    requires |t| > 0 && |t'| > 0
  {
    forall k :: Lookup(t', hash, k) == Lookup(t, hash, k)
  }

  /** The value in the last slot that holds the key. */
  function LastValue(t: seq<Slot>, key: string): Option<string> {
    if t == [] then None
    else if t[|t| - 1].Taken? && t[|t| - 1].key == key then Some(t[|t| - 1].value)
    else LastValue(t[..|t| - 1], key)
  }

  /** The first i slots, with whatever duplicates, have been re-inserted into t. */
  ghost predicate Rehashed(from: seq<Slot>, i: nat, t: seq<Slot>, hash: string -> nat)
    requires i <= |from|
  {
    |t| > 0 && Intact(t, hash) && forall k :: Lookup(t, hash, k) == LastValue(from[..i], k)
  }

  /** One re-insertion: a later duplicate overwrites an earlier one. */
  lemma Reinserted(from: seq<Slot>, i: nat, t: seq<Slot>, hash: string -> nat, p: nat)
    requires i < |from| && from[i].Taken? && Rehashed(from, i, t, hash)
    requires FindSlot(t, hash, from[i].key) == Some(p)
    ensures Occupied(t[p := from[i]]) <= Occupied(t) + 1
    ensures Rehashed(from, i + 1, t[p := from[i]], hash)
  {
    var key, value := from[i].key, from[i].value;
    var t', done := t[p := Taken(key, value)], from[..i + 1];
    OccupiedUpdate(t, p, from[i]);
    StoreIntact(t, hash, key, value, p);
    StoreLookup(t, hash, key, value, p);
    assert done[..i] == from[..i] && done[i] == from[i];
    forall k ensures Lookup(t', hash, k) == LastValue(done, k) {
      assert Lookup(t, hash, k) == LastValue(from[..i], k);
    }
  }

  lemma SkipVacant(from: seq<Slot>, i: nat, t: seq<Slot>, hash: string -> nat)
    requires i < |from| && from[i].Vacant? && Rehashed(from, i, t, hash)
    ensures Rehashed(from, i + 1, t, hash)
  {
    assert from[..i + 1][..i] == from[..i];
  }

  /** The table after storing at the slot found, if there is one. */
  function PutSlot(t: seq<Slot>, hash: string -> nat, key: string, value: string): (t': seq<Slot>)
    requires |t| > 0
    ensures |t'| == |t|
  {
    match FindSlot(t, hash, key)
    case Some(p) => t[p := Taken(key, value)]
    case None => t
  }

  /** A table of n slots after the first i entries of another have been re-inserted. */
  function Refilled(from: seq<Slot>, i: nat, hash: string -> nat, n: nat): (t: seq<Slot>)
    requires i <= |from| && n > 0
    ensures |t| == n
  {
    if i == 0 then seq(n, _ => Vacant)
    else
      var t := Refilled(from, i - 1, hash, n);
      if from[i - 1].Taken? then PutSlot(t, hash, from[i - 1].key, from[i - 1].value) else t
  }

  lemma {:induction false} RefilledIs(from: seq<Slot>, i: nat, hash: string -> nat)
    requires i <= |from| && |from| > 0
    ensures var t := Refilled(from, i, hash, 2 * |from|);
      Rehashed(from, i, t, hash) && Occupied(t) <= Occupied(from[..i])
  {
    var n := 2 * |from|;
    if i == 0 {
      var t := Refilled(from, 0, hash, n);
      NoneTaken(t);
      VacantAnswers(t, hash);
    } else {
      var t := Refilled(from, i - 1, hash, n);
      RefilledIs(from, i - 1, hash);
      OccupiedPrefix(from, i - 1);
      assert from[..i][..i - 1] == from[..i - 1];
      if from[i - 1].Taken? {
        ProbeSucceeds(t, hash, from[i - 1].key);
        Reinserted(from, i - 1, t, hash, FindSlot(t, hash, from[i - 1].key).value);
      } else {
        SkipVacant(from, i - 1, t, hash);
      }
    }
  }

  lemma VacantAnswers(t: seq<Slot>, hash: string -> nat)
    requires |t| > 0 && forall p :: 0 <= p < |t| ==> t[p].Vacant?
    ensures Intact(t, hash) && forall k :: Lookup(t, hash, k) == None
  {
  }

  /** The slots of a map, and its count. */
  datatype Table = Table(slots: seq<Slot>, len: nat)

  function Grown(t: Table, hash: string -> nat): (r: Table)
    requires |t.slots| > 0
    ensures |r.slots| == 2 * |t.slots|
  {
    Table(Refilled(t.slots, |t.slots|, hash, 2 * |t.slots|), Occupied(t.slots))
  }

  /** cfgMapSet, on any table. */
  function SetTable(t: Table, hash: string -> nat, key: string, value: string): (r: Table)
    requires |t.slots| > 0
    ensures |r.slots| > 0
  {
    var u := if t.len * 2 >= |t.slots| then Grown(t, hash) else t;
    match FindSlot(u.slots, hash, key)
    case Some(p) => Table(PutSlot(u.slots, hash, key, value), if u.slots[p].Taken? then u.len else u.len + 1)
    case None => u
  }

  /** p is the last slot that holds its key. */
  ghost predicate IsLast(t: seq<Slot>, p: int) {
    0 <= p < |t| && t[p].Taken? && forall q :: p < q < |t| && t[q].Taken? ==> t[q].key != t[p].key
  }

  lemma {:induction false} LastValueIff(t: seq<Slot>, key: string, value: string)
    ensures LastValue(t, key) == Some(value) <==> exists p :: IsLast(t, p) && t[p] == Taken(key, value)
  {
    if t != [] {
      var n := |t| - 1;
      if t[n].Taken? && t[n].key == key {
        assert IsLast(t, n);
      } else {
        LastValueIff(t[..n], key, value);
        var s := t[..n];
        if p :| IsLast(s, p) && s[p] == Taken(key, value) { assert IsLast(t, p) && t[p] == Taken(key, value); }
        if p :| IsLast(t, p) && t[p] == Taken(key, value) { assert IsLast(s, p) && s[p] == t[p]; }
      }
    }
  }

  lemma {:induction false} SomeLast(t: seq<Slot>, p: nat) returns (q: nat)
    requires p < |t| && t[p].Taken?
    ensures p <= q && IsLast(t, q) && t[q].key == t[p].key
    decreases |t| - p
  {
    if IsLast(t, p) { return p; }
    var later :| p < later < |t| && t[later].Taken? && t[later].key == t[p].key;
    q := SomeLast(t, later);
  }

  /** Growth changes no answer exactly when each stored key already answers with its last slot's
      value; in a table with duplicates it can bring an older value back. */
  lemma GrownAnswersIff(from: seq<Slot>, t: seq<Slot>, hash: string -> nat)
    requires |from| > 0 && Rehashed(from, |from|, t, hash)
    ensures SameAnswers(from, t, hash) <==>
      forall p :: IsLast(from, p) ==> Lookup(from, hash, from[p].key) == Some(from[p].value)
  {
    assert from[..|from|] == from;
    if SameAnswers(from, t, hash) {
      forall p | IsLast(from, p) ensures Lookup(from, hash, from[p].key) == Some(from[p].value) {
        assert from[p] == Taken(from[p].key, from[p].value);
        LastValueIff(from, from[p].key, from[p].value);
      }
    }
    if forall p :: IsLast(from, p) ==> Lookup(from, hash, from[p].key) == Some(from[p].value) {
      forall k ensures Lookup(t, hash, k) == Lookup(from, hash, k) {
        LastIsFound(from, hash, k);
      }
    }
  }

  lemma LastIsFound(from: seq<Slot>, hash: string -> nat, k: string)
    requires |from| > 0
    requires forall p :: IsLast(from, p) ==> Lookup(from, hash, from[p].key) == Some(from[p].value)
    ensures LastValue(from, k) == Lookup(from, hash, k)
  {
    if Lookup(from, hash, k).Some? {
      var p := FindSlot(from, hash, k).value;
      FoundIff(from, hash, k, p);
      var q := SomeLast(from, p);
      assert from[q] == Taken(k, from[q].value);
      LastValueIff(from, k, from[q].value);
    } else if LastValue(from, k).Some? {
      LastValueIff(from, k, LastValue(from, k).value);
    }
  }

  /** An intact table has no duplicates to bring back. */
  lemma IntactGrows(from: seq<Slot>, t: seq<Slot>, hash: string -> nat)
    requires |from| > 0 && Intact(from, hash) && Rehashed(from, |from|, t, hash)
    ensures SameAnswers(from, t, hash)
  {
    forall p | IsLast(from, p) ensures Lookup(from, hash, from[p].key) == Some(from[p].value) {
      IntactFinds(from, hash, p);
    }
    GrownAnswersIff(from, t, hash);
  }

  lemma {:induction false} NoneTaken(t: seq<Slot>)
    requires forall p :: 0 <= p < |t| ==> t[p].Vacant?
    ensures Occupied(t) == 0
  {
    if t != [] {
      assert forall p :: 0 <= p < |t| - 1 ==> t[..|t| - 1][p] == t[p];
      NoneTaken(t[..|t| - 1]);
    }
  }

  // ----- the keys of a table -----

  lemma {:induction false} KeysOfMembers(t: seq<Slot>, k: string)
    ensures k in KeysOf(t) <==> exists p :: 0 <= p < |t| && t[p].Taken? && t[p].key == k
  {
    if t != [] {
      var s := t[..|t| - 1];
      KeysOfMembers(s, k);
      if p :| 0 <= p < |s| && s[p].Taken? && s[p].key == k { assert t[p].key == k; }
      if p :| 0 <= p < |t| && t[p].Taken? && t[p].key == k { assert p < |s| ==> s[p].key == k; }
    }
  }

  ghost predicate UniqueKeys(t: seq<Slot>) {
    forall p, q :: 0 <= p < q < |t| && t[p].Taken? && t[q].Taken? ==> t[p].key != t[q].key
  }

  lemma IntactIsUnique(t: seq<Slot>, hash: string -> nat)
    requires Intact(t, hash)
    ensures UniqueKeys(t)
  {
    forall p, q | 0 <= p < q < |t| && t[p].Taken? && t[q].Taken? ensures t[p].key != t[q].key {
      IntactFinds(t, hash, p);
      IntactFinds(t, hash, q);
    }
  }

  /** The answers of a table as a map. */
  function AnswerMap(t: seq<Slot>, hash: string -> nat): map<string, string>
    requires |t| > 0
  {
    map k | k in KeysOf(t) && Lookup(t, hash, k).Some? :: Lookup(t, hash, k).value
  }

  lemma AnswerMapIs(t: seq<Slot>, hash: string -> nat, k: string)
    requires |t| > 0
    ensures Lookup(t, hash, k) == if k in AnswerMap(t, hash) then Some(AnswerMap(t, hash)[k]) else None
  {
    KeysOfMembers(t, k);
    if Lookup(t, hash, k).Some? { FoundIff(t, hash, k, FindSlot(t, hash, k).value); }
  }

  lemma {:induction false} KeysOfDistinct(t: seq<Slot>)
    requires UniqueKeys(t)
    ensures forall i, j :: 0 <= i < j < |KeysOf(t)| ==> KeysOf(t)[i] != KeysOf(t)[j]
  {
    if t != [] {
      var n := |t| - 1;
      KeysOfDistinct(t[..n]);
      if t[n].Taken? {
        KeysOfMembers(t[..n], t[n].key);
        assert t[n].key !in KeysOf(t[..n]);
      }
    }
  }
}
