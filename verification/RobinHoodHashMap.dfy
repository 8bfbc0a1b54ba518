/** The Robin Hood hash map class, proved against the plain map it stands for. */
module RobinHoodHashMap {
  import opened Wrappers
  import opened Ring
  import opened RobinHoodTable

  const MIN_CAP: nat := 8

  /** The constructor clamps max_load into this range. */
  type LoadFactor = r: real | 0.1 <= r <= 0.95 witness 0.7

  /** `static_cast<size_t>(capacity * max_load)`, exactly. */
  function Limit(n: nat, maxLoad: LoadFactor): (r: nat)
    requires n > 0
    ensures r < n
  {
    assert 0.0 <= n as real * maxLoad <= n as real * 0.95;
    (n as real * maxLoad).Floor
  }

  /** A size is within the limit exactly when it is at most that part of the capacity. */
  lemma LimitIs(n: nat, maxLoad: LoadFactor, size: nat)
    requires n > 0
    ensures size <= Limit(n, maxLoad) <==> size as real <= n as real * maxLoad
  {
    var x := n as real * maxLoad;
    assert Limit(n, maxLoad) == x.Floor && x.Floor as real <= x < (x.Floor + 1) as real;
    if size <= x.Floor { assert size as real <= x.Floor as real; }
    if size > x.Floor { assert size as real >= (x.Floor + 1) as real; }
  }

  lemma LimitGrows(n: nat, n': nat, maxLoad: LoadFactor)
    requires 0 < n <= n'
    ensures Limit(n, maxLoad) <= Limit(n', maxLoad)
  {
    var x, y := n as real * maxLoad, n' as real * maxLoad;
    assert x <= y by { assert y - x == (n' - n) as real * maxLoad; }
    assert x.Floor as real <= x && y < (y.Floor + 1) as real;
    assert Limit(n, maxLoad) == x.Floor && Limit(n', maxLoad) == y.Floor;
  }

  /** One doubling always makes room for one more. */
  lemma DoublingSuffices(n: nat, maxLoad: LoadFactor, size: nat)
    requires n >= MIN_CAP && size <= Limit(n, maxLoad)
    ensures size + 1 <= Limit(n * 2, maxLoad)
  {
    var x, y := n as real * maxLoad, (n * 2) as real * maxLoad;
    assert x >= 8.0 * maxLoad;
    assert y == x + x;
    assert x >= size as real;
    assert y >= (size + 1) as real;
  }

  /** The capacity reserve asks for. */
  function Needed(n: nat, maxLoad: LoadFactor): nat {
    (n as real / maxLoad).Floor + 1
  }

  lemma ReservedSuffices(n: nat, maxLoad: LoadFactor, k: nat)
    requires n >= Needed(k, maxLoad)
    ensures n > 0 && k <= Limit(n, maxLoad)
  {
    var x, y := k as real / maxLoad, n as real;
    assert x < (x.Floor + 1) as real <= y;
    Scaled(x, y, maxLoad);
    assert x * maxLoad == k as real;
    LimitIs(n, maxLoad, k);
  }

  lemma Scaled(x: real, y: real, m: real)
    requires x <= y && m >= 0.0
    ensures x * m <= y * m
  {
    var d := y - x;
    assert d * m >= 0.0;
    assert y * m == (x + d) * m == x * m + d * m;
  }

  /** The doubling loop of the constructor and of reserve. */
  method DoubleUntil(n: nat, needed: nat) returns (cap: nat)
    requires n > 0 && PowerOfTwo(n)
    ensures n <= cap && needed <= cap && PowerOfTwo(cap)
    ensures cap == n || cap < 2 * needed
  {
    cap := n;
    while cap < needed
      invariant n <= cap && PowerOfTwo(cap) && (cap == n || cap < 2 * needed)
    {
      Doubled(cap);
      cap := 2 * cap;
    }
  }

  /** The calls of a client; `Subscript` is operator[] followed by an assignment. */
  datatype Call<+K, +V> =
    | Get(key: K) | Put(key: K, value: V) | PutOrAssign(key: K, value: V) | Subscript(key: K, value: V)
    | Remove(key: K) | Ensure(n: nat) | RemoveAll

  datatype Reply<+V> = Looked(value: Option<V>) | Changed(yes: bool) | Done

  /** What each call does to a plain map, and what it answers. */
  function After<K, V>(m: map<K, V>, call: Call<K, V>): map<K, V> {
    match call
    case Put(k, v) => if k in m then m else m[k := v]
    case PutOrAssign(k, v) => m[k := v]
    case Subscript(k, v) => m[k := v]
    case Remove(k) => m - {k}
    case RemoveAll => map[]
    case _ => m
  }

  function Answer<K, V>(m: map<K, V>, call: Call<K, V>): Reply<V> {
    match call
    case Get(k) => Looked(if k in m then Some(m[k]) else None)
    case Put(k, _) => Changed(k !in m)
    case PutOrAssign(k, _) => Changed(k !in m)
    case Remove(k) => Changed(k in m)
    case _ => Done
  }

  function AfterAll<K, V>(m: map<K, V>, calls: seq<Call<K, V>>): map<K, V>
    decreases |calls|
  {
    if calls == [] then m else AfterAll(After(m, calls[0]), calls[1..])
  }

  function Answers<K, V>(m: map<K, V>, calls: seq<Call<K, V>>): seq<Reply<V>>
    decreases |calls|
  {
    if calls == [] then [] else [Answer(m, calls[0])] + Answers(After(m, calls[0]), calls[1..])
  }

  class RobinHoodHashMap<K(==), V> {
    var entries: array<Entry<K, V>>
    var size: nat
    const maxLoad: LoadFactor
    const hash: K -> nat
    /** The abstract value. */
    ghost var Model: map<K, V>

    ghost predicate Valid()
      reads this, entries
    {
      && MIN_CAP <= entries.Length && PowerOfTwo(entries.Length)
      && Placed(entries[..], hash) && Rises(entries[..])
      && Represents(entries[..], Model)
      && size == |Model| && size <= Limit(entries.Length, maxLoad)
    }

    constructor (hash: K -> nat, initialCap: nat := MIN_CAP, maxLoad: real := 0.7)
      ensures Valid() && fresh(entries)
      ensures Model == map[] && entries.Length >= initialCap
      ensures entries.Length == 8 || entries.Length < 2 * initialCap
      ensures this.hash == hash
      ensures this.maxLoad == if maxLoad < 0.1 then 0.1 else if maxLoad > 0.95 then 0.95 else maxLoad
    {
      this.hash := hash;
      this.maxLoad := if maxLoad < 0.1 then 0.1 else if maxLoad > 0.95 then 0.95 else maxLoad;
      assert PowerOfTwo(4) && PowerOfTwo(8);
      var cap := DoubleUntil(MIN_CAP, initialCap);
      entries := new Entry<K, V>[cap](_ => Empty);
      size := 0;
      Model := map[];
    }

    lemma Room()
      requires Valid()
      ensures size < entries.Length && Searchable(entries[..], hash)
    {
      SmallMapLeavesRoom(entries[..], Model);
    }

    /** find: the slot of the key, or None exactly when the key is not in the map. */
    method Find(key: K) returns (r: Option<nat>)
      requires Valid()
      ensures r.Some? <==> key in Model
      ensures r.Some? ==> r.value < entries.Length && entries[r.value].Full?
                          && entries[r.value].key == key && entries[r.value].value == Model[key]
    {
      Room();
      ghost var t := entries[..];
      var pos, dist := Home(hash, key, entries.Length), 0;
      while true
        invariant Probing(t, hash, key, dist, pos)
        decreases entries.Length - dist
      {
        var e := entries[pos];
        if e.Empty? || e.dib < dist {
          EarlyExit(t, hash, key, dist, pos);
          return None;
        }
        if e.key == key { return Some(pos); }
        ProbeOn(t, hash, key, dist, pos);
        pos, dist := Next(pos, entries.Length), dist + 1;
      }
    }

    method Contains(key: K) returns (b: bool)
      requires Valid()
      ensures b <==> key in Model
    {
      var r := Find(key);
      b := r.Some?;
    }

    /** One turn of the insertion loop at an occupied slot with another key: the richer pair of
        slot and hand stays in the slot, the other is carried to the next slot. */
    method Step(pos: nat, k: K, v: V, dib: nat, ghost m: map<K, V>, ghost gap: nat, ghost key: K, ghost value: V)
      returns (pos': nat, k': K, v': V, dib': nat, ghost m': map<K, V>)
      requires gap < entries.Length && entries[gap].Empty?
      requires Inserting(entries[..], hash, m, k, v, dib, pos, Model, key, value)
      requires entries[pos].Full? && entries[pos].key != k
      modifies entries
      ensures Inserting(entries[..], hash, m', k', v', dib', pos', Model, key, value)
      ensures entries[gap].Empty? && Dist(pos', gap, entries.Length) < Dist(pos, gap, entries.Length)
      ensures k' in m' ==> k in m && entries[..] == old(entries[..])
    {
      ghost var t := entries[..];
      DistNext(pos, gap, entries.Length);
      if entries[pos].dib < dib {
        m' := InsertDisplaces(t, hash, m, k, v, dib, pos, Model, key, value);
        k', v', dib' := entries[pos].key, entries[pos].value, entries[pos].dib;
        entries[pos] := Full(k, v, dib);
        assert entries[..] == t[pos := Full(k, v, dib)];
      } else {
        SkippedIsCarried(t, hash, k, dib, pos);
        k', v', dib', m' := k, v, dib, m;
      }
      pos', dib' := Next(pos, entries.Length), dib' + 1;
    }

    /** The probe loop of insert, insert_or_assign and emplace. A key already stored is
        found and nothing moves; otherwise the pair is placed, richer pairs giving way to it. */
    method PlaceOrFind(key: K, value: V) returns (found: Option<nat>)
      requires Valid() && size + 1 <= Limit(entries.Length, maxLoad)
      modifies this`size, this`Model, entries
      ensures Valid()
      ensures found.Some? <==> key in old(Model)
      ensures found.Some? ==> Model == old(Model) && entries[..] == old(entries[..])
                              && found.value < entries.Length && entries[found.value].Full?
                              && entries[found.value].key == key
      ensures found.None? ==> Model == old(Model)[key := value]
    {
      Room();
      var pos, dib, k, v := Home(hash, key, entries.Length), 0, key, value;
      ghost var m := Model;
      ghost var gap :| 0 <= gap < entries.Length && entries[gap].Empty?;
      while entries[pos].Full? && entries[pos].key != k
        invariant size == old(size) && Model == old(Model)
        invariant Inserting(entries[..], hash, m, k, v, dib, pos, Model, key, value)
        invariant entries[gap].Empty?
        invariant k in m ==> entries[..] == old(entries[..])
        decreases Dist(pos, gap, entries.Length)
      {
        pos, k, v, dib, m := Step(pos, k, v, dib, m, gap, key, value);
      }
      if entries[pos].Full? {
        found := Some(pos);
      } else {
        found := None;
        Fill(pos, k, v, dib, m, key, value);
      }
    }

    /** init_entry at the end of an insertion. */
    method Fill(pos: nat, k: K, v: V, dib: nat, ghost m: map<K, V>, ghost key: K, ghost value: V)
      requires MIN_CAP <= entries.Length && PowerOfTwo(entries.Length)
      requires size == |Model| && size + 1 <= Limit(entries.Length, maxLoad)
      requires Inserting(entries[..], hash, m, k, v, dib, pos, Model, key, value) && entries[pos].Empty?
      modifies this`size, this`Model, entries
      ensures Valid() && key !in old(Model) && Model == old(Model)[key := value]
    {
      InsertEnds(entries[..], hash, m, k, v, dib, pos, Model, key, value);
      ghost var t := entries[..];
      entries[pos] := Full(k, v, dib);
      assert entries[..] == t[pos := Full(k, v, dib)];
      size, Model := size + 1, Model[key := value];
    }

    /** insert_or_die: the insertion loop without the key comparison, for keys known absent. */
    method InsertOrDie(key: K, value: V)
      requires Valid() && size + 1 <= Limit(entries.Length, maxLoad) && key !in Model
      modifies this`size, this`Model, entries
      ensures Valid() && Model == old(Model)[key := value]
    {
      Room();
      var pos, dib, k, v := Home(hash, key, entries.Length), 0, key, value;
      ghost var m := Model;
      ghost var gap :| 0 <= gap < entries.Length && entries[gap].Empty?;
      while entries[pos].Full?
        invariant size == old(size) && Model == old(Model)
        invariant Inserting(entries[..], hash, m, k, v, dib, pos, Model, key, value)
        invariant entries[gap].Empty? && k !in m
        decreases Dist(pos, gap, entries.Length)
      {
        assert entries[..][pos].key in m;
        pos, k, v, dib, m := Step(pos, k, v, dib, m, gap, key, value);
      }
      Fill(pos, k, v, dib, m, key, value);
    }

    /** One turn of the rehash loop: entry i of the old table t goes into the new one. */
    method TakeOver(e: Entry<K, V>, ghost t: seq<Entry<K, V>>, ghost i: nat, ghost all: map<K, V>)
      requires Valid() && i < |t| && t[i] == e && Represents(t[..i], Model) && Represents(t, all)
      requires |all| <= Limit(entries.Length, maxLoad)
      modifies this`size, this`Model, entries
      ensures Valid() && Represents(t[..i + 1], Model)
    {
      RepresentsPrefix(t, i, Model);
      if e.Full? {
        PartIsSmaller(t, i, Model, all);
        InsertOrDie(e.key, e.value);
      }
    }

    method Rehash(newCap: nat)
      requires Valid() && newCap >= entries.Length && PowerOfTwo(newCap)
      modifies this`entries, this`size, this`Model
      ensures Valid() && fresh(entries) && entries.Length == newCap
      ensures Model == old(Model) && size == old(size)
    {
      var from := entries;
      ghost var all, t := Model, entries[..];
      LimitGrows(from.Length, newCap, maxLoad);
      entries := new Entry<K, V>[newCap](_ => Empty);
      size, Model := 0, map[];
      for i := 0 to from.Length
        invariant Valid() && fresh(entries) && entries.Length == newCap
        invariant from[..] == t && Represents(t[..i], Model)
      {
        TakeOver(from[i], t, i, all);
      }
      assert t[..from.Length] == t;
      RepresentsOnce(t, Model, all);
    }

    method MaybeGrow()
      requires Valid()
      modifies this`entries, this`size, this`Model
      ensures Valid() && size + 1 <= Limit(entries.Length, maxLoad)
      ensures Model == old(Model) && size == old(size)
      ensures if old(size + 1 <= Limit(entries.Length, maxLoad))
              then entries == old(entries) && entries[..] == old(entries[..])
              else fresh(entries) && entries.Length == old(entries.Length) * 2
    {
      if size + 1 > Limit(entries.Length, maxLoad) {
        var n := entries.Length;
        DoublingSuffices(n, maxLoad, size);
        assert PowerOfTwo(n * 2) by { Doubled(n); }
        Rehash(n * 2);
      }
    }

    /** insert (and emplace): a stored key keeps its value. The slot returned is the key's. */
    method Insert(key: K, value: V) returns (slot: nat, inserted: bool)
      requires Valid()
      modifies this, entries
      ensures Valid() && (entries == old(entries) || fresh(entries))
      ensures inserted <==> key !in old(Model)
      ensures Model == if key in old(Model) then old(Model) else old(Model)[key := value]
      ensures slot < entries.Length && entries[slot].Full? && entries[slot].key == key
    {
      MaybeGrow();
      var found := PlaceOrFind(key, value);
      inserted := found.None?;
      if inserted { found := Find(key); }
      slot := found.value;
    }

    method InsertOrAssign(key: K, value: V) returns (inserted: bool)
      requires Valid()
      modifies this, entries
      ensures Valid() && (entries == old(entries) || fresh(entries))
      ensures inserted <==> key !in old(Model)
      ensures Model == old(Model)[key := value]
    {
      MaybeGrow();
      var found := PlaceOrFind(key, value);
      inserted := found.None?;
      if found.Some? {
        AssignAt(found.value, value);
      }
    }

    method AssignAt(slot: nat, value: V)
      requires Valid() && slot < entries.Length && entries[slot].Full?
      modifies this`Model, entries
      ensures Valid() && Model == old(Model)[old(entries[slot]).key := value]
      ensures entries[..] == old(entries[..])[slot := old(entries[slot]).(value := value)]
    {
      ghost var t := entries[..];
      AssignRepresents(t, Model, value, slot);
      entries[slot] := entries[slot].(value := value);
      assert entries[..] == t[slot := t[slot].(value := value)];
      Model := Model[t[slot].key := value];
      assert forall p: nat :: p < |t| && RiseAt(t, p) ==> RiseAt(entries[..], p);
    }

    /** operator[]: a missing key is first given the default value; the slot is the key's. */
    method Index(key: K, dflt: V) returns (slot: nat)
      requires Valid()
      modifies this, entries
      ensures Valid() && (entries == old(entries) || fresh(entries))
      ensures Model == if key in old(Model) then old(Model) else old(Model)[key := dflt]
      ensures slot < entries.Length && entries[slot].Full? && entries[slot].key == key
    {
      var it := Find(key);
      if it.Some? { return it.value; }
      var _, _ := Insert(key, dflt);
      it := Find(key);
      return it.value;
    }

    /** One turn of the backward-shift loop: the entry after the hole moves into it, one step
        closer to its home. */
    method ShiftBack(hole: nat, ghost gap: nat) returns (next: nat)
      requires entries.Length > 2 && Holed(entries[..], hash, hole) && Represents(entries[..], Model)
      requires Dib(entries[Next(hole, entries.Length)]) > 0
      requires gap < entries.Length && gap != hole && entries[gap].Empty?
      modifies entries
      ensures Holed(entries[..], hash, next) && Represents(entries[..], Model)
      ensures gap != next && entries[gap].Empty?
      ensures Dist(next, gap, entries.Length) < Dist(hole, gap, entries.Length)
    {
      ShiftMovesHole(entries[..], hash, hole);
      ShiftKeepsContents(entries[..], hole, Model);
      DistNext(hole, gap, entries.Length);
      next := MoveInto(hole);
    }

    method MoveInto(hole: nat) returns (next: nat)
      requires hole < entries.Length && Dib(entries[Next(hole, entries.Length)]) > 0
      modifies entries
      ensures next == Next(hole, entries.Length)
      ensures entries[..] == Shifted(old(entries[..]), hole)
    {
      next := Next(hole, entries.Length);
      entries[hole] := entries[next].(dib := entries[next].dib - 1);
      entries[next] := Empty;
    }

    /** destroy_entry. */
    method Destroy(pos: nat)
      requires Valid() && pos < entries.Length && entries[pos].Full?
      modifies this`size, this`Model, entries
      ensures Holed(entries[..], hash, pos) && Represents(entries[..], Model)
      ensures entries[..] == old(entries[..])[pos := Empty]
      ensures size == old(size) - 1 == |Model| && Model == old(Model) - {old(entries[pos]).key}
    {
      ghost var t := entries[..];
      ClearingMakesHole(t, hash, pos);
      ClearRepresents(t, Model, pos);
      entries[pos] := Empty;
      assert entries[..] == t[pos := Empty];
      size, Model := size - 1, Model - {t[pos].key};
    }

    /** The backward-shift loop: entries move back until the hole is before one that is at home
        or before an empty slot. */
    method ShiftAll(hole: nat, ghost gap: nat)
      requires entries.Length > 2 && Holed(entries[..], hash, hole) && Represents(entries[..], Model)
      requires gap < entries.Length && gap != hole && entries[gap].Empty?
      modifies entries
      ensures Placed(entries[..], hash) && Rises(entries[..]) && Represents(entries[..], Model)
    {
      var shift := hole;
      while Dib(entries[Next(shift, entries.Length)]) > 0
        invariant Holed(entries[..], hash, shift) && Represents(entries[..], Model)
        invariant gap != shift && entries[gap].Empty?
        decreases Dist(shift, gap, entries.Length)
      {
        shift := ShiftBack(shift, gap);
      }
      HoleCloses(entries[..], hash, shift);
    }

    method Erase(key: K) returns (erased: bool)
      requires Valid()
      modifies this`size, this`Model, entries
      ensures Valid()
      ensures erased <==> key in old(Model)
      ensures Model == old(Model) - {key}
    {
      var found := Find(key);
      if found.None? {
        assert Model - {key} == Model;
        return false;
      }
      Room();
      ghost var gap :| 0 <= gap < entries.Length && entries[gap].Empty?;
      Destroy(found.value);
      ShiftAll(found.value, gap);
      return true;
    }

    /** reserve: afterwards n entries fit without another rehash. */
    method Reserve(n: nat)
      requires Valid()
      modifies this`entries, this`size, this`Model
      ensures Valid() && (entries == old(entries) || fresh(entries))
      ensures Model == old(Model) && n <= Limit(entries.Length, maxLoad)
      ensures var needed := (n as real / maxLoad).Floor + 1;
        if needed <= old(entries.Length) then entries == old(entries) else needed <= entries.Length < 2 * needed
    {
      var needed := Needed(n, maxLoad);
      if needed > entries.Length {
        var newCap := DoubleUntil(entries.Length, needed);
        Rehash(newCap);
      }
      ReservedSuffices(entries.Length, maxLoad, n);
    }

    method Clear()
      requires Valid()
      modifies this`size, this`Model, entries
      ensures Valid() && Model == map[]
    {
      for i := 0 to entries.Length
        invariant forall p :: 0 <= p < i ==> entries[p].Empty?
      {
        entries[i] := Empty;
      }
      size, Model := 0, map[];
    }

    method Lookup(key: K) returns (value: Option<V>)
      requires Valid()
      ensures value == if key in Model then Some(Model[key]) else None
    {
      var it := Find(key);
      value := if it.Some? then Some(entries[it.value].value) else None;
    }

    /** `map[key] = value`. */
    method AssignIndexed(key: K, value: V, dflt: V)
      requires Valid()
      modifies this, entries
      ensures Valid() && (entries == old(entries) || fresh(entries))
      ensures Model == old(Model)[key := value]
    {
      ghost var was := Model;
      var slot := Index(key, dflt);
      ghost var now := Model;
      assert now[key := value] == was[key := value];
      AssignAt(slot, value);
      assert Model == now[key := value];
    }

    method Perform(call: Call<K, V>, dflt: V) returns (reply: Reply<V>)
      requires Valid()
      modifies this, entries
      ensures Valid() && (entries == old(entries) || fresh(entries))
      ensures Model == After(old(Model), call) && reply == Answer(old(Model), call)
    {
      reply := Done;
      match call
      case Get(k) =>
        var value := Lookup(k);
        reply := Looked(value);
      case Put(k, v) =>
        var _, inserted := Insert(k, v);
        reply := Changed(inserted);
      case PutOrAssign(k, v) =>
        var inserted := InsertOrAssign(k, v);
        reply := Changed(inserted);
      case Subscript(k, v) => AssignIndexed(k, v, dflt);
      case Remove(k) =>
        var erased := Erase(k);
        reply := Changed(erased);
      case Ensure(n) => Reserve(n);
      case RemoveAll => Clear();
    }

    /** Any run of calls, from any reachable state, behaves as the same run on a plain map. */
    method Replay(calls: seq<Call<K, V>>, dflt: V) returns (replies: seq<Reply<V>>)
      requires Valid()
      modifies this, entries
      ensures Valid()
      ensures Model == AfterAll(old(Model), calls) && replies == Answers(old(Model), calls)
    {
      replies := [];
      for i := 0 to |calls|
        invariant Valid() && (entries == old(entries) || fresh(entries))
        invariant AfterAll(old(Model), calls) == AfterAll(Model, calls[i..])
        invariant Answers(old(Model), calls) == replies + Answers(Model, calls[i..])
      {
        assert calls[i..][0] == calls[i] && calls[i..][1..] == calls[i + 1..];
        var reply := Perform(calls[i], dflt);
        replies := replies + [reply];
      }
    }
  }

  /** A proper prefix of the table holds fewer pairs than the table. */
  lemma PartIsSmaller<K, V>(t: seq<Entry<K, V>>, i: nat, m: map<K, V>, all: map<K, V>)
    requires i < |t| && t[i].Full? && t[i].key !in m
    requires Represents(t[..i], m) && Represents(t, all)
    ensures |m| + 1 <= |all|
  {
    forall k | k in m ensures k in all {
      assert Stores(t[..i], k);
    }
    var s := m.Keys + {t[i].key};
    assert all.Keys == s + (all.Keys - s);
  }
}
