/** The configuration map (CfgMap): linear probing, growth at half full, removal without
    tombstones. */
module ConfigMap {
  import opened Wrappers
  import opened Ring
  import opened ConfigTable
  import opened Fnv

  const INIT_CAP: nat := 64

  class CfgMap {
    var entries: array<Slot>
    var len: nat
    const hash: string -> nat

    ghost predicate Valid()
      reads this, entries
    {
      && INIT_CAP <= entries.Length && entries.Length % 2 == 0 && PowerOfTwo(entries.Length)
      && Occupied(entries[..]) <= len && 2 * len <= entries.Length
    }

    /** What Get answers for a key. */
    ghost function Answer(key: string): Option<string>
      requires entries.Length > 0
      reads this, entries
    {
      Lookup(entries[..], hash, key)
    }

    ghost function Now(): Table
      reads this, entries
    {
      Table(entries[..], len)
    }

    /** Holds in every run without removals; see RemoveIff for what a removal does to it. */
    ghost predicate Whole()
      reads this, entries
    {
      Intact(entries[..], hash)
    }

    constructor (hash: string -> nat)
      ensures Valid() && Whole() && fresh(entries) && this.hash == hash
      ensures forall k :: Answer(k) == None
      ensures len == 0 && entries.Length == INIT_CAP && forall p :: 0 <= p < INIT_CAP ==> entries[p].Vacant?
    {
      this.hash := hash;
      entries := new Slot[INIT_CAP](_ => Vacant);
      len := 0;
      new;
      EmptyTable(entries[..], hash);
      assert PowerOfTwo(8) && PowerOfTwo(64);
    }

    method FindSlot(key: string) returns (r: Option<nat>)
      requires entries.Length > 0
      ensures r == ConfigTable.FindSlot(entries[..], hash, key)
    {
      var idx := Home(hash, key, entries.Length);
      var i := 0;
      while i < entries.Length
        invariant i <= entries.Length
        invariant ConfigTable.FindSlot(entries[..], hash, key) == Probe(entries[..], idx, key, i)
      {
        var pos := At(idx, i, entries.Length);
        if entries[pos].Vacant? || entries[pos].key == key { return Some(pos); }
        i := i + 1;
      }
      return None;
    }

    method Get(key: string) returns (r: Option<string>)
      requires Valid()
      ensures r == Answer(key)
    {
      var slot := FindSlot(key);
      if slot.Some? && entries[slot.value].Taken? { return Some(entries[slot.value].value); }
      return None;
    }

    /** The growing loop's re-insertion of one entry of the old table. */
    method Reinsert(e: Slot)
      requires e.Taken? && entries.Length > 0 && Occupied(entries[..]) < entries.Length
      modifies this`len, entries
      ensures len == old(len) + 1
      ensures entries[..] == PutSlot(old(entries[..]), hash, e.key, e.value)
    {
      ghost var t := entries[..];
      ProbeSucceeds(t, hash, e.key);
      var slot := FindSlot(e.key);
      entries[slot.value] := e;
      assert entries[..] == t[slot.value := e];
      len := len + 1;
    }

    /** One turn of the growing loop. */
    method GrowStep(e: Slot, ghost from: seq<Slot>, ghost i: nat)
      requires i < |from| && from[i] == e && entries.Length == 2 * |from|
      requires entries[..] == Refilled(from, i, hash, 2 * |from|) && len == Occupied(from[..i])
      modifies this`len, entries
      ensures entries[..] == Refilled(from, i + 1, hash, 2 * |from|) && len == Occupied(from[..i + 1])
    {
      OccupiedPrefix(from, i);
      RefilledIs(from, i, hash);
      assert from[..i + 1][..i] == from[..i];
      if e.Taken? { Reinsert(e); }
    }

    /** Re-inserts every entry into a table twice the size. The new table is whole whatever the old
        one was. Where removals have let duplicates in, the last slot wins, and each duplicate is
        still counted; see GrownAnswersIff for when that changes no answer. */
    method Grow()
      requires Valid()
      modifies this`entries, this`len
      ensures Valid() && Whole() && fresh(entries) && entries.Length == 2 * old(entries.Length)
      ensures Now() == Grown(old(Now()), hash) && len <= old(len)
      ensures forall k :: Answer(k) == LastValue(old(entries[..]), k)
      ensures SameAnswers(old(entries[..]), entries[..], hash) <==>
        forall p :: IsLast(old(entries[..]), p) ==>
          Lookup(old(entries[..]), hash, old(entries[..])[p].key) == Some(old(entries[..])[p].value)
      ensures old(Whole()) ==> SameAnswers(old(entries[..]), entries[..], hash)
    {
      var from := entries;
      ghost var t0 := entries[..];
      Doubled(from.Length);
      entries := new Slot[2 * from.Length](_ => Vacant);
      len := 0;
      assert entries[..] == Refilled(t0, 0, hash, 2 * |t0|);
      for i := 0 to from.Length
        invariant fresh(entries) && entries.Length == 2 * |t0| && from[..] == t0
        invariant entries[..] == Refilled(t0, i, hash, 2 * |t0|) && len == Occupied(t0[..i])
      {
        GrowStep(from[i], t0, i);
      }
      assert t0[..|t0|] == t0;
      RefilledIs(t0, |t0|, hash);
      GrownAnswersIff(t0, entries[..], hash);
      if Intact(t0, hash) { IntactGrows(t0, entries[..], hash); }
    }

    /** Exactly what SetTable says. Whatever has been removed before, the key set answers with its
        value afterwards; in a whole table no other answer changes. A set that grows the table first
        makes it whole; one that does not changes only the slot found. */
    method Set(key: string, value: string)
      requires Valid()
      modifies this`entries, this`len, entries
      ensures Valid() && (entries == old(entries) || fresh(entries))
      ensures Now() == SetTable(old(Now()), hash, key, value)
      ensures Answer(key) == Some(value)
      ensures old(Whole()) ==> Whole()
      ensures old(Whole()) ==> forall k :: Answer(k) == if k == key then Some(value) else old(Answer(k))
      ensures old(len * 2 >= entries.Length) ==>
        Whole() && forall k :: Answer(k) == if k == key then Some(value) else LastValue(old(entries[..]), k)
      ensures old(len * 2 < entries.Length) ==> Stored(old(entries[..]), entries[..], key, value)
    {
      if len * 2 >= entries.Length { Grow(); }
      Put(key, value);
    }

    ghost predicate Stored(t: seq<Slot>, t': seq<Slot>, key: string, value: string) {
      |t| > 0 && exists p :: ConfigTable.FindSlot(t, hash, key) == Some(p) && t' == t[p := Taken(key, value)]
    }

    /** cfgMapSet after its check for growth. */
    method Put(key: string, value: string)
      requires Valid() && len * 2 < entries.Length
      modifies this`len, entries
      ensures Valid() && Now() == SetTable(old(Now()), hash, key, value)
      ensures Answer(key) == Some(value)
      ensures old(Whole()) ==> Whole()
      ensures old(Whole()) ==> forall k :: Answer(k) == if k == key then Some(value) else old(Answer(k))
      ensures Stored(old(entries[..]), entries[..], key, value)
    {
      ghost var t := entries[..];
      ProbeSucceeds(t, hash, key);
      var slot := FindSlot(key);
      if slot.None? { return; }
      StorePut(t, hash, key, value, slot.value);
      RoomForOne(len, entries.Length);
      if entries[slot.value].Taken? {
        entries[slot.value] := Taken(entries[slot.value].key, value);
      } else {
        entries[slot.value] := Taken(key, value);
        len := len + 1;
      }
      assert entries[..] == t[slot.value := Taken(key, value)];
    }

    /** In any table, removes exactly the key if and only if no other key is found past its slot. */
    method Remove(key: string) returns (removed: bool)
      requires Valid()
      modifies this`len, entries
      ensures Valid() && Answer(key) == None
      ensures removed <==> old(Answer(key)).Some?
      ensures !removed ==> entries[..] == old(entries[..]) && len == old(len)
      ensures removed ==>
                var t, r := old(entries[..]), old(ConfigTable.FindSlot(entries[..], hash, key)).value;
                && entries[..] == t[r := Vacant] && len == old(len) - 1
                && (RemovedExactly(t, entries[..], hash, key) <==> !Crossed(t, hash, r))
                && (old(Whole()) ==> (Whole() <==> !Crossed(t, hash, r)))
    {
      var slot := FindSlot(key);
      if slot.None? || entries[slot.value].Vacant? { return false; }
      ghost var t := entries[..];
      var p := slot.value;
      FoundIff(t, hash, key, p);
      OccupiedUpdate(t, p, Vacant);
      RemoveIff(t, hash, p);
      FreedAnswer(t, hash, p, key);
      if Intact(t, hash) { RemoveKeepsIntactIff(t, hash, p); }
      entries[p] := Vacant;
      assert entries[..] == t[p := Vacant];
      len := len - 1;
      return true;
    }

    /** HavelConfig_getAllKeys, and the key collection of save: the array of len strings is never
        overrun, in any run. */
    method AllKeys() returns (arr: array<string>, n: nat)
      requires Valid()
      ensures fresh(arr) && arr.Length == len && n <= arr.Length
      ensures arr[..n] == KeysOf(entries[..])
    {
      ghost var t := entries[..];
      arr := new string[len](_ => "");
      n := 0;
      for i := 0 to entries.Length
        invariant n == Occupied(t[..i]) <= arr.Length && arr[..n] == KeysOf(t[..i])
      {
        OccupiedPrefix(t, i + 1);
        assert t[..i + 1][..i] == t[..i];
        if entries[i].Taken? {
          arr[n] := entries[i].key;
          n := n + 1;
        }
      }
      assert t[..|t|] == t;
    }
  }

  lemma RoomForOne(len: nat, cap: nat)
    requires len * 2 < cap && cap % 2 == 0
    ensures 2 * (len + 1) <= cap
  {
  }

  lemma EmptyTable(t: seq<Slot>, hash: string -> nat)
    requires |t| > 0 && forall p :: 0 <= p < |t| ==> t[p] == Vacant
    ensures Intact(t, hash) && Occupied(t) == 0
    ensures forall k :: Lookup(t, hash, k) == None
  {
    NoneTaken(t);
  }

  // ----- a removal that loses another key -----

  /** The tables of a run that sets "!" and "a", removes "!", and sets "a" again. */
  function Witness(slot44: Slot, slot45: Slot): (t: seq<Slot>)
    ensures |t| == INIT_CAP
  {
    seq(INIT_CAP, p => if p == 44 then slot44 else if p == 45 then slot45 else Vacant)
  }

  /** Storing the second key next to the first, and freeing the first one's slot. */
  lemma WitnessSlots(one: Slot, two: Slot, three: Slot)
    requires one == Taken("!", "1") && two == Taken("a", "2") && three == Taken("a", "3")
    ensures FindSlot(Witness(Vacant, Vacant), Fnv1a, "!") == Some(44)
    ensures FindSlot(Witness(one, Vacant), Fnv1a, "a") == Some(45)
    ensures FindSlot(Witness(one, two), Fnv1a, "!") == Some(44)
    ensures FindSlot(Witness(Vacant, two), Fnv1a, "a") == Some(44)
    ensures FindSlot(Witness(three, two), Fnv1a, "a") == Some(44)
  {
    SameHome("!", "a");
    FoundIff(Witness(Vacant, Vacant), Fnv1a, "!", 44);
    FoundIff(Witness(one, Vacant), Fnv1a, "a", 45);
    FoundIff(Witness(one, two), Fnv1a, "!", 44);
    FoundIff(Witness(Vacant, two), Fnv1a, "a", 44);
    FoundIff(Witness(three, two), Fnv1a, "a", 44);
  }

  /** The same run on tables. */
  lemma WitnessSets(one: Slot, two: Slot, three: Slot)
    requires one == Taken("!", "1") && two == Taken("a", "2") && three == Taken("a", "3")
    ensures SetTable(Table(Witness(Vacant, Vacant), 0), Fnv1a, one.key, one.value) == Table(Witness(one, Vacant), 1)
    ensures SetTable(Table(Witness(one, Vacant), 1), Fnv1a, two.key, two.value) == Table(Witness(one, two), 2)
    ensures SetTable(Table(Witness(Vacant, two), 1), Fnv1a, three.key, three.value) == Table(Witness(three, two), 2)
  {
    WitnessSlots(one, two, three);
    assert Witness(Vacant, Vacant)[44 := one] == Witness(one, Vacant);
    assert Witness(one, Vacant)[45 := two] == Witness(one, two);
    assert Witness(Vacant, two)[44 := three] == Witness(three, two);
  }

  method StoreTwo() returns (m: CfgMap)
    ensures fresh(m) && fresh(m.entries) && m.Valid() && m.hash == Fnv1a
    ensures m.Now() == Table(Witness(Taken("!", "1"), Taken("a", "2")), 2)
  {
    m := new CfgMap(Fnv1a);
    var one, two := Taken("!", "1"), Taken("a", "2");
    WitnessSets(one, two, Taken("a", "3"));
    assert m.entries[..] == Witness(Vacant, Vacant);
    m.Set(one.key, one.value);
    m.Set(two.key, two.value);
  }

  /** Two keys are set and the first is removed: the second is still stored, and not found. */
  method RemovalLosesAnother() returns (m: CfgMap)
    ensures fresh(m) && fresh(m.entries) && m.Valid() && m.hash == Fnv1a
    ensures m.Now() == Table(Witness(Vacant, Taken("a", "2")), 1) && m.Answer("a") == None
  {
    m := StoreTwo();
    var one, two := Taken("!", "1"), Taken("a", "2");
    WitnessSlots(one, two, Taken("a", "3"));
    var _ := m.Remove(one.key);
    assert Witness(one, two)[44 := Vacant] == Witness(Vacant, two);
  }

  /** The lost key is set again, and so stored twice: it answers "3", and after growth "2". */
  method GrowthBringsBack() returns (m: CfgMap, before: Option<string>, after: Option<string>)
    ensures fresh(m) && m.Valid() && m.hash == Fnv1a
    ensures m.Now() == Grown(Table(Witness(Taken("a", "3"), Taken("a", "2")), 2), Fnv1a)
    ensures before == Lookup(Witness(Taken("a", "3"), Taken("a", "2")), Fnv1a, "a") == Some("3")
    ensures after == m.Answer("a") == Some("2")
  {
    m := StoreLostAgain();
    before := m.Get("a");
    WitnessLast(Taken("a", "2"), Taken("a", "3"));
    m.Grow();
    after := m.Get("a");
  }

  method StoreLostAgain() returns (m: CfgMap)
    ensures fresh(m) && fresh(m.entries) && m.Valid() && m.hash == Fnv1a && m.Answer("a") == Some("3")
    ensures m.Now() == Table(Witness(Taken("a", "3"), Taken("a", "2")), 2)
  {
    m := RemovalLosesAnother();
    var three := Taken("a", "3");
    WitnessSets(Taken("!", "1"), Taken("a", "2"), three);
    m.Set(three.key, three.value);
  }

  lemma WitnessLast(two: Slot, three: Slot)
    requires two == Taken("a", "2") && three == Taken("a", "3")
    ensures LastValue(Witness(three, two), two.key) == Some(two.value)
  {
    var t := Witness(three, two);
    assert t[45] == Taken(two.key, two.value) && IsLast(t, 45);
    LastValueIff(t, two.key, two.value);
  }
}
