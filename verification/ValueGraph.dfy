/** The reference-counted values of the C ABI: the recursive release, and the client's
    operations, with the references the client holds as ghost state. */
module ValueGraph {
  import opened ValueCells

  /** A HavelValue*. */
  datatype Ptr = Null | At(id: nat)

  class ValueHeap {
    var cells: seq<Cell>
    /** Destructor calls made, as (value, pointer passed). */
    var calls: seq<(nat, int)>

    /** havel_decref of a reference in `held`. The release frees nothing that is anchored. */
    method Decref(v: Ptr, ghost held: multiset<nat>, ghost a: Anchors)
      requires Accounted(View(cells, a.mask), held) && CallsOk(cells, calls) && Anchored(cells, a)
      requires v.At? ==> v.id in held && a.roots <= held - multiset{v.id}
      modifies this`cells, this`calls
      ensures Accounted(View(cells, a.mask), if v.At? then held - multiset{v.id} else held)
      ensures CallsOk(cells, calls) && Released(old(cells), cells) && Anchored(cells, a)
      ensures v.At? ==> OneReleased(old(cells), cells, v.id)
      ensures Total(cells) <= old(Total(cells))
      decreases Total(cells), 0
    {
      if v.Null? { return; }
      GiveUp(cells, calls, a, held, v.id);
      ghost var held' := held - multiset{v.id};
      cells := cells[v.id := cells[v.id].(rc := cells[v.id].rc - 1)];
      if cells[v.id].rc <= 0 {
        FreeValue(v.id, held', a);
        LastReleased(old(cells), v.id, cells);
      }
    }

    /** havel_array_free and havel_object_free: one release for each child, in order. */
    method ReleaseKids(v: nat, ghost held: multiset<nat>, ghost a: Anchors)
      requires v < |cells| && cells[v].Live? && cells[v].rc == 0
      requires Accounted(View(cells, a.mask), held + multiset(Kids(cells[v].body)))
      requires CallsOk(cells, calls) && Anchored(cells, a) && a.roots <= held
      modifies this`cells, this`calls
      ensures Accounted(View(cells, a.mask), held)
      ensures CallsOk(cells, calls) && Released(old(cells), cells) && Anchored(cells, a)
      ensures Total(cells) <= old(Total(cells))
      decreases Total(cells), 1
    {
      ghost var kids := Kids(cells[v].body);
      ghost var owed := multiset(kids);
      assert kids[0..] == kids;
      var i := 0;
      while i < |Kids(cells[v].body)|
        invariant |cells| == |old(cells)| && cells[v] == old(cells[v]) && i <= |kids|
        invariant owed == multiset(kids[i..]) && Accounted(View(cells, a.mask), held + owed)
        invariant CallsOk(cells, calls) && Released(old(cells), cells) && Anchored(cells, a)
        invariant Total(cells) <= old(Total(cells))
      {
        var kid := Kids(cells[v].body)[i];
        assert kids[i..] == [kid] + kids[i + 1..];
        ghost var before := cells;
        KidOwed(a.roots, held, owed, kid);
        Decref(At(kid), held + owed, a);
        owed := owed - multiset{kid};
        ReleasedTwice(old(cells), before, cells);
        i := i + 1;
      }
      assert held + owed == held;
    }

    /** havel_free_value of a value whose count has reached zero. */
    method FreeValue(v: nat, ghost held: multiset<nat>, ghost a: Anchors)
      requires v < |cells| && cells[v].Live? && cells[v].rc == 0 && v !in a.keep
      requires Accounted(View(cells, a.mask), held + multiset(Kids(cells[v].body)))
      requires CallsOk(cells, calls) && Anchored(cells, a) && a.roots <= held
      modifies this`cells, this`calls
      ensures Accounted(View(cells, a.mask), held)
      ensures CallsOk(cells, calls) && Anchored(cells, a)
      ensures |cells| == |old(cells)| && cells[v] == Freed(Destroyed(old(cells[v].body)))
      ensures Released(old(cells)[v := cells[v]], cells)
      ensures Total(cells) <= old(Total(cells))
      decreases Total(cells), 2
    {
      ReleaseKids(v, held, a);
      FreeOne(cells, a.mask, held, v);
      FreeCalls(cells, calls, v);
      AnchorsHold(cells, a, v, Freed(Destroyed(cells[v].body)));
      if cells[v].body.Handle? && cells[v].body.hasDestructor {
        calls := calls + [(v, cells[v].body.ptr)];
      }
      cells := cells[v := Freed(Destroyed(cells[v].body))];
    }

    // ----- what a client calls -----

    /** The references the client holds. */
    ghost var held: multiset<nat>

    ghost predicate Valid()
      reads this
    {
      Accounted(cells, held) && CallsOk(cells, calls) && Settled(cells)
    }

    constructor ()
      ensures Valid() && cells == [] && calls == [] && held == multiset{}
    {
      cells, calls, held := [], [], multiset{};
    }

    /** havel_new_*: a value without children, whose one reference is the client's. */
    method New(body: Body) returns (v: nat)
      requires Valid() && Kids(body) == [] && (body.Object? ==> body.keys == [])
      modifies this
      ensures Valid() && held == old(held) + multiset{v} && calls == old(calls)
      ensures v == |old(cells)| && cells == old(cells) + [Live(1, body)]
    {
      v := |cells|;
      Appended(cells, held, Live(1, body));
      cells, held := cells + [Live(1, body)], held + multiset{v};
    }

    method Incref(v: Ptr)
      requires Valid() && (v.At? ==> LiveAt(cells, v.id))
      modifies this
      ensures Valid() && calls == old(calls)
      ensures v.Null? ==> cells == old(cells) && held == old(held)
      ensures v.At? ==> held == old(held) + multiset{v.id}
      ensures v.At? ==> cells == old(cells)[v.id := Live(old(cells)[v.id].rc + 1, old(cells)[v.id].body)]
    {
      if v.Null? { return; }
      CountUp(cells, held, v.id);
      cells := cells[v.id := cells[v.id].(rc := cells[v.id].rc + 1)];
      held := held + multiset{v.id};
    }

    /** havel_decref of one of the client's own references: what the others keep stays, and
        everything else is freed. */
    method Release(v: Ptr)
      requires Valid() && (v.At? ==> v.id in held)
      modifies this
      ensures Valid() && held == if v.At? then old(held) - multiset{v.id} else old(held)
      ensures v.Null? ==> cells == old(cells)
      ensures v.At? ==> OneReleased(old(cells), cells, v.id) && ReleasedTo(old(cells), cells, Kept(old(cells), held))
    {
      if v.Null? { return; }
      ghost var s, rest := cells, held - multiset{v.id};
      assert View(cells, map[]) == cells;
      KeptIsSupported(cells, rest);
      Decref(v, held, Anchors(map[], rest, Kept(cells, rest)));
      assert View(cells, map[]) == cells;
      KeptIsLive(cells, rest, Kept(s, rest));
      ReleasedExactly(s, cells, rest);
      held := rest;
    }

    /** havel_array_push: the array takes its own reference to v. Neither need be the client's. */
    method ArrayPush(arr: Ptr, v: Ptr)
      requires Valid() && (arr.At? ==> LiveAt(cells, arr.id)) && (v.At? ==> LiveAt(cells, v.id))
      modifies this
      ensures Valid() && held == old(held) && calls == old(calls)
      ensures cells == if arr.At? && v.At? && old(cells)[arr.id].body.Array?
                       then Stored(old(cells), arr.id, Array(old(cells)[arr.id].body.items + [v.id]), v.id)
                       else old(cells)
    {
      if arr.Null? || !cells[arr.id].body.Array? || v.Null? { return; }
      var items := cells[arr.id].body.items;
      assert multiset(items + [v.id]) == multiset(items) + multiset{v.id};
      ReferenceAdded(cells, held, arr.id, Array(items + [v.id]), v.id);
      StoreKeeps(cells, calls, arr.id, Array(items + [v.id]), v.id);
      Store(arr.id, Array(items + [v.id]), v.id);
    }

    /** havel_object_set: a new key is appended; for a key already there the old value is
        released before v is stored and counted. The object must outlive that release. If v does
        not, the source goes on to store a freed value; here that is the result `dangling`. */
    method ObjectSet(obj: Ptr, key: string, v: Ptr) returns (dangling: bool)
      requires Valid() && (obj.At? ==> LiveAt(cells, obj.id)) && (v.At? ==> LiveAt(cells, v.id))
      requires obj.At? && v.At? && cells[obj.id].body.Object? ==> obj.id in Kept(WithoutField(cells, obj.id, key), held)
      modifies this
      ensures held == old(held)
      ensures dangling <==> obj.At? && v.At? && old(cells)[obj.id].body.Object?
                            && v.id !in old(Kept(WithoutField(cells, obj.id, key), held))
      ensures !dangling ==> Valid()
      ensures !dangling && obj.At? && v.At? && old(cells)[obj.id].body.Object? ==>
                FieldStored(old(cells), cells, held, obj.id, key, v.id)
      ensures !(obj.At? && v.At? && old(cells)[obj.id].body.Object?) ==> cells == old(cells)
    {
      dangling := false;
      if obj.Null? || !cells[obj.id].body.Object? || v.Null? { return; }
      var o := cells[obj.id].body;
      var i := 0;
      while i < |o.keys| && o.keys[i] != key
        invariant i <= |o.keys| && key !in o.keys[..i]
      {
        i := i + 1;
      }
      FieldFound(cells, obj.id, key, i, v.id);
      if i < |o.keys| {
        dangling := ReplaceField(obj.id, i, v.id);
      } else {
        LiveIsKept(cells, held);
        assert multiset(o.values + [v.id]) == multiset(o.values) + multiset{v.id};
        ReferenceAdded(cells, held, obj.id, Object(o.keys + [key], o.values + [v.id]), v.id);
        StoreKeeps(cells, calls, obj.id, Object(o.keys + [key], o.values + [v.id]), v.id);
        Store(obj.id, Object(o.keys + [key], o.values + [v.id]), v.id);
      }
    }

    method ReplaceField(obj: nat, i: nat, v: nat) returns (dangling: bool)
      requires Valid() && LiveAt(cells, obj) && LiveAt(cells, v)
      requires cells[obj].body.Object? && i < |cells[obj].body.values|
      requires obj in Kept(WithoutSlot(cells, obj, i), held)
      modifies this`cells, this`calls
      ensures dangling <==> v !in old(Kept(WithoutSlot(cells, obj, i), held))
      ensures !dangling ==> Valid()
      ensures !dangling ==>
        var body := Object(old(cells)[obj].body.keys, old(cells)[obj].body.values[i := v]);
        exists mid :: SwappedVia(old(cells), mid, cells, old(Kept(WithoutSlot(cells, obj, i), held)), obj, body, v)
    {
      var o := cells[obj].body;
      ReleaseSlot(obj, i);
      dangling := cells[v].Freed?;
      if dangling { return; }
      ghost var mid := cells;
      SlotFilled(cells, held, obj, o.values, i, v);
      StoreKeeps(cells, calls, obj, Object(o.keys, o.values[i := v]), v);
      Store(obj, Object(o.keys, o.values[i := v]), v);
      assert SwappedVia(old(cells), mid, cells, old(Kept(WithoutSlot(cells, obj, i), held)), obj,
                        Object(o.keys, o.values[i := v]), v);
    }

    /** The release of a field's old value, with the field still holding it. */
    method ReleaseSlot(obj: nat, i: nat)
      requires Valid() && LiveAt(cells, obj)
      requires cells[obj].body.Object? && i < |cells[obj].body.values|
      requires obj in Kept(WithoutSlot(cells, obj, i), held)
      modifies this`cells, this`calls
      ensures ReleasedTo(old(cells), cells, old(Kept(WithoutSlot(cells, obj, i), held)))
      ensures LiveAt(cells, obj) && cells[obj].body == old(cells[obj].body)
      ensures Settled(cells) && CallsOk(cells, calls)
      ensures Accounted(View(cells, SlotMask(cells, obj, i)), held)
    {
      var was := cells[obj].body.values[i];
      ghost var s, mask := cells, SlotMask(cells, obj, i);
      SlotReleased(cells, held, obj, i);
      SlotAnchored(cells, held, obj, i);
      assert held + multiset{was} - multiset{was} == held;
      Decref(At(was), held + multiset{was}, Anchors(mask, held, Kept(WithoutSlot(s, obj, i), held)));
      SlotSettled(s, cells, held, obj, i);
    }

    /** The container's store of v, then havel_incref(v). */
    method Store(c: nat, body: Body, v: nat)
      requires c < |cells| && cells[c].Live? && v < |cells| && cells[v].Live?
      modifies this`cells
      ensures cells == Stored(old(cells), c, body, v)
    {
      cells := cells[c := cells[c].(body := body)];
      cells := cells[v := cells[v].(rc := cells[v].rc + 1)];
    }
  }
}
