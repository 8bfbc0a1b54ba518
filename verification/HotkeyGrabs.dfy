/** Grabbing and ungrabbing hotkeys, with suspension. The backend is the set of ids grabbed. */
module HotkeyGrabs {
  import opened Wrappers

  datatype HotKey = HotKey(alias: string, grab: bool, enabled: bool, evdev: bool)

  type Table = map<int, HotKey>

  datatype State = State(hotkeys: Table, suspended: bool, grabbed: set<int>)

  ghost predicate UniqueAliases(h: Table) {
    forall i, j :: i in h && j in h && h[i].alias == h[j].alias ==> i == j
  }

  /** Which hotkeys the flags say are grabbed; evdev hotkeys are never grabbed in the backend. */
  function Wanted(h: Table): set<int> {
    set id | id in h && !h[id].evdev && h[id].enabled && h[id].grab
  }

  function NonEvdev(h: Table): set<int> {
    set id | id in h && !h[id].evdev
  }

  function WithAlias(h: Table, alias: string): set<int> {
    set id | id in h && h[id].alias == alias
  }

  function Flagged(h: Table, alias: string, grab: bool): Table {
    map id | id in h :: if h[id].alias == alias then h[id].(grab := grab, enabled := grab) else h[id]
  }

  // ----- the operations -----

  function SetGrab(s: State, alias: string, grab: bool): State {
    var ids := WithAlias(s.hotkeys, alias) * NonEvdev(s.hotkeys);
    s.(hotkeys := Flagged(s.hotkeys, alias, grab),
       grabbed := if s.suspended then s.grabbed else if grab then s.grabbed + ids else s.grabbed - ids)
  }

  function RemoveIds(s: State, ids: set<int>): State {
    s.(hotkeys := s.hotkeys - ids, grabbed := s.grabbed - (ids * s.hotkeys.Keys))
  }

  function Suspend(s: State): State {
    s.(suspended := true, grabbed := {})
  }

  function Resume(s: State): State {
    s.(suspended := false,
       grabbed := s.grabbed + Wanted(s.hotkeys)
                  - (set id | id in s.hotkeys && !s.hotkeys[id].evdev && s.hotkeys[id].enabled && !s.hotkeys[id].grab))
  }

  datatype Op = SetOp(alias: string, grab: bool) | RemoveAlias(alias: string) | RemoveId(id: int) | SuspendOp | ResumeOp

  function Do(s: State, op: Op): State {
    match op
    case SetOp(alias, grab) => SetGrab(s, alias, grab)
    case RemoveAlias(alias) => RemoveIds(s, WithAlias(s.hotkeys, alias))
    case RemoveId(id) => RemoveIds(s, {id})
    case SuspendOp => Suspend(s)
    case ResumeOp => Resume(s)
  }

  function Run(s: State, ops: seq<Op>): State {
    if ops == [] then s else Do(Run(s, ops[..|ops| - 1]), ops[|ops| - 1])
  }

  /** The same operations without any suspension. */
  function Unsuspended(ops: seq<Op>): seq<Op> {
    if ops == [] then []
    else
      var op := ops[|ops| - 1];
      Unsuspended(ops[..|ops| - 1]) + if op.SuspendOp? || op.ResumeOp? then [] else [op]
  }

  /** Suspended, nothing is grabbed; otherwise the grabbed hotkeys are those flagged. */
  ghost predicate Consistent(s: State) {
    if s.suspended then s.grabbed == {} else s.grabbed * NonEvdev(s.hotkeys) == Wanted(s.hotkeys)
  }

  lemma DoConsistent(s: State, op: Op)
    requires Consistent(s)
    ensures Consistent(Do(s, op))
  {
    var t := Do(s, op);
    if !t.suspended {
      forall id ensures id in t.grabbed * NonEvdev(t.hotkeys) <==> id in Wanted(t.hotkeys) {
        if !s.suspended { assert id in s.grabbed * NonEvdev(s.hotkeys) <==> id in Wanted(s.hotkeys); }
      }
    }
  }

  lemma {:induction false} RunConsistent(s: State, ops: seq<Op>)
    requires Consistent(s)
    ensures Consistent(Run(s, ops))
  {
    if ops != [] {
      RunConsistent(s, ops[..|ops| - 1]);
      DoConsistent(Run(s, ops[..|ops| - 1]), ops[|ops| - 1]);
    }
  }

  lemma {:induction false} UnsuspendedFlags(s: State, ops: seq<Op>)
    requires !s.suspended
    ensures Run(s, Unsuspended(ops)).hotkeys == Run(s, ops).hotkeys && !Run(s, Unsuspended(ops)).suspended
  {
    if ops != [] {
      var op, u := ops[|ops| - 1], Unsuspended(ops[..|ops| - 1]);
      UnsuspendedFlags(s, ops[..|ops| - 1]);
      if !(op.SuspendOp? || op.ResumeOp?) {
        RunOne(s, u, op);
        SameFlags(Run(s, ops[..|ops| - 1]), Run(s, u), op);
      } else {
        assert u + [] == u;
      }
    }
  }

  lemma RunOne(s: State, ops: seq<Op>, op: Op)
    ensures Run(s, ops + [op]) == Do(Run(s, ops), op)
  {
    assert (ops + [op])[..|ops|] == ops;
  }

  lemma SameFlags(s: State, t: State, op: Op)
    requires s.hotkeys == t.hotkeys
    ensures Do(s, op).hotkeys == Do(t, op).hotkeys
    ensures !(op.SuspendOp? || op.ResumeOp?) ==> Do(t, op).suspended == t.suspended
  {
  }

  /** Suspension leaves no trace: after any operations, while suspended nothing is grabbed, and
      once resumed the same non-evdev hotkeys are grabbed as if nothing had been suspended. */
  lemma SuspensionLeavesNoTrace(s: State, ops: seq<Op>)
    requires Consistent(s) && !s.suspended
    ensures var t, plain := Run(s, ops), Run(s, Unsuspended(ops));
      && t.hotkeys == plain.hotkeys
      && (t.suspended ==> t.grabbed == {})
      && (!t.suspended ==> t.grabbed * NonEvdev(t.hotkeys) == plain.grabbed * NonEvdev(plain.hotkeys))
      && Resume(t).grabbed * NonEvdev(t.hotkeys) == plain.grabbed * NonEvdev(plain.hotkeys)
  {
    RunConsistent(s, ops);
    RunConsistent(s, Unsuspended(ops));
    UnsuspendedFlags(s, ops);
    DoConsistent(Run(s, ops), ResumeOp);
  }

  /** A hotkey removed is not grabbed again, whatever follows, suspended or not. */
  lemma {:induction false} RemovedStaysUngrabbed(s: State, alias: string, ops: seq<Op>, id: int)
    requires id in s.hotkeys && s.hotkeys[id].alias == alias
    ensures var t := Run(Do(s, RemoveAlias(alias)), ops); id !in t.hotkeys && id !in t.grabbed
  {
    if ops == [] {
      assert id in WithAlias(s.hotkeys, alias);
    } else {
      RemovedStaysUngrabbed(s, alias, ops[..|ops| - 1], id);
    }
  }

  class HotkeyManager {
    var hotkeys: Table
    var suspended: bool
    var pending: map<string, bool>
    /** The backend. */
    var grabbed: set<int>

    ghost function Now(): State
      reads this
    {
      State(hotkeys, suspended, grabbed)
    }

    constructor (hotkeys: Table, grabbed: set<int>)
      ensures Now() == State(hotkeys, false, grabbed) && pending == map[]
    {
      this.hotkeys, this.grabbed, suspended, pending := hotkeys, grabbed, false, map[];
    }

    /** The loop over the table, in no particular order, for a hotkey with the alias. */
    method FindAlias(alias: string) returns (found: bool, id: int)
      ensures found <==> WithAlias(hotkeys, alias) != {}
      ensures found ==> id in WithAlias(hotkeys, alias) && id in hotkeys && hotkeys[id].alias == alias
      ensures !found ==> forall i :: i in hotkeys ==> hotkeys[i].alias != alias
    {
      var rest: set<int> := hotkeys.Keys;
      while rest != {}
        invariant rest <= hotkeys.Keys
        invariant forall i :: i in hotkeys && hotkeys[i].alias == alias ==> i in rest
        decreases rest
      {
        SomeMember(rest);
        var i: int :| i in rest;
        if hotkeys[i].alias == alias {
          assert i in WithAlias(hotkeys, alias);
          return true, i;
        }
        rest := rest - {i};
      }
      assert forall i :: i in hotkeys ==> hotkeys[i].alias != alias;
      return false, 0;
    }

    method SetHotkeyGrab(alias: string, grab: bool) returns (ok: bool)
      requires UniqueAliases(hotkeys)
      modifies this
      ensures Now() == SetGrab(old(Now()), alias, grab) && UniqueAliases(hotkeys)
      ensures ok <==> old(suspended) || exists id :: id in old(hotkeys) && old(hotkeys)[id].alias == alias
      ensures suspended == old(suspended) && hotkeys.Keys == old(hotkeys).Keys
      ensures forall id :: id in hotkeys ==>
        hotkeys[id] == if old(hotkeys)[id].alias == alias then HotKey(alias, grab, grab, old(hotkeys)[id].evdev)
                       else old(hotkeys)[id]
      ensures forall id :: id in grabbed <==>
        if !old(suspended) && id in old(hotkeys) && old(hotkeys)[id].alias == alias && !old(hotkeys)[id].evdev
        then grab else id in old(grabbed)
    {
      var found, id := FindAlias(alias);
      if found { OneAlias(hotkeys, alias, id, grab); } else { NoAlias(hotkeys, alias, grab); }
      if suspended {
        pending := pending[alias := grab];
        if found { hotkeys := hotkeys[id := hotkeys[id].(grab := grab, enabled := grab)]; }
        return true;
      }
      if found {
        hotkeys := hotkeys[id := hotkeys[id].(grab := grab, enabled := grab)];
        if !hotkeys[id].evdev {
          if grab { grabbed := grabbed + {id}; } else { grabbed := grabbed - {id}; }
        }
        return true;
      }
      return false;
    }

    method RemoveHotkey(alias: string) returns (removed: bool)
      requires UniqueAliases(hotkeys)
      modifies this
      ensures Now() == RemoveIds(old(Now()), WithAlias(old(hotkeys), alias)) && UniqueAliases(hotkeys)
      ensures removed <==> exists id :: id in old(hotkeys) && old(hotkeys)[id].alias == alias
      ensures suspended == old(suspended)
      ensures forall id :: id in hotkeys <==> id in old(hotkeys) && old(hotkeys)[id].alias != alias
      ensures forall id :: id in hotkeys ==> hotkeys[id] == old(hotkeys)[id]
      ensures forall id :: id in grabbed <==>
        id in old(grabbed) && !(id in old(hotkeys) && old(hotkeys)[id].alias == alias)
    {
      var found, id := FindAlias(alias);
      if !found {
        assert hotkeys - {} == hotkeys;
        return false;
      }
      OneAlias(hotkeys, alias, id, true);
      grabbed := grabbed - {id};
      hotkeys := hotkeys - {id};
      return true;
    }

    method RemoveHotkeyById(id: int) returns (removed: bool)
      requires UniqueAliases(hotkeys)
      modifies this
      ensures Now() == RemoveIds(old(Now()), {id}) && UniqueAliases(hotkeys)
      ensures removed <==> id in old(hotkeys)
      ensures suspended == old(suspended) && hotkeys == old(hotkeys) - {id}
      ensures grabbed == if id in old(hotkeys) then old(grabbed) - {id} else old(grabbed)
    {
      if id !in hotkeys {
        assert hotkeys - {id} == hotkeys;
        return false;
      }
      grabbed := grabbed - {id};
      hotkeys := hotkeys - {id};
      return true;
    }

    method SuspendGrabs()
      modifies this
      ensures Now() == Suspend(old(Now())) && hotkeys == old(hotkeys)
      ensures suspended && grabbed == {}
    {
      suspended := true;
      pending := map[];
      grabbed := {};
    }

    method ResumeGrabs()
      modifies this
      ensures Now() == Resume(old(Now())) && hotkeys == old(hotkeys) && !suspended
      ensures forall id :: id in grabbed <==>
        if id in hotkeys && !hotkeys[id].evdev && hotkeys[id].enabled then hotkeys[id].grab else id in old(grabbed)
    {
      suspended := false;
      var rest: set<int> := hotkeys.Keys;
      while rest != {}
        invariant rest <= hotkeys.Keys && hotkeys == old(hotkeys) && !suspended
        invariant forall id :: id in rest || id !in hotkeys ==> (id in grabbed <==> id in old(grabbed))
        invariant forall id :: id in hotkeys && id !in rest ==>
          (id in grabbed <==> id in Resume(old(Now())).grabbed)
        invariant forall id :: id in rest ==> id in hotkeys
        decreases rest
      {
        SomeMember(rest);
        var id: int :| id in rest;
        if !hotkeys[id].evdev && hotkeys[id].enabled {
          if hotkeys[id].grab { grabbed := grabbed + {id}; } else { grabbed := grabbed - {id}; }
        }
        rest := rest - {id};
      }
      forall id ensures id in grabbed <==> id in Resume(old(Now())).grabbed {
        if id !in hotkeys { assert id in grabbed <==> id in old(grabbed); }
      }
      pending := map[];
    }
  }

  lemma OneAlias(h: Table, alias: string, id: int, grab: bool)
    requires UniqueAliases(h) && id in h && h[id].alias == alias
    ensures WithAlias(h, alias) == {id}
    ensures Flagged(h, alias, grab) == h[id := h[id].(grab := grab, enabled := grab)]
  {
    forall i ensures i in WithAlias(h, alias) <==> i == id {}
    forall i | i in h ensures Flagged(h, alias, grab)[i] == h[id := h[id].(grab := grab, enabled := grab)][i] {}
  }

  lemma NoAlias(h: Table, alias: string, grab: bool)
    requires WithAlias(h, alias) == {}
    ensures Flagged(h, alias, grab) == h
  {
    forall id | id in h ensures h[id].alias != alias {
      assert id !in WithAlias(h, alias);
    }
  }
}
