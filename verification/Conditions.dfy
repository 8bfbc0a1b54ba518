/** Conditional hotkeys: a condition over global variables is re-evaluated only when a variable
    it is known to depend on is written, and its result drives the hotkey's grab. */
module Conditions {
  import opened Wrappers
  import opened HotkeyGrabs

  type Env = map<string, int>

  /** Conditions, with the language's short-circuiting operators. Raise stands for any exception;
      reading an unset global raises too, after the read has been tracked. */
  datatype Expr =
    | Lit(v: int) | Global(name: string) | Raise
    | Not(e: Expr) | And(l: Expr, r: Expr) | Or(l: Expr, r: Expr)
    | Less(l: Expr, r: Expr) | Equal(l: Expr, r: Expr)

  datatype Value = Threw | Got(v: int)

  /** The value of a condition and the globals read on the way, as the tracker records them. */
  datatype Outcome = Outcome(value: Value, seen: set<string>)

  function FromBool(b: bool): Value {
    Got(if b then 1 else 0)
  }

  function Eval(e: Expr, env: Env): Outcome {
    match e
    case Lit(v) => Outcome(Got(v), {})
    case Global(name) => Outcome(if name in env then Got(env[name]) else Threw, {name})
    case Raise => Outcome(Threw, {})
    case Not(x) =>
      var a := Eval(x, env);
      if a.value.Threw? then a else Outcome(FromBool(a.value.v == 0), a.seen)
    case And(l, r) =>
      var a := Eval(l, env);
      if a.value.Threw? || a.value.v == 0 then a
      else var b := Eval(r, env); Outcome(b.value, a.seen + b.seen)
    case Or(l, r) =>
      var a := Eval(l, env);
      if a.value.Threw? || a.value.v != 0 then a
      else var b := Eval(r, env); Outcome(b.value, a.seen + b.seen)
    case Less(l, r) =>
      var a := Eval(l, env);
      if a.value.Threw? then a
      else
        var b := Eval(r, env);
        Outcome(if b.value.Threw? then Threw else FromBool(a.value.v < b.value.v), a.seen + b.seen)
    case Equal(l, r) =>
      var a := Eval(l, env);
      if a.value.Threw? then a
      else
        var b := Eval(r, env);
        Outcome(if b.value.Threw? then Threw else FromBool(a.value.v == b.value.v), a.seen + b.seen)
  }

  /** conditionMet: an exception counts as false. */
  function Met(e: Expr, env: Env): bool {
    var value := Eval(e, env).value;
    value.Got? && value.v != 0
  }

  ghost predicate AgreeOn(env: Env, env': Env, names: set<string>) {
    forall n :: n in names ==> (n in env <==> n in env') && (n in env ==> env[n] == env'[n])
  }

  /** A condition depends only on what its evaluation read. */
  lemma {:induction false} ReadsSuffice(e: Expr, env: Env, env': Env)
    requires AgreeOn(env, env', Eval(e, env).seen)
    ensures Eval(e, env') == Eval(e, env)
  {
    match e
    case Lit(_) =>
    case Global(_) =>
    case Raise =>
    case Not(x) => ReadsSuffice(x, env, env');
    case And(l, r) =>
      ReadsSuffice(l, env, env');
      if Eval(l, env).value.Got? && Eval(l, env).value.v != 0 { ReadsSuffice(r, env, env'); }
    case Or(l, r) =>
      ReadsSuffice(l, env, env');
      if Eval(l, env).value.Got? && Eval(l, env).value.v == 0 { ReadsSuffice(r, env, env'); }
    case Less(l, r) =>
      ReadsSuffice(l, env, env');
      if Eval(l, env).value.Got? { ReadsSuffice(r, env, env'); }
    case Equal(l, r) =>
      ReadsSuffice(l, env, env');
      if Eval(l, env).value.Got? { ReadsSuffice(r, env, env'); }
  }

  // ----- what the operators mean -----

  lemma MetOfLeaves(v: int, name: string, env: Env)
    ensures Met(Lit(v), env) <==> v != 0
    ensures Met(Global(name), env) <==> name in env && env[name] != 0
    ensures !Met(Raise, env)
    ensures Eval(Lit(v), env).seen == {} && Eval(Global(name), env).seen == {name} && Eval(Raise, env).seen == {}
  {
  }

  /** An operand that throws makes its negation false too. */
  lemma MetOfNot(e: Expr, env: Env)
    ensures Met(Not(e), env) <==> Eval(e, env).value == Got(0)
    ensures Eval(Not(e), env).seen == Eval(e, env).seen
  {
  }

  /** The right side counts, and is read, only if the left side is true. */
  lemma MetOfAnd(l: Expr, r: Expr, env: Env)
    ensures Met(And(l, r), env) <==> Met(l, env) && Met(r, env)
    ensures Eval(And(l, r), env).seen == Eval(l, env).seen + if Met(l, env) then Eval(r, env).seen else {}
  {
    assert Eval(l, env).seen + {} == Eval(l, env).seen;
  }

  /** The right side counts, and is read, only if the left side is false and does not throw. */
  lemma MetOfOr(l: Expr, r: Expr, env: Env)
    ensures Met(Or(l, r), env) <==> Met(l, env) || (Eval(l, env).value == Got(0) && Met(r, env))
    ensures Eval(Or(l, r), env).seen ==
      Eval(l, env).seen + if Eval(l, env).value == Got(0) then Eval(r, env).seen else {}
  {
    assert Eval(l, env).seen + {} == Eval(l, env).seen;
  }

  /** Comparisons read both sides, unless the left one throws. */
  lemma MetOfComparisons(l: Expr, r: Expr, env: Env)
    ensures Met(Less(l, r), env) <==>
      Eval(l, env).value.Got? && Eval(r, env).value.Got? && Eval(l, env).value.v < Eval(r, env).value.v
    ensures Met(Equal(l, r), env) <==>
      Eval(l, env).value.Got? && Eval(r, env).value.Got? && Eval(l, env).value.v == Eval(r, env).value.v
    ensures Eval(Less(l, r), env).seen == Eval(Equal(l, r), env).seen
         == Eval(l, env).seen + if Eval(l, env).value.Got? then Eval(r, env).seen else {}
  {
    assert Eval(l, env).seen + {} == Eval(l, env).seen;
  }

  /** A goroutine with a hotkey condition. `parked` is the state test of the callback together
      with the callback still being registered. */
  datatype Conditional = Conditional(condition: Expr, alias: string, parked: bool, deps: set<string>, last: bool)

  /** The recorded result is the condition's value in env, and the recorded dependencies cover what
      evaluating it there reads. */
  ghost predicate Fresh(c: Conditional, env: Env) {
    c.last == Met(c.condition, env) && Eval(c.condition, env).seen <= c.deps
  }

  /** The re-evaluation, merging the new dependencies into the old or replacing them. */
  function Reevaluated(c: Conditional, env: Env, merge: bool): Conditional {
    var seen := Eval(c.condition, env).seen;
    c.(deps := if merge then c.deps + seen else seen, last := Met(c.condition, env))
  }

  function Notified(c: Conditional, name: string, env: Env, merge: bool): Conditional {
    if c.parked && name in c.deps then Reevaluated(c, env, merge) else c
  }

  /** A write keeps every parked conditional fresh, whether re-evaluation merges dependencies or
      replaces them: what the last evaluation read is enough. */
  lemma NotifiedIsFresh(c: Conditional, env: Env, name: string, v: int, merge: bool)
    requires c.parked && Fresh(c, env)
    ensures Fresh(Notified(c, name, env[name := v], merge), env[name := v])
  {
    if name !in c.deps {
      ReadsSuffice(c.condition, env, env[name := v]);
    }
  }

  // ----- runs -----

  /** Besides writes: a trigger wakes a goroutine, which runs and is parked again without
      recording what its condition evaluates to; and a hotkey may be given another condition. */
  datatype Event = Write(name: string, v: int) | Wake(i: nat) | Return(i: nat) | Recondition(i: nat, condition: Expr)

  datatype Situation = Situation(globals: Env, conditionals: seq<Conditional>)

  function AllNotified(cs: seq<Conditional>, name: string, env: Env): (r: seq<Conditional>)
    ensures |r| == |cs|
  {
    seq(|cs|, i requires 0 <= i < |cs| => Notified(cs[i], name, env, true))
  }

  /** The new condition's reads are merged into the recorded ones. */
  function Reconditioned(c: Conditional, condition: Expr, env: Env): Conditional {
    Reevaluated(c.(condition := condition), env, true)
  }

  function Happened(s: Situation, e: Event): (r: Situation)
    ensures |r.conditionals| == |s.conditionals|
  {
    match e
    case Write(name, v) =>
      Situation(s.globals[name := v], AllNotified(s.conditionals, name, s.globals[name := v]))
    case Wake(i) =>
      if i < |s.conditionals| then s.(conditionals := s.conditionals[i := s.conditionals[i].(parked := false)]) else s
    case Return(i) =>
      if i < |s.conditionals| then s.(conditionals := s.conditionals[i := s.conditionals[i].(parked := true)]) else s
    case Recondition(i, e) =>
      if i < |s.conditionals|
      then s.(conditionals := s.conditionals[i := Reconditioned(s.conditionals[i], e, s.globals)]) else s
  }

  function HappenedAll(s: Situation, events: seq<Event>): (r: Situation)
    ensures |r.conditionals| == |s.conditionals|
    decreases |events|
  {
    if events == [] then s else HappenedAll(Happened(s, events[0]), events[1..])
  }

  lemma Happening(s: Situation, e: Event, events: seq<Event>)
    ensures HappenedAll(s, [e] + events) == HappenedAll(Happened(s, e), events)
  {
    assert ([e] + events)[1..] == events;
  }

  /** A parked conditional that is fresh stays so in every run in which it is not woken, whatever
      is written and whichever conditions are replaced. */
  lemma {:induction false} ParkedStaysFresh(s: Situation, events: seq<Event>, i: nat)
    requires i < |s.conditionals| && s.conditionals[i].parked && Fresh(s.conditionals[i], s.globals)
    requires Wake(i) !in events
    ensures var r := HappenedAll(s, events);
      r.conditionals[i].parked && Fresh(r.conditionals[i], r.globals)
    decreases |events|
  {
    if events != [] {
      assert events[0] != Wake(i) && Wake(i) !in events[1..];
      if events[0].Write? { NotifiedIsFresh(s.conditionals[i], s.globals, events[0].name, events[0].v, true); }
      ParkedStaysFresh(Happened(s, events[0]), events[1..], i);
    }
  }

  /** The condition a run leaves a conditional with: the last one it was given. */
  function LastCondition(events: seq<Event>, i: nat, before: Expr): Expr {
    if events == [] then before
    else
      var e := events[|events| - 1];
      if e.Recondition? && e.i == i then e.condition else LastCondition(events[..|events| - 1], i, before)
  }

  lemma {:induction false} RunSplits(s: Situation, a: seq<Event>, b: seq<Event>)
    ensures HappenedAll(s, a + b) == HappenedAll(HappenedAll(s, a), b)
    decreases |a|
  {
    if a == [] {
      assert a + b == b;
    } else {
      assert (a + b)[0] == a[0] && (a + b)[1..] == a[1..] + b;
      RunSplits(Happened(s, a[0]), a[1..], b);
    }
  }

  lemma {:induction false} RunKeepsConditions(s: Situation, events: seq<Event>, i: nat)
    requires i < |s.conditionals|
    ensures HappenedAll(s, events).conditionals[i].condition == LastCondition(events, i, s.conditionals[i].condition)
    ensures HappenedAll(s, events).conditionals[i].alias == s.conditionals[i].alias
    decreases |events|
  {
    if events != [] {
      var before, e := events[..|events| - 1], events[|events| - 1];
      RunKeepsConditions(s, before, i);
      RunSplits(s, before, [e]);
      assert before + [e] == events;
      var t := HappenedAll(s, before);
      Happening(t, e, []);
      assert [e] + [] == [e];
    }
  }

  // ----- writes that are missed -----

  /** The globals as they were when conditional i was last evaluated, e0 before the run. */
  function EvaluatedIn(s: Situation, e0: Env, events: seq<Event>, i: nat): Env
    requires i < |s.conditionals|
    decreases |events|
  {
    if events == [] then e0
    else
      var e, c, next := events[0], s.conditionals[i], Happened(s, events[0]);
      var again := if e.Write? then c.parked && e.name in c.deps else e.Recondition? && e.i == i;
      EvaluatedIn(next, if again then next.globals else e0, events[1..], i)
  }

  lemma TellingIn(n: string, e0: Env, env: Env)
    ensures Eval(Telling(n, e0), env).seen == {n}
    ensures Met(Telling(n, e0), env) <==> n in env && (n in e0 ==> env[n] == e0[n])
  {
    var x := Eval(Global(n), env);
    assert x == Outcome(if n in env then Got(env[n]) else Threw, {n});
    if n in e0 {
      var y := Eval(Lit(e0[n]), env);
      assert y == Outcome(Got(e0[n]), {});
      assert {n} + {} == {n};
    } else {
      assert {n} + {n} == {n};
    }
  }

  /** In every run, woken or not, a conditional records its last evaluation. */
  lemma {:induction false} RunTracks(s: Situation, e0: Env, events: seq<Event>, i: nat)
    requires i < |s.conditionals| && Fresh(s.conditionals[i], e0)
    ensures Fresh(HappenedAll(s, events).conditionals[i], EvaluatedIn(s, e0, events, i))
    decreases |events|
  {
    if events != [] {
      var e, c, next := events[0], s.conditionals[i], Happened(s, events[0]);
      var again := if e.Write? then c.parked && e.name in c.deps else e.Recondition? && e.i == i;
      RunTracks(next, if again then next.globals else e0, events[1..], i);
    }
  }

  /** Evaluated in e0, no condition with these recorded dependencies has another result now if
      and only if none of the dependencies has changed since. */
  lemma NoneStaleIff(deps: set<string>, e0: Env, env: Env)
    ensures (forall c: Conditional :: c.deps == deps && Fresh(c, e0) ==> c.last == Met(c.condition, env))
       <==> AgreeOn(e0, env, deps)
  {
    if AgreeOn(e0, env, deps) {
      forall c: Conditional | c.deps == deps && Fresh(c, e0) ensures c.last == Met(c.condition, env) {
        ReadsSuffice(c.condition, e0, env);
      }
    } else {
      var n :| n in deps && !((n in e0 <==> n in env) && (n in e0 ==> e0[n] == env[n]));
      TellingIn(n, e0, e0);
      TellingIn(n, e0, env);
      var stale := Conditional(Telling(n, e0), "", true, deps, Met(Telling(n, e0), e0));
      assert Fresh(stale, e0) && stale.last != Met(stale.condition, env);
    }
  }

  /** A condition on one global that tells its value in e0 from every other. */
  function Telling(n: string, e0: Env): Expr {
    if n in e0 then Equal(Global(n), Lit(e0[n])) else Equal(Global(n), Global(n))
  }

  /** A write while the goroutine runs is missed: parked again, it keeps the old result, until a
      dependency is written once more. */
  lemma RunningWriteIsMissed(w: int)
    requires w != 0
    ensures var start := Situation(map["x" := 0], [Conditional(Global("x"), "k", true, {"x"}, false)]);
      var after := HappenedAll(start, [Wake(0), Write("x", 1), Return(0)]);
      && Fresh(start.conditionals[0], start.globals)
      && after.conditionals[0].parked && !after.conditionals[0].last
      && Met(after.conditionals[0].condition, after.globals)
      && Fresh(Happened(after, Write("x", w)).conditionals[0], Happened(after, Write("x", w)).globals)
  {
    var start := Situation(map["x" := 0], [Conditional(Global("x"), "k", true, {"x"}, false)]);
    Happening(start, Wake(0), [Write("x", 1), Return(0)]);
    var running := Happened(start, Wake(0));
    Happening(running, Write("x", 1), [Return(0)]);
    var written := Happened(running, Write("x", 1));
    Happening(written, Return(0), []);
    assert [Return(0)] + [] == [Return(0)] && [Write("x", 1)] + [Return(0)] == [Write("x", 1), Return(0)];
    assert [Wake(0)] + [Write("x", 1), Return(0)] == [Wake(0), Write("x", 1), Return(0)];
    var after := Happened(written, Return(0));
    WriteRefreshes(after.conditionals[0], "x", after.globals["x" := w], true);
  }

  /** A write to a recorded dependency makes a parked conditional fresh, stale or not. */
  lemma WriteRefreshes(c: Conditional, name: string, env: Env, merge: bool)
    requires c.parked && name in c.deps
    ensures Fresh(Notified(c, name, env, merge), env)
  {
  }

  // ----- writes alone -----

  function Written(env: Env, writes: seq<(string, int)>): Env
    decreases |writes|
  {
    if writes == [] then env else Written(env[writes[0].0 := writes[0].1], writes[1..])
  }

  function EventsOf(writes: seq<(string, int)>): (events: seq<Event>)
    ensures |events| == |writes| && forall k :: 0 <= k < |writes| ==> events[k] == Write(writes[k].0, writes[k].1)
  {
    seq(|writes|, k requires 0 <= k < |writes| => Write(writes[k].0, writes[k].1))
  }

  lemma {:induction false} WritesHappen(s: Situation, writes: seq<(string, int)>)
    ensures HappenedAll(s, EventsOf(writes)).globals == Written(s.globals, writes)
    ensures forall i :: 0 <= i < |s.conditionals| ==>
      var c := HappenedAll(s, EventsOf(writes)).conditionals[i];
      c.condition == s.conditionals[i].condition && c.alias == s.conditionals[i].alias
      && c.parked == s.conditionals[i].parked
    decreases |writes|
  {
    if writes != [] {
      var events := EventsOf(writes);
      assert events[1..] == EventsOf(writes[1..]);
      WritesHappen(Happened(s, events[0]), writes[1..]);
    }
  }

  /** No other conditional drives the same hotkey. */
  ghost predicate OwnAlias(cs: seq<Conditional>, i: int)
    requires 0 <= i < |cs|
  {
    forall j :: 0 <= j < |cs| && j != i ==> cs[j].alias != cs[i].alias
  }

  lemma SameOwners(cs: seq<Conditional>, cs': seq<Conditional>)
    requires |cs| == |cs'| && forall i :: 0 <= i < |cs| ==> cs[i].alias == cs'[i].alias
    ensures forall i :: 0 <= i < |cs| ==> (OwnAlias(cs, i) <==> OwnAlias(cs', i))
  {
  }

  class Engine {
    var globals: Env
    var conditionals: seq<Conditional>
    const hotkeys: HotkeyManager

    ghost function Now(): Situation
      reads this
    {
      Situation(globals, conditionals)
    }

    /** The grab and enabled flags of the conditional's hotkey are its last result. */
    ghost predicate Flagged(c: Conditional)
      reads this, hotkeys
    {
      c.alias != "" ==> forall id :: id in WithAlias(hotkeys.hotkeys, c.alias) ==>
        hotkeys.hotkeys[id].grab == c.last && hotkeys.hotkeys[id].enabled == c.last
    }

    /** Grabs follow flags; and flags follow results, for every conditional whose alias no other one
        shares. */
    ghost predicate Valid()
      reads this, hotkeys
    {
      && UniqueAliases(hotkeys.hotkeys) && Consistent(hotkeys.Now())
      && forall i :: 0 <= i < |conditionals| && OwnAlias(conditionals, i) ==> Flagged(conditionals[i])
    }

    constructor (hotkeys: HotkeyManager, globals: Env)
      requires UniqueAliases(hotkeys.hotkeys) && Consistent(hotkeys.Now())
      ensures Valid() && this.hotkeys == hotkeys && Now() == Situation(globals, [])
    {
      this.hotkeys, this.globals, conditionals := hotkeys, globals, [];
    }

    /** SetHotkeyGrab for conditional i, whose result has just been recorded. */
    method Regrab(i: nat)
      requires i < |conditionals| && UniqueAliases(hotkeys.hotkeys) && Consistent(hotkeys.Now())
      requires forall k :: 0 <= k < |conditionals| && k != i && OwnAlias(conditionals, k) ==> Flagged(conditionals[k])
      modifies hotkeys
      ensures Valid() && Flagged(conditionals[i])
      ensures hotkeys.Now() == SetGrab(old(hotkeys.Now()), conditionals[i].alias, conditionals[i].last)
      ensures forall id :: id in hotkeys.hotkeys && hotkeys.hotkeys[id].alias == conditionals[i].alias ==>
        hotkeys.hotkeys[id].grab == hotkeys.hotkeys[id].enabled == conditionals[i].last
    {
      DoConsistent(hotkeys.Now(), SetOp(conditionals[i].alias, conditionals[i].last));
      var _ := hotkeys.SetHotkeyGrab(conditionals[i].alias, conditionals[i].last);
    }

    /** Registering a conditional hotkey: evaluate it, record result and reads, set the grab. */
    method AddConditional(condition: Expr, alias: string)
      requires Valid()
      modifies this`conditionals, hotkeys
      ensures Valid()
      ensures conditionals == old(conditionals) +
        [Conditional(condition, alias, true, Eval(condition, globals).seen, Met(condition, globals))]
      ensures Fresh(conditionals[|conditionals| - 1], globals) && Flagged(conditionals[|conditionals| - 1])
      ensures hotkeys.Now() == SetGrab(old(hotkeys.Now()), alias, Met(condition, globals))
    {
      ghost var cs := conditionals;
      var outcome := Eval(condition, globals);
      var met := outcome.value.Got? && outcome.value.v != 0;
      conditionals := conditionals + [Conditional(condition, alias, true, outcome.seen, met)];
      forall k | 0 <= k < |cs| && OwnAlias(conditionals, k) ensures OwnAlias(cs, k) {
        forall j | 0 <= j < |cs| && j != k ensures cs[j].alias != cs[k].alias {
          assert conditionals[j].alias != conditionals[k].alias;
        }
      }
      Regrab(|conditionals| - 1);
    }

    /** setCondition, and the condition part of hotkey.update. */
    method SetCondition(i: nat, condition: Expr)
      requires Valid() && i < |conditionals|
      modifies this`conditionals, hotkeys
      ensures Valid() && Now() == Happened(old(Now()), Recondition(i, condition)) && Flagged(conditionals[i])
      ensures Fresh(conditionals[i], globals) && conditionals[i].condition == condition
      ensures conditionals == old(conditionals)[i :=
        Conditional(condition, old(conditionals)[i].alias, old(conditionals)[i].parked,
                    old(conditionals)[i].deps + Eval(condition, globals).seen, Met(condition, globals))]
    {
      var c := conditionals[i];
      var outcome := Eval(condition, globals);
      var met := outcome.value.Got? && outcome.value.v != 0;
      conditionals := conditionals[i := c.(condition := condition, deps := c.deps + outcome.seen, last := met)];
      SameOwners(old(conditionals), conditionals);
      Regrab(i);
    }

    /** A write to a global variable, followed by the callback. */
    method SetGlobal(name: string, v: int)
      requires Valid()
      modifies this, hotkeys
      ensures Valid() && Now() == Happened(old(Now()), Write(name, v))
      ensures globals == old(globals)[name := v] && |conditionals| == |old(conditionals)|
      ensures forall i :: 0 <= i < |conditionals| ==>
        var c := old(conditionals)[i];
        conditionals[i] == if !c.parked || name !in c.deps then c
                           else c.(deps := c.deps + Eval(c.condition, globals).seen, last := Met(c.condition, globals))
    {
      ghost var cs := conditionals;
      globals := globals[name := v];
      var i := 0;
      while i < |conditionals|
        invariant i <= |conditionals| == |cs| && globals == old(globals)[name := v] && Valid()
        invariant forall k :: 0 <= k < |cs| ==>
          conditionals[k] == if k < i then Notified(cs[k], name, globals, true) else cs[k]
      {
        if conditionals[i].parked && name in conditionals[i].deps { Reevaluate(i); }
        i := i + 1;
      }
      assert conditionals == AllNotified(cs, name, globals);
    }

    /** The callback's re-evaluation of one conditional; the grab changes with the result. */
    method Reevaluate(i: nat)
      requires Valid() && i < |conditionals|
      modifies this`conditionals, hotkeys
      ensures Valid() && conditionals == old(conditionals)[i := Reevaluated(old(conditionals)[i], globals, true)]
    {
      var c := conditionals[i];
      var outcome := Eval(c.condition, globals);
      var conditionMet := outcome.value.Got? && outcome.value.v != 0;
      conditionals := conditionals[i := c.(deps := c.deps + outcome.seen, last := conditionMet)];
      SameOwners(old(conditionals), conditionals);
      if c.last != conditionMet && c.alias != "" { Regrab(i); }
    }

    /** The goroutine is taken to run, or is parked again. */
    method SetParked(i: nat, parked: bool)
      requires Valid() && i < |conditionals|
      modifies this`conditionals
      ensures Valid() && conditionals == old(conditionals)[i := old(conditionals)[i].(parked := parked)]
    {
      conditionals := conditionals[i := conditionals[i].(parked := parked)];
      SameOwners(old(conditionals), conditionals);
    }

    method Perform(e: Event)
      requires Valid()
      modifies this, hotkeys
      ensures Valid() && Now() == Happened(old(Now()), e)
    {
      match e
      case Write(name, v) => SetGlobal(name, v);
      case Wake(i) => if i < |conditionals| { SetParked(i, false); }
      case Return(i) => if i < |conditionals| { SetParked(i, true); }
      case Recondition(i, condition) => if i < |conditionals| { SetCondition(i, condition); }
    }

    method Replay(events: seq<Event>)
      requires Valid()
      modifies this, hotkeys
      ensures Valid() && Now() == HappenedAll(old(Now()), events)
    {
      for k := 0 to |events|
        invariant Valid() && HappenedAll(Now(), events[k..]) == HappenedAll(old(Now()), events)
      {
        assert events[k..][0] == events[k] && events[k..][1..] == events[k + 1..];
        Perform(events[k]);
      }
    }

    /** What a hotkey's condition decides: its flags, and its grab unless suspended. */
    ghost predicate Follows(alias: string, met: bool)
      reads hotkeys
    {
      forall id :: id in WithAlias(hotkeys.hotkeys, alias) ==>
        && hotkeys.hotkeys[id].grab == met && hotkeys.hotkeys[id].enabled == met
        && (!hotkeys.hotkeys[id].evdev ==> (id in hotkeys.grabbed <==> met && !hotkeys.suspended))
    }

    lemma FlagsFollow(i: nat)
      requires Valid() && i < |conditionals| && conditionals[i].alias != "" && Flagged(conditionals[i])
      ensures Follows(conditionals[i].alias, conditionals[i].last)
    {
      forall id | id in WithAlias(hotkeys.hotkeys, conditionals[i].alias) && !hotkeys.hotkeys[id].evdev
        ensures id in hotkeys.grabbed <==> conditionals[i].last && !hotkeys.suspended
      {
        assert id in NonEvdev(hotkeys.hotkeys);
        assert id in Wanted(hotkeys.hotkeys) <==> conditionals[i].last;
        assert !hotkeys.suspended ==>
          (id in hotkeys.grabbed * NonEvdev(hotkeys.hotkeys) <==> id in Wanted(hotkeys.hotkeys));
      }
    }

    /** Any sequence of writes leaves every parked conditional that was fresh with the result of its
        condition evaluated from scratch in the globals written, and its hotkey with that result:
        a hotkey the backend handles is grabbed exactly when its condition holds, unless grabs are
        suspended. */
    method SetGlobals(writes: seq<(string, int)>)
      requires Valid()
      modifies this, hotkeys
      ensures Valid() && globals == Written(old(globals), writes)
      ensures Now() == HappenedAll(old(Now()), EventsOf(writes))
      ensures forall i :: 0 <= i < |conditionals| ==>
        var c, met := old(conditionals)[i], Met(old(conditionals)[i].condition, Written(old(globals), writes));
        && conditionals[i].alias == c.alias
        && (c.parked && Fresh(c, old(globals)) ==> conditionals[i].last == met)
        && (c.parked && Fresh(c, old(globals)) && c.alias != "" && OwnAlias(conditionals, i) ==> Follows(c.alias, met))
    {
      ghost var was, events := Now(), EventsOf(writes);
      Replay(EventsOf(writes));
      WritesHappen(was, writes);
      forall i | 0 <= i < |conditionals| && was.conditionals[i].parked && Fresh(was.conditionals[i], was.globals)
        ensures conditionals[i].last == Met(was.conditionals[i].condition, Written(was.globals, writes))
      {
        ParkedStaysFresh(was, events, i);
      }
      forall i | 0 <= i < |conditionals| && conditionals[i].alias != "" && OwnAlias(conditionals, i)
        ensures Follows(conditionals[i].alias, conditionals[i].last)
      {
        FlagsFollow(i);
      }
    }

    /** Two conditionals on one hotkey: the one registered last decides, whatever the first says. */
    method TwoOnOneHotkey(alias: string)
      requires Valid() && alias != "" && WithAlias(hotkeys.hotkeys, alias) != {}
      modifies this`conditionals, hotkeys
      ensures Valid() && |conditionals| == |old(conditionals)| + 2
      ensures var c := conditionals[|conditionals| - 2];
        c.alias == alias && c.parked && Fresh(c, globals) && c.last && !Follows(alias, c.last)
    {
      AddConditional(Lit(1), alias);
      AddConditional(Lit(0), alias);
      FlagsFollow(|conditionals| - 1);
      SomeMember(WithAlias(hotkeys.hotkeys, alias));
      ghost var id :| id in WithAlias(hotkeys.hotkeys, alias);
      assert !hotkeys.hotkeys[id].grab;
    }
  }
}
