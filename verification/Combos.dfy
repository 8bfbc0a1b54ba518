/** Key combinations: the record of held inputs, and the matching of a combo against it. */
module Combos {
  import opened Wrappers

  type Code = int

  const KEY_LEFTCTRL: Code := 29
  const KEY_LEFTSHIFT: Code := 42
  const KEY_RIGHTSHIFT: Code := 54
  const KEY_LEFTALT: Code := 56
  const KEY_RIGHTCTRL: Code := 97
  const KEY_RIGHTALT: Code := 100
  const KEY_LEFTMETA: Code := 125
  const KEY_RIGHTMETA: Code := 126

  /** A bit of the modifier mask. */
  datatype Mod = Ctrl | Shift | Alt | Meta

  function ModsOf(code: Code): set<Mod> {
    if code == KEY_LEFTCTRL || code == KEY_RIGHTCTRL then {Ctrl}
    else if code == KEY_LEFTSHIFT || code == KEY_RIGHTSHIFT then {Shift}
    else if code == KEY_LEFTALT || code == KEY_RIGHTALT then {Alt}
    else if code == KEY_LEFTMETA || code == KEY_RIGHTMETA then {Meta}
    else {}
  }

  /** The key codes of the eight modifier keys, left and right. */
  lemma ModifierCodes(code: Code)
    ensures Ctrl in ModsOf(code) <==> code == 29 || code == 97
    ensures Shift in ModsOf(code) <==> code == 42 || code == 54
    ensures Alt in ModsOf(code) <==> code == 56 || code == 100
    ensures Meta in ModsOf(code) <==> code == 125 || code == 126
  {
  }

  predicate IsModifier(code: Code) {
    ModsOf(code) != {}
  }

  /** A physical key as the events show it: the code it acts as, and its own code (0 if the
      event does not say). A mouse button has no second code. */
  datatype Phys = Phys(effective: Code, original: Code)

  function Codes(k: Phys): set<Code> {
    if k.original != 0 then {k.effective, k.original} else {k.effective}
  }

  /** Two physical keys share no codes. */
  ghost predicate Apart(j: Phys, k: Phys) {
    forall c :: c in Codes(j) ==> c !in Codes(k)
  }

  datatype KeyEvent = KeyEvent(code: Code, mapped: Code, original: Code, down: bool)

  function PhysOf(e: KeyEvent): Phys {
    Phys(if e.mapped != 0 then e.mapped else e.code, e.original)
  }

  datatype ComboKey = Keyboard(key: Code) | MouseButton(button: Code) | MouseMove(key: Code) | MouseWheel | Other

  datatype Combo = Combo(keys: seq<ComboKey>, wildcard: bool, requiresWheel: bool, window: int, physical: seq<Code>)

  function RequiredKey(k: ComboKey): set<Code> {
    match k
    case Keyboard(key) => if IsModifier(key) then {} else {key}
    case MouseButton(button) => {button}
    case MouseMove(key) => {key}
    case _ => {}
  }

  function Required(keys: seq<ComboKey>): set<Code> {
    if keys == [] then {} else Required(keys[..|keys| - 1]) + RequiredKey(keys[|keys| - 1])
  }

  /** The combo's keys require this code. */
  predicate NeedsCode(keys: seq<ComboKey>, c: Code) {
    || (Keyboard(c) in keys && ModsOf(c) == {}) || MouseButton(c) in keys || MouseMove(c) in keys
  }

  /** Some keyboard key of the combo is this modifier. */
  ghost predicate NeedsMod(keys: seq<ComboKey>, m: Mod) {
    exists k :: k in keys && k.Keyboard? && m in ModsOf(k.key)
  }

  lemma {:induction false} RequiredIff(keys: seq<ComboKey>, c: Code)
    ensures c in Required(keys) <==> NeedsCode(keys, c)
  {
    if keys != [] {
      var n := |keys| - 1;
      RequiredIff(keys[..n], c);
      assert forall k :: k in keys <==> k in keys[..n] || k == keys[n] by { assert keys == keys[..n] + [keys[n]]; }
    }
  }

  function RequiredMods(keys: seq<ComboKey>): set<Mod> {
    if keys == [] then {}
    else
      var k := keys[|keys| - 1];
      RequiredMods(keys[..|keys| - 1]) + if k.Keyboard? then ModsOf(k.key) else {}
  }

  lemma {:induction false} RequiredModsIff(keys: seq<ComboKey>, m: Mod)
    ensures m in RequiredMods(keys) <==> NeedsMod(keys, m)
  {
    if keys != [] {
      var n := |keys| - 1;
      RequiredModsIff(keys[..n], m);
      assert forall k :: k in keys <==> k in keys[..n] || k == keys[n] by { assert keys == keys[..n] + [keys[n]]; }
    }
  }

  /** Every held key with a code that is not a modifier has a code that the combo requires. */
  ghost predicate NothingElseHeld(held: map<Phys, int>, required: set<Code>) {
    forall k :: k in held && (exists c :: c in Codes(k) && !IsModifier(c)) ==> Codes(k) * required != {}
  }

  /** active records each held key under both its codes, and nothing else; different keys share no
      codes and were pressed at different times. */
  ghost predicate Records(active: map<Code, int>, held: map<Phys, int>, clock: int) {
    && (forall k, c :: k in held && c in Codes(k) ==> c in active && active[c] == held[k])
    && (forall c :: c in active ==> exists k :: k in held && c in Codes(k))
    && (forall k :: k in held ==> held[k] <= clock)
    && (forall j, k :: j in held && k in held && j != k ==> held[j] != held[k] && Apart(j, k))
  }

  function Pressed(active: map<Code, int>, k: Phys, now: int): map<Code, int> {
    active + map c | c in Codes(k) :: now
  }

  lemma PressRecords(active: map<Code, int>, held: map<Phys, int>, clock: int, k: Phys, now: int)
    requires Records(active, held, clock) && now > clock
    requires forall j :: j in held && j != k ==> Apart(j, k)
    ensures Records(Pressed(active, k, now), held[k := now], now)
  {
    var active', held' := Pressed(active, k, now), held[k := now];
    forall c | c in active' ensures exists j :: j in held' && c in Codes(j) {
      if c in Codes(k) {
        assert k in held';
      } else {
        var j :| j in held && c in Codes(j);
        assert j in held';
      }
    }
    forall j, c | j in held' && c in Codes(j) ensures c in active' && active'[c] == held'[j] {
      if j != k { assert Apart(j, k); }
    }
    forall i, j | i in held' && j in held' && i != j ensures held'[i] != held'[j] && Apart(i, j) {
      if i == k { ApartEachWay(j, i); }
    }
  }

  lemma ApartEachWay(j: Phys, k: Phys)
    requires Apart(j, k)
    ensures Apart(k, j)
  {
  }

  lemma ReleaseRecords(active: map<Code, int>, held: map<Phys, int>, clock: int, k: Phys, now: int)
    requires Records(active, held, clock) && now > clock
    requires forall j :: j in held && j != k ==> Apart(j, k)
    ensures Records(active - Codes(k), held - {k}, now)
  {
    var active', held' := active - Codes(k), held - {k};
    forall c | c in active' ensures exists j :: j in held' && c in Codes(j) {
      var j :| j in held && c in Codes(j);
      assert j in held';
    }
  }

  class ComboState {
    /** activeInputs: the time of the press that put each code there. */
    var active: map<Code, int>
    var physical: map<Code, bool>
    /** modifierState: the modifier codes that are down. */
    var modifiers: set<Code>
    /** History: the physical keys held, with the time of their last press. */
    ghost var held: map<Phys, int>
    ghost var clock: int

    ghost predicate Valid()
      reads this
    {
      Records(active, held, clock)
    }

    constructor ()
      ensures Valid() && held == map[] && active == map[] && modifiers == {} && physical == map[]
    {
      active, physical, modifiers, held, clock := map[], map[], {}, map[], 0;
    }

    /** A key of this modifier is down. */
    ghost predicate ModDown(m: Mod)
      reads this
    {
      exists c :: c in modifiers && m in ModsOf(c)
    }

    lemma MaskIff(m: Mod)
      ensures m in Mask() <==> ModDown(m)
    {
      ModifierMember(modifiers, m);
    }

    /** currentModifierMask. */
    function Mask(): set<Mod>
      reads this
    {
      (if KEY_LEFTCTRL in modifiers || KEY_RIGHTCTRL in modifiers then {Ctrl} else {})
      + (if KEY_LEFTSHIFT in modifiers || KEY_RIGHTSHIFT in modifiers then {Shift} else {})
      + (if KEY_LEFTALT in modifiers || KEY_RIGHTALT in modifiers then {Alt} else {})
      + (if KEY_LEFTMETA in modifiers || KEY_RIGHTMETA in modifiers then {Meta} else {})
    }

    /** The state update for a key event: presses, repeats and releases. The remapping is stable
        and different physical keys share no codes; events have distinct times. */
    method HandleKey(e: KeyEvent, now: int)
      requires Valid() && now > clock
      requires forall k :: k in held && k != PhysOf(e) ==> Apart(k, PhysOf(e))
      modifies this
      ensures Valid() && clock == now
      ensures var code := if e.mapped != 0 then e.mapped else e.code;
        && held == (if e.down then old(held)[Phys(code, e.original) := now] else old(held) - {Phys(code, e.original)})
        && modifiers == (if ModsOf(code) == {} then old(modifiers)
                         else if e.down then old(modifiers) + {code} else old(modifiers) - {code})
        && (forall c :: c in active <==> if c == code || (c == e.original && c != 0) then e.down else c in old(active))
        && forall c :: c in active ==>
             active[c] == if c == code || (c == e.original && c != 0) then now else old(active)[c]
      ensures physical == if e.original != 0 then old(physical)[e.original := e.down] else old(physical)
    {
      var effectiveCode := if e.mapped != 0 then e.mapped else e.code;
      if IsModifier(effectiveCode) {
        modifiers := if e.down then modifiers + {effectiveCode} else modifiers - {effectiveCode};
      }
      if e.down {
        Press(effectiveCode, e.original, now);
        if e.original != 0 { physical := physical[e.original := true]; }
      } else {
        Release(effectiveCode, e.original, now);
        if e.original != 0 { physical := physical[e.original := false]; }
      }
    }

    method Press(effectiveCode: Code, originalCode: Code, now: int)
      requires Valid() && now > clock
      requires forall k :: k in held && k != Phys(effectiveCode, originalCode) ==>
        Apart(k, Phys(effectiveCode, originalCode))
      modifies this`active, this`held, this`clock
      ensures Valid() && clock == now && held == old(held)[Phys(effectiveCode, originalCode) := now]
      ensures forall c :: c in active <==>
        c == effectiveCode || (c == originalCode && c != 0) || c in old(active)
      ensures forall c :: c in active ==>
        active[c] == if c == effectiveCode || (c == originalCode && c != 0) then now else old(active)[c]
    {
      ghost var k := Phys(effectiveCode, originalCode);
      PressRecords(active, held, clock, k, now);
      active := active[effectiveCode := now];
      if originalCode != 0 && originalCode != effectiveCode {
        active := active[originalCode := now];
      }
      assert active == Pressed(old(active), k, now);
      held, clock := held[k := now], now;
    }

    method Release(effectiveCode: Code, originalCode: Code, now: int)
      requires Valid() && now > clock
      requires forall k :: k in held && k != Phys(effectiveCode, originalCode) ==>
        Apart(k, Phys(effectiveCode, originalCode))
      modifies this`active, this`held, this`clock
      ensures Valid() && clock == now && held == old(held) - {Phys(effectiveCode, originalCode)}
      ensures active == old(active) - {effectiveCode} - (if originalCode != 0 then {originalCode} else {})
    {
      ghost var k := Phys(effectiveCode, originalCode);
      ReleaseRecords(active, held, clock, k, now);
      active := active - {effectiveCode};
      if originalCode != 0 && originalCode != effectiveCode {
        active := active - {originalCode};
      }
      assert active == old(active) - Codes(k);
      held, clock := held - {k}, now;
    }

    /** The same for a mouse button, whose code is recorded alone. */
    method HandleButton(code: Code, down: bool, now: int)
      requires Valid() && now > clock
      requires forall k :: k in held && k != Phys(code, 0) ==> Apart(k, Phys(code, 0))
      modifies this
      ensures Valid() && clock == now && modifiers == old(modifiers) && physical == old(physical)
      ensures held == if down then old(held)[Phys(code, 0) := now] else old(held) - {Phys(code, 0)}
    {
      if down { Press(code, 0, now); } else { Release(code, 0, now); }
    }

    /** One turn of the exclusivity loop: whether this active code is tolerated. */
    method Tolerated(code: Code, required: set<Code>) returns (ok: bool)
      requires code in active
      ensures ok <==> Allowed(code, required)
    {
      if IsModifier(code) || code in required { return true; }
      var rest := required;
      while rest != {}
        invariant rest <= required
        invariant forall r :: r in required && r !in rest ==> !(r in active && active[r] == active[code])
        decreases rest
      {
        SomeMember(rest);
        var r: Code :| r in rest;
        if r in active && active[r] == active[code] { return true; }
        rest := rest - {r};
      }
      return false;
    }

    /** The exclusivity check of a strict combo: the remapped twin of a required key never blocks
        it, any other held key that is not a modifier always does. */
    method Exclusive(required: set<Code>) returns (ok: bool)
      requires Valid()
      ensures ok <==> NothingElseHeld(held, required)
    {
      var rest := active.Keys;
      while rest != {}
        invariant rest <= active.Keys
        invariant forall c :: c in active && c !in rest ==> Allowed(c, required)
        decreases rest
      {
        SomeMember(rest);
        var c: Code :| c in rest;
        var fine := Tolerated(c, required);
        if !fine {
          BlockedByHeld(c, required);
          return false;
        }
        rest := rest - {c};
      }
      AllAllowed(required);
      return true;
    }

    ghost predicate Allowed(c: Code, required: set<Code>)
      requires c in active
      reads this
    {
      IsModifier(c) || c in required || exists r :: r in required && r in active && active[r] == active[c]
    }

    lemma BlockedByHeld(c: Code, required: set<Code>)
      requires Valid() && c in active && !Allowed(c, required)
      ensures !NothingElseHeld(held, required)
    {
      var k :| k in held && c in Codes(k);
      forall r | r in Codes(k) ensures r !in required {
        assert r in active && active[r] == active[c];
      }
    }

    lemma AllAllowed(required: set<Code>)
      requires Valid() && forall c :: c in active ==> Allowed(c, required)
      ensures NothingElseHeld(held, required)
    {
      forall k | k in held && exists c :: c in Codes(k) && !IsModifier(c) ensures Codes(k) * required != {} {
        var c :| c in Codes(k) && !IsModifier(c);
        assert Allowed(c, required);
        if c !in required {
          var r :| r in required && r in active && active[r] == active[c];
          var j :| j in held && r in Codes(j);
          assert r in Codes(k) * required;
        } else {
          assert c in Codes(k) * required;
        }
      }
    }

    /** The loop over the combo's keys: the codes and the modifiers it requires. */
    method CollectRequired(keys: seq<ComboKey>) returns (ok: bool, required: set<Code>, mods: set<Mod>)
      ensures ok <==> forall k :: k in keys ==> !k.Other?
      ensures ok ==> required == Required(keys) && mods == RequiredMods(keys)
    {
      required, mods := {}, {};
      for i := 0 to |keys|
        invariant required == Required(keys[..i]) && mods == RequiredMods(keys[..i])
        invariant forall k :: k in keys[..i] ==> !k.Other?
      {
        assert keys[..i + 1][..i] == keys[..i];
        match keys[i]
        case Keyboard(key) =>
          if IsModifier(key) { mods := mods + ModsOf(key); } else { required := required + {key}; }
        case MouseButton(button) => required := required + {button};
        case MouseMove(key) => required := required + {key};
        case MouseWheel =>
        case Other =>
          assert keys[i] in keys;
          return false, {}, {};
      }
      assert keys[..|keys|] == keys;
      ok := true;
    }

    /** The loop over the required codes. */
    method AllActive(required: set<Code>, window: int, now: int) returns (ok: bool)
      ensures ok <==> forall c :: c in required ==>
        c in active && (window > 0 ==> (now - active[c]) / 1_000_000 <= window)
    {
      var rest := required;
      while rest != {}
        invariant rest <= required
        invariant forall c :: c in required && c !in rest ==>
          c in active && (window > 0 ==> (now - active[c]) / 1_000_000 <= window)
        decreases rest
      {
        SomeMember(rest);
        var c: Code :| c in rest;
        if c !in active { return false; }
        if window > 0 && (now - active[c]) / 1_000_000 > window { return false; }
        rest := rest - {c};
      }
      return true;
    }

    /** The loop over the physical keys. */
    method AllDown(codes: seq<Code>) returns (ok: bool)
      ensures ok <==> forall c :: c in codes ==> c in physical && physical[c]
    {
      for i := 0 to |codes|
        invariant forall c :: c in codes[..i] ==> c in physical && physical[c]
      {
        var c := codes[i];
        if c !in physical || !physical[c] { return false; }
        assert codes[..i + 1] == codes[..i] + [c];
      }
      assert codes[..|codes|] == codes;
      return true;
    }

    /** evaluateCombo. Times are in nanoseconds; the window, if positive, in milliseconds. */
    method EvaluateCombo(combo: Combo, now: int, processingWheel: bool) returns (matched: bool)
      requires Valid() && clock <= now
      ensures matched <==>
        && (combo.requiresWheel ==> processingWheel)
        && (forall k :: k in combo.keys ==> !k.Other?)
        && (!combo.wildcard ==> OnlyNeededHeld(combo.keys))
        && (forall c :: NeedsCode(combo.keys, c) ==>
              c in active && (combo.window > 0 ==> (now - active[c]) / 1_000_000 <= combo.window))
        && (forall c :: c in combo.physical ==> c in physical && physical[c])
        && ModsFit(combo.keys, combo.wildcard)
    {
      if combo.requiresWheel && !processingWheel { return false; }
      var known, required, mods := CollectRequired(combo.keys);
      if !known { return false; }
      NeedsAre(combo.keys);
      if !combo.wildcard {
        var alone := Exclusive(required);
        if !alone { return false; }
      }
      var pressed := AllActive(required, combo.window, now);
      if !pressed { return false; }
      var down := AllDown(combo.physical);
      if !down { return false; }
      matched := mods == {} || if combo.wildcard then mods <= Mask() else Mask() == mods;
      ModsFitIff(combo.keys, combo.wildcard);
    }

    /** Every held key with a code that is not a modifier has a code that the combo needs. */
    ghost predicate OnlyNeededHeld(keys: seq<ComboKey>)
      reads this
    {
      forall k :: k in held && (exists c :: c in Codes(k) && ModsOf(c) == {}) ==>
        exists c :: c in Codes(k) && NeedsCode(keys, c)
    }

    /** If the combo needs any modifier: those it needs are down, and for a strict combo no others. */
    ghost predicate ModsFit(keys: seq<ComboKey>, wildcard: bool)
      reads this
    {
      (exists m :: NeedsMod(keys, m)) ==>
        forall m :: (NeedsMod(keys, m) ==> ModDown(m)) && (!wildcard && ModDown(m) ==> NeedsMod(keys, m))
    }

    lemma NeedsAre(keys: seq<ComboKey>)
      ensures forall c :: c in Required(keys) <==> NeedsCode(keys, c)
      ensures NothingElseHeld(held, Required(keys)) <==> OnlyNeededHeld(keys)
    {
      forall c ensures c in Required(keys) <==> NeedsCode(keys, c) { RequiredIff(keys, c); }
      forall k ensures Codes(k) * Required(keys) != {} <==> exists c :: c in Codes(k) && NeedsCode(keys, c) {
        if c :| c in Codes(k) && NeedsCode(keys, c) { assert c in Codes(k) * Required(keys); }
      }
      forall c ensures IsModifier(c) <==> ModsOf(c) != {} { }
    }

    lemma ModsFitIff(keys: seq<ComboKey>, wildcard: bool)
      ensures var mods := RequiredMods(keys);
        ModsFit(keys, wildcard) <==> mods == {} || if wildcard then mods <= Mask() else Mask() == mods
    {
      forall m ensures (m in RequiredMods(keys) <==> NeedsMod(keys, m)) && (m in Mask() <==> ModDown(m)) {
        RequiredModsIff(keys, m);
        MaskIff(m);
      }
    }
  }

  lemma ModifierMember(codes: set<Code>, m: Mod)
    ensures (exists c :: c in codes && m in ModsOf(c)) <==>
      match m
      case Ctrl => 29 in codes || 97 in codes
      case Shift => 42 in codes || 54 in codes
      case Alt => 56 in codes || 100 in codes
      case Meta => 125 in codes || 126 in codes
  {
    forall c ensures m in ModsOf(c) <==>
      match m
      case Ctrl => c == 29 || c == 97
      case Shift => c == 42 || c == 54
      case Alt => c == 56 || c == 100
      case Meta => c == 125 || c == 126
    {
      ModifierCodes(c);
    }
  }
}
