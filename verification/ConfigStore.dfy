/** HavelConfig: loading, saving and reloading the configuration map, and its watchers. */
module ConfigStore {
  import opened Wrappers
  import opened Text
  import opened ConfigTable
  import opened ConfigMap
  import opened ConfigText
  import opened ConfigRoundTrip

  /** One watcher callback: which watcher, with which key and value. */
  datatype Call = Call(watcher: nat, key: string, value: string)

  /** The map answers exactly m, whatever its table is like. */
  ghost predicate Answers(values: CfgMap, m: map<string, string>)
    reads values, values.entries
  {
    values.Valid() && forall k :: values.Answer(k) == if k in m then Some(m[k]) else None
  }

  /** And every probe path is whole. */
  ghost predicate Holds(values: CfgMap, m: map<string, string>)
    reads values, values.entries
  {
    Answers(values, m) && values.Whole()
  }

  /** `while (isspace(*p)) p++`. */
  method SkipSpace(s: string) returns (r: string)
    ensures r == TrimLeft(s, IsSpace)
  {
    var a := 0;
    while a < |s| && IsSpace(s[a])
      invariant a <= |s| && TrimLeft(s, IsSpace) == TrimLeft(s[a..], IsSpace)
    {
      assert s[a..][1..] == s[a + 1..];
      a := a + 1;
    }
    r := s[a..];
  }

  /** `while (len > 0 && isspace(p[len - 1])) p[--len] = '\0'`. */
  method DropSpace(s: string) returns (r: string)
    ensures r == TrimRight(s, IsSpace)
  {
    var e := |s|;
    assert s[..e] == s;
    while e > 0 && IsSpace(s[e - 1])
      invariant e <= |s| && TrimRight(s, IsSpace) == TrimRight(s[..e], IsSpace)
    {
      assert s[..e][..e - 1] == s[..e - 1];
      e := e - 1;
    }
    r := s[..e];
  }

  method TrimDup(s: string) returns (r: string)
    ensures r == Trim(s, IsSpace)
  {
    r := SkipSpace(s);
    r := DropSpace(r);
  }

  method ReadHeader(q: string) returns (name: string)
    requires IsHeader(q)
    ensures name == HeaderName(q)
  {
    if q[1] == '[' && q[|q| - 2] == ']' && |q| >= 4 {
      name := TrimDup(q[2..|q| - 2]);
    } else {
      name := TrimDup(q[1..|q| - 1]);
    }
  }

  /** The text part of parseTomlLine. */
  method ParseEffect(line: string) returns (e: Effect)
    ensures e == ParseLine(line)
  {
    var p := SkipSpace(line);
    if p == "" || p[0] == '#' || p[0] == ';' { return Ignore; }
    var q := DropSpace(p);
    if q == "" { return Ignore; }
    if IsHeader(q) {
      var name := ReadHeader(q);
      return Header(name);
    }
    var eq := IndexOf(q, '=');
    if eq == |q| { return Ignore; }
    var key, val := ReadAssignment(q, eq);
    return Assign(key, val);
  }

  method ReadAssignment(q: string, eq: nat) returns (key: string, val: string)
    requires eq < |q|
    ensures key == Trim(q[..eq], IsSpace) && val == Unquote(Trim(q[eq + 1..], IsSpace))
  {
    key := TrimDup(q[..eq]);
    val := TrimDup(q[eq + 1..]);
    if Wrapped(val) { val := val[1..|val| - 1]; }
  }

  /** What a line does to the table itself, whatever state it is in. */
  datatype TableReader = TableReader(section: string, table: Table)

  function LineOnTable(e: Effect, r: TableReader, hash: string -> nat): (r': TableReader)
    requires |r.table.slots| > 0
    ensures |r'.table.slots| > 0
  {
    match e
    case Ignore => r
    case Header(section) => r.(section := section)
    case Assign(key, value) => r.(table := SetTable(r.table, hash, FullKey(r.section, key), value))
  }

  function LinesOnTable(lines: seq<string>, r: TableReader, hash: string -> nat): (r': TableReader)
    requires |r.table.slots| > 0
    ensures |r'.table.slots| > 0
  {
    if lines == [] then r else LinesOnTable(lines[1..], LineOnTable(ParseLine(Cut(lines[0])), r, hash), hash)
  }

  /** parseTomlLine, and the body of reload's loop, which repeats it. */
  method ParseTomlLine(line: string, section: string, values: CfgMap, ghost m: map<string, string>)
    returns (section': string, ghost m': map<string, string>)
    requires values.Valid()
    modifies values, values.entries
    ensures Reader(section', m') == Apply(ParseLine(line), Reader(section, m))
    ensures TableReader(section', values.Now())
         == LineOnTable(ParseLine(line), TableReader(section, old(values.Now())), values.hash)
    ensures values.Valid() && (values.entries == old(values.entries) || fresh(values.entries))
    ensures old(Holds(values, m)) ==> Holds(values, m')
  {
    section', m' := section, m;
    var e := ParseEffect(line);
    match e
    case Ignore =>
    case Header(name) => section' := name;
    case Assign(key, value) =>
      if section != "" {
        m' := SetHeld(section + "." + key, value, values, m);
      } else {
        m' := SetHeld(key, value, values, m);
      }
  }

  method SetHeld(key: string, value: string, values: CfgMap, ghost m: map<string, string>)
    returns (ghost m': map<string, string>)
    requires values.Valid()
    modifies values, values.entries
    ensures m' == m[key := value] && values.Valid() && values.Answer(key) == Some(value)
    ensures values.Now() == SetTable(old(values.Now()), values.hash, key, value)
    ensures old(Holds(values, m)) ==> Holds(values, m')
    ensures values.entries == old(values.entries) || fresh(values.entries)
  {
    values.Set(key, value);
    m' := m[key := value];
  }

  /** The reading loop of load and of reload. */
  method ReadInto(text: string, values: CfgMap, ghost m0: map<string, string>)
    requires values.Valid()
    modifies values, values.entries
    ensures values.Valid() && (values.entries == old(values.entries) || fresh(values.entries))
    ensures values.Now() == LinesOnTable(Lines(text), TableReader("", old(values.Now())), values.hash).table
    ensures old(Holds(values, m0)) ==> Holds(values, ReadText(text, m0))
  {
    var lines := Lines(text);
    var section := "";
    ghost var m, start := m0, TableReader("", values.Now());
    for i := 0 to |lines|
      invariant values.Valid() && (values.entries == old(values.entries) || fresh(values.entries))
      invariant old(Holds(values, m0)) ==> Holds(values, m)
      invariant ReadLines(lines, Reader("", m0)) == ReadLines(lines[i..], Reader(section, m))
      invariant LinesOnTable(lines, start, values.hash)
             == LinesOnTable(lines[i..], TableReader(section, values.Now()), values.hash)
    {
      assert lines[i..][0] == lines[i] && lines[i..][1..] == lines[i + 1..];
      section, m := ParseTomlLine(Cut(lines[i]), section, values, m);
    }
    assert lines[|lines|..] == [];
  }

  lemma AnswersItsMap(values: CfgMap)
    requires values.Valid()
    ensures Answers(values, AnswerMap(values.entries[..], values.hash))
  {
    forall k ensures values.Answer(k) == if k in AnswerMap(values.entries[..], values.hash)
                                         then Some(AnswerMap(values.entries[..], values.hash)[k]) else None
    {
      AnswerMapIs(values.entries[..], values.hash, k);
    }
  }

  /** The keys save collects and sorts are those of the map, each once, in strcmp order. */
  lemma KeysEnumerate(values: CfgMap, m: map<string, string>)
    requires Holds(values, m)
    ensures Enumerates(Sort(KeysOf(values.entries[..])), m) && Sorted(Sort(KeysOf(values.entries[..])))
  {
    var t := values.entries[..];
    var keys := KeysOf(t);
    IntactIsUnique(t, values.hash);
    KeysOfDistinct(t);
    SortSorts(keys);
    SortDistinct(keys);
    forall k ensures k in m <==> k in Sort(keys) {
      KeysOfMembers(t, k);
      assert values.Answer(k) == if k in m then Some(m[k]) else None;
      if p :| 0 <= p < |t| && t[p].Taken? && t[p].key == k {
        LookupIff(t, values.hash, k, t[p].value);
      }
      if k in m {
        LookupIff(t, values.hash, k, m[k]);
      }
      assert k in Sort(keys) <==> k in multiset(Sort(keys));
      assert k in keys <==> k in multiset(keys);
    }
  }

  lemma SortDistinct(keys: seq<string>)
    requires forall i, j :: 0 <= i < j < |keys| ==> keys[i] != keys[j]
    ensures forall i, j :: 0 <= i < j < |Sort(keys)| ==> Sort(keys)[i] != Sort(keys)[j]
  {
    SortSorts(keys);
    CountsOfDistinct(keys);
    var r := Sort(keys);
    forall i, j | 0 <= i < j < |r| ensures r[i] != r[j] {
      if r[i] == r[j] {
        TwiceIsTwo(r, i, j);
      }
    }
  }

  lemma {:induction false} CountsOfDistinct(keys: seq<string>)
    requires forall i, j :: 0 <= i < j < |keys| ==> keys[i] != keys[j]
    ensures forall k :: multiset(keys)[k] <= 1
  {
    if keys != [] {
      CountsOfDistinct(keys[1..]);
      assert keys == [keys[0]] + keys[1..];
      assert keys[0] !in keys[1..];
    }
  }

  lemma TwiceIsTwo(keys: seq<string>, i: nat, j: nat)
    requires i < j < |keys| && keys[i] == keys[j]
    ensures multiset(keys)[keys[i]] >= 2
  {
    assert keys == keys[..i] + [keys[i]] + keys[i + 1..j] + [keys[j]] + keys[j + 1..];
  }

  // ----- watchers -----

  /** Whether reload tells a watcher about a pair of the new file, m being the old map. */
  predicate Notifies(watched: string, key: string, value: string, m: map<string, string>) {
    (key !in m || m[key] != value) && (watched == key || watched == "")
  }

  /** One watcher's callbacks for the slots of the new table, in slot order. */
  function CallsOf(w: nat, watched: string, t: seq<Slot>, m: map<string, string>): seq<Call> {
    if t == [] then []
    else
      CallsOf(w, watched, t[..|t| - 1], m) + CallAbout(w, watched, t[|t| - 1], m)
  }

  function CallAbout(w: nat, watched: string, e: Slot, m: map<string, string>): seq<Call> {
    if e.Taken? && Notifies(watched, e.key, e.value, m) then [Call(w, e.key, e.value)] else []
  }

  lemma CallsNext(w: nat, watched: string, t: seq<Slot>, i: nat, m: map<string, string>)
    requires i < |t|
    ensures CallsOf(w, watched, t[..i + 1], m) == CallsOf(w, watched, t[..i], m) + CallAbout(w, watched, t[i], m)
  {
    assert t[..i + 1][..i] == t[..i];
  }

  function AllCalls(watchers: seq<string>, t: seq<Slot>, m: map<string, string>): seq<Call> {
    if watchers == [] then []
    else AllCalls(watchers[..|watchers| - 1], t, m) + CallsOf(|watchers| - 1, watchers[|watchers| - 1], t, m)
  }

  /** Setting a key calls each watcher of that key or of every key, once, changed or not. */
  lemma SetCallsExactly(watchers: seq<string>, key: string, value: string, c: Call)
    ensures multiset(AllCalls(watchers, [Taken(key, value)], map[]))[c] ==
      if c.watcher < |watchers| && c.key == key && c.value == value
         && (watchers[c.watcher] == key || watchers[c.watcher] == "")
      then 1 else 0
  {
    var t := [Taken(key, value)];
    AllCallsCount(watchers, t, map[], c);
    assert Has(t, c.key, c.value) <==> c.key == key && c.value == value by {
      if c.key == key && c.value == value { assert t[0] == Taken(c.key, c.value); }
    }
  }

  lemma Joined(now: seq<Call>, start: seq<Call>, before: seq<Call>, done: seq<Call>, more: seq<Call>)
    requires before == start + done && now == before + more
    ensures now == start + (done + more)
  {
  }

  lemma AllCallsNext(watchers: seq<string>, w: nat, t: seq<Slot>, m: map<string, string>)
    requires w < |watchers|
    ensures AllCalls(watchers[..w + 1], t, m) == AllCalls(watchers[..w], t, m) + CallsOf(w, watchers[w], t, m)
  {
    assert watchers[..w + 1][..w] == watchers[..w];
  }

  ghost predicate Due(watchers: seq<string>, t: seq<Slot>, m: map<string, string>, c: Call) {
    c.watcher < |watchers| && Has(t, c.key, c.value) && Notifies(watchers[c.watcher], c.key, c.value, m)
  }

  lemma {:induction false} CallsOfCount(w: nat, watched: string, t: seq<Slot>, m: map<string, string>, c: Call)
    requires UniqueKeys(t)
    ensures multiset(CallsOf(w, watched, t, m))[c] ==
      if c.watcher == w && Has(t, c.key, c.value) && Notifies(watched, c.key, c.value, m) then 1 else 0
  {
    if t != [] {
      var n := |t| - 1;
      var s := t[..n];
      CallsOfCount(w, watched, s, m, c);
      HasInPrefix(t, c.key, c.value);
      if t[n] == Taken(c.key, c.value) { UniqueLast(t, c.key, c.value); }
    }
  }

  lemma HasInPrefix(t: seq<Slot>, key: string, value: string)
    requires t != []
    ensures Has(t, key, value) <==> t[|t| - 1] == Taken(key, value) || Has(t[..|t| - 1], key, value)
  {
    var s := t[..|t| - 1];
    if p :| 0 <= p < |s| && s[p] == Taken(key, value) { assert t[p] == Taken(key, value); }
    if p :| 0 <= p < |t| && t[p] == Taken(key, value) { assert p < |s| ==> s[p] == Taken(key, value); }
  }

  lemma UniqueLast(t: seq<Slot>, key: string, value: string)
    requires t != [] && UniqueKeys(t) && t[|t| - 1] == Taken(key, value)
    ensures !Has(t[..|t| - 1], key, value)
  {
  }

  lemma {:induction false} AllCallsCount(watchers: seq<string>, t: seq<Slot>, m: map<string, string>, c: Call)
    requires UniqueKeys(t)
    ensures multiset(AllCalls(watchers, t, m))[c] == if Due(watchers, t, m, c) then 1 else 0
  {
    if watchers != [] {
      var n := |watchers| - 1;
      AllCallsCount(watchers[..n], t, m, c);
      CallsOfCount(n, watchers[n], t, m, c);
    }
  }

  /** A reload calls each watcher exactly once for each pair of the new map that is new or
      different and matches the watcher, and never otherwise. */
  lemma ReloadCallsExactly(watchers: seq<string>, values: CfgMap, m': map<string, string>, m: map<string, string>,
                           c: Call)
    requires Holds(values, m')
    ensures multiset(AllCalls(watchers, values.entries[..], m))[c] ==
      if c.watcher < |watchers| && c.key in m' && m'[c.key] == c.value
         && (c.key !in m || m[c.key] != c.value) && (watchers[c.watcher] == c.key || watchers[c.watcher] == "")
      then 1 else 0
  {
    var t := values.entries[..];
    IntactIsUnique(t, values.hash);
    AllCallsCount(watchers, t, m, c);
    LookupIff(t, values.hash, c.key, c.value);
    assert values.Answer(c.key) == if c.key in m' then Some(m'[c.key]) else None;
  }

  lemma PrintedEntry(first: bool, key: string, val: string, last: string, num: Numeric)
    ensures Unlines(EntryLines(first, key, val, last, num)) ==
      Unlines(HeaderLines(first, key, last)) + (AssignText(Name(key), Print(val, num)) + "\n")
  {
    UnlinesAppend(HeaderLines(first, key, last), AssignText(Name(key), Print(val, num)));
  }

  /** The text of one entry, character for character. */
  lemma EntryText(first: bool, key: string, val: string, last: string, num: Numeric)
    ensures Unlines(EntryLines(first, key, val, last, num)) ==
      (if Dotted(key) && NeedsHeader(key, last)
       then (if first then "" else "\n") + ("[" + Section(key) + "]" + "\n") else "")
      + (Name(key) + " = " + Print(val, num) + "\n")
  {
    PrintedEntry(first, key, val, last, num);
    if Dotted(key) && NeedsHeader(key, last) {
      UnlinesAppend(if first then [] else [""], HeaderText(Section(key)));
      UnlinesAppend([], "");
      assert Unlines([]) + "" + "\n" == "\n" && [] + [""] == [""];
    }
  }

  lemma SaveTextStep(keys: seq<string>, m: map<string, string>, num: Numeric, i: nat, last: string)
    requires i < |keys|
    ensures Unlines(SaveLines(keys, m, num, i, last)) ==
      if keys[i] in m then
        Unlines(EntryLines(i == 0, keys[i], m[keys[i]], last, num))
        + Unlines(SaveLines(keys, m, num, i + 1, NextLast(keys[i], last)))
      else Unlines(SaveLines(keys, m, num, i + 1, last))
  {
    if keys[i] in m {
      UnlinesConcat(EntryLines(i == 0, keys[i], m[keys[i]], last, num),
                    SaveLines(keys, m, num, i + 1, NextLast(keys[i], last)));
    }
  }

  class HavelConfig {
    var values: CfgMap
    var watchers: seq<string>
    /** Callbacks made so far. */
    var called: seq<Call>
    const hash: string -> nat
    const num: Numeric
    /** The abstract value: what every key answers, even where removals have broken probe paths. */
    ghost var Model: map<string, string>

    ghost predicate Valid()
      reads this, values, values.entries
    {
      Answers(values, Model)
    }

    constructor (hash: string -> nat, num: Numeric)
      ensures Valid() && values.Whole() && fresh(values) && fresh(values.entries)
      ensures Model == map[] && watchers == [] && called == [] && this.num == num && values.hash == this.hash == hash
    {
      this.hash, this.num := hash, num;
      values := new CfgMap(hash);
      watchers, called, Model := [], [], map[];
    }

    method Watch(key: string)
      requires Valid()
      modifies this`watchers
      ensures Valid() && watchers == old(watchers) + [key]
    {
      watchers := watchers + [key];
    }

    /** Sets one key and tells every matching watcher, changed or not. */
    method SetString(key: string, value: string)
      requires Valid()
      modifies this`Model, this`called, values, values.entries
      ensures Valid() && key in Model && Model[key] == value
      ensures values.Now() == SetTable(old(values.Now()), values.hash, key, value)
      ensures old(values.Whole()) ==> values.Whole() && Model == old(Model)[key := value]
      ensures values.entries == old(values.entries) || fresh(values.entries)
      ensures called == old(called) + AllCalls(watchers, [Taken(key, value)], map[])
    {
      ghost var m, whole := Model, values.Whole();
      ghost var m' := SetHeld(key, value, values, m);
      AnswersItsMap(values);
      Model := if whole then m' else AnswerMap(values.entries[..], values.hash);
      assert values.Answer(key) == Some(value);
      NotifyWatchers(key, value);
    }

    /** HavelConfig_remove: exactly the key goes, if and only if no other key is found past it. */
    method Remove(key: string) returns (removed: bool)
      requires Valid()
      modifies this`Model, values, values.entries
      ensures Valid() && values.entries == old(values.entries)
      ensures removed <==> key in old(Model)
      ensures key !in Model && (!removed ==> Model == old(Model))
      ensures removed ==>
        var t, r := old(values.entries[..]), old(ConfigTable.FindSlot(values.entries[..], values.hash, key)).value;
        && (Model == old(Model) - {key} <==> !Crossed(t, values.hash, r))
        && (old(values.Whole()) ==> (values.Whole() <==> !Crossed(t, values.hash, r)))
    {
      ghost var t, m := values.entries[..], Model;
      removed := values.Remove(key);
      if removed {
        AnswersItsMap(values);
        Model := AnswerMap(values.entries[..], values.hash);
        SameButOne(t, values.entries[..], values.hash, key, m, Model);
      }
    }

    method NotifyWatchers(key: string, value: string)
      modifies this`called
      ensures called == old(called) + AllCalls(watchers, [Taken(key, value)], map[])
    {
      ghost var t := [Taken(key, value)];
      for w := 0 to |watchers|
        invariant called == old(called) + AllCalls(watchers[..w], t, map[])
      {
        assert watchers[..w + 1][..w] == watchers[..w];
        assert t[..0] == [] && CallsOf(w, watchers[w], t[..0], map[]) == [];
        if watchers[w] == key || watchers[w] == "" {
          called := called + [Call(w, key, value)];
        }
      }
      assert watchers[..|watchers|] == watchers;
    }

    /** load: each assignment of the file is set in turn; in a whole table that adds what the file
        says to the map. */
    method Load(text: string)
      requires Valid()
      modifies this`Model, values, values.entries
      ensures Valid() && (values.entries == old(values.entries) || fresh(values.entries))
      ensures values.Now() == LinesOnTable(Lines(text), TableReader("", old(values.Now())), values.hash).table
      ensures old(values.Whole()) ==> values.Whole() && Model == ReadText(text, old(Model))
    {
      ghost var m, whole := Model, values.Whole();
      ReadInto(text, values, m);
      AnswersItsMap(values);
      Model := if whole then ReadText(text, m) else AnswerMap(values.entries[..], values.hash);
    }

    /** reload: reads the file into a new map, tells the watchers, then replaces the map. The old
        table may be broken; the new one is whole. */
    method Reload(text: string)
      requires Valid()
      modifies this`Model, this`values, this`called
      ensures Valid() && values.Whole() && Model == ReadText(text, map[])
      ensures fresh(values) && fresh(values.entries)
      ensures called == old(called) + AllCalls(watchers, values.entries[..], old(Model))
    {
      var newValues := new CfgMap(hash);
      ReadInto(text, newValues, map[]);
      Notify(newValues);
      values := newValues;
      Model := ReadText(text, map[]);
    }

    method Notify(newValues: CfgMap)
      requires Valid() && newValues.Valid()
      modifies this`called
      ensures called == old(called) + AllCalls(watchers, newValues.entries[..], Model)
    {
      ghost var t := newValues.entries[..];
      for w := 0 to |watchers|
        invariant called == old(called) + AllCalls(watchers[..w], t, Model)
      {
        ghost var before := called;
        NotifyOne(w, newValues);
        AllCallsNext(watchers, w, t, Model);
        Joined(called, old(called), before, AllCalls(watchers[..w], t, Model), CallsOf(w, watchers[w], t, Model));
      }
      assert watchers[..|watchers|] == watchers;
    }

    method NotifyOne(w: nat, newValues: CfgMap)
      requires Valid() && newValues.Valid() && w < |watchers|
      modifies this`called
      ensures called == old(called) + CallsOf(w, watchers[w], newValues.entries[..], Model)
    {
      ghost var t := newValues.entries[..];
      for i := 0 to newValues.entries.Length
        invariant called == old(called) + CallsOf(w, watchers[w], t[..i], Model)
      {
        ghost var before := called;
        NotifyAbout(w, newValues.entries[i]);
        CallsNext(w, watchers[w], t, i, Model);
        Joined(called, old(called), before, CallsOf(w, watchers[w], t[..i], Model),
               CallAbout(w, watchers[w], t[i], Model));
      }
      assert t[..|t|] == t;
    }

    /** One slot of the new table and one watcher. */
    method NotifyAbout(w: nat, e: Slot)
      requires Valid() && w < |watchers|
      modifies this`called
      ensures called == old(called) + CallAbout(w, watchers[w], e, Model)
    {
      if e.Vacant? { return; }
      var ov := values.Get(e.key);
      if ov.None? || ov.value != e.value {
        if watchers[w] == e.key || watchers[w] == "" {
          called := called + [Call(w, e.key, e.value)];
        }
      }
    }

    /** save: the stored keys in strcmp order, duplicates and all, grouped under section headers;
        a key that answers nothing is passed over. */
    method Save() returns (text: string)
      requires Valid()
      ensures text == SaveText(Sort(KeysOf(values.entries[..])), Model, num)
    {
      var arr, n := values.AllKeys();
      text := SaveSorted(Sort(arr[..n]));
    }

    method SaveSorted(keys: seq<string>) returns (text: string)
      requires Valid()
      ensures text == SaveText(keys, Model, num)
    {
      text := "";
      var lastSection := "";
      for i := 0 to |keys|
        invariant SaveText(keys, Model, num) == text + Unlines(SaveLines(keys, Model, num, i, lastSection))
      {
        var out, last := PrintOne(keys, i, lastSection);
        text, lastSection := text + out, last;
      }
    }

    /** One turn of save's loop. */
    method PrintOne(keys: seq<string>, i: nat, lastSection: string) returns (out: string, last: string)
      requires Valid() && i < |keys|
      ensures Unlines(SaveLines(keys, Model, num, i, lastSection))
           == out + Unlines(SaveLines(keys, Model, num, i + 1, last))
    {
      out, last := "", lastSection;
      SaveTextStep(keys, Model, num, i, lastSection);
      var val := values.Get(keys[i]);
      if val.Some? { out, last := PrintEntry(i == 0, keys[i], val.value, lastSection); }
    }

    /** The body of save's printing loop. */
    method PrintEntry(first: bool, key: string, val: string, lastSection: string) returns (out: string, last: string)
      ensures out == Unlines(EntryLines(first, key, val, lastSection, num)) && last == NextLast(key, lastSection)
    {
      var dot := IndexOf(key, '.');
      out, last := OpenSection(first, key, dot, lastSection);
      var name := if dot < |key| then key[dot + 1..] else key;
      PrintedEntry(first, key, val, lastSection, num);
      out := out + (name + " = " + Print(val, num) + "\n");
    }

    /** The header, where the key's section is not the last one printed. */
    method OpenSection(first: bool, key: string, dot: nat, lastSection: string) returns (out: string, last: string)
      requires dot == IndexOf(key, '.')
      ensures out == Unlines(HeaderLines(first, key, lastSection)) && last == NextLast(key, lastSection)
    {
      out, last := "", "";
      if dot < |key| {
        last := lastSection;
        if dot != |lastSection| || key[..dot] != lastSection[..dot] {
          out := PrintHeader(first, key[..dot]);
          last := key;
        }
      }
    }

    method PrintHeader(first: bool, section: string) returns (out: string)
      ensures out == Unlines((if first then [] else [""]) + [HeaderText(section)])
    {
      out := if first then "" else "\n";
      out := out + ("[" + section + "]" + "\n");
      UnlinesAppend(if first then [] else [""], HeaderText(section));
      UnlinesAppend([], "");
    }

    /** Saving, then loading the file into an empty store: what every key answers comes back if and
        only if every entry is printable and every key without a dot is below every key with one in
        strcmp order, whatever removals have done to the table. Reloading the file gives the same
        map as loading it. */
    method SaveAndLoad() returns (other: HavelConfig)
      requires Valid()
      modifies this`Model, this`values, this`called
      ensures Valid() && other.Valid() && fresh(other)
      ensures Model == other.Model == ReadText(SaveText(Sort(KeysOf(old(values.entries[..]))), old(Model), num), map[])
      ensures Model == old(Model) <==> AllPrintable(old(Model), num) && RootsBelow(old(Model))
    {
      var text := Save();
      StoreRoundTripIff(values, Model, num);
      other := LoadNew(hash, num, text);
      Reload(text);
    }
  }

  /** load into an empty store. */
  method LoadNew(hash: string -> nat, num: Numeric, text: string) returns (c: HavelConfig)
    ensures fresh(c) && c.Valid() && c.values.Whole() && c.Model == ReadText(text, map[])
  {
    c := new HavelConfig(hash, num);
    c.Load(text);
  }

  /** Among the keys saved, a root key comes before every key of the section with its name. */
  lemma RootSavedFirst(values: CfgMap, s: string, n: string, i: nat, j: nat)
    requires var keys := Sort(KeysOf(values.entries[..]));
      i < |keys| && j < |keys| && keys[i] == s && keys[j] == s + "." + n
    ensures i < j
  {
    var keys := Sort(KeysOf(values.entries[..]));
    SortSorts(KeysOf(values.entries[..]));
    PrefixBelow(s, "." + n);
    assert s + ("." + n) == s + "." + n;
  }

  /** Saving a store and reading it back. */
  lemma StoreRoundTripIff(values: CfgMap, m: map<string, string>, num: Numeric)
    requires Answers(values, m)
    ensures ReadText(SaveText(Sort(KeysOf(values.entries[..])), m, num), map[]) == m
       <==> AllPrintable(m, num) && RootsBelow(m)
  {
    KeysCover(values, m);
    SortedRoundTripIff(Sort(KeysOf(values.entries[..])), m, num);
  }

  /** Every key that answers is among the keys collected and sorted. */
  lemma KeysCover(values: CfgMap, m: map<string, string>)
    requires Answers(values, m)
    ensures Sorted(Sort(KeysOf(values.entries[..])))
    ensures forall k :: k in m ==> k in Sort(KeysOf(values.entries[..]))
  {
    var t := values.entries[..];
    SortSorts(KeysOf(t));
    forall k | k in m ensures k in Sort(KeysOf(t)) {
      assert values.Answer(k) == Some(m[k]);
      FoundIff(t, values.hash, k, ConfigTable.FindSlot(t, values.hash, k).value);
      KeysOfMembers(t, k);
      assert k in multiset(Sort(KeysOf(t)));
    }
  }

  lemma SameButOne(t: seq<Slot>, t': seq<Slot>, hash: string -> nat, key: string, m: map<string, string>,
                   m': map<string, string>)
    requires |t| > 0 && |t'| > 0
    requires forall k :: Lookup(t, hash, k) == if k in m then Some(m[k]) else None
    requires forall k :: Lookup(t', hash, k) == if k in m' then Some(m'[k]) else None
    ensures RemovedExactly(t, t', hash, key) <==> m' == m - {key}
  {
    if RemovedExactly(t, t', hash, key) {
      forall k ensures k in m' <==> k in m - {key} {
        assert Lookup(t', hash, k) == if k == key then None else Lookup(t, hash, k);
      }
      forall k | k in m' ensures m'[k] == (m - {key})[k] {
        assert Lookup(t', hash, k) == Lookup(t, hash, k);
      }
    }
  }

  /** A printable store with a section key and a root key above it: saved and reloaded, the root
      key is inside the section. */
  method RootMovesIntoSection(hash: string -> nat, num: Numeric)
    returns (c: HavelConfig, text: string, ghost was: map<string, string>)
    ensures was == map["a.x" := "true", "b" := "true"] && AllPrintable(was, num)
    ensures text == SaveText(["a.x", "b"], was, num)
    ensures c.Valid() && c.Model == ReadText(text, map[]) == map["a.x" := "true", "a.b" := "true"] != was
  {
    c := StoreTwo(hash, num, "a.x", "b");
    was := c.Model;
    WitnessText(c.values, was, num, "a.x", "b");
    text := c.Save();
    c.Reload(text);
  }

  method StoreTwo(hash: string -> nat, num: Numeric, d: string, u: string) returns (c: HavelConfig)
    ensures fresh(c) && fresh(c.values) && fresh(c.values.entries) && c.Valid() && c.values.Whole() && c.num == num
    ensures c.Model == map[d := "true", u := "true"]
  {
    c := new HavelConfig(hash, num);
    c.SetString(d, "true");
    c.SetString(u, "true");
    assert map[][d := "true"][u := "true"] == map[d := "true", u := "true"];
  }

  lemma WitnessText(values: CfgMap, m: map<string, string>, num: Numeric, d: string, u: string)
    requires d == "a.x" && u == "b" && m == map[d := "true", u := "true"] && Holds(values, m)
    ensures Sort(KeysOf(values.entries[..])) == [d, u] && AllPrintable(m, num)
    ensures ReadText(SaveText([d, u], m, num), map[]) == map[d := "true", "a.b" := "true"] != m
  {
    SectionThenRoot(m, num, d, u);
    KeysEnumerate(values, m);
    OnlyOrder(Sort(KeysOf(values.entries[..])), m);
    assert u in m && u !in map[d := "true", "a.b" := "true"];
  }

  lemma OnlyOrder(keys: seq<string>, m: map<string, string>)
    requires Enumerates(keys, m) && Sorted(keys) && m == map["a.x" := "true", "b" := "true"]
    ensures keys == ["a.x", "b"]
  {
    assert Below("a.x", "b");
    BelowTotal("a.x", "b");
    EnumeratedSize(keys, m);
    assert keys[0] in m && keys[1] in m;
  }

  lemma WitnessKeys(d: string, u: string)
    requires d == "a.x" && u == "b"
    ensures Dotted(d) && Section(d) == "a" && Name(d) == "x" && !Dotted(u) && Name(u) == "b"
    ensures Filed(u, "a") == "a.b"
  {
    assert d[1] == '.' && d[..1] == "a" && d[2..] == "x";
    IndexIs(d, '.', 1);
    assert "a" + "." + "b" == "a.b";
  }

  lemma WitnessPrintable(key: string, name: string, num: Numeric)
    requires SingleLine(key) && Name(key) == name && |name| == 1 && (name == "x" || name == "b")
    requires Dotted(key) ==> Section(key) == "a"
    ensures Printable(key, "true", num)
  {
    assert PrintedRaw("true", num) && !Wrapped("true") && Trimmed("true", IsSpace);
    assert !IsHeader(AssignText(name, Print("true", num)));
  }

  lemma SectionThenRoot(m: map<string, string>, num: Numeric, d: string, u: string)
    requires d == "a.x" && u == "b" && m == map[d := "true", u := "true"]
    ensures AllPrintable(m, num)
    ensures ReadText(SaveText([d, u], m, num), map[]) == map[d := "true", "a.b" := "true"]
  {
    WitnessKeys(d, u);
    WitnessPrintable(d, "x", num);
    WitnessPrintable(u, "b", num);
    var keys, r := [d, u], Reader("", map[]);
    LinesAreSingle(keys, m, num, 0, "");
    LinesUnlines(SaveLines(keys, m, num, 0, ""));
    SaveReads(keys, m, num, 0, "", r);
    var r1 := FileOne(d, "true", r);
    assert r1 == Reader("a", map[d := "true"]);
    FiledInOrder(keys, m, r, r1);
  }

  lemma FiledInOrder(keys: seq<string>, m: map<string, string>, r: Reader, r1: Reader)
    requires |keys| == 2 && keys[0] in m && keys[1] in m && r1 == FileOne(keys[0], m[keys[0]], r)
    ensures FileAll(keys, m, 0, r) == FileOne(keys[1], m[keys[1]], r1)
  {
    assert FileAll(keys, m, 1, r1) == FileAll(keys, m, 2, FileOne(keys[1], m[keys[1]], r1));
  }
}
