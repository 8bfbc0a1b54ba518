/** When a whole configuration survives being saved and read back, whatever its keys and values:
    exactly when every entry is printable and every root key is printed before every section. */
module ConfigRoundTrip {
  import opened Text
  import opened ConfigText
  import opened ConfigEntries
  import opened ConfigRuns
  import opened ConfigReading

  // ----- reading entry by entry -----

  /** The reader once the header of an entry, if it has one, is read. */
  function Opens(key: string, last: string, r: Reader): Reader {
    if Dotted(key) && NeedsHeader(key, last) then Apply(ParseLine(HeaderText(Section(key))), r) else r
  }

  /** How the line of an entry is read. */
  function EffectOf(key: string, value: string, num: Numeric): Effect {
    ParseLine(AssignText(Name(key), Print(value, num)))
  }

  lemma EntryReadsAs(first: bool, key: string, value: string, last: string, num: Numeric, r: Reader)
    requires SingleLine(key) && SingleLine(value)
    ensures ReadLines(EntryLines(first, key, value, last, num), r)
         == Apply(EffectOf(key, value, num), Opens(key, last, r))
  {
    var line := AssignText(Name(key), Print(value, num));
    TextIsClean(key, value, num);
    ReadLinesConcat(HeaderLines(first, key, last), [line], r);
    if Dotted(key) && NeedsHeader(key, last) {
      var header, before := HeaderText(Section(key)), if first then [] else [""];
      ReadLinesConcat(before, [header], r);
      ReadOne("", r);
      ReadOne(header, r);
    }
    ReadOne(line, Opens(key, last, r));
  }

  /** The section in which an entry is read: that of its own header, or the one open before. */
  ghost predicate SecOk(key: string, sec: string, before: string) {
    && (Dotted(key) && Section(key) != "" ==> sec == H(Section(key)))
    && (sec == before || sec == "" || Opener(key, sec))
  }

  lemma OpensSection(key: string, last: string, r: Reader)
    requires last == "" || Dotted(last)
    ensures Opens(key, last, r).values == r.values && SecOk(key, Opens(key, last, r).section, r.section)
  {
    HeaderReadsIff(Section(key));
    if Dotted(key) { HeaderOmittedIff(key, last); }
  }

  /** Line j of the run reads entry i + j. */
  ghost predicate Reads(keys: seq<string>, m: map<string, string>, num: Numeric, i: nat, r: Run, j: nat)
    requires i + j < |keys| && keys[i + j] in m
    requires j < |r.effects| == |r.secs| && |r.readers| == |r.effects| + 1
  {
    && StepAt(r, j) && r.effects[j] == EffectOf(keys[i + j], m[keys[i + j]], num)
    && SecOk(keys[i + j], r.secs[j], r.readers[j].section)
  }

  /** The run of reading the lines from entry i on. */
  ghost predicate RunsFrom(keys: seq<string>, m: map<string, string>, num: Numeric, i: nat, r: Run)
    requires i <= |keys| && forall k :: k in keys ==> k in m
  {
    && |r.secs| == |r.effects| == |keys| - i && |r.readers| == |r.effects| + 1
    && forall j: nat :: j < |keys| - i ==> Reads(keys, m, num, i, r, j)
  }

  lemma {:induction false} RunFrom(keys: seq<string>, m: map<string, string>, num: Numeric, i: nat, last: string,
                                   reader: Reader) returns (r: Run)
    requires SingleLines(m) && i <= |keys| && (forall k :: k in keys ==> k in m) && (last == "" || Dotted(last))
    ensures RunsFrom(keys, m, num, i, r) && r.readers[0] == reader
    ensures Final(r) == ReadLines(SaveLines(keys, m, num, i, last), reader).values
    decreases |keys| - i
  {
    if i == |keys| { return Run([reader], [], []); }
    var next := NextLast(keys[i], last);
    var inside, effect := Opens(keys[i], last, reader), EffectOf(keys[i], m[keys[i]], num);
    EntryFirst(keys, m, num, i, last, reader);
    OpensSection(keys[i], last, reader);
    var rest := RunFrom(keys, m, num, i + 1, next, Apply(effect, inside));
    r := WithLine(reader, inside.section, effect, rest);
    OneMoreLine(keys, m, num, i, reader, inside, rest);
  }

  lemma EntryFirst(keys: seq<string>, m: map<string, string>, num: Numeric, i: nat, last: string, reader: Reader)
    requires SingleLines(m) && i < |keys| && keys[i] in m
    ensures ReadLines(SaveLines(keys, m, num, i, last), reader)
         == ReadLines(SaveLines(keys, m, num, i + 1, NextLast(keys[i], last)),
                      Apply(EffectOf(keys[i], m[keys[i]], num), Opens(keys[i], last, reader)))
  {
    var rest := SaveLines(keys, m, num, i + 1, NextLast(keys[i], last));
    EntryReadsAs(i == 0, keys[i], m[keys[i]], last, num, reader);
    ReadLinesConcat(EntryLines(i == 0, keys[i], m[keys[i]], last, num), rest, reader);
  }

  function WithLine(reader: Reader, sec: string, effect: Effect, rest: Run): Run {
    Run([reader] + rest.readers, [sec] + rest.secs, [effect] + rest.effects)
  }

  lemma Shifted(reader: Reader, sec: string, effect: Effect, rest: Run, j: nat)
    requires 0 < j <= |rest.effects| == |rest.secs| && |rest.readers| == |rest.effects| + 1
    ensures var r := WithLine(reader, sec, effect, rest);
      && r.readers[j] == rest.readers[j - 1] && r.effects[j] == rest.effects[j - 1] && r.secs[j] == rest.secs[j - 1]
      && (StepAt(rest, j - 1) ==> StepAt(r, j))
  {
    var r := WithLine(reader, sec, effect, rest);
    assert r.readers[j + 1] == rest.readers[j - 1 + 1];
  }

  lemma OneMoreLine(keys: seq<string>, m: map<string, string>, num: Numeric, i: nat, reader: Reader, inside: Reader,
                    rest: Run)
    requires i < |keys| && (forall k :: k in keys ==> k in m) && RunsFrom(keys, m, num, i + 1, rest)
    requires inside.values == reader.values && SecOk(keys[i], inside.section, reader.section)
    requires rest.readers[0] == Apply(EffectOf(keys[i], m[keys[i]], num), inside)
    ensures var r := WithLine(reader, inside.section, EffectOf(keys[i], m[keys[i]], num), rest);
      RunsFrom(keys, m, num, i, r) && r.readers[0] == reader && Final(r) == Final(rest)
  {
    var r := WithLine(reader, inside.section, EffectOf(keys[i], m[keys[i]], num), rest);
    forall j: nat | j < |keys| - i ensures Reads(keys, m, num, i, r, j) {
      if j > 0 {
        assert Reads(keys, m, num, i + 1, rest, j - 1);
        Shifted(reader, r.secs[0], r.effects[0], rest, j);
      }
    }
  }

  // ----- if everything comes back -----

  lemma {:induction false} DistinctSize(keys: seq<string>) returns (s: set<string>)
    requires forall i, j :: 0 <= i < j < |keys| ==> keys[i] != keys[j]
    ensures |s| == |keys| && forall k :: k in s <==> k in keys
  {
    if keys == [] { return {}; }
    var n := |keys| - 1;
    s := DistinctSize(keys[..n]);
    s := s + {keys[n]};
    assert keys == keys[..n] + [keys[n]];
  }

  lemma EnumeratedSize(keys: seq<string>, m: map<string, string>)
    requires Enumerates(keys, m)
    ensures |m| == |keys|
  {
    var s := DistinctSize(keys);
    assert m.Keys == s;
  }

  lemma NameIsOk(name: string, printed: string, effect: Effect)
    requires effect == ParseLine(AssignText(name, printed)) && effect.Assign?
    ensures NameOk(name, effect.key)
  {
    ReadName(name, printed, effect.key, effect.value);
    ReadDots(name, printed, effect.key, effect.value);
    if Trimmed(name, IsSpace) && '=' !in name { CleanNameReads(name, printed, effect.key, effect.value); }
  }

  ghost predicate Restored(keys: seq<string>, m: map<string, string>, num: Numeric, r: Run) {
    Enumerates(keys, m) && RunsFrom(keys, m, num, 0, r) && Full(r) && Final(r) == m && SecsOk(keys, r)
  }

  ghost predicate SecsOk(keys: seq<string>, r: Run) {
    && |r.secs| == |r.effects| == |keys| && |r.readers| == |keys| + 1 && r.readers[0].section == ""
    && forall i: nat :: i < |keys| ==> SecOk(keys[i], r.secs[i], r.readers[i].section)
  }

  lemma {:induction false} OpenerOf(keys: seq<string>, r: Run, i: nat) returns (a: nat)
    requires SecsOk(keys, r) && Full(r) && i < |keys| && r.secs[i] != ""
    ensures a < |keys| && Opener(keys[a], r.secs[i])
  {
    assert SecOk(keys[i], r.secs[i], r.readers[i].section);
    if Opener(keys[i], r.secs[i]) { return i; }
    EachAssigns(r, i - 1);
    a := OpenerOf(keys, r, i - 1);
  }

  /** What Closed asks of line i, with the places where it is found. */
  ghost predicate LineOk(keys: seq<string>, r: Run, i: nat, place: nat, source: nat, opener: nat)
    requires i < |keys| == |r.effects| == |r.secs|
  {
    && r.effects[i].Assign? && NameOk(Name(keys[i]), r.effects[i].key)
    && place < |keys| && keys[place] == ConfigRuns.KeyRead(r, i)
    && source < |keys| && r.effects[source].Assign? && ConfigRuns.KeyRead(r, source) == keys[i]
    && (Dotted(keys[i]) && Section(keys[i]) != "" ==> r.secs[i] == H(Section(keys[i])))
    && (r.secs[i] != "" ==> opener < |keys| && Opener(keys[opener], r.secs[i]))
  }

  lemma LineIsOk(keys: seq<string>, m: map<string, string>, num: Numeric, r: Run, i: nat)
    returns (place: nat, source: nat, opener: nat)
    requires Restored(keys, m, num, r) && i < |keys|
    ensures LineOk(keys, r, i, place, source, opener)
  {
    assert Reads(keys, m, num, 0, r, i);
    EachAssigns(r, i);
    NameIsOk(Name(keys[i]), Print(m[keys[i]], num), r.effects[i]);
    StaysRead(r, i, |keys|);
    var k := ConfigRuns.KeyRead(r, i);
    assert k in keys;
    place :| 0 <= place < |keys| && keys[place] == k;
    source := ReadFrom(r, |keys|, keys[i]);
    opener := 0;
    if r.secs[i] != "" { opener := OpenerOf(keys, r, i); }
  }

  lemma {:induction false} LinesAreOk(keys: seq<string>, m: map<string, string>, num: Numeric, r: Run, n: nat)
    returns (places: seq<nat>, sources: seq<nat>, openers: seq<nat>)
    requires Restored(keys, m, num, r) && n <= |keys|
    ensures |places| == |sources| == |openers| == n
    ensures forall i :: 0 <= i < n ==> LineOk(keys, r, i, places[i], sources[i], openers[i])
  {
    if n == 0 { return [], [], []; }
    places, sources, openers := LinesAreOk(keys, m, num, r, n - 1);
    var p, s, o := LineIsOk(keys, m, num, r, n - 1);
    places, sources, openers := places + [p], sources + [s], openers + [o];
  }

  lemma ReadingOf(keys: seq<string>, m: map<string, string>, num: Numeric, r: Run) returns (w: Reading)
    requires Restored(keys, m, num, r)
    ensures w.keys == keys && w.secs == r.secs && Closed(w)
    ensures forall i :: 0 <= i < |keys| ==> r.effects[i].Assign? && w.names[i] == r.effects[i].key
  {
    var places, sources, openers := LinesAreOk(keys, m, num, r, |keys|);
    var names := seq(|keys|, i requires 0 <= i < |keys| => if r.effects[i].Assign? then r.effects[i].key else "");
    w := Reading(keys, r.secs, names, places, sources, openers);
    forall i | 0 <= i < |keys| ensures r.effects[i].Assign? && names[i] == r.effects[i].key {
      assert LineOk(keys, r, i, places[i], sources[i], openers[i]);
    }
    forall i: nat | i < |keys| ensures EntryOk(w, i) {
      assert LineOk(keys, r, i, places[i], sources[i], openers[i]);
    }
    forall i, j | 0 <= i < j < |keys| ensures places[i] != places[j] {
      assert LineOk(keys, r, i, places[i], sources[i], openers[i]);
      assert LineOk(keys, r, j, places[j], sources[j], openers[j]);
      ConfigRuns.ReadsDiffer(r, i, j);
    }
  }

  lemma RestoredIsPrintable(keys: seq<string>, m: map<string, string>, num: Numeric, r: Run, i: nat)
    requires Restored(keys, m, num, r) && SingleLines(m) && i < |keys|
    ensures Printable(keys[i], m[keys[i]], num)
  {
    var w := ReadingOf(keys, m, num, r);
    ReadAsItself(w, i);
    assert Reads(keys, m, num, 0, r, i);
    StaysRead(r, i, |keys|);
    if Dotted(keys[i]) {
      SplitKey(keys[i]);
      HeaderReadsIff(Section(keys[i]));
    }
    PrintableIff(keys[i], m[keys[i]], num);
  }

  lemma RestoredRun(keys: seq<string>, m: map<string, string>, num: Numeric) returns (r: Run)
    requires Enumerates(keys, m) && ReadText(SaveText(keys, m, num), map[]) == m
    ensures Restored(keys, m, num, r) && SingleLines(m)
  {
    ReadIsSingle(Lines(SaveText(keys, m, num)), Reader("", map[]));
    LinesAreSingle(keys, m, num, 0, "");
    LinesUnlines(SaveLines(keys, m, num, 0, ""));
    r := RunFrom(keys, m, num, 0, "", Reader("", map[]));
    EnumeratedSize(keys, m);
    forall i: nat | i < |keys| ensures StepAt(r, i) && SecOk(keys[i], r.secs[i], r.readers[i].section) {
      assert Reads(keys, m, num, 0, r, i);
    }
  }

  /** Saving and reading back gives the same map if and only if every entry is printable and every
      root key was printed before every key with a section. */
  lemma SaveRoundTripIff(keys: seq<string>, m: map<string, string>, num: Numeric)
    requires Enumerates(keys, m)
    ensures ReadText(SaveText(keys, m, num), map[]) == m <==> AllPrintable(m, num) && RootsFirst(keys)
  {
    if ReadText(SaveText(keys, m, num), map[]) == m {
      var r := RestoredRun(keys, m, num);
      forall k | k in m ensures Printable(k, m[k], num) {
        var i :| 0 <= i < |keys| && keys[i] == k;
        RestoredIsPrintable(keys, m, num, r, i);
      }
    }
    if AllPrintable(m, num) { RoundTripIff(keys, m, num); }
  }

  // ----- keys stored twice, and keys that answer nothing -----

  /** What reading the printed entries does, entry by entry. */
  function ReadEntries(keys: seq<string>, m: map<string, string>, num: Numeric, last: string, r: Reader): Reader
    decreases |keys|
  {
    if keys == [] then r
    else if keys[0] !in m then ReadEntries(keys[1..], m, num, last, r)
    else ReadEntries(keys[1..], m, num, NextLast(keys[0], last), ReadEntry(keys[0], m[keys[0]], num, last, r))
  }

  function ReadEntry(key: string, value: string, num: Numeric, last: string, r: Reader): Reader {
    Apply(EffectOf(key, value, num), Opens(key, last, r))
  }

  lemma {:induction false} SaveReadsEntries(keys: seq<string>, m: map<string, string>, num: Numeric, i: nat,
                                            last: string, r: Reader)
    requires SingleLines(m) && i <= |keys|
    ensures ReadLines(SaveLines(keys, m, num, i, last), r) == ReadEntries(keys[i..], m, num, last, r)
    decreases |keys| - i
  {
    if i < |keys| {
      assert keys[i..][0] == keys[i] && keys[i..][1..] == keys[i + 1..];
      if keys[i] in m {
        EntryFirst(keys, m, num, i, last, r);
        SaveReadsEntries(keys, m, num, i + 1, NextLast(keys[i], last), ReadEntry(keys[i], m[keys[i]], num, last, r));
      } else {
        SaveReadsEntries(keys, m, num, i + 1, last, r);
      }
    }
  }

  /** The keys of m among these, without repeating one. */
  function Distinct(keys: seq<string>, m: map<string, string>): seq<string> {
    if keys == [] then []
    else
      var rest := Distinct(keys[1..], m);
      if keys[0] in m && (rest == [] || rest[0] != keys[0]) then [keys[0]] + rest else rest
  }

  lemma {:induction false} DistinctMembers(keys: seq<string>, m: map<string, string>, k: string)
    ensures k in Distinct(keys, m) <==> k in keys && k in m
  {
    if keys != [] {
      DistinctMembers(keys[1..], m, k);
      assert keys == [keys[0]] + keys[1..];
    }
  }

  ghost predicate Rising(keys: seq<string>) {
    forall i, j :: 0 <= i < j < |keys| ==> Below(keys[i], keys[j])
  }

  lemma {:induction false} DistinctRises(keys: seq<string>, m: map<string, string>)
    requires Sorted(keys)
    ensures Rising(Distinct(keys, m))
  {
    if keys != [] {
      var rest := Distinct(keys[1..], m);
      DistinctRises(keys[1..], m);
      if rest != [] && rest[0] != keys[0] {
        DistinctMembers(keys[1..], m, rest[0]);
        var p :| 0 <= p < |keys[1..]| && keys[1..][p] == rest[0];
        assert !Below(keys[p + 1], keys[0]);
        BelowTotal(keys[0], rest[0]);
        forall j | 0 <= j < |rest| ensures Below(keys[0], rest[j]) {
          if j > 0 { BelowTransitive(keys[0], rest[0], rest[j]); }
        }
      }
    }
  }

  lemma DistinctEnumerates(keys: seq<string>, m: map<string, string>)
    requires Sorted(keys) && forall k :: k in m ==> k in keys
    ensures Enumerates(Distinct(keys, m), m) && Sorted(Distinct(keys, m))
  {
    var d := Distinct(keys, m);
    DistinctRises(keys, m);
    forall k ensures k in m <==> k in d { DistinctMembers(keys, m, k); }
    forall i, j | 0 <= i < j < |d| ensures d[i] != d[j] && !Below(d[j], d[i]) { BelowTotal(d[i], d[j]); }
  }

  /** An entry printed twice in a row is read as if printed once. */
  lemma ReadTwice(key: string, value: string, num: Numeric, last: string, r: Reader)
    requires last == "" || Dotted(last)
    ensures var next, once := NextLast(key, last), ReadEntry(key, value, num, last, r);
      NextLast(key, next) == next && ReadEntry(key, value, num, next, once) == once
  {
    var effect := EffectOf(key, value, num);
    HeaderTwice(key, last);
    OpensIs(key, last, r);
    OpensIs(key, NextLast(key, last), Apply(effect, Opens(key, last, r)));
  }

  lemma OpensIs(key: string, last: string, r: Reader)
    ensures Opens(key, last, r) == if Dotted(key) && NeedsHeader(key, last) then r.(section := H(Section(key))) else r
  {
    HeaderReadsIff(Section(key));
  }

  lemma HeaderTwice(key: string, last: string)
    requires last == "" || Dotted(last)
    ensures var next := NextLast(key, last);
      && NextLast(key, next) == next && (next == "" || Dotted(next))
      && (Dotted(key) ==> (NeedsHeader(key, next) <==> NeedsHeader(key, last)))
  {
    if Dotted(key) {
      HeaderOmittedIff(key, last);
      HeaderOmittedIff(key, NextLast(key, last));
    }
  }

  lemma {:induction false} DistinctReads(keys: seq<string>, m: map<string, string>, num: Numeric, last: string,
                                         r: Reader)
    requires last == "" || Dotted(last)
    ensures ReadEntries(keys, m, num, last, r) == ReadEntries(Distinct(keys, m), m, num, last, r)
    decreases |keys|
  {
    if keys != [] {
      var k, rest := keys[0], Distinct(keys[1..], m);
      if k !in m {
        DistinctReads(keys[1..], m, num, last, r);
      } else {
        var next, once := NextLast(k, last), ReadEntry(k, m[k], num, last, r);
        DistinctReads(keys[1..], m, num, next, once);
        if rest != [] && rest[0] == k {
          ReadTwice(k, m[k], num, last, r);
          ReadFirst(rest, m, num, next, once);
          ReadFirst(rest, m, num, last, r);
        } else {
          assert ([k] + rest)[1..] == rest;
          ReadFirst([k] + rest, m, num, last, r);
        }
      }
    }
  }

  lemma ReadFirst(keys: seq<string>, m: map<string, string>, num: Numeric, last: string, r: Reader)
    requires keys != [] && keys[0] in m
    ensures ReadEntries(keys, m, num, last, r)
         == ReadEntries(keys[1..], m, num, NextLast(keys[0], last), ReadEntry(keys[0], m[keys[0]], num, last, r))
  {
  }

  lemma TextReadsEntries(keys: seq<string>, m: map<string, string>, num: Numeric)
    requires SingleLines(m)
    ensures ReadText(SaveText(keys, m, num), map[]) == ReadEntries(keys, m, num, "", Reader("", map[])).values
  {
    LinesAreSingle(keys, m, num, 0, "");
    LinesUnlines(SaveLines(keys, m, num, 0, ""));
    SaveReadsEntries(keys, m, num, 0, "", Reader("", map[]));
    assert keys[0..] == keys;
  }

  /** For keys in strcmp order, with duplicates and with keys that are not in the map, as save finds
      them in a table that removals have broken. */
  lemma SortedRoundTripIff(keys: seq<string>, m: map<string, string>, num: Numeric)
    requires Sorted(keys) && forall k :: k in m ==> k in keys
    ensures ReadText(SaveText(keys, m, num), map[]) == m <==> AllPrintable(m, num) && RootsBelow(m)
  {
    if SingleLines(m) {
      var d := Distinct(keys, m);
      TextReadsEntries(keys, m, num);
      TextReadsEntries(d, m, num);
      DistinctReads(keys, m, num, "", Reader("", map[]));
      DistinctEnumerates(keys, m);
      SaveRoundTripIff(d, m, num);
      RootsFirstWhenSorted(d, m);
    } else {
      ReadIsSingle(Lines(SaveText(keys, m, num)), Reader("", map[]));
    }
  }
}
