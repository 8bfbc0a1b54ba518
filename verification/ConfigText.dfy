/** The configuration file format: what one line means, what save prints, and when reading back
    what was printed gives the same map. */
module ConfigText {
  import opened Text

  /** isspace in the C locale. */
  predicate IsSpace(c: char) {
    c == ' ' || '\t' <= c <= '\r'
  }

  /** Whether strtod accepts the whole of a non-empty value. */
  type Numeric = string -> bool

  // ----- reading -----

  datatype Effect = Ignore | Header(section: string) | Assign(key: string, value: string)

  predicate Wrapped(v: string) {
    |v| >= 2 && ((v[0] == '"' && v[|v| - 1] == '"') || (v[0] == '\'' && v[|v| - 1] == '\''))
  }

  function Unquote(v: string): string {
    if Wrapped(v) then v[1..|v| - 1] else v
  }

  /** `[name]` or `[[name]]`. */
  predicate IsHeader(p: string) {
    |p| >= 2 && p[0] == '[' && p[|p| - 1] == ']'
  }

  function HeaderName(p: string): string
    requires IsHeader(p)
  {
    if p[1] == '[' && p[|p| - 2] == ']' && |p| >= 4 then Trim(p[2..|p| - 2], IsSpace) else Trim(p[1..|p| - 1], IsSpace)
  }

  /** What a line without its line end does. */
  function ParseLine(line: string): Effect {
    var p := TrimLeft(line, IsSpace);
    if p == "" || p[0] == '#' || p[0] == ';' then Ignore else
    var q := TrimRight(p, IsSpace);
    if q == "" then Ignore
    else if IsHeader(q) then Header(HeaderName(q))
    else
      var eq := IndexOf(q, '=');
      if eq == |q| then Ignore
      else Assign(Trim(q[..eq], IsSpace), Unquote(Trim(q[eq + 1..], IsSpace)))
  }

  /** `line[strcspn(line, "\r\n")] = '\0'`. */
  function Cut(line: string): string {
    line[..if IndexOf(line, '\r') < IndexOf(line, '\n') then IndexOf(line, '\r') else IndexOf(line, '\n')]
  }

  datatype Reader = Reader(section: string, values: map<string, string>)

  function FullKey(section: string, key: string): string {
    if section != "" then section + "." + key else key
  }

  function Apply(e: Effect, r: Reader): Reader {
    match e
    case Ignore => r
    case Header(section) => r.(section := section)
    case Assign(key, value) => r.(values := r.values[FullKey(r.section, key) := value])
  }

  function ReadLine(line: string, r: Reader): Reader {
    Apply(ParseLine(Cut(line)), r)
  }

  function ReadLines(lines: seq<string>, r: Reader): Reader {
    if lines == [] then r else ReadLines(lines[1..], ReadLine(lines[0], r))
  }

  function ReadText(text: string, values: map<string, string>): map<string, string> {
    ReadLines(Lines(text), Reader("", values)).values
  }

  // ----- printing -----

  predicate PrintedRaw(v: string, num: Numeric) {
    || v == "true" || v == "false" || (v != "" && num(v)) || Wrapped(v)
    || (v != "" && (v[0] == '[' || v[0] == '{'))
  }

  function Print(v: string, num: Numeric): string {
    if PrintedRaw(v, num) then v else "\"" + v + "\""
  }

  predicate Dotted(key: string) {
    '.' in key
  }

  /** The part before the first dot. */
  function Section(key: string): string {
    key[..IndexOf(key, '.')]
  }

  function Name(key: string): string {
    if Dotted(key) then key[IndexOf(key, '.') + 1..] else key
  }

  /** save's test for a new section. `last` is the whole key that printed the last header. */
  predicate NeedsHeader(key: string, last: string) {
    var secLen := IndexOf(key, '.');
    secLen != |last| || key[..secLen] != last[..secLen]
  }

  function AssignText(name: string, printed: string): string {
    name + " = " + printed
  }

  function HeaderText(section: string): string {
    "[" + section + "]"
  }

  function HeaderLines(first: bool, key: string, last: string): seq<string> {
    if Dotted(key) && NeedsHeader(key, last) then (if first then [] else [""]) + [HeaderText(Section(key))] else []
  }

  function EntryLines(first: bool, key: string, value: string, last: string, num: Numeric): seq<string> {
    HeaderLines(first, key, last) + [AssignText(Name(key), Print(value, num))]
  }

  function NextLast(key: string, last: string): string {
    if !Dotted(key) then "" else if NeedsHeader(key, last) then key else last
  }

  /** The lines save prints from keys[i] on. */
  function SaveLines(keys: seq<string>, m: map<string, string>, num: Numeric, i: nat, last: string): seq<string>
    requires i <= |keys|
    decreases |keys| - i
  {
    if i == |keys| then []
    else if keys[i] !in m then SaveLines(keys, m, num, i + 1, last)
    else EntryLines(i == 0, keys[i], m[keys[i]], last, num) + SaveLines(keys, m, num, i + 1, NextLast(keys[i], last))
  }

  function SaveText(keys: seq<string>, m: map<string, string>, num: Numeric): string {
    Unlines(SaveLines(keys, m, num, 0, ""))
  }

  /** save repeats the header for every dotted key: the test compares a section with a whole key.
      It leaves the header out only for a key with an empty section while none is open. */
  lemma HeaderOmittedIff(key: string, last: string)
    requires Dotted(key) && (last == "" || Dotted(last))
    ensures !NeedsHeader(key, last) <==> Section(key) == "" && last == ""
  {
    var secLen := IndexOf(key, '.');
    if !NeedsHeader(key, last) {
      assert last == last[..secLen];
      assert '.' !in key[..secLen];
    }
  }

  /** A value survives printing and reading exactly when it is not already wrapped in quotes and,
      if it is printed as it stands, has no blank at either end. */
  lemma ValueReadsIff(v: string, num: Numeric)
    ensures Unquote(Trim(Print(v, num), IsSpace)) == v <==> !Wrapped(v) && (PrintedRaw(v, num) ==> Trimmed(v, IsSpace))
  {
    TrimKeepsIff(Print(v, num), IsSpace);
    TrimKeepsIff(v, IsSpace);
    if !PrintedRaw(v, num) {
      assert ("\"" + v + "\"")[1..|v| + 1] == v;
    }
  }

  predicate SingleLine(s: string) {
    '\n' !in s && '\r' !in s
  }

  /** The condition on one entry under which its own lines read back. */
  predicate Printable(key: string, value: string, num: Numeric) {
    && SingleLine(key) && SingleLine(value)
    && !Wrapped(value) && (PrintedRaw(value, num) ==> Trimmed(value, IsSpace))
    && (var name := Name(key);
        && Trimmed(name, IsSpace) && '=' !in name
        && (name != "" ==> name[0] != '#' && name[0] != ';')
        && !IsHeader(AssignText(name, Print(value, num))))
    && (Dotted(key) ==>
          var sec := Section(key);
          sec != "" && Trimmed(sec, IsSpace) && !(|sec| >= 2 && IsHeader(sec)))
  }

  /** Printed as they stand: booleans, numbers, what is already in quotes, and what opens a bracket
      or a brace. Everything else is put in quotes. */
  lemma PrintKinds(v: string, num: Numeric)
    ensures Print(v, num) == v <==>
      || v == "true" || v == "false" || (v != "" && num(v))
      || (|v| >= 2 && v[0] == '"' && v[|v| - 1] == '"') || (|v| >= 2 && v[0] == '\'' && v[|v| - 1] == '\'')
      || (v != "" && v[0] in {'[', '{'})
    ensures Print(v, num) != v ==> Print(v, num) == "\"" + v + "\""
  {
  }

  /** Quotes of either kind are taken off, when they match. */
  lemma UnquoteKinds(v: string)
    ensures Unquote("\"" + v + "\"") == v && Unquote("'" + v + "'") == v
    ensures Unquote("\"" + v + "'") == "\"" + v + "'" && Unquote("'" + v + "\"") == "'" + v + "\""
    ensures v != "" && v[0] !in {'"', '\''} ==> Unquote(v) == v
    ensures |v| < 2 ==> Unquote(v) == v
  {
    assert ("\"" + v + "\"")[1..|v| + 1] == v && ("'" + v + "'")[1..|v| + 1] == v;
  }

  /** The characters that isspace takes in the C locale. */
  lemma SpaceKinds(c: char)
    ensures IsSpace(c) <==> c as int in {32, 9, 10, 11, 12, 13}
  {
  }

  /** A line ends at its first carriage return or newline. */
  lemma CutKinds(s: string, rest: string)
    requires SingleLine(s)
    ensures Cut(s + "\r" + rest) == s && Cut(s + "\n" + rest) == s
  {
    var a, b := s + "\r" + rest, s + "\n" + rest;
    assert a[..|s|] == s && b[..|s|] == s;
    IndexIs(a, '\r', |s|);
    IndexIs(b, '\n', |s|);
  }

  /** What a line does to the reader: an assignment goes under the open section. */
  lemma ApplyKinds(r: Reader, section: string, key: string, value: string)
    ensures Apply(Header(section), r) == Reader(section, r.values) && Apply(Ignore, r) == r
    ensures r.section == "" ==> Apply(Assign(key, value), r) == Reader("", r.values[key := value])
    ensures r.section != "" ==>
      Apply(Assign(key, value), r) == Reader(r.section, r.values[r.section + "." + key := value])
  {
  }

  lemma CutKeeps(line: string)
    requires SingleLine(line)
    ensures Cut(line) == line
  {
  }

  lemma HeaderReads(sec: string)
    requires sec != "" && Trimmed(sec, IsSpace) && !(|sec| >= 2 && IsHeader(sec))
    ensures ParseLine(HeaderText(sec)) == Header(sec)
  {
    var p := HeaderText(sec);
    assert p[1..|p| - 1] == sec;
    TrimKeepsIff(sec, IsSpace);
  }

  /** A trimmed line with the first `=` at eq. */
  lemma AssignLine(q: string, name: string, v: string, left: string)
    requires q == left + "=" + (" " + v) && '=' !in left && Trimmed(q, IsSpace) && !IsHeader(q)
    requires q[0] != '#' && q[0] != ';'
    requires Trim(left, IsSpace) == name && Trimmed(v, IsSpace)
    ensures ParseLine(q) == Assign(name, Unquote(v))
  {
    TrimKeepsIff(q, IsSpace);
    assert q[..|left|] == left && q[|left| + 1..] == " " + v;
    IndexIs(q, '=', |left|);
    TrimPadded(v, IsSpace, ' ');
  }

  lemma NamelessLine(v: string)
    requires v != "" && Trimmed(v, IsSpace)
    ensures ParseLine(AssignText("", v)) == Assign("", Unquote(v))
  {
    var line := AssignText("", v);
    assert line[1..] == "" + "=" + (" " + v);
    assert TrimLeft(line, IsSpace) == TrimLeft(line[1..], IsSpace);
    AssignLine(line[1..], "", v, "");
  }

  lemma NamedLine(name: string, v: string)
    requires name != "" && Trimmed(name, IsSpace) && '=' !in name && name[0] != '#' && name[0] != ';'
    requires v != "" && Trimmed(v, IsSpace) && !IsHeader(AssignText(name, v))
    ensures ParseLine(AssignText(name, v)) == Assign(name, Unquote(v))
  {
    TrimPadded(name, IsSpace, ' ');
    assert AssignText(name, v) == (name + " ") + "=" + (" " + v);
    AssignLine(AssignText(name, v), name, v, name + " ");
  }

  lemma AssignReads(name: string, value: string, num: Numeric)
    requires Trimmed(name, IsSpace) && '=' !in name && (name != "" ==> name[0] != '#' && name[0] != ';')
    requires !Wrapped(value) && (PrintedRaw(value, num) ==> Trimmed(value, IsSpace))
    requires !IsHeader(AssignText(name, Print(value, num)))
    ensures ParseLine(AssignText(name, Print(value, num))) == Assign(name, value)
  {
    var v := Print(value, num);
    ValueReadsIff(value, num);
    TrimKeepsIff(v, IsSpace);
    if name == "" { NamelessLine(v); } else { NamedLine(name, v); }
  }

  // ----- reading back what save printed -----

  /** The key under which the line of `key` is read back in a given section. */
  function Filed(key: string, section: string): string {
    if Dotted(key) then key else FullKey(section, key)
  }

  function SectionAfter(key: string, section: string): string {
    if Dotted(key) then Section(key) else section
  }

  function FileOne(key: string, value: string, r: Reader): Reader {
    Reader(SectionAfter(key, r.section), r.values[Filed(key, r.section) := value])
  }

  lemma {:induction false} ReadLinesConcat(a: seq<string>, b: seq<string>, r: Reader)
    ensures ReadLines(a + b, r) == ReadLines(b, ReadLines(a, r))
  {
    if a == [] {
      assert a + b == b;
    } else {
      assert (a + b)[0] == a[0] && (a + b)[1..] == a[1..] + b;
      ReadLinesConcat(a[1..], b, ReadLine(a[0], r));
    }
  }

  lemma TextIsClean(key: string, value: string, num: Numeric)
    requires SingleLine(key) && SingleLine(value)
    ensures SingleLine(AssignText(Name(key), Print(value, num))) && SingleLine(HeaderText(Section(key)))
  {
    assert SingleLine(Name(key)) && SingleLine(Section(key)) && SingleLine(Print(value, num));
  }

  lemma ReadOne(line: string, r: Reader)
    requires SingleLine(line)
    ensures ReadLines([line], r) == Apply(ParseLine(line), r)
  {
    CutKeeps(line);
    assert [line][1..] == [];
  }

  lemma SectionReads(first: bool, header: string, line: string, sec: string, name: string, value: string, r: Reader)
    requires SingleLine(header) && ParseLine(header) == Header(sec)
    requires SingleLine(line) && ParseLine(line) == Assign(name, value)
    ensures ReadLines((if first then [] else [""]) + [header] + [line], r)
      == Reader(sec, r.values[FullKey(sec, name) := value])
  {
    var before := if first then [] else [""];
    ReadLinesConcat(before + [header], [line], r);
    ReadLinesConcat(before, [header], r);
    ReadOne("", r);
    ReadOne(header, r);
    ReadOne(line, r.(section := sec));
  }

  lemma SplitKey(key: string)
    requires Dotted(key)
    ensures key == Section(key) + "." + Name(key) && '.' !in Section(key)
  {
  }

  lemma EntryReads(first: bool, key: string, value: string, last: string, num: Numeric, r: Reader)
    requires Printable(key, value, num) && (last == "" || Dotted(last))
    ensures ReadLines(EntryLines(first, key, value, last, num), r) == FileOne(key, value, r)
  {
    var line := AssignText(Name(key), Print(value, num));
    TextIsClean(key, value, num);
    AssignReads(Name(key), value, num);
    if Dotted(key) {
      HeaderOmittedIff(key, last);
      HeaderReads(Section(key));
      SectionReads(first, HeaderText(Section(key)), line, Section(key), Name(key), value, r);
      SplitKey(key);
    } else {
      assert EntryLines(first, key, value, last, num) == [line];
      ReadOne(line, r);
    }
  }

  /** Reading save's lines back files each key under the section left open by the dotted keys
      before it. */
  function FileAll(keys: seq<string>, m: map<string, string>, i: nat, r: Reader): Reader
    requires i <= |keys|
    decreases |keys| - i
  {
    if i == |keys| then r
    else if keys[i] !in m then FileAll(keys, m, i + 1, r)
    else FileAll(keys, m, i + 1, FileOne(keys[i], m[keys[i]], r))
  }

  ghost predicate AllPrintable(m: map<string, string>, num: Numeric) {
    forall k :: k in m ==> Printable(k, m[k], num)
  }

  lemma {:induction false} SaveReads(keys: seq<string>, m: map<string, string>, num: Numeric, i: nat, last: string,
                                     r: Reader)
    requires AllPrintable(m, num) && i <= |keys| && (last == "" || Dotted(last))
    ensures ReadLines(SaveLines(keys, m, num, i, last), r) == FileAll(keys, m, i, r)
    decreases |keys| - i
  {
    if i < |keys| && keys[i] in m {
      var k := keys[i];
      var next, after := NextLast(k, last), FileOne(k, m[k], r);
      SaveReads(keys, m, num, i + 1, next, after);
      EntryThenRest(i == 0, k, m[k], last, num, SaveLines(keys, m, num, i + 1, next), r);
    } else if i < |keys| {
      SaveReads(keys, m, num, i + 1, last, r);
    }
  }

  lemma EntryThenRest(first: bool, key: string, value: string, last: string, num: Numeric, rest: seq<string>, r: Reader)
    requires Printable(key, value, num) && (last == "" || Dotted(last))
    ensures ReadLines(EntryLines(first, key, value, last, num) + rest, r) == ReadLines(rest, FileOne(key, value, r))
  {
    EntryReads(first, key, value, last, num, r);
    ReadLinesConcat(EntryLines(first, key, value, last, num), rest, r);
  }

  /** No key or value holds a line end. */
  ghost predicate SingleLines(m: map<string, string>) {
    forall k :: k in m ==> SingleLine(k) && SingleLine(m[k])
  }

  lemma {:induction false} LinesAreSingle(keys: seq<string>, m: map<string, string>, num: Numeric, i: nat,
                                          last: string)
    requires SingleLines(m) && i <= |keys|
    ensures forall l :: l in SaveLines(keys, m, num, i, last) ==> '\n' !in l
    decreases |keys| - i
  {
    if i < |keys| {
      if keys[i] in m {
        TextIsClean(keys[i], m[keys[i]], num);
        LinesAreSingle(keys, m, num, i + 1, NextLast(keys[i], last));
      } else {
        LinesAreSingle(keys, m, num, i + 1, last);
      }
    }
  }

  /** keys lists the keys of m, each once. */
  ghost predicate Enumerates(keys: seq<string>, m: map<string, string>) {
    && (forall k :: k in m <==> k in keys)
    && forall i, j :: 0 <= i < j < |keys| ==> keys[i] != keys[j]
  }

  /** Every key without a dot comes before every key with one. */
  ghost predicate RootsFirst(keys: seq<string>) {
    forall i, j :: 0 <= i < j < |keys| && Dotted(keys[i]) ==> Dotted(keys[j])
  }

  lemma {:induction false} RootsFirstFiles(keys: seq<string>, m: map<string, string>, i: nat, r: Reader)
    requires Enumerates(keys, m) && RootsFirst(keys) && i <= |keys|
    requires r.section == "" || forall j :: i <= j < |keys| ==> Dotted(keys[j])
    requires forall k :: k in r.values <==> k in keys[..i]
    requires forall k :: k in r.values ==> r.values[k] == m[k]
    ensures FileAll(keys, m, i, r).values == m
    decreases |keys| - i
  {
    if i < |keys| {
      var k := keys[i];
      assert k in m && keys[..i + 1] == keys[..i] + [k];
      assert FileOne(k, m[k], r).values == r.values[k := m[k]];
      RootsFirstFiles(keys, m, i + 1, FileOne(k, m[k], r));
    } else {
      assert keys[..i] == keys;
    }
  }

  ghost predicate SectionsNamed(m: map<string, string>) {
    forall k :: k in m && Dotted(k) ==> Section(k) != ""
  }

  lemma FiledElsewhere(k: string, section: string, u: string)
    requires !Dotted(u) && (section != "" || k != u)
    ensures Filed(k, section) != u
  {
    if !Dotted(k) && section != "" {
      assert Filed(k, section)[|section|] == '.';
    }
  }

  /** A root key read while a section is open is filed under that section, so the key itself is
      missing afterwards. */
  lemma {:induction false} LateRootIsLost(keys: seq<string>, m: map<string, string>, i: nat, r: Reader, b: nat)
    requires Enumerates(keys, m) && SectionsNamed(m) && i <= |keys| && b < |keys| && !Dotted(keys[b])
    requires r.section != "" || b < i || exists a :: i <= a < b && Dotted(keys[a])
    requires keys[b] !in r.values
    ensures keys[b] !in FileAll(keys, m, i, r).values
    decreases |keys| - i
  {
    if i < |keys| {
      assert keys[i] in m;
      FiledElsewhere(keys[i], r.section, keys[b]);
      LateRootIsLost(keys, m, i + 1, FileOne(keys[i], m[keys[i]], r), b);
    }
  }

  /** Saving and reading back gives the same map if and only if every root key was printed before
      every key with a section, for any map whose entries are printable. */
  lemma RoundTripIff(keys: seq<string>, m: map<string, string>, num: Numeric)
    requires Enumerates(keys, m) && AllPrintable(m, num)
    ensures ReadText(SaveText(keys, m, num), map[]) == m <==> RootsFirst(keys)
  {
    var r := Reader("", map[]);
    LinesAreSingle(keys, m, num, 0, "");
    LinesUnlines(SaveLines(keys, m, num, 0, ""));
    SaveReads(keys, m, num, 0, "", r);
    if RootsFirst(keys) {
      RootsFirstFiles(keys, m, 0, r);
    } else {
      assert forall k :: k in m && Dotted(k) ==> Printable(k, m[k], num);
      var a, b :| 0 <= a < b < |keys| && Dotted(keys[a]) && !Dotted(keys[b]);
      LateRootIsLost(keys, m, 0, r, b);
      assert keys[b] in m;
    }
  }

  /** Every key without a dot is below every key with one. */
  ghost predicate RootsBelow(m: map<string, string>) {
    forall u, d :: u in m && d in m && !Dotted(u) && Dotted(d) ==> Below(u, d)
  }

  /** For keys in strcmp order the condition is about the keys alone. */
  lemma RootsFirstWhenSorted(keys: seq<string>, m: map<string, string>)
    requires Enumerates(keys, m) && Sorted(keys)
    ensures RootsFirst(keys) <==> RootsBelow(m)
  {
    if RootsFirst(keys) {
      forall u, d | u in m && d in m && !Dotted(u) && Dotted(d) ensures Below(u, d) {
        var i :| 0 <= i < |keys| && keys[i] == u;
        var j :| 0 <= j < |keys| && keys[j] == d;
        BelowTotal(u, d);
      }
    }
    if RootsBelow(m) {
      forall i, j | 0 <= i < j < |keys| && Dotted(keys[i]) ensures Dotted(keys[j]) {
        assert keys[i] in m && keys[j] in m;
      }
    }
  }
}
