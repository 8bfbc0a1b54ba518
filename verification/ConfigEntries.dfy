/** When a single entry of the configuration survives being saved and read back: exactly when it
    is printable. */
module ConfigEntries {
  import opened Text
  import opened ConfigText

  predicate AllSpace(s: string) {
    AllBlank(s, IsSpace)
  }

  lemma {:induction false} RightSlice(s: string) returns (e: nat)
    ensures e <= |s| && TrimRight(s, IsSpace) == s[..e] && AllSpace(s[e..])
    ensures e > 0 ==> !IsSpace(s[e - 1])
  {
    if s != "" && IsSpace(s[|s| - 1]) {
      e := RightSlice(s[..|s| - 1]);
      assert s[e..] == s[..|s| - 1][e..] + [s[|s| - 1]];
    } else {
      e := |s|;
    }
  }

  /** Spaces after a string make no difference to trimming. */
  lemma TrimDropsRight(s: string, b: string)
    requires AllSpace(b)
    ensures Trim(s + b, IsSpace) == Trim(s, IsSpace)
  {
    var k := LeftSlice(s, IsSpace);
    if k < |s| {
      assert s == s[..k] + s[k..] && s + b == s[..k] + (s[k..] + b);
      TrimLeftSkips(s[..k], s[k..] + b, IsSpace);
      TrimRightSkips(s[k..], b, IsSpace);
    } else {
      assert s[..k] == s && s + b == (s + b) + "" && AllSpace(s + b);
      TrimLeftSkips(s + b, "", IsSpace);
    }
  }

  lemma TrimDropsLeft(a: string, s: string)
    requires AllSpace(a)
    ensures Trim(a + s, IsSpace) == Trim(s, IsSpace)
  {
    TrimLeftSkips(a, s, IsSpace);
  }

  /** A string with a space behind it trims to itself or to something shorter. */
  lemma PaddedTrim(s: string)
    ensures |Trim(s + " ", IsSpace)| <= |s|
    ensures |Trim(s + " ", IsSpace)| == |s| ==> Trim(s + " ", IsSpace) == s
  {
    TrimDropsRight(s, " ");
    TrimKeepsIff(s, IsSpace);
    var k := LeftSlice(s, IsSpace);
    var e := RightSlice(s[k..]);
  }

  // ----- the assignment line -----

  /** Where the pieces of a printed assignment lie, whatever it is read as. */
  lemma LinePieces(name: string, printed: string) returns (k: nat, e: nat)
    ensures var line := AssignText(name, printed);
      && k <= |name| + 1 < e <= |line| && TrimLeft(line, IsSpace) == line[k..]
      && TrimRight(line[k..], IsSpace) == line[k..e] && AllSpace(line[e..])
      && AllSpace(line[..k])
  {
    var line := AssignText(name, printed);
    assert line[|name| + 1] == '=';
    k := LeftSlice(line, IsSpace);
    var r := RightSlice(line[k..]);
    e := k + r;
    assert line[k..][..r] == line[k..e] && line[k..][r..] == line[e..];
    forall i | e <= i < |line| ensures IsSpace(line[i]) { assert line[e..][i - e] == line[i]; }
  }

  /** The key read is what lies before the first '=', trimmed; if that is the printed one, the
      value read is what was printed. */
  lemma KeySlice(name: string, printed: string, key: string, value: string) returns (a: nat, b: nat)
    requires ParseLine(AssignText(name, printed)) == Assign(key, value)
    ensures a <= b <= |name| + 1 && key == Trim((name + " ")[a..b], IsSpace) && '=' !in (name + " ")[a..b]
    ensures AllSpace((name + " ")[..a])
    ensures if b == |name| + 1 then value == Unquote(Trim(printed, IsSpace)) else b < |name| && name[b] == '='
  {
    a, b := KeySliceIn(AssignText(name, printed), name + " ", name, printed, key, value);
  }

  lemma KeySliceIn(line: string, before: string, name: string, printed: string, key: string, value: string)
    returns (a: nat, b: nat)
    requires line == AssignText(name, printed) && before == name + " " && ParseLine(line) == Assign(key, value)
    ensures a <= b <= |name| + 1 && key == Trim(before[a..b], IsSpace) && '=' !in before[a..b]
    ensures AllSpace(before[..a])
    ensures if b == |name| + 1 then value == Unquote(Trim(printed, IsSpace)) else b < |name| && name[b] == '='
  {
    var k, e := LinePieces(name, printed);
    assert before <= line && line[|before|] == '=';
    a := k;
    b := AssignBefore(line, before, k, e, key, value);
    if b == |before| {
      ReadValue(name, printed, e);
    } else {
      assert before[|name|] == ' ';
    }
  }

  /** The same in the text before a known '='. */
  lemma AssignBefore(line: string, before: string, k: nat, e: nat, key: string, value: string) returns (b: nat)
    requires before <= line && k <= |before| < e <= |line| && line[|before|] == '=' && AllSpace(line[..k])
    requires TrimLeft(line, IsSpace) == line[k..] && TrimRight(line[k..], IsSpace) == line[k..e]
    requires ParseLine(line) == Assign(key, value)
    ensures k <= b <= |before| && key == Trim(before[k..b], IsSpace) && '=' !in before[k..b]
    ensures AllSpace(before[..k]) && (b < |before| ==> before[b] == '=')
    ensures value == Unquote(Trim(line[b + 1..e], IsSpace))
  {
    b := AssignPieces(line, k, e, |before|, key, value);
    PrefixSlices(line, before, k, b);
  }

  lemma PrefixSlices(s: string, before: string, a: nat, b: nat)
    requires before <= s && a <= b <= |before|
    ensures s[a..b] == before[a..b] && s[..a] == before[..a]
  {
  }

  /** Where the first '=' of a line lies, at eq or before. */
  lemma AssignPieces(line: string, k: nat, e: nat, eq: nat, key: string, value: string) returns (b: nat)
    requires k <= eq < e <= |line| && line[eq] == '='
    requires TrimLeft(line, IsSpace) == line[k..] && TrimRight(line[k..], IsSpace) == line[k..e]
    requires ParseLine(line) == Assign(key, value)
    ensures k <= b <= eq && line[b] == '=' && '=' !in line[k..b]
    ensures key == Trim(line[k..b], IsSpace) && value == Unquote(Trim(line[b + 1..e], IsSpace))
  {
    var q := line[k..e];
    var i := IndexOf(q, '=');
    assert q[eq - k] == '=';
    b := k + i;
    assert q[..i] == line[k..b] && q[i + 1..] == line[b + 1..e];
  }

  /** The key read is never longer than the name printed, and equal to it only if it has no '='
      and the whole of the printed value follows. */
  lemma ReadName(name: string, printed: string, key: string, value: string)
    requires ParseLine(AssignText(name, printed)) == Assign(key, value)
    ensures |key| <= |name| && Trimmed(key, IsSpace) && '=' !in key
    ensures |key| == |name| ==> key == name && value == Unquote(Trim(printed, IsSpace))
  {
    var a, b := KeySlice(name, printed, key, value);
    TrimKeepsIff((name + " ")[a..b], IsSpace);
    if b == |name| + 1 && a <= |name| {
      assert (name + " ")[a..b] == name[a..] + " ";
      PaddedTrim(name[a..]);
    }
  }

  lemma NoSpaceFirst(s: string, a: nat)
    requires a <= |s| && AllSpace(s[..a]) && s != "" && !IsSpace(s[0])
    ensures a == 0
  {
    forall i | 0 <= i < a ensures IsSpace(s[i]) { assert s[..a][i] == s[i]; }
  }

  /** A trimmed name without '=' is read as it stands. */
  lemma CleanNameReads(name: string, printed: string, key: string, value: string)
    requires ParseLine(AssignText(name, printed)) == Assign(key, value)
    requires Trimmed(name, IsSpace) && '=' !in name
    ensures key == name
  {
    if name == "" {
      ReadName(name, printed, key, value);
    } else {
      var a, b := KeySlice(name, printed, key, value);
      assert (name + " ")[0] == name[0];
      NoSpaceFirst(name + " ", a);
      assert (name + " ")[a..b] == name + " ";
      TrimPadded(name, IsSpace, ' ');
    }
  }

  function Dots(s: string): nat {
    multiset(s)['.']
  }

  lemma DotsOfSlice(s: string, a: nat, b: nat)
    requires a <= b <= |s|
    ensures Dots(s[a..b]) <= Dots(s)
  {
    assert s == s[..a] + s[a..b] + s[b..];
  }

  lemma DotsOfTrim(s: string)
    ensures Dots(Trim(s, IsSpace)) <= Dots(s)
  {
    var k := LeftSlice(s, IsSpace);
    var e := RightSlice(s[k..]);
    assert s[k..][..e] == s[k..k + e];
    DotsOfSlice(s, k, k + e);
  }

  /** The key read has no more dots than the name printed. */
  lemma ReadDots(name: string, printed: string, key: string, value: string)
    requires ParseLine(AssignText(name, printed)) == Assign(key, value)
    ensures Dots(key) <= Dots(name)
  {
    var a, b := KeySlice(name, printed, key, value);
    DotsOfTrim((name + " ")[a..b]);
    DotsOfSlice(name + " ", a, b);
    assert Dots(name + " ") == Dots(name);
  }

  lemma ReadValue(name: string, printed: string, e: nat)
    requires var line := AssignText(name, printed); |name| + 1 < e <= |line| && AllSpace(line[e..])
    ensures Trim(AssignText(name, printed)[|name| + 2..e], IsSpace) == Trim(printed, IsSpace)
  {
    var line := AssignText(name, printed);
    var u, b := line[|name| + 2..e], line[e..];
    assert u + b == " " + printed;
    TrimDropsRight(u, b);
    TrimDropsLeft(" ", printed);
  }

  /** A printed assignment is read back as itself exactly when name and value are printable. */
  lemma AssignReadsIff(name: string, value: string, num: Numeric)
    ensures ParseLine(AssignText(name, Print(value, num))) == Assign(name, value) <==>
      && !Wrapped(value) && (PrintedRaw(value, num) ==> Trimmed(value, IsSpace))
      && Trimmed(name, IsSpace) && '=' !in name && (name != "" ==> name[0] != '#' && name[0] != ';')
      && !IsHeader(AssignText(name, Print(value, num)))
  {
    var line := AssignText(name, Print(value, num));
    if ParseLine(line) == Assign(name, value) {
      ReadName(name, Print(value, num), name, value);
      ValueReadsIff(value, num);
      assert name != "" ==> line[0] == name[0];
      assert name != "" ==> TrimLeft(line, IsSpace) == line;
      assert IsHeader(line) ==> TrimRight(TrimLeft(line, IsSpace), IsSpace) == line;
    } else {
      if  && !Wrapped(value) && (PrintedRaw(value, num) ==> Trimmed(value, IsSpace))
          && Trimmed(name, IsSpace) && '=' !in name && (name != "" ==> name[0] != '#' && name[0] != ';')
          && !IsHeader(line)
      {
        AssignReads(name, value, num);
      }
    }
  }

  // ----- lines however written -----

  /** Spaces around a line make no difference to what it does. */
  lemma TrimmedLine(a: string, line: string, b: string)
    requires AllSpace(a) && AllSpace(b) && line != "" && Trimmed(line, IsSpace)
    ensures TrimLeft(a + line + b, IsSpace) == line + b && TrimRight(line + b, IsSpace) == line
  {
    assert a + line + b == a + (line + b);
    TrimLeftSkips(a, line + b, IsSpace);
    TrimRightSkips(line, b, IsSpace);
  }

  lemma BlankLine(a: string)
    requires AllSpace(a)
    ensures ParseLine(a) == Ignore
  {
    TrimLeftSkips(a, "", IsSpace);
    assert a + "" == a;
  }

  lemma CommentLine(a: string, mark: char, rest: string)
    requires AllSpace(a) && (mark == '#' || mark == ';')
    ensures ParseLine(a + [mark] + rest) == Ignore
  {
    assert a + [mark] + rest == a + ([mark] + rest);
    TrimLeftSkips(a, [mark] + rest, IsSpace);
  }

  /** `[section]` and `[[section]]`, with spaces anywhere. */
  lemma HeaderLine(a: string, sec: string, b: string)
    requires AllSpace(a) && AllSpace(b)
    ensures !(|sec| >= 2 && sec[0] == '[' && sec[|sec| - 1] == ']') ==>
              ParseLine(a + ("[" + sec + "]") + b) == Header(Trim(sec, IsSpace))
    ensures ParseLine(a + ("[[" + sec + "]]") + b) == Header(Trim(sec, IsSpace))
  {
    var one, two := "[" + sec + "]", "[[" + sec + "]]";
    assert one[1..|one| - 1] == sec && two[2..|two| - 2] == sec;
    BracketLine(a, one, b);
    BracketLine(a, two, b);
  }

  lemma BracketLine(a: string, line: string, b: string)
    requires AllSpace(a) && AllSpace(b) && IsHeader(line)
    ensures ParseLine(a + line + b) == Header(HeaderName(line))
  {
    TrimmedLine(a, line, b);
  }

  /** `key = value`, with spaces anywhere. */
  lemma AssignmentLine(a: string, key: string, b: string, value: string)
    requires AllSpace(a) && AllSpace(b)
    requires key != "" && Trimmed(key, IsSpace) && '=' !in key && key[0] !in {'#', ';', '['}
    ensures ParseLine(a + (key + b + "=" + value)) == Assign(key, Unquote(Trim(value, IsSpace)))
  {
    var p := key + b + "=" + value;
    TrimLeftSkips(a, p, IsSpace);
    AssignmentAfter(a + p, p, key, b, value);
  }

  lemma AssignmentAfter(line: string, p: string, key: string, b: string, value: string)
    requires AllSpace(b) && p == key + b + "=" + value && TrimLeft(line, IsSpace) == TrimLeft(p, IsSpace)
    requires key != "" && Trimmed(key, IsSpace) && '=' !in key && key[0] !in {'#', ';', '['}
    ensures ParseLine(line) == Assign(key, Unquote(Trim(value, IsSpace)))
  {
    var q := Stripped(p, key, b, value);
    ReadAssign(line, p, q, |key| + |b|, key, Trim(value, IsSpace));
  }

  lemma Stripped(p: string, key: string, b: string, value: string) returns (q: string)
    requires AllSpace(b) && p == key + b + "=" + value
    requires key != "" && Trimmed(key, IsSpace) && '=' !in key
    ensures TrimRight(p, IsSpace) == q
    ensures var eq := |key| + |b|;
      && eq < |q| && q[0] == p[0] == key[0] && IndexOf(q, '=') == eq && Trim(q[..eq], IsSpace) == key
      && Trim(q[eq + 1..], IsSpace) == Trim(value, IsSpace)
  {
    q := EndOfLine(p, |key| + |b|);
    BeforeEquals(key, b, value, |q|);
  }

  /** Spaces at the end of a line are after its '='. */
  lemma EndOfLine(p: string, eq: nat) returns (q: string)
    requires eq < |p| && p[eq] == '='
    ensures eq < |q| <= |p| && TrimRight(p, IsSpace) == q == p[..|q|] && AllSpace(p[|q|..])
  {
    var e := RightSlice(p);
    q := p[..e];
    forall i | e <= i < |p| ensures IsSpace(p[i]) { assert p[e..][i - e] == p[i]; }
  }

  lemma ReadAssign(line: string, p: string, q: string, eq: nat, key: string, value: string)
    requires TrimLeft(line, IsSpace) == TrimLeft(p, IsSpace) && TrimRight(p, IsSpace) == q
    requires p != "" && eq < |q| && q[0] == p[0] && IndexOf(q, '=') == eq && p[0] !in {'#', ';', '['} && !IsSpace(p[0])
    requires Trim(q[..eq], IsSpace) == key && Trim(q[eq + 1..], IsSpace) == value
    ensures ParseLine(line) == Assign(key, Unquote(value))
  {
    assert TrimLeft(p, IsSpace) == p;
  }

  lemma BeforeEquals(key: string, b: string, value: string, e: nat)
    requires AllSpace(b) && key != "" && Trimmed(key, IsSpace) && '=' !in key
    requires var p := key + b + "=" + value; |key| + |b| < e <= |p| && AllSpace(p[e..])
    ensures var q := (key + b + "=" + value)[..e];
      && IndexOf(q, '=') == |key| + |b| && Trim(q[..|key| + |b|], IsSpace) == key
      && Trim(q[|key| + |b| + 1..], IsSpace) == Trim(value, IsSpace)
  {
    var p, eq := key + b + "=" + value, |key| + |b|;
    assert p[..e][..eq] == key + b && p[eq] == '=' && p[eq + 1..] == value;
    NoEqualsInSpace(b);
    IndexIs(p[..e], '=', eq);
    TrimDropsRight(key, b);
    TrimKeepsIff(key, IsSpace);
    AfterEquals(p, eq, e);
  }

  lemma AfterEquals(p: string, eq: nat, e: nat)
    requires eq < e <= |p| && AllSpace(p[e..])
    ensures Trim(p[..e][eq + 1..], IsSpace) == Trim(p[eq + 1..], IsSpace)
  {
    assert p[eq + 1..e] + p[e..] == p[eq + 1..] && p[..e][eq + 1..] == p[eq + 1..e];
    TrimDropsRight(p[eq + 1..e], p[e..]);
  }

  lemma NoEqualsInSpace(b: string)
    requires AllSpace(b)
    ensures '=' !in b
  {
    assert !IsSpace('=');
  }

  /** Anything else does nothing. */
  lemma OtherLine(a: string, line: string, b: string)
    requires AllSpace(a) && AllSpace(b) && line != "" && Trimmed(line, IsSpace) && '=' !in line && line[0] != '['
    ensures ParseLine(a + line + b) == Ignore
  {
    TrimmedLine(a, line, b);
  }

  // ----- the header line -----

  /** A printed header always opens a section, never longer than the one printed. */
  lemma HeaderReadsIff(sec: string)
    ensures ParseLine(HeaderText(sec)).Header?
    ensures var s := ParseLine(HeaderText(sec)).section;
      |s| <= |sec| && (s == sec <==> Trimmed(sec, IsSpace) && !(|sec| >= 2 && IsHeader(sec)))
      && (|s| == |sec| ==> s == sec)
  {
    var p := HeaderText(sec);
    assert p[1..|p| - 1] == sec;
    TrimKeepsIff(sec, IsSpace);
    SameLengthTrim(sec);
    if |sec| >= 2 && IsHeader(sec) {
      TrimKeepsIff(p[2..|p| - 2], IsSpace);
    }
  }

  lemma SameLengthTrim(s: string)
    ensures |Trim(s, IsSpace)| == |s| ==> Trim(s, IsSpace) == s
  {
    var k := LeftSlice(s, IsSpace);
    var e := RightSlice(s[k..]);
  }

  // ----- nothing read spans a line -----

  lemma PartsOfLine(line: string)
    requires SingleLine(line)
    ensures match ParseLine(line)
      case Ignore => true
      case Header(s) => SingleLine(s)
      case Assign(k, v) => SingleLine(k) && SingleLine(v)
  {
    var p := TrimLeft(line, IsSpace);
    TrimLeftStops(line, IsSpace);
    TrimRightStops(p, IsSpace);
    var q := TrimRight(p, IsSpace);
    assert SingleLine(q);
    if q == "" {
    } else if IsHeader(q) {
      HeaderPart(q);
    } else {
      var eq := IndexOf(q, '=');
      if eq < |q| { AssignPart(q, eq); }
    }
  }

  lemma AssignPart(q: string, eq: nat)
    requires SingleLine(q) && eq < |q|
    ensures SingleLine(Trim(q[..eq], IsSpace)) && SingleLine(Unquote(Trim(q[eq + 1..], IsSpace)))
  {
    PartIsSingle(q, q[..eq]);
    PartIsSingle(q, q[eq + 1..]);
    UnquotedPart(Trim(q[eq + 1..], IsSpace));
  }

  lemma PartIsSingle(q: string, part: string)
    requires SingleLine(q) && forall c :: c in part ==> c in q
    ensures SingleLine(Trim(part, IsSpace))
  {
    TrimKeepsIff(part, IsSpace);
  }

  lemma UnquotedPart(v: string)
    requires SingleLine(v)
    ensures SingleLine(Unquote(v))
  {
  }

  lemma HeaderPart(q: string)
    requires SingleLine(q) && IsHeader(q)
    ensures SingleLine(HeaderName(q))
  {
    TrimKeepsIff(q[1..|q| - 1], IsSpace);
    if |q| >= 4 { TrimKeepsIff(q[2..|q| - 2], IsSpace); }
  }

  lemma CutIsSingle(line: string)
    ensures SingleLine(Cut(line))
  {
    var r, n := IndexOf(line, '\r'), IndexOf(line, '\n');
    var c := if r < n then r else n;
    assert '\r' !in line[..c] by { assert line[..c] <= line[..r]; }
    assert '\n' !in line[..c] by { assert line[..c] <= line[..n]; }
  }

  lemma {:induction false} ReadIsSingle(lines: seq<string>, r: Reader)
    requires SingleLine(r.section) && SingleLines(r.values)
    ensures SingleLines(ReadLines(lines, r).values)
    decreases |lines|
  {
    if lines != [] {
      CutIsSingle(lines[0]);
      PartsOfLine(Cut(lines[0]));
      ReadIsSingle(lines[1..], ReadLine(lines[0], r));
    }
  }

  // ----- one entry -----

  /** What the lines of one entry do to an empty store. */
  function OneEntry(key: string, value: string, num: Numeric): map<string, string> {
    var section := if Dotted(key) && Section(key) != "" then ParseLine(HeaderText(Section(key))) else Ignore;
    Apply(ParseLine(AssignText(Name(key), Print(value, num))), Apply(section, Reader("", map[]))).values
  }

  lemma SaveOne(key: string, value: string, num: Numeric)
    requires SingleLine(key) && SingleLine(value)
    ensures ReadText(SaveText([key], map[key := value], num), map[]) == OneEntry(key, value, num)
  {
    var m, r := map[key := value], Reader("", map[]);
    var lines := EntryLines(true, key, value, "", num);
    var line := AssignText(Name(key), Print(value, num));
    TextIsClean(key, value, num);
    assert SaveLines([key], m, num, 1, NextLast(key, "")) == [];
    assert SaveLines([key], m, num, 0, "") == lines + [] == lines;
    LinesUnlines(lines);
    if Dotted(key) && Section(key) != "" {
      var header := HeaderText(Section(key));
      HeaderReadsIff(Section(key));
      assert lines == [header] + [line];
      ReadLinesConcat([header], [line], r);
      ReadOne(header, r);
      ReadOne(line, Apply(ParseLine(header), r));
    } else {
      assert lines == [line];
      ReadOne(line, r);
    }
  }

  /** Printable is a statement about how the printed lines are read. */
  lemma PrintableIff(key: string, value: string, num: Numeric)
    requires SingleLine(key) && SingleLine(value)
    ensures Printable(key, value, num) <==>
      && ParseLine(AssignText(Name(key), Print(value, num))) == Assign(Name(key), value)
      && (Dotted(key) ==> Section(key) != "" && ParseLine(HeaderText(Section(key))) == Header(Section(key)))
  {
    AssignReadsIff(Name(key), value, num);
    HeaderReadsIff(Section(key));
  }

  /** The section in which an entry alone is read. */
  function OwnSection(key: string): string {
    if Dotted(key) && Section(key) != "" then ParsedSection(ParseLine(HeaderText(Section(key)))) else ""
  }

  function ParsedSection(e: Effect): string {
    if e.Header? then e.section else ""
  }

  lemma OneEntryIs(key: string, value: string, num: Numeric)
    ensures OneEntry(key, value, num) ==
      match ParseLine(AssignText(Name(key), Print(value, num)))
      case Assign(k, v) => map[FullKey(OwnSection(key), k) := v]
      case _ => map[]
  {
    HeaderReadsIff(Section(key));
  }

  /** Read under its own key, with its own value. */
  lemma ReadAsOwnIff(key: string, value: string, num: Numeric)
    requires SingleLine(key) && SingleLine(value)
    ensures var e := ParseLine(AssignText(Name(key), Print(value, num)));
      e.Assign? && FullKey(OwnSection(key), e.key) == key && e.value == value <==> Printable(key, value, num)
  {
    var name := Name(key);
    var e := ParseLine(AssignText(name, Print(value, num)));
    PrintableIff(key, value, num);
    HeaderReadsIff(Section(key));
    if e.Assign? {
      ReadName(name, Print(value, num), e.key, e.value);
      if Dotted(key) {
        SplitKey(key);
        SplitsBack(OwnSection(key), e.key, Section(key), name);
      }
    }
  }

  lemma OneEntryIff(key: string, value: string, num: Numeric)
    requires SingleLine(key) && SingleLine(value)
    ensures OneEntry(key, value, num) == map[key := value] <==> Printable(key, value, num)
  {
    var e := ParseLine(AssignText(Name(key), Print(value, num)));
    OneEntryIs(key, value, num);
    ReadAsOwnIff(key, value, num);
    if e.Assign? { SingletonMaps(FullKey(OwnSection(key), e.key), e.value, key, value); }
    assert key in map[key := value];
  }

  lemma SingletonMaps(k: string, v: string, key: string, value: string)
    ensures map[k := v] == map[key := value] <==> k == key && v == value
  {
    if map[k := v] == map[key := value] {
      assert key in map[k := v];
      assert map[k := v][key] == value;
    }
  }

  lemma SplitsBack(s: string, k: string, sec: string, name: string)
    requires |s| <= |sec| && |k| <= |name|
    requires |s| == |sec| ==> s == sec
    requires |k| == |name| ==> k == name
    ensures FullKey(s, k) == sec + "." + name <==> s != "" && s == sec && k == name
  {
  }

  /** Saving one entry and reading it back gives it back if and only if it is printable. */
  lemma EntryRoundTripIff(key: string, value: string, num: Numeric)
    ensures ReadText(SaveText([key], map[key := value], num), map[]) == map[key := value]
       <==> Printable(key, value, num)
  {
    if SingleLine(key) && SingleLine(value) {
      SaveOne(key, value, num);
      OneEntryIff(key, value, num);
    } else {
      ReadIsSingle(Lines(SaveText([key], map[key := value], num)), Reader("", map[]));
      assert key in map[key := value] && map[key := value][key] == value;
    }
  }
}
