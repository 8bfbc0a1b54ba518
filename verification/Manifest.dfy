/** The package manifest of hpkg: its writer, its parser, and exactly which manifests survive
    being written and parsed. */
module Manifest {
  import opened Text

  datatype PackageManifest = PackageManifest(name: string, version: string, description: string, author: string,
                                             license: string, dependencies: seq<string>)

  const DEFAULT: PackageManifest := PackageManifest("", "0.1.0", "", "", "MIT", [])

  /** " \t". */
  predicate IsBlank(c: char) {
    c == ' ' || c == '\t'
  }

  /** " \t\r\n". */
  predicate IsLineBlank(c: char) {
    c == ' ' || c == '\t' || c == '\r' || c == '\n'
  }

  /** `s.substr(0, s.find_last_not_of(blanks) + 1)`, leaving s alone if it has only blanks. */
  function TrimEnd(s: string, blank: Blank): string {
    if TrimRight(s, blank) == "" then s else TrimRight(s, blank)
  }

  /** `s.substr(s.find_first_not_of(blanks))`, leaving s alone if it has only blanks. */
  function TrimStart(s: string, blank: Blank): string {
    if TrimLeft(s, blank) == "" then s else TrimLeft(s, blank)
  }

  // ----- parsing -----

  datatype Parser = Parser(inDeps: bool, m: PackageManifest)

  function Unquote(v: string): (r: string)
    ensures forall c :: c in r ==> c in v
  {
    if |v| >= 2 && v[0] == '"' && v[|v| - 1] == '"' then v[1..|v| - 1] else v
  }

  function Dependency(line: string): string {
    var eq := IndexOf(line, '=');
    if eq < |line| then TrimEnd(line[..eq], IsBlank) else line
  }

  function SetField(m: PackageManifest, key: string, val: string): PackageManifest {
    if key == "name" then m.(name := val)
    else if key == "version" then m.(version := val)
    else if key == "description" then m.(description := val)
    else if key == "author" then m.(author := val)
    else if key == "license" then m.(license := val)
    else m
  }

  function KeyOf(line: string): string {
    TrimEnd(line[..IndexOf(line, '=')], IsBlank)
  }

  function ValueOf(line: string): string
    requires IndexOf(line, '=') < |line|
  {
    Unquote(TrimEnd(TrimStart(line[IndexOf(line, '=') + 1..], IsBlank), IsBlank))
  }

  function FieldLine(line: string, m: PackageManifest): PackageManifest {
    if IndexOf(line, '=') == |line| then m else SetField(m, KeyOf(line), ValueOf(line))
  }

  function ParseLine(raw: string, p: Parser): Parser {
    var start := TrimLeft(raw, IsBlank);
    if start == "" then p else
    var line := TrimEnd(start, IsLineBlank);
    if line == "" || line[0] == '#' then p
    else if line == "[package]" then p.(inDeps := false)
    else if line == "[dependencies]" then p.(inDeps := true)
    else if p.inDeps then p.(m := p.m.(dependencies := p.m.dependencies + [Dependency(line)]))
    else p.(m := FieldLine(line, p.m))
  }

  function ParseLines(lines: seq<string>, p: Parser): Parser {
    if lines == [] then p else ParseLines(lines[1..], ParseLine(lines[0], p))
  }

  function Parse(text: string): PackageManifest {
    ParseLines(Lines(text), Parser(false, DEFAULT)).m
  }

  /** parse_havel_toml on an open file. */
  method ParseToml(text: string) returns (m: PackageManifest)
    ensures m == Parse(text)
  {
    var lines := Lines(text);
    var inDeps := false;
    m := DEFAULT;
    for i := 0 to |lines|
      invariant ParseLines(lines[i..], Parser(inDeps, m)) == ParseLines(lines, Parser(false, DEFAULT))
    {
      assert lines[i..][0] == lines[i] && lines[i..][1..] == lines[i + 1..];
      var line := TrimLeft(lines[i], IsBlank);
      if line == "" { continue; }
      line := TrimEnd(line, IsLineBlank);
      if line == "" || line[0] == '#' { continue; }
      if line == "[package]" { inDeps := false; continue; }
      if line == "[dependencies]" { inDeps := true; continue; }
      if inDeps {
        var eq := IndexOf(line, '=');
        if eq < |line| {
          m := m.(dependencies := m.dependencies + [TrimEnd(line[..eq], IsBlank)]);
        } else {
          m := m.(dependencies := m.dependencies + [line]);
        }
        continue;
      }
      m := FieldLine(line, m);
    }
    assert lines[|lines|..] == [];
  }

  // ----- writing -----

  function Field(name: string, value: string): string {
    name + (" = \"" + value + "\"")
  }

  function DependencyLine(dep: string): string {
    dep + " = \"*\""
  }

  function DependencyLines(deps: seq<string>): seq<string> {
    if deps == [] then [] else [DependencyLine(deps[0])] + DependencyLines(deps[1..])
  }

  function OptionalField(name: string, value: string): seq<string> {
    if value != "" then [Field(name, value)] else []
  }

  function FieldLines(m: PackageManifest): seq<string> {
    ["[package]", Field("name", m.name), Field("version", m.version)]
    + OptionalField("description", m.description) + OptionalField("author", m.author)
    + [Field("license", m.license)]
  }

  function WriteLines(m: PackageManifest): seq<string> {
    FieldLines(m)
    + if m.dependencies != [] then ["", "[dependencies]"] + DependencyLines(m.dependencies) else []
  }

  lemma DependencyLinesAppend(deps: seq<string>, dep: string)
    ensures DependencyLines(deps + [dep]) == DependencyLines(deps) + [DependencyLine(dep)]
  {
    if deps != [] {
      assert (deps + [dep])[1..] == deps[1..] + [dep];
      DependencyLinesAppend(deps[1..], dep);
    }
  }

  /** One line sent to the file. */
  method PutLine(text: string, line: string, ghost lines: seq<string>) returns (more: string, ghost all: seq<string>)
    requires text == Unlines(lines)
    ensures more == Unlines(lines + [line]) && all == lines + [line]
  {
    more := text + line + "\n";
    all := lines + [line];
    UnlinesAppend(lines, line);
  }

  method WriteFields(m: PackageManifest) returns (text: string)
    ensures text == Unlines(FieldLines(m))
  {
    ghost var lines: seq<string> := [];
    text := "";
    text, lines := PutLine(text, "[package]", lines);
    text, lines := PutLine(text, Field("name", m.name), lines);
    text, lines := PutLine(text, Field("version", m.version), lines);
    if m.description != "" {
      text, lines := PutLine(text, Field("description", m.description), lines);
    }
    if m.author != "" {
      text, lines := PutLine(text, Field("author", m.author), lines);
    }
    text, lines := PutLine(text, Field("license", m.license), lines);
    assert lines == FieldLines(m);
  }

  /** write_havel_toml on an open file. */
  method WriteToml(m: PackageManifest) returns (text: string)
    ensures text == Unlines(WriteLines(m))
  {
    text := WriteFields(m);
    if m.dependencies == [] {
      assert WriteLines(m) == FieldLines(m);
      return;
    }
    ghost var lines := FieldLines(m);
    ghost var head := lines + ["", "[dependencies]"];
    text, lines := PutLine(text, "", lines);
    text, lines := PutLine(text, "[dependencies]", lines);
    for i := 0 to |m.dependencies|
      invariant lines == head + DependencyLines(m.dependencies[..i]) && text == Unlines(lines)
    {
      text, lines := PutLine(text, DependencyLine(m.dependencies[i]), lines);
      DependencyLinesAppend(m.dependencies[..i], m.dependencies[i]);
      assert m.dependencies[..i + 1] == m.dependencies[..i] + [m.dependencies[i]];
    }
    assert m.dependencies[..|m.dependencies|] == m.dependencies;
    assert WriteLines(m) == lines;
  }

  // ----- the round trip -----

  predicate SingleLines(m: PackageManifest) {
    && '\n' !in m.name && '\n' !in m.version && '\n' !in m.description && '\n' !in m.author && '\n' !in m.license
    && forall d :: d in m.dependencies ==> '\n' !in d
  }

  /** A dependency that is read back: the empty name is one too. */
  predicate CleanDependency(d: string) {
    '=' !in d && Trimmed(d, IsBlank) && !(d != "" && d[0] == '#')
  }

  /** What reading the line of one dependency adds to the list. */
  function ReadBack(d: string): (r: seq<string>)
    ensures |r| <= 1
  {
    var line := TrimLeft(DependencyLine(d), IsBlank);
    if line != "" && line[0] == '#' then [] else [Dependency(line)]
  }

  function ReadAllBack(deps: seq<string>): (r: seq<string>)
    ensures |r| <= |deps|
  {
    if deps == [] then [] else ReadBack(deps[0]) + ReadAllBack(deps[1..])
  }

  /** The line of a dependency always holds an '=' and ends in a quote, whatever is trimmed off. */
  lemma LineOfDependency(d: string) returns (k: nat)
    ensures k <= |d| + 1 && TrimLeft(DependencyLine(d), IsBlank) == DependencyLine(d)[k..]
    ensures !IsBlank(DependencyLine(d)[k]) && forall i :: 0 <= i < k ==> IsBlank(DependencyLine(d)[i])
  {
    var line := DependencyLine(d);
    k := LeftSlice(line, IsBlank);
    assert line[|d| + 1] == '=' && !IsBlank('=');
  }

  lemma TrimEndStops(s: string, blank: Blank)
    requires s == "" || !blank(s[0])
    ensures TrimEnd(s, blank) <= s && Trimmed(TrimEnd(s, blank), blank)
  {
    TrimRightStops(s, blank);
  }

  /** A dependency is read back exactly when it is clean. */
  lemma ReadBackIff(d: string)
    ensures ReadBack(d) == [d] <==> CleanDependency(d)
  {
    var line := DependencyLine(d);
    var k := LineOfDependency(d);
    var s := line[k..];
    var eq := IndexOf(s, '=');
    assert s[|d| + 1 - k] == '=';
    TrimEndStops(s[..eq], IsBlank);
    if CleanDependency(d) {
      assert d != "" ==> line[0] == d[0];
      if d == "" {
        assert line[0] == ' ' && line[1] == '=';
        assert s[0] == '=';
      } else {
        assert k == 0 && s == line;
        assert s[..|d| + 1] == d + " ";
        IndexIs(s, '=', |d| + 1);
        assert (d + " ")[..|d|] == d;
        assert TrimRight(d + " ", IsBlank) == d;
      }
    }
  }

  lemma {:induction false} ReadAllBackIff(deps: seq<string>)
    ensures ReadAllBack(deps) == deps <==> forall d :: d in deps ==> CleanDependency(d)
  {
    if deps != [] {
      ReadAllBackIff(deps[1..]);
      ReadBackIff(deps[0]);
      assert deps == [deps[0]] + deps[1..];
      var one, rest := ReadBack(deps[0]), ReadAllBack(deps[1..]);
      if one + rest == deps {
        assert |one| == 1;
        assert one[0] == (one + rest)[0] && rest == (one + rest)[1..];
      }
    }
  }

  lemma DependencyReads(d: string, p: Parser)
    requires p.inDeps
    ensures ParseLine(DependencyLine(d), p)
         == p.(m := p.m.(dependencies := p.m.dependencies + ReadBack(d)))
  {
    var k := LineOfDependency(d);
    var s := DependencyLine(d)[k..];
    assert s[|s| - 1] == '"';
    EndsInQuote(s);
  }

  lemma EndsInQuote(s: string)
    requires s != "" && s[|s| - 1] == '"'
    ensures TrimEnd(s, IsLineBlank) == s && s != "[package]" && s != "[dependencies]"
  {
    assert "[package]"[8] == ']' && "[dependencies]"[13] == ']';
  }

  lemma {:induction false} ParseDependencies(deps: seq<string>, p: Parser)
    requires p.inDeps
    ensures ParseLines(DependencyLines(deps), p)
         == p.(m := p.m.(dependencies := p.m.dependencies + ReadAllBack(deps)))
  {
    if deps != [] {
      DependencyReads(deps[0], p);
      ParseDependencies(deps[1..], p.(m := p.m.(dependencies := p.m.dependencies + ReadBack(deps[0]))));
    }
  }

  lemma FieldSplits(key: string, value: string)
    requires key != "" && Trimmed(key, IsBlank) && '=' !in key
    ensures IndexOf(Field(key, value), '=') == |key| + 1
    ensures Field(key, value)[..|key| + 1] == key + " "
    ensures Field(key, value)[|key| + 2..] == " " + ("\"" + value + "\"")
  {
    var line := Field(key, value);
    assert '=' !in key + " ";
    assert line[..|key| + 1] == key + " " && line[|key| + 1] == '=';
    IndexIs(line, '=', |key| + 1);
  }

  /** A written field is read back whatever its value. */
  lemma FieldReads(key: string, value: string, p: Parser)
    requires key != "" && Trimmed(key, IsBlank) && '=' !in key && key[0] != '#' && !p.inDeps
    ensures ParseLine(Field(key, value), p) == p.(m := SetField(p.m, key, value))
  {
    var line := Field(key, value);
    var quoted := "\"" + value + "\"";
    FieldSplits(key, value);
    EndsInQuote(line);
    assert line[0] == key[0];
    TrimSidePadded(key, IsBlank, ' ');
    TrimSidePadded(quoted, IsBlank, ' ');
    assert TrimEnd(quoted, IsBlank) == quoted;
    assert Unquote(quoted) == value;
  }

  // ----- lines however written -----

  /** An empty file gives the defaults. */
  lemma EmptyFile()
    ensures Parse("") == PackageManifest("", "0.1.0", "", "", "MIT", [])
  {
  }

  /** Blanks before a line, and line blanks after it, make no difference. */
  lemma PaddedLine(a: string, line: string, b: string, p: Parser)
    requires AllBlank(a, IsBlank) && AllBlank(b, IsLineBlank)
    requires line != "" && !IsBlank(line[0]) && !IsLineBlank(line[|line| - 1])
    ensures ParseLine(a + line + b, p) == ParseLine(line, p)
  {
    assert a + line + b == a + (line + b);
    TrimLeftSkips(a, line + b, IsBlank);
    TrimRightSkips(line, b, IsLineBlank);
    TrimRightStops(line, IsLineBlank);
  }

  /** Section titles, comments and empty lines. */
  lemma OtherLines(p: Parser, rest: string)
    ensures ParseLine("[package]", p) == p.(inDeps := false) && ParseLine("[dependencies]", p) == p.(inDeps := true)
    ensures ParseLine("#" + rest, p) == p && ParseLine("", p) == p
  {
    TitleLine("[package]", p);
    TitleLine("[dependencies]", p);
    CommentLine("#" + rest, p);
  }

  lemma TitleLine(line: string, p: Parser)
    requires line == "[package]" || line == "[dependencies]"
    ensures ParseLine(line, p) == p.(inDeps := line == "[dependencies]")
  {
    assert |"[package]"| == 9 && |"[dependencies]"| == 14;
    assert TrimLeft(line, IsBlank) == line && TrimRight(line, IsLineBlank) == line;
  }

  lemma CommentLine(line: string, p: Parser)
    requires line != "" && line[0] == '#'
    ensures ParseLine(line, p) == p
  {
    TrimRightStops(line, IsLineBlank);
    assert TrimEnd(line, IsLineBlank)[0] == '#';
  }

  /** What a value stands for: the text between its quotes, or the value itself without any. */
  lemma ValueKinds(v: string)
    ensures Unquote("\"" + v + "\"") == v && (v == "" || v[0] != '"' ==> Unquote(v) == v) && Unquote("\"") == "\""
  {
    assert ("\"" + v + "\"")[1..|v| + 1] == v;
  }

  /** `key = value` with blanks on either side of the equals sign, in the package section: exactly
      the field named is set. */
  lemma FieldLineReads(key: string, b: string, c: string, value: string, p: Parser)
    requires !p.inDeps && AllBlank(b, IsBlank) && AllBlank(c, IsBlank)
    requires key != "" && Trimmed(key, IsBlank) && '=' !in key && key[0] !in {'#', '[', '\r', '\n'}
    requires value != "" && !IsBlank(value[0]) && !IsLineBlank(value[|value| - 1])
    ensures var v, m := Unquote(value), p.m;
      ParseLine(key + b + "=" + c + value, p) == Parser(false,
        m.(name := if key == "name" then v else m.name, version := if key == "version" then v else m.version,
           description := if key == "description" then v else m.description,
           author := if key == "author" then v else m.author, license := if key == "license" then v else m.license))
  {
    var line := key + b + "=" + c + value;
    SplitAtEquals(key, b, c, value);
    assert line[0] == key[0];
    FieldsAre(p.m, KeyOf(line), ValueOf(line));
    PlainLine(line, p, FieldLine(line, p.m));
  }

  /** A line of the package section that is no title and no comment. */
  lemma PlainLine(line: string, p: Parser, m: PackageManifest)
    requires !p.inDeps && line != "" && !IsLineBlank(line[0]) && !IsLineBlank(line[|line| - 1])
    requires line[0] !in {'#', '['} && FieldLine(line, p.m) == m
    ensures ParseLine(line, p) == Parser(false, m)
  {
    assert TrimLeft(line, IsBlank) == line && TrimRight(line, IsLineBlank) == line;
  }

  lemma FieldsAre(m: PackageManifest, key: string, v: string)
    ensures SetField(m, key, v) ==
      m.(name := if key == "name" then v else m.name, version := if key == "version" then v else m.version,
         description := if key == "description" then v else m.description,
         author := if key == "author" then v else m.author, license := if key == "license" then v else m.license)
  {
  }

  lemma SplitAtEquals(key: string, b: string, c: string, value: string)
    requires AllBlank(b, IsBlank) && AllBlank(c, IsBlank)
    requires key != "" && Trimmed(key, IsBlank) && '=' !in key
    requires value != "" && !IsBlank(value[0]) && !IsBlank(value[|value| - 1])
    ensures var line := key + b + "=" + c + value;
      IndexOf(line, '=') < |line| && KeyOf(line) == key && ValueOf(line) == Unquote(value)
  {
    assert '=' !in b by { assert !IsBlank('='); }
    PartsAt(key + b + "=" + c + value, key + b, c + value);
    TrimRightSkips(key, b, IsBlank);
    TrimLeftSkips(c, value, IsBlank);
  }

  lemma PartsAt(line: string, before: string, after: string)
    requires line == before + "=" + after && '=' !in before
    ensures IndexOf(line, '=') == |before| && KeyOf(line) == TrimEnd(before, IsBlank)
    ensures ValueOf(line) == Unquote(TrimEnd(TrimStart(after, IsBlank), IsBlank))
  {
    assert line[..|before|] == before && line[|before|] == '=' && line[|before| + 1..] == after;
    IndexIs(line, '=', |before|);
  }

  /** In the dependency section a line adds what stands before its equals sign, or the whole line. */
  lemma DependencyLineReads(dep: string, b: string, rest: string, p: Parser)
    requires p.inDeps && AllBlank(b, IsBlank)
    requires dep != "" && Trimmed(dep, IsLineBlank) && '=' !in dep && dep[0] !in {'#', '['}
    requires rest == "" || !IsLineBlank(rest[|rest| - 1])
    ensures ParseLine(dep, p) == p.(m := p.m.(dependencies := p.m.dependencies + [dep]))
    ensures ParseLine(dep + b + "=" + rest, p) == p.(m := p.m.(dependencies := p.m.dependencies + [dep]))
  {
    var line, eq := dep + b + "=" + rest, |dep| + |b|;
    assert '=' !in b by { assert !IsBlank('='); }
    assert line[..eq] == dep + b && line[eq] == '=';
    IndexIs(line, '=', eq);
    TrimRightSkips(dep, b, IsBlank);
    assert line[0] == dep[0];
    DependencyAdds(line, p, dep);
    DependencyAdds(dep, p, dep);
  }

  lemma DependencyAdds(line: string, p: Parser, dep: string)
    requires p.inDeps && line != "" && !IsLineBlank(line[0]) && !IsLineBlank(line[|line| - 1])
    requires line[0] !in {'#', '['} && Dependency(line) == dep
    ensures ParseLine(line, p) == p.(m := p.m.(dependencies := p.m.dependencies + [dep]))
  {
    assert TrimLeft(line, IsBlank) == line && TrimRight(line, IsLineBlank) == line;
  }

  lemma {:induction false} ParseConcat(a: seq<string>, b: seq<string>, p: Parser)
    ensures ParseLines(a + b, p) == ParseLines(b, ParseLines(a, p))
  {
    if a == [] {
      assert a + b == b;
    } else {
      assert (a + b)[1..] == a[1..] + b;
      ParseConcat(a[1..], b, ParseLine(a[0], p));
    }
  }

  lemma ParseTwo(a: string, b: string, p: Parser)
    ensures ParseLines([a], p) == ParseLine(a, p)
    ensures ParseLines([a, b], p) == ParseLine(b, ParseLine(a, p))
  {
    assert [a][1..] == [] && [a, b][1..] == [b] && [b][1..] == [];
    assert ParseLines([b], ParseLine(a, p)) == ParseLines([], ParseLine(b, ParseLine(a, p)));
  }

  lemma OptionalFieldReads(key: string, value: string, p: Parser)
    requires key == "description" || key == "author"
    requires !p.inDeps
    ensures ParseLines(OptionalField(key, value), p) == if value != "" then p.(m := SetField(p.m, key, value)) else p
  {
    FieldReads(key, value, p);
    ParseTwo(Field(key, value), "", p);
  }

  lemma ParseFirst(line: string, lines: seq<string>, p: Parser)
    ensures ParseLines([line] + lines, p) == ParseLines(lines, ParseLine(line, p))
  {
    assert ([line] + lines)[1..] == lines;
  }

  lemma TitleReads(m: PackageManifest)
    ensures ParseLine("[package]", Parser(false, m)) == Parser(false, m)
  {
  }

  lemma HeadReads(m: PackageManifest)
    ensures ParseLines(["[package]", Field("name", m.name), Field("version", m.version)], Parser(false, DEFAULT))
         == Parser(false, DEFAULT.(name := m.name, version := m.version))
  {
    var p := Parser(false, DEFAULT);
    var name, version := Field("name", m.name), Field("version", m.version);
    FieldReads("name", m.name, p);
    FieldReads("version", m.version, p.(m := p.m.(name := m.name)));
    ParseTwo(name, version, p);
    TitleReads(DEFAULT);
    ParseFirst("[package]", [name, version], p);
    assert ["[package]", name, version] == ["[package]"] + [name, version];
  }

  lemma FieldLinesRead(m: PackageManifest)
    ensures ParseLines(FieldLines(m), Parser(false, DEFAULT)) == Parser(false, m.(dependencies := []))
  {
    var p := Parser(false, DEFAULT);
    var head := ["[package]", Field("name", m.name), Field("version", m.version)];
    var description, author := OptionalField("description", m.description), OptionalField("author", m.author);
    var q := Parser(false, DEFAULT.(name := m.name, version := m.version));
    var r := q.(m := q.m.(description := m.description));
    var t := r.(m := r.m.(author := m.author));
    HeadReads(m);
    OptionalFieldReads("description", m.description, q);
    OptionalFieldReads("author", m.author, r);
    FieldReads("license", m.license, t);
    ParseTwo(Field("license", m.license), "", t);
    ParseConcat(head, description, p);
    ParseConcat(head + description, author, p);
    ParseConcat(head + description + author, [Field("license", m.license)], p);
  }

  /** Reading the written lines, as lines, loses at most dependencies. */
  lemma WrittenReads(m: PackageManifest)
    ensures ParseLines(WriteLines(m), Parser(false, DEFAULT)).m
         == m.(dependencies := ReadAllBack(m.dependencies))
  {
    FieldLinesRead(m);
    if m.dependencies == [] {
      assert WriteLines(m) == FieldLines(m);
    } else {
      var p := Parser(false, m.(dependencies := []));
      var titles := ["", "[dependencies]"];
      ParseConcat(FieldLines(m), titles + DependencyLines(m.dependencies), Parser(false, DEFAULT));
      ParseConcat(titles, DependencyLines(m.dependencies), p);
      ParseTwo("", "[dependencies]", p);
      assert ParseLine("", p) == p && ParseLine("[dependencies]", p) == p.(inDeps := true);
      ParseDependencies(m.dependencies, p.(inDeps := true));
    }
  }

  lemma PartsOf(s: string, blank: Blank)
    ensures forall c :: c in TrimEnd(s, blank) ==> c in s
    ensures forall c :: c in TrimStart(s, blank) ==> c in s
  {
    TrimLeftStops(s, blank);
    TrimRightStops(s, blank);
  }

  lemma FieldLineSingle(line: string, m: PackageManifest)
    requires '\n' !in line && SingleLines(m)
    ensures SingleLines(FieldLine(line, m))
  {
    var eq := IndexOf(line, '=');
    if eq < |line| {
      var val := line[eq + 1..];
      assert '\n' !in val;
      PartsOf(val, IsBlank);
      PartsOf(TrimStart(val, IsBlank), IsBlank);
    }
  }

  lemma ParseLineSingle(raw: string, p: Parser)
    requires '\n' !in raw && SingleLines(p.m)
    ensures SingleLines(ParseLine(raw, p).m)
  {
    TrimLeftStops(raw, IsBlank);
    PartsOf(TrimLeft(raw, IsBlank), IsLineBlank);
    var line := TrimEnd(TrimLeft(raw, IsBlank), IsLineBlank);
    assert '\n' !in line;
    PartsOf(line[..IndexOf(line, '=')], IsBlank);
    FieldLineSingle(line, p.m);
  }

  /** Nothing read from a file holds a newline. */
  lemma {:induction false} ParsedSingle(lines: seq<string>, p: Parser)
    requires (forall l :: l in lines ==> '\n' !in l) && SingleLines(p.m)
    ensures SingleLines(ParseLines(lines, p).m)
  {
    if lines != [] {
      ParseLineSingle(lines[0], p);
      ParsedSingle(lines[1..], ParseLine(lines[0], p));
    }
  }

  lemma {:induction false} WrittenSingle(deps: seq<string>)
    requires forall d :: d in deps ==> '\n' !in d
    ensures forall l :: l in DependencyLines(deps) ==> '\n' !in l
  {
    if deps != [] { WrittenSingle(deps[1..]); }
  }

  lemma WrittenLines(m: PackageManifest)
    requires SingleLines(m)
    ensures forall l :: l in WriteLines(m) ==> '\n' !in l
  {
    WrittenSingle(m.dependencies);
    FieldLinesSingle(m);
  }

  lemma FieldSingle(name: string, value: string)
    requires '\n' !in name && '\n' !in value
    ensures '\n' !in Field(name, value) && forall l :: l in OptionalField(name, value) ==> '\n' !in l
  {
  }

  lemma FieldLinesSingle(m: PackageManifest)
    requires SingleLines(m)
    ensures forall l :: l in FieldLines(m) ==> '\n' !in l
  {
    FieldSingle("name", m.name);
    FieldSingle("version", m.version);
    FieldSingle("description", m.description);
    FieldSingle("author", m.author);
    FieldSingle("license", m.license);
  }

  /** What comes back of a manifest without newlines. */
  lemma ParseWritten(m: PackageManifest)
    requires SingleLines(m)
    ensures Parse(Unlines(WriteLines(m))) == m.(dependencies := ReadAllBack(m.dependencies))
  {
    WrittenLines(m);
    LinesUnlines(WriteLines(m));
    WrittenReads(m);
  }

  /** Parsing a written manifest gives it back exactly when every field is a single line and every
      dependency is clean. */
  lemma RoundTripIff(m: PackageManifest)
    ensures Parse(Unlines(WriteLines(m))) == m
       <==> SingleLines(m) && forall d :: d in m.dependencies ==> CleanDependency(d)
  {
    if SingleLines(m) {
      ParseWritten(m);
      ReadAllBackIff(m.dependencies);
    } else {
      var text := Unlines(WriteLines(m));
      LinesHaveNoNewline(text);
      ParsedSingle(Lines(text), Parser(false, DEFAULT));
    }
  }

  method WriteAndParse(m: PackageManifest) returns (back: PackageManifest)
    ensures back == m <==> SingleLines(m) && forall d :: d in m.dependencies ==> CleanDependency(d)
  {
    var text := WriteToml(m);
    back := ParseToml(text);
    RoundTripIff(m);
  }
}
