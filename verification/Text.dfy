/** Strings as the two text formats of the repository see them: trimming, searching, splitting
    into lines. */
module Text {

  type Blank = char -> bool

  function TrimLeft(s: string, blank: Blank): string {
    if s != "" && blank(s[0]) then TrimLeft(s[1..], blank) else s
  }

  function TrimRight(s: string, blank: Blank): string {
    if s != "" && blank(s[|s| - 1]) then TrimRight(s[..|s| - 1], blank) else s
  }

  function Trim(s: string, blank: Blank): string {
    TrimRight(TrimLeft(s, blank), blank)
  }

  predicate Trimmed(s: string, blank: Blank) {
    s == "" || (!blank(s[0]) && !blank(s[|s| - 1]))
  }

  lemma {:induction false} TrimLeftStops(s: string, blank: Blank)
    ensures TrimLeft(s, blank) == "" || !blank(TrimLeft(s, blank)[0])
    ensures TrimLeft(s, blank) == "" || TrimLeft(s, blank)[|TrimLeft(s, blank)| - 1] == s[|s| - 1]
    ensures |TrimLeft(s, blank)| <= |s|
    ensures forall c :: c in TrimLeft(s, blank) ==> c in s
  {
    if s != "" && blank(s[0]) { TrimLeftStops(s[1..], blank); }
  }

  lemma {:induction false} TrimRightStops(s: string, blank: Blank)
    ensures TrimRight(s, blank) == "" || !blank(TrimRight(s, blank)[|TrimRight(s, blank)| - 1])
    ensures TrimRight(s, blank) <= s
    ensures s != "" && !blank(s[0]) ==> TrimRight(s, blank) != ""
  {
    if s != "" && blank(s[|s| - 1]) { TrimRightStops(s[..|s| - 1], blank); }
  }

  /** Trimming on the left takes off a run of blanks. */
  lemma {:induction false} LeftSlice(s: string, blank: Blank) returns (k: nat)
    ensures k <= |s| && TrimLeft(s, blank) == s[k..] && (forall i :: 0 <= i < k ==> blank(s[i]))
    ensures k < |s| ==> !blank(s[k])
  {
    if s != "" && blank(s[0]) {
      k := LeftSlice(s[1..], blank);
      assert forall i :: 0 < i < k + 1 ==> s[i] == s[1..][i - 1];
      k := k + 1;
    } else {
      k := 0;
    }
  }

  predicate AllBlank(s: string, blank: Blank) {
    forall i :: 0 <= i < |s| ==> blank(s[i])
  }

  lemma {:induction false} TrimLeftSkips(a: string, s: string, blank: Blank)
    requires AllBlank(a, blank)
    ensures TrimLeft(a + s, blank) == TrimLeft(s, blank)
  {
    if a == "" {
      assert a + s == s;
    } else {
      assert (a + s)[0] == a[0] && (a + s)[1..] == a[1..] + s;
      TrimLeftSkips(a[1..], s, blank);
    }
  }

  lemma {:induction false} TrimRightSkips(s: string, b: string, blank: Blank)
    requires AllBlank(b, blank)
    ensures TrimRight(s + b, blank) == TrimRight(s, blank)
  {
    if b == "" {
      assert s + b == s;
    } else {
      var n := |b| - 1;
      assert (s + b)[|s + b| - 1] == b[n] && (s + b)[..|s + b| - 1] == s + b[..n];
      TrimRightSkips(s, b[..n], blank);
    }
  }

  /** Trimming keeps a string exactly when it has no blank at either end. */
  lemma TrimKeepsIff(s: string, blank: Blank)
    ensures Trim(s, blank) == s <==> Trimmed(s, blank)
    ensures Trimmed(Trim(s, blank), blank) && |Trim(s, blank)| <= |s|
    ensures forall c :: c in Trim(s, blank) ==> c in s
  {
    TrimLeftStops(s, blank);
    TrimRightStops(TrimLeft(s, blank), blank);
  }

  lemma TrimSidePadded(s: string, blank: Blank, c: char)
    requires Trimmed(s, blank) && blank(c)
    ensures TrimLeft([c] + s, blank) == s && TrimRight(s + [c], blank) == s
  {
    assert ([c] + s)[1..] == s && (s + [c])[..|s|] == s;
  }

  /** Blanks added around a trimmed string are trimmed off. */
  lemma TrimPadded(s: string, blank: Blank, c: char)
    requires Trimmed(s, blank) && blank(c)
    ensures Trim([c] + s, blank) == s && Trim(s + [c], blank) == s
  {
    assert ([c] + s)[1..] == s && (s + [c])[..|s|] == s;
    TrimKeepsIff(s, blank);
    if s == "" { assert [c] + s == [c] && s + [c] == [c] && [c][1..] == ""; }
  }

  /** The index of the first c, or |s|. */
  function IndexOf(s: string, c: char): (i: nat)
    ensures i <= |s| && c !in s[..i] && (i < |s| ==> s[i] == c)
    ensures i == |s| <==> c !in s
  {
    if s == "" || s[0] == c then 0 else
    assert forall k :: 0 < k < |s| ==> s[k] == s[1..][k - 1];
    assert s[..1 + IndexOf(s[1..], c)] == [s[0]] + s[1..][..IndexOf(s[1..], c)];
    1 + IndexOf(s[1..], c)
  }

  lemma IndexIs(s: string, c: char, i: nat)
    requires i < |s| && s[i] == c && c !in s[..i]
    ensures IndexOf(s, c) == i
  {
  }

  /** Splitting at newlines, as repeated fgets or getline does. */
  function Lines(text: string): seq<string>
    decreases |text|
  {
    if text == "" then []
    else
      var i := IndexOf(text, '\n');
      if i == |text| then [text] else [text[..i]] + Lines(text[i + 1..])
  }

  function Unlines(lines: seq<string>): string {
    if lines == [] then "" else lines[0] + "\n" + Unlines(lines[1..])
  }

  lemma {:induction false} LinesUnlines(lines: seq<string>)
    requires forall l :: l in lines ==> '\n' !in l
    ensures Lines(Unlines(lines)) == lines
  {
    if lines != [] {
      var text, l := Unlines(lines), lines[0];
      assert text[..|l|] == l && text[|l|] == '\n' && text[|l| + 1..] == Unlines(lines[1..]);
      IndexIs(text, '\n', |l|);
      LinesUnlines(lines[1..]);
    }
  }

  lemma {:induction false} LinesHaveNoNewline(text: string)
    ensures forall l :: l in Lines(text) ==> '\n' !in l
    decreases |text|
  {
    if text != "" {
      var i := IndexOf(text, '\n');
      if i < |text| { LinesHaveNoNewline(text[i + 1..]); }
    }
  }

  lemma {:induction false} UnlinesConcat(a: seq<string>, b: seq<string>)
    ensures Unlines(a + b) == Unlines(a) + Unlines(b)
  {
    if a == [] {
      assert a + b == b;
    } else {
      assert (a + b)[0] == a[0] && (a + b)[1..] == a[1..] + b;
      UnlinesConcat(a[1..], b);
    }
  }

  lemma UnlinesAppend(a: seq<string>, l: string)
    ensures Unlines(a + [l]) == Unlines(a) + l + "\n"
  {
    UnlinesConcat(a, [l]);
    assert [l][1..] == [] && Unlines([l]) == l + "\n" + "";
  }

  // ----- strcmp order -----

  predicate Below(a: string, b: string) {
    b != "" && (a == "" || a[0] < b[0] || (a[0] == b[0] && Below(a[1..], b[1..])))
  }

  lemma {:induction false} BelowTotal(a: string, b: string)
    ensures a == b || Below(a, b) || Below(b, a)
    ensures !(Below(a, b) && Below(b, a)) && !Below(a, a)
  {
    if a != "" && b != "" {
      BelowTotal(a[1..], b[1..]);
      if a[0] == b[0] && a[1..] == b[1..] { assert a == [a[0]] + a[1..] && b == [b[0]] + b[1..]; }
      BelowTotal(a[1..], a[1..]);
    } else if a != "" {
      BelowTotal(a[1..], a[1..]);
    }
  }

  lemma {:induction false} BelowTransitive(a: string, b: string, c: string)
    requires Below(a, b) && Below(b, c)
    ensures Below(a, c)
  {
    if a != "" && a[0] == b[0] && b[0] == c[0] { BelowTransitive(a[1..], b[1..], c[1..]); }
  }

  /** i is where a and b first differ, and a's character there is the smaller. */
  ghost predicate LessAt(a: string, b: string, i: int) {
    0 <= i < |a| && i < |b| && a[..i] == b[..i] && a[i] < b[i]
  }

  /** strcmp: a proper prefix comes first, and otherwise the first difference decides. */
  lemma {:induction false} BelowIff(a: string, b: string)
    ensures Below(a, b) <==> (|a| < |b| && a == b[..|a|]) || exists i :: LessAt(a, b, i)
  {
    if a == "" || b == "" {
      assert b != "" ==> b[..0] == "";
    } else {
      BelowIff(a[1..], b[1..]);
      if a[0] < b[0] { assert LessAt(a, b, 0); }
      if i :| LessAt(a, b, i) && i > 0 { LessInTail(a, b, i); }
      if a[0] == b[0] {
        PrefixInTail(a, b);
        if i :| LessAt(a[1..], b[1..], i) { LessBefore(a, b, i); }
      }
    }
  }

  lemma LessInTail(a: string, b: string, i: int)
    requires LessAt(a, b, i) && i > 0
    ensures a[0] == b[0] && LessAt(a[1..], b[1..], i - 1)
  {
    assert a[..i][0] == b[..i][0];
    assert a[1..][..i - 1] == a[..i][1..] && b[1..][..i - 1] == b[..i][1..];
  }

  lemma LessBefore(a: string, b: string, i: int)
    requires a != "" && b != "" && a[0] == b[0] && LessAt(a[1..], b[1..], i)
    ensures LessAt(a, b, i + 1)
  {
    assert a[..i + 1] == [a[0]] + a[1..][..i] && b[..i + 1] == [b[0]] + b[1..][..i];
  }

  lemma PrefixInTail(a: string, b: string)
    requires a != "" && b != "" && a[0] == b[0]
    ensures |a| < |b| && a == b[..|a|] <==> |a[1..]| < |b[1..]| && a[1..] == b[1..][..|a[1..]|]
  {
    if |a| < |b| {
      assert b[..|a|] == [b[0]] + b[1..][..|a| - 1] && a == [a[0]] + a[1..];
      if a == b[..|a|] { assert a[1..] == b[..|a|][1..] == b[1..][..|a| - 1]; }
    }
  }

  /** A string comes before everything it is a prefix of. */
  lemma PrefixBelow(s: string, t: string)
    requires t != ""
    ensures Below(s, s + t)
  {
    assert (s + t)[..|s|] == s;
    BelowIff(s, s + t);
  }

  ghost predicate Sorted(keys: seq<string>) {
    forall i, j :: 0 <= i < j < |keys| ==> !Below(keys[j], keys[i])
  }

  /** qsort with strcmp, as a function: each key goes before the first one above it. */
  function Insert(k: string, keys: seq<string>): seq<string> {
    if keys == [] || Below(k, keys[0]) then [k] + keys else [keys[0]] + Insert(k, keys[1..])
  }

  function Sort(keys: seq<string>): seq<string> {
    if keys == [] then [] else Insert(keys[0], Sort(keys[1..]))
  }

  lemma {:induction false} InsertCounts(k: string, keys: seq<string>)
    ensures multiset(Insert(k, keys)) == multiset([k]) + multiset(keys)
  {
    if keys != [] && !Below(k, keys[0]) {
      InsertCounts(k, keys[1..]);
      assert keys == [keys[0]] + keys[1..];
    }
  }

  lemma {:induction false} InsertSorted(k: string, keys: seq<string>)
    requires Sorted(keys)
    ensures Sorted(Insert(k, keys))
  {
    if keys == [] {
    } else if Below(k, keys[0]) {
      forall i | 0 <= i < |keys| ensures !Below(keys[i], k) {
        BelowTotal(k, keys[i]);
        BelowTotal(keys[0], keys[i]);
        if Below(keys[i], k) { BelowTransitive(keys[i], k, keys[0]); }
      }
    } else {
      InsertSorted(k, keys[1..]);
      InsertCounts(k, keys[1..]);
      var r := Insert(k, keys[1..]);
      forall i | 0 <= i < |r| ensures !Below(r[i], keys[0]) {
        assert r[i] in multiset([k]) + multiset(keys[1..]);
        if r[i] in multiset([k]) { assert r[i] == k; }
      }
    }
  }

  lemma {:induction false} SortSorts(keys: seq<string>)
    ensures Sorted(Sort(keys)) && multiset(Sort(keys)) == multiset(keys)
  {
    if keys != [] {
      SortSorts(keys[1..]);
      InsertSorted(keys[0], Sort(keys[1..]));
      InsertCounts(keys[0], Sort(keys[1..]));
      assert keys == [keys[0]] + keys[1..];
    }
  }
}
