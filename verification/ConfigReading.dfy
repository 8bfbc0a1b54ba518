/** If the keys under which the printed lines of a map are read are again the keys of the map, then
    each line is read under its own key. */
module ConfigReading {
  import opened Text
  import opened ConfigText
  import opened ConfigEntries

  /** Keys in the order printed, and for each the section and the name under which its line is
      read; the place among the keys of the key read, and the line from which a key is read; and
      the key whose header opened the section. */
  datatype Reading = Reading(keys: seq<string>, secs: seq<string>, names: seq<string>,
                             places: seq<nat>, sources: seq<nat>, openers: seq<nat>)

  /** The section a printed header opens. */
  function H(sec: string): string {
    var e := ParseLine(HeaderText(sec));
    if e.Header? then e.section else ""
  }

  predicate Sized(w: Reading) {
    |w.secs| == |w.names| == |w.places| == |w.sources| == |w.openers| == |w.keys|
  }

  function KeyRead(w: Reading, i: nat): string
    requires Sized(w) && i < |w.keys|
  {
    FullKey(w.secs[i], w.names[i])
  }

  ghost predicate EntryOk(w: Reading, i: nat)
    requires Sized(w) && i < |w.keys|
  {
    && w.places[i] < |w.keys| && w.keys[w.places[i]] == KeyRead(w, i)
    && w.sources[i] < |w.keys| && KeyRead(w, w.sources[i]) == w.keys[i]
    && NameOk(Name(w.keys[i]), w.names[i])
    && (Dotted(w.keys[i]) && Section(w.keys[i]) != "" ==> w.secs[i] == H(Section(w.keys[i])))
    && (w.secs[i] != "" ==> w.openers[i] < |w.keys| && Opener(w.keys[w.openers[i]], w.secs[i]))
  }

  /** How a name may be read. */
  ghost predicate NameOk(name: string, read: string) {
    && Trimmed(read, IsSpace) && '=' !in read && Dots(read) <= Dots(name)
    && (Trimmed(name, IsSpace) && '=' !in name ==> read == name)
  }

  predicate Opener(key: string, sec: string) {
    Dotted(key) && Section(key) != "" && H(Section(key)) == sec
  }

  ghost predicate Closed(w: Reading) {
    && Sized(w) && (forall i: nat :: i < |w.keys| ==> EntryOk(w, i))
    && (forall i, j :: 0 <= i < j < |w.keys| ==> w.keys[i] != w.keys[j])
    && forall i, j :: 0 <= i < j < |w.keys| ==> w.places[i] != w.places[j]
  }

  lemma ReadsDiffer(w: Reading, i: nat, j: nat)
    requires Closed(w) && i < |w.keys| && j < |w.keys| && KeyRead(w, i) == KeyRead(w, j)
    ensures i == j
  {
    assert EntryOk(w, i) && EntryOk(w, j);
  }

  // ----- sections -----

  lemma HeaderKeepsOut(sec: string)
    requires '.' !in sec
    ensures '.' !in H(sec)
  {
    var p := HeaderText(sec);
    HeaderReadsIff(sec);
    assert '.' !in p;
    assert TrimRight(TrimLeft(p, IsSpace), IsSpace) == p;
    TrimKeepsIff(p[1..|p| - 1], IsSpace);
    if |p| >= 4 { TrimKeepsIff(p[2..|p| - 2], IsSpace); }
  }

  function Longest(keys: seq<string>): nat {
    if keys == [] then 0
    else if |keys[0]| > Longest(keys[1..]) then |keys[0]| else Longest(keys[1..])
  }

  lemma {:induction false} LongestIs(keys: seq<string>, i: nat)
    requires i < |keys|
    ensures |keys[i]| <= Longest(keys)
  {
    if i > 0 { LongestIs(keys[1..], i - 1); }
  }

  /** An open section has no dot, and is no longer than the one whose header opened it. */
  lemma SecShape(w: Reading, i: nat)
    requires Closed(w) && i < |w.keys| && w.secs[i] != ""
    ensures '.' !in w.secs[i]
    ensures w.openers[i] < |w.keys| && Opener(w.keys[w.openers[i]], w.secs[i])
    ensures var sec := Section(w.keys[w.openers[i]]); sec == w.secs[i] || |w.secs[i]| < |sec| <= Longest(w.keys)
  {
    assert EntryOk(w, i);
    var key := w.keys[w.openers[i]];
    HeaderKeepsOut(Section(key));
    HeaderReadsIff(Section(key));
    LongestIs(w.keys, w.openers[i]);
  }

  lemma FullSplits(s: string, k: string)
    requires s != "" && '.' !in s
    ensures Dotted(FullKey(s, k)) && Section(FullKey(s, k)) == s && Name(FullKey(s, k)) == k
    ensures Dots(FullKey(s, k)) == Dots(k) + 1
  {
    var key := FullKey(s, k);
    assert key[..|s|] == s && key[|s|] == '.' && key[|s| + 1..] == k;
    IndexIs(key, '.', |s|);
    assert key == s + "." + k;
  }

  // ----- dots -----

  lemma DotsOfKey(key: string)
    ensures Dotted(key) <==> Dots(key) > 0
    ensures Dotted(key) ==> Dots(key) == Dots(Name(key)) + 1
  {
    if Dotted(key) {
      SplitKey(key);
      assert '.' !in Section(key);
      assert key == Section(key) + "." + Name(key);
    }
  }

  /** A line is read with no more dots than its key has, except that a root key may gain one. */
  lemma DotsRead(w: Reading, i: nat)
    requires Closed(w) && i < |w.keys|
    ensures Dots(KeyRead(w, i)) <= if Dots(w.keys[i]) > 0 then Dots(w.keys[i]) else 1
    ensures w.secs[i] == "" && Dots(w.keys[i]) > 0 ==> Dots(KeyRead(w, i)) < Dots(w.keys[i])
  {
    assert EntryOk(w, i);
    DotsOfKey(w.keys[i]);
    if w.secs[i] != "" {
      SecShape(w, i);
      FullSplits(w.secs[i], w.names[i]);
    }
  }

  /** A permutation that maps a set into itself maps nothing else into it. */
  lemma Trapped(p: seq<nat>, part: set<nat>, x: nat)
    requires forall i, j :: 0 <= i < j < |p| ==> p[i] != p[j]
    requires forall b :: b in part ==> b < |p| && p[b] in part
    requires x < |p| && p[x] in part
    ensures x in part
  {
    if x !in part {
      var image := Image(p, part + {x});
      SubsetSize(image, part);
    }
  }

  lemma SubsetSize(a: set<nat>, b: set<nat>)
    requires a <= b
    ensures |a| <= |b|
  {
    assert b == a + (b - a);
  }

  lemma {:induction false} Image(p: seq<nat>, part: set<nat>) returns (image: set<nat>)
    requires forall i, j :: 0 <= i < j < |p| ==> p[i] != p[j]
    requires forall b :: b in part ==> b < |p|
    ensures |image| == |part| && forall y :: y in image ==> exists b :: b in part && p[b] == y
    decreases part
  {
    if part == {} { return {}; }
    var b :| b in part;
    image := Image(p, part - {b});
    assert p[b] !in image;
    image := image + {p[b]};
  }

  function FewDots(w: Reading, most: nat): set<nat> {
    set b: nat | b < |w.keys| && Dots(w.keys[b]) <= most
  }

  /** A key with two dots or more loses none. */
  lemma DotsKept(w: Reading, i: nat)
    requires Closed(w) && i < |w.keys| && Dots(w.keys[i]) >= 2
    ensures Dots(KeyRead(w, i)) >= Dots(w.keys[i])
  {
    var d := Dots(KeyRead(w, i));
    var most := if d > 1 then d else 1;
    var part := FewDots(w, most);
    forall b | b in part ensures w.places[b] in part {
      assert EntryOk(w, b);
      DotsRead(w, b);
    }
    assert EntryOk(w, i);
    Trapped(w.places, part, i);
  }

  // ----- every line is read as itself -----

  /** A section in use is opened by its own header: otherwise there would be ever longer ones. */
  lemma {:induction false} SecIsFixed(w: Reading, i: nat)
    requires Closed(w) && i < |w.keys| && w.secs[i] != ""
    ensures H(w.secs[i]) == w.secs[i]
    decreases Longest(w.keys) - |w.secs[i]|
  {
    SecShape(w, i);
    var a := w.openers[i];
    if H(w.secs[i]) != w.secs[i] {
      assert EntryOk(w, a);
      var j := w.sources[a];
      DotsOfKey(w.keys[a]);
      if w.secs[j] == "" {
        DotsFall(w, j);
      } else {
        SecShape(w, j);
        FullSplits(w.secs[j], w.names[j]);
        SecIsFixed(w, j);
      }
    }
  }

  /** Outside every section no line is read under a dotted key. */
  lemma DotsFall(w: Reading, j: nat)
    requires Closed(w) && j < |w.keys| && w.secs[j] == ""
    ensures !Dotted(KeyRead(w, j)) && Dots(w.keys[j]) <= 1
  {
    DotsRead(w, j);
    DotsOfKey(w.keys[j]);
    DotsOfKey(KeyRead(w, j));
    assert EntryOk(w, j);
    if Dots(w.keys[j]) >= 2 { DotsKept(w, j); }
  }

  /** If the key read for line i is stored at j, in the same section and with the name read, then
      its own line is read in the same way, and so is line i. */
  lemma SameRead(w: Reading, i: nat, j: nat)
    requires Closed(w) && i < |w.keys| && j < |w.keys|
    requires Name(w.keys[j]) == w.names[i] && w.secs[j] == w.secs[i]
    ensures i == j
  {
    assert EntryOk(w, i) && EntryOk(w, j);
    ReadsDiffer(w, i, j);
  }

  lemma ReadInSection(w: Reading, i: nat)
    requires Closed(w) && i < |w.keys| && w.secs[i] != ""
    ensures KeyRead(w, i) == w.keys[i]
  {
    assert EntryOk(w, i);
    var j := w.places[i];
    SecShape(w, i);
    SecIsFixed(w, i);
    FullSplits(w.secs[i], w.names[i]);
    assert EntryOk(w, j);
    SameRead(w, i, j);
  }

  lemma ReadAtRoot(w: Reading, i: nat)
    requires Closed(w) && i < |w.keys| && w.secs[i] == ""
    ensures KeyRead(w, i) == w.keys[i] && !Dotted(w.keys[i])
  {
    assert EntryOk(w, i);
    var j := w.places[i];
    DotsFall(w, i);
    if w.secs[j] != "" {
      SecShape(w, j);
      FullSplits(w.secs[j], w.names[j]);
      ReadInSection(w, j);
    }
    SameRead(w, i, j);
  }

  /** Under its own key, and in its own section if it has one. */
  lemma ReadAsItself(w: Reading, i: nat)
    requires Closed(w) && i < |w.keys|
    ensures w.names[i] == Name(w.keys[i])
    ensures if w.secs[i] == "" then !Dotted(w.keys[i])
            else Dotted(w.keys[i]) && Section(w.keys[i]) == w.secs[i] == H(w.secs[i])
  {
    if w.secs[i] == "" {
      ReadAtRoot(w, i);
    } else {
      SecShape(w, i);
      FullSplits(w.secs[i], w.names[i]);
      ReadInSection(w, i);
      SecIsFixed(w, i);
    }
  }
}
