/** A run of lines read one after the other, and what must have happened if it leaves as many
    keys as it read lines. */
module ConfigRuns {
  import opened ConfigText

  /** For each line the section in which it is read and its effect; and the reader before each
      line, and after the last. */
  datatype Run = Run(readers: seq<Reader>, secs: seq<string>, effects: seq<Effect>)

  ghost predicate StepAt(r: Run, i: nat)
    requires i < |r.effects| == |r.secs| && |r.readers| == |r.effects| + 1
  {
    r.readers[i + 1] == Apply(r.effects[i], Reader(r.secs[i], r.readers[i].values))
  }

  ghost predicate Chained(r: Run) {
    && |r.secs| == |r.effects| && |r.readers| == |r.effects| + 1 && r.readers[0].values == map[]
    && forall i: nat :: i < |r.effects| ==> StepAt(r, i)
  }

  function Final(r: Run): map<string, string>
    requires |r.readers| > 0
  {
    r.readers[|r.readers| - 1].values
  }

  ghost predicate Full(r: Run) {
    Chained(r) && |Final(r)| == |r.effects|
  }

  /** The key under which line i is read, if it is an assignment. */
  function KeyRead(r: Run, i: nat): string
    requires i < |r.effects| == |r.secs| && r.effects[i].Assign?
  {
    FullKey(r.secs[i], r.effects[i].key)
  }

  lemma {:induction false} AtMostOneMore(r: Run, i: nat, j: nat)
    requires Chained(r) && i <= j <= |r.effects|
    ensures |r.readers[j].values| <= |r.readers[i].values| + (j - i)
  {
    if i < j {
      AtMostOneMore(r, i, j - 1);
      assert StepAt(r, j - 1);
    }
  }

  /** Each line assigns a key not read before. */
  lemma EachAssigns(r: Run, i: nat)
    requires Full(r) && i < |r.effects|
    ensures r.effects[i].Assign? && KeyRead(r, i) !in r.readers[i].values
    ensures r.readers[i + 1] == Reader(r.secs[i], r.readers[i].values[KeyRead(r, i) := r.effects[i].value])
  {
    AtMostOneMore(r, 0, i);
    AtMostOneMore(r, i + 1, |r.effects|);
    assert StepAt(r, i);
  }

  lemma {:induction false} StaysRead(r: Run, i: nat, j: nat)
    requires Full(r) && i < j <= |r.effects|
    ensures r.effects[i].Assign? && KeyRead(r, i) in r.readers[j].values
    ensures r.readers[j].values[KeyRead(r, i)] == r.effects[i].value
  {
    EachAssigns(r, j - 1);
    if i < j - 1 { StaysRead(r, i, j - 1); }
  }

  lemma ReadsDiffer(r: Run, i: nat, j: nat)
    requires Full(r) && i < j < |r.effects|
    ensures r.effects[i].Assign? && r.effects[j].Assign? && KeyRead(r, i) != KeyRead(r, j)
  {
    EachAssigns(r, j);
    StaysRead(r, i, j);
  }

  lemma {:induction false} ReadFrom(r: Run, n: nat, k: string) returns (i: nat)
    requires Full(r) && n <= |r.effects| && k in r.readers[n].values
    ensures i < n && r.effects[i].Assign? && KeyRead(r, i) == k
  {
    EachAssigns(r, n - 1);
    if KeyRead(r, n - 1) == k { i := n - 1; } else { i := ReadFrom(r, n - 1, k); }
  }
}
