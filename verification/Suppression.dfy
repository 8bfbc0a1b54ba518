/** Non-maximum suppression of template matches: of two points close together the one with the
    lower confidence goes, and on a tie the later one. */
module Suppression {

  datatype Point = Point(x: int, y: int)

  datatype TemplateMatch = TemplateMatch(x: int, y: int, confidence: real)

  function Abs(n: int): nat {
    if n < 0 then -n else n
  }

  predicate Near(a: Point, b: Point, minDistance: int) {
    Abs(a.x - b.x) < minDistance && Abs(a.y - b.y) < minDistance
  }

  /** Index i comes before j when ranked by confidence, earlier first on a tie. */
  predicate Beats(conf: seq<real>, i: nat, j: nat)
    requires i < |conf| && j < |conf|
  {
    conf[i] > conf[j] || (conf[i] == conf[j] && i < j)
  }

  function Loser(conf: seq<real>, i: nat, j: nat): (k: nat)
    requires i < j < |conf|
    ensures k == i || k == j
    ensures Beats(conf, if k == i then j else i, k)
  {
    if conf[i] < conf[j] then i else j
  }

  /** Point b is a near neighbour of point k that beats it. */
  ghost predicate Displaces(points: seq<Point>, conf: seq<real>, d: int, b: nat, k: nat)
    requires |points| == |conf|
  {
    b < |points| && k < |points| && Near(points[b], points[k], d) && Beats(conf, b, k)
  }

  ghost predicate NoTwoNear(points: seq<Point>, kept: seq<bool>, d: int, upto: nat)
    requires |points| == |kept|
  {
    forall i, j {:trigger kept[i], kept[j]} :: 0 <= i < j < |points| && i < upto && kept[i] && kept[j] ==>
      !Near(points[i], points[j], d)
  }

  ghost predicate DroppedHaveBetter(points: seq<Point>, conf: seq<real>, kept: seq<bool>, d: int)
    requires |points| == |kept| == |conf|
  {
    forall k :: 0 <= k < |points| && !kept[k] ==> exists b :: Displaces(points, conf, d, b, k)
  }

  /** The points kept, in order. */
  function Collected(points: seq<Point>, conf: seq<real>, kept: seq<bool>): seq<TemplateMatch>
    requires |points| == |conf| == |kept|
  {
    if points == [] then []
    else
      var n := |points| - 1;
      Collected(points[..n], conf[..n], kept[..n])
      + if kept[n] then [TemplateMatch(points[n].x, points[n].y, conf[n])] else []
  }

  function Count(kept: seq<bool>): nat {
    if kept == [] then 0 else Count(kept[..|kept| - 1]) + if kept[|kept| - 1] then 1 else 0
  }

  /** Each kept point is reported at its place among them, with its own coordinates and confidence. */
  lemma {:induction false} CollectedAt(points: seq<Point>, conf: seq<real>, kept: seq<bool>, k: nat)
    requires |points| == |conf| == |kept| && k < |kept| && kept[k]
    ensures |Collected(points, conf, kept)| == Count(kept) && Count(kept[..k]) < Count(kept)
    ensures Collected(points, conf, kept)[Count(kept[..k])] == TemplateMatch(points[k].x, points[k].y, conf[k])
  {
    var n := |kept| - 1;
    CollectedSize(points[..n], conf[..n], kept[..n]);
    if k < n {
      CollectedAt(points[..n], conf[..n], kept[..n], k);
      assert kept[..n][..k] == kept[..k];
    }
  }

  lemma {:induction false} CollectedSize(points: seq<Point>, conf: seq<real>, kept: seq<bool>)
    requires |points| == |conf| == |kept|
    ensures |Collected(points, conf, kept)| == Count(kept)
  {
    if kept != [] {
      var n := |kept| - 1;
      CollectedSize(points[..n], conf[..n], kept[..n]);
    }
  }

  /** Nearer than d on both axes, in either direction. */
  lemma NearIs(a: Point, b: Point, d: int)
    ensures Near(a, b, d) <==> -d < a.x - b.x < d && -d < a.y - b.y < d
  {
  }

  // ----- what one point's turn does -----

  /** In the turn of point i a later near point goes if it is no better; point i goes if some later
      near point, kept when the turn began, is better. */
  ghost predicate LosesTo(points: seq<Point>, conf: seq<real>, d: int, was: seq<bool>, i: nat, k: nat, upto: nat)
    requires |points| == |conf| == |was| && i < |was| && k < |was| && upto <= |was|
  {
    if k == i then
      exists j {:trigger was[j]} :: i < j < upto && was[j] && Near(points[i], points[j], d) && conf[i] < conf[j]
    else i < k < upto && Near(points[i], points[k], d) && conf[i] >= conf[k]
  }

  /** The turn of point i, as far as the points before `upto`. */
  ghost predicate TurnUpTo(points: seq<Point>, conf: seq<real>, d: int, was: seq<bool>, now: seq<bool>, i: nat,
                           upto: nat)
    requires |points| == |conf| == |was| && i < |was| && upto <= |was|
  {
    |now| == |was|
    && forall k: nat {:trigger now[k]} :: k < |was| ==> now[k] == (was[k] && !LosesTo(points, conf, d, was, i, k, upto))
  }

  /** A point already dropped when its turn comes drops nobody. */
  ghost predicate Turn(points: seq<Point>, conf: seq<real>, d: int, was: seq<bool>, now: seq<bool>, i: nat)
    requires |points| == |conf| == |was| && i < |was|
  {
    if was[i] then TurnUpTo(points, conf, d, was, now, i, |was|) else now == was
  }

  lemma TurnGoesOn(points: seq<Point>, conf: seq<real>, d: int, was: seq<bool>, now: seq<bool>, next: seq<bool>,
                   i: nat, j: nat)
    requires |points| == |conf| == |was| && i < j < |was| && was[i] && TurnUpTo(points, conf, d, was, now, i, j)
    requires if now[j] && Near(points[i], points[j], d)
               then next == now[Loser(conf, i, j) := false]
               else next == now
    ensures TurnUpTo(points, conf, d, was, next, i, j + 1)
  {
    assert !LosesTo(points, conf, d, was, i, j, j) && now[j] == was[j];
    forall k: nat | k < |was| ensures next[k] == (was[k] && !LosesTo(points, conf, d, was, i, k, j + 1)) {
      assert now[k] == (was[k] && !LosesTo(points, conf, d, was, i, k, j));
      if k == i { TurnOfOwn(points, conf, d, was, i, j); }
    }
  }

  lemma TurnOfOwn(points: seq<Point>, conf: seq<real>, d: int, was: seq<bool>, i: nat, j: nat)
    requires |points| == |conf| == |was| && i < j < |was|
    ensures LosesTo(points, conf, d, was, i, i, j + 1) <==>
      LosesTo(points, conf, d, was, i, i, j) || (was[j] && Near(points[i], points[j], d) && conf[i] < conf[j])
  {
  }

  /** The turns leave nothing open. */
  lemma TurnIsUnique(points: seq<Point>, conf: seq<real>, d: int, was: seq<bool>, a: seq<bool>, b: seq<bool>, i: nat)
    requires |points| == |conf| == |was| && i < |was|
    requires Turn(points, conf, d, was, a, i) && Turn(points, conf, d, was, b, i)
    ensures a == b
  {
    if was[i] {
      forall k: nat | k < |was| ensures a[k] == b[k] { }
    }
  }

  ghost predicate OnlyDrops(was: seq<bool>, now: seq<bool>) {
    |was| == |now| && forall k :: 0 <= k < |was| && now[k] ==> was[k]
  }

  /** The state of the comparison loop of point i when the points before j are done. */
  ghost predicate Compared(points: seq<Point>, conf: seq<real>, was: seq<bool>, now: seq<bool>, d: int, i: nat, j: nat)
    requires |points| == |conf| == |was| && i < |was| && j <= |was|
  {
    && OnlyDrops(was, now) && DroppedHaveBetter(points, conf, now, d)
    && (now[i] ==> forall k {:trigger now[k]} :: i < k < j && now[k] ==> !Near(points[i], points[k], d))
  }

  /** Dropping a point that a near neighbour beats, or passing one that is not near or dropped. */
  lemma ComparedOne(points: seq<Point>, conf: seq<real>, was: seq<bool>, now: seq<bool>, next: seq<bool>,
                    d: int, i: nat, j: nat)
    requires |points| == |conf| == |was| && i < j < |was|
    requires Compared(points, conf, was, now, d, i, j)
    requires if now[j] && Near(points[i], points[j], d)
               then next == now[Loser(conf, i, j) := false]
               else next == now
    ensures Compared(points, conf, was, next, d, i, j + 1)
  {
    if now[j] && Near(points[i], points[j], d) {
      var k := Loser(conf, i, j);
      var b := if k == i then j else i;
      assert Displaces(points, conf, d, b, k);
      forall x | 0 <= x < |points| && !next[x] ensures exists b :: Displaces(points, conf, d, b, x) {
        if x != k { assert !now[x]; }
      }
    }
  }

  lemma ComparedAll(points: seq<Point>, conf: seq<real>, was: seq<bool>, now: seq<bool>, d: int, i: nat)
    requires |points| == |conf| == |was| && i < |was|
    requires NoTwoNear(points, was, d, i) && Compared(points, conf, was, now, d, i, |was|)
    ensures NoTwoNear(points, now, d, i + 1) && DroppedHaveBetter(points, conf, now, d) && OnlyDrops(was, now)
  {
  }

  /** One turn of the comparison loop. */
  method CompareTwo(points: seq<Point>, conf: seq<real>, minDistance: int, kept: array<bool>, i: nat, j: nat)
    requires |points| == |conf| == kept.Length && i < j < |points|
    modifies kept
    ensures kept[..] == if old(kept[j]) && Near(points[i], points[j], minDistance)
                        then old(kept[..])[Loser(conf, i, j) := false]
                        else old(kept[..])
  {
    if !kept[j] { return; }
    var dx := points[i].x - points[j].x;
    var dy := points[i].y - points[j].y;
    if Abs(dx) < minDistance && Abs(dy) < minDistance {
      if conf[i] < conf[j] {
        kept[i] := false;
      } else {
        kept[j] := false;
      }
    }
  }

  /** The comparison loop of one point against the later ones. A point that loses on the way is
      dropped, but goes on dropping the weaker points after it. */
  method CompareWithLater(points: seq<Point>, conf: seq<real>, minDistance: int, kept: array<bool>, i: nat)
    requires |points| == |conf| == kept.Length && i < |points|
    requires NoTwoNear(points, kept[..], minDistance, i)
    requires DroppedHaveBetter(points, conf, kept[..], minDistance)
    modifies kept
    ensures NoTwoNear(points, kept[..], minDistance, i + 1)
    ensures DroppedHaveBetter(points, conf, kept[..], minDistance)
    ensures OnlyDrops(old(kept[..]), kept[..]) && Turn(points, conf, minDistance, old(kept[..]), kept[..], i)
  {
    if !kept[i] { return; }
    ghost var was := kept[..];
    var j := i + 1;
    while j < |points|
      invariant i < j <= |points|
      invariant Compared(points, conf, was, kept[..], minDistance, i, j)
      invariant TurnUpTo(points, conf, minDistance, was, kept[..], i, j)
    {
      ghost var now := kept[..];
      CompareTwo(points, conf, minDistance, kept, i, j);
      ComparedOne(points, conf, was, now, kept[..], minDistance, i, j);
      TurnGoesOn(points, conf, minDistance, was, now, kept[..], i, j);
      j := j + 1;
    }
    ComparedAll(points, conf, was, kept[..], minDistance, i);
  }

  /** All points are kept at first, and each has its turn. */
  ghost predicate TurnsOk(points: seq<Point>, conf: seq<real>, d: int, turns: seq<seq<bool>>, n: nat)
    requires |points| == |conf| && n <= |points|
  {
    && |turns| == n + 1 && |turns[0]| == |points| && (forall k :: 0 <= k < |points| ==> turns[0][k])
    && (forall i :: 0 <= i <= n ==> |turns[i]| == |points|)
    && forall i: nat {:trigger turns[i + 1]} :: i < n ==> Turn(points, conf, d, turns[i], turns[i + 1], i)
  }

  method Suppress(points: seq<Point>, conf: seq<real>, minDistance: int)
    returns (matches: seq<TemplateMatch>, kept: seq<bool>, ghost turns: seq<seq<bool>>)
    requires |points| == |conf|
    ensures |kept| == |points| && matches == Collected(points, conf, kept)
    ensures TurnsOk(points, conf, minDistance, turns, |points|) && kept == turns[|points|]
    ensures NoTwoNear(points, kept, minDistance, |points|)
    ensures DroppedHaveBetter(points, conf, kept, minDistance)
  {
    var keep := new bool[|points|](_ => true);
    turns := [keep[..]];
    for i := 0 to |points|
      invariant NoTwoNear(points, keep[..], minDistance, i)
      invariant DroppedHaveBetter(points, conf, keep[..], minDistance)
      invariant TurnsOk(points, conf, minDistance, turns, i) && turns[i] == keep[..]
    {
      CompareWithLater(points, conf, minDistance, keep, i);
      turns := turns + [keep[..]];
    }
    kept := keep[..];
    matches := [];
    for i := 0 to |points|
      invariant keep[..] == kept && matches == Collected(points[..i], conf[..i], kept[..i])
    {
      assert points[..i + 1][..i] == points[..i] && conf[..i + 1][..i] == conf[..i] && kept[..i + 1][..i] == kept[..i];
      if keep[i] {
        matches := matches + [TemplateMatch(points[i].x, points[i].y, conf[i])];
      }
    }
    assert points[..|points|] == points && conf[..|points|] == conf && kept[..|points|] == kept;
  }

  /** The first point of maximum confidence survives. */
  lemma BestIsKept(points: seq<Point>, conf: seq<real>, kept: seq<bool>, d: int, k: nat)
    requires |points| == |conf| == |kept| && DroppedHaveBetter(points, conf, kept, d) && k < |points|
    requires forall b :: 0 <= b < |points| ==> conf[b] < conf[k] || (conf[b] == conf[k] && k <= b)
    ensures kept[k]
  {
    assert forall b :: !Displaces(points, conf, d, b, k);
  }

  /** A chain of near neighbours, each beating the one before. */
  ghost predicate Climbs(points: seq<Point>, conf: seq<real>, d: int, path: seq<nat>)
    requires |points| == |conf|
  {
    && path != [] && (forall i :: 0 <= i < |path| ==> path[i] < |points|)
    && forall i :: 0 <= i < |path| - 1 ==> Displaces(points, conf, d, path[i + 1], path[i])
  }

  ghost function Betters(conf: seq<real>, k: nat): set<nat>
    requires k < |conf|
  {
    set b: nat | b < |conf| && Beats(conf, b, k)
  }

  /** From every point, dropped or not, such a chain leads to a point that is kept. */
  lemma {:induction false} ChainToKept(points: seq<Point>, conf: seq<real>, kept: seq<bool>, d: int, k: nat)
    returns (path: seq<nat>)
    requires |points| == |conf| == |kept| && DroppedHaveBetter(points, conf, kept, d) && k < |points|
    ensures Climbs(points, conf, d, path) && path[0] == k && kept[path[|path| - 1]]
    decreases Betters(conf, k)
  {
    if kept[k] {
      path := [k];
    } else {
      var b :| Displaces(points, conf, d, b, k);
      assert b in Betters(conf, k) && b !in Betters(conf, b);
      var rest := ChainToKept(points, conf, kept, d, b);
      path := [k] + rest;
      assert forall i :: 0 < i < |path| ==> path[i] == rest[i - 1];
    }
  }
}
