/** Positions on a ring of n slots: both open-addressing tables probe `(index + j) & mask`,
    which for a power-of-two capacity is the position j steps after `index`. */
module Ring {

  /** A key's home slot: `hash & mask`. */
  function Home<K>(hash: K -> nat, k: K, n: nat): (h: nat)
    requires n > 0
    ensures h < n
  {
    hash(k) % n
  }

  /** The slot after p. */
  function Next(p: nat, n: nat): (q: nat)
    requires p < n
    ensures q == if p + 1 == n then 0 else p + 1
  {
    (p + 1) % n
  }

  /** The slot j steps after h. */
  function At(h: nat, j: nat, n: nat): (p: nat)
    requires h < n && j < n
    ensures p < n
  {
    if h + j < n then h + j else h + j - n
  }

  /** The number of steps from h to p. */
  function Dist(h: nat, p: nat, n: nat): (j: nat)
    requires h < n && p < n
    ensures j < n && At(h, j, n) == p
    ensures forall i: nat :: i < n && At(h, i, n) == p ==> i == j
  {
    if h <= p then p - h else p + n - h
  }

  lemma DistNext(h: nat, p: nat, n: nat)
    requires h < n && p < n && h != p
    ensures Dist(Next(h, n), p, n) == Dist(h, p, n) - 1
  {
  }

  predicate PowerOfTwo(n: nat) {
    n == 1 || (n > 1 && n % 2 == 0 && PowerOfTwo(n / 2))
  }

  lemma Doubled(n: nat)
    requires PowerOfTwo(n)
    ensures PowerOfTwo(2 * n) && 2 * n % 2 == 0
  {
  }
}
