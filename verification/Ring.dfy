/** Circular indices of a netmap ring of n slots.

    The proofs speak of absolute positions: unbounded naturals that only grow.  The index of a
    position is given relative to a known one, `At(i, k, n)` being the index k slots after
    index i, so that every index computation of the C code becomes linear arithmetic. */
module Ring {

  /** nm_next: the following index, with wrap-around at lim = n - 1. */
  function Next(i: nat, lim: nat): nat {
    if i == lim then 0 else i + 1
  }

  /** nm_prev: the preceding index, with wrap-around. */
  function Prev(i: nat, lim: nat): nat {
    if i == 0 then lim else i - 1
  }

  /** Slots from index i up to index j: "subtract, and add the ring size when negative". */
  function Dist(i: nat, j: nat, n: nat): (d: nat)
    requires i < n && j < n
    ensures d < n && At(i, d, n) == j
  {
    if j < i then j - i + n else j - i
  }

  /** The index k slots after index i. */
  function At(i: nat, k: nat, n: nat): (j: nat)
    requires i < n && k <= n
    ensures j < n
  {
    if i + k < n then i + k else i + k - n
  }

  /** The index k slots before index i. */
  function Back(i: nat, k: nat, n: nat): (j: nat)
    requires i < n && k <= n
    ensures j < n && At(j, k, n) == i
  {
    if k <= i then i - k else i - k + n
  }

  lemma AtAt(i: nat, d: nat, k: nat, n: nat)
    requires i < n && d + k <= n
    ensures At(At(i, d, n), k, n) == At(i, d + k, n)
  {
  }

  lemma NextAt(i: nat, k: nat, n: nat)
    requires i < n && k < n
    ensures Next(At(i, k, n), n - 1) == At(i, k + 1, n)
  {
  }

  lemma DistAt(i: nat, k: nat, n: nat)
    requires i < n && k < n
    ensures Dist(i, At(i, k, n), n) == k
  {
  }

  lemma DistBetween(i: nat, x: nat, y: nat, n: nat)
    requires i < n && x < n && y < n
    ensures Dist(At(i, x, n), At(i, y, n), n) == if x <= y then y - x else y - x + n
  {
  }

  /** Distances add up, as long as they do not go round. */
  lemma DistAdd(i: nat, j: nat, k: nat, n: nat)
    requires i < n && j < n && k < n
    ensures Dist(i, j, n) + Dist(j, k, n) < n ==> Dist(i, k, n) == Dist(i, j, n) + Dist(j, k, n)
    ensures Dist(i, j, n) <= Dist(i, k, n) ==> Dist(j, k, n) == Dist(i, k, n) - Dist(i, j, n)
  {
  }

  /** netmap_idx_n2k and netmap_idx_k2n, for an offset in 0..n. */
  function N2k(i: nat, hwofs: nat, n: nat): (r: nat)
    requires i < n && hwofs < n
    ensures r < n && K2n(r, hwofs, n) == i
  {
    var j := i + hwofs;
    if j < n then j else j - n
  }

  function K2n(i: nat, hwofs: nat, n: nat): (r: nat)
    requires i < n && hwofs < n
    ensures r < n
  {
    var j := i - hwofs;
    if j < 0 then j + n else j
  }

  /** Distances are the same in both rings. */
  lemma SameDistance(i: nat, j: nat, hwofs: nat, n: nat)
    requires i < n && j < n && hwofs < n
    ensures Dist(N2k(i, hwofs, n), N2k(j, hwofs, n), n) == Dist(i, j, n)
    ensures N2k(Next(i, n - 1), hwofs, n) == Next(N2k(i, hwofs, n), n - 1)
    ensures N2k(K2n(i, hwofs, n), hwofs, n) == i
  {
  }

  /** The two indices of a loop move together. */
  lemma StepBoth(c: nat, i: nat, hwofs: nat, n: nat)
    requires c < n && i < n && hwofs < n && Dist(c, i, n) < n - 1
    ensures K2n(Next(i, n - 1), hwofs, n) == Next(K2n(i, hwofs, n), n - 1)
    ensures Dist(c, Next(i, n - 1), n) == Dist(c, i, n) + 1
  {
  }
}
