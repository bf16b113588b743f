/** find_closest_clusters: the scan over all pairs (i, j), i < j, of the
    working set for the pair with the smallest linkage.  The linkage is a
    parameter; the clustering passes the mean linkage of Distance. */
module Search {

  import opened Types

  /** (i, j) is a pair of distinct positions of a working set of n clusters,
      written with the smaller position first. */
  predicate IsPair(n: int, i: int, j: int)
  {
    0 <= i < j < n
  }

  /** (p, q) comes before (i, j) in the scan order: row by row, and within
      a row by the second position. */
  predicate PairBefore(p: int, q: int, i: int, j: int)
  {
    p < i || (p == i && q < j)
  }

  /** (i, j) is the pair the scan settles on: no pair is closer, and every
      pair scanned before it is strictly farther (a later pair at the same
      linkage never replaces it, because the comparison is strict). */
  ghost predicate IsFirstMinimalPair(cs: seq<Cluster>, d: (Cluster, Cluster) -> real, i: int, j: int)
  {
    && IsPair(|cs|, i, j)
    && (forall p, q :: IsPair(|cs|, p, q) ==> d(cs[i], cs[j]) <= d(cs[p], cs[q]))
    && (forall p, q :: IsPair(|cs|, p, q) && PairBefore(p, q, i, j) ==> d(cs[i], cs[j]) < d(cs[p], cs[q]))
  }

  /** The running minimum of the scan after it has looked at every pair
      before (i, j): None while no pair has been looked at, otherwise the
      smallest linkage seen and the first pair that had it. */
  ghost predicate ScanState(cs: seq<Cluster>, d: (Cluster, Cluster) -> real, i: int, j: int,
                            best: Option<real>, bi: int, bj: int)
  {
    && (best.None? ==> forall p, q :: IsPair(|cs|, p, q) ==> !PairBefore(p, q, i, j))
    && (best.Some? ==>
          && IsPair(|cs|, bi, bj)
          && PairBefore(bi, bj, i, j)
          && best.value == d(cs[bi], cs[bj])
          && (forall p, q :: IsPair(|cs|, p, q) && PairBefore(p, q, i, j) ==> best.value <= d(cs[p], cs[q]))
          && (forall p, q :: IsPair(|cs|, p, q) && PairBefore(p, q, bi, bj) ==> best.value < d(cs[p], cs[q])))
  }

  /** find_closest_clusters, in the order a single thread runs it.  The
      outputs start at the values the clustering loop gives them (two empty
      clusters at position 0) and are only written when a pair was found, so
      with fewer than two clusters they keep those values. */
  method FindClosestClusters(cs: seq<Cluster>, d: (Cluster, Cluster) -> real)
    returns (cToMerge1: Cluster, idxC1: int, cToMerge2: Cluster, idxC2: int)
    ensures |cs| < 2 ==> cToMerge1 == [] && idxC1 == 0 && cToMerge2 == [] && idxC2 == 0
    ensures |cs| >= 2 ==> IsFirstMinimalPair(cs, d, idxC1, idxC2)
    ensures |cs| >= 2 ==> cToMerge1 == cs[idxC1] && cToMerge2 == cs[idxC2]
  {
    cToMerge1, idxC1, cToMerge2, idxC2 := [], 0, [], 0;
    var numClusters := |cs|;
    var localMostSimilar: Option<real> := None;
    var localC1Idx, localC2Idx := -1, -1;
    var i := 0;
    while i < numClusters
      invariant 0 <= i <= numClusters
      invariant ScanState(cs, d, i, 0, localMostSimilar, localC1Idx, localC2Idx)
    {
      var j := i + 1;
      while j < numClusters
        invariant i + 1 <= j <= numClusters
        invariant ScanState(cs, d, i, j, localMostSimilar, localC1Idx, localC2Idx)
      {
        var dist := d(cs[i], cs[j]);
        if localMostSimilar.None? || dist < localMostSimilar.value {
          localMostSimilar := Some(dist);
          localC1Idx, localC2Idx := i, j;
        }
        j := j + 1;
      }
      i := i + 1;
    }
    if localMostSimilar.Some? {
      assert IsPair(numClusters, 0, 1) ==> PairBefore(0, 1, numClusters, 0);
      cToMerge1, cToMerge2 := cs[localC1Idx], cs[localC2Idx];
      idxC1, idxC2 := localC1Idx, localC2Idx;
    } else if numClusters >= 2 {
      FirstPairIsScanned(numClusters);
      assert false;
    }
  }

  /** With two or more clusters the pair (0, 1) is scanned before row n ends.
      A verifier workaround: it hands the dead branch of FindClosestClusters
      its contradiction without a checked statement before `assert false`. */
  lemma FirstPairIsScanned(n: int)
    ensures n >= 2 ==> IsPair(n, 0, 1) && PairBefore(0, 1, n, 0)
  {
  }

  /** The scan's choice is determined: two first minimal pairs are the same
      pair. */
  lemma FirstMinimalPairUnique(cs: seq<Cluster>, d: (Cluster, Cluster) -> real, i: int, j: int, i': int, j': int)
    requires IsFirstMinimalPair(cs, d, i, j) && IsFirstMinimalPair(cs, d, i', j')
    ensures i == i' && j == j'
  {
  }

  /** A pair strictly closer than every other pair is the one the scan picks. */
  lemma StrictMinimumIsChosen(cs: seq<Cluster>, d: (Cluster, Cluster) -> real, i: int, j: int)
    requires IsPair(|cs|, i, j)
    requires forall p, q :: IsPair(|cs|, p, q) && (p, q) != (i, j) ==> d(cs[i], cs[j]) < d(cs[p], cs[q])
    ensures IsFirstMinimalPair(cs, d, i, j)
  {
    forall p, q | IsPair(|cs|, p, q) && PairBefore(p, q, i, j)
      ensures d(cs[i], cs[j]) < d(cs[p], cs[q])
    {
      assert (p, q) != (i, j);
    }
  }

  /** Among pairs at the same smallest linkage, the scan picks the earliest. */
  lemma TiesGoToTheEarlierPair(cs: seq<Cluster>, d: (Cluster, Cluster) -> real, i: int, j: int, p: int, q: int)
    requires IsFirstMinimalPair(cs, d, i, j)
    requires IsPair(|cs|, p, q) && d(cs[p], cs[q]) == d(cs[i], cs[j])
    ensures (p, q) == (i, j) || PairBefore(i, j, p, q)
  {
  }
}
