/** The agglomerative clustering loop (UPGMA) and the cluster merge it uses:
    while more than one cluster is left, the two closest clusters are taken
    out of the working set and their concatenation is appended to it. */
module Clustering {

  import opened Types
  import opened Search

  // ---------------------------------------------------------------------------
  // merge_clusters
  // ---------------------------------------------------------------------------

  /** merge_clusters: copies the first cluster and then the second into a new
      cluster, four sequences per step while at least four remain (the bound
      is size - 3 computed in signed arithmetic, so it is negative for fewer
      than three sequences and the unrolled loop does not run), then one by
      one. */
  method MergeClusters(cToMerge1: Cluster, cToMerge2: Cluster) returns (newCluster: Cluster)
    ensures newCluster == cToMerge1 + cToMerge2
  {
    newCluster := [];
    var i := 0;
    while i < |cToMerge1| - 3
      invariant 0 <= i <= |cToMerge1|
      invariant newCluster == cToMerge1[..i]
    {
      newCluster := newCluster + [cToMerge1[i]];
      newCluster := newCluster + [cToMerge1[i + 1]];
      newCluster := newCluster + [cToMerge1[i + 2]];
      newCluster := newCluster + [cToMerge1[i + 3]];
      i := i + 4;
    }
    while i < |cToMerge1|
      invariant 0 <= i <= |cToMerge1|
      invariant newCluster == cToMerge1[..i]
    {
      newCluster := newCluster + [cToMerge1[i]];
      i := i + 1;
    }
    assert cToMerge1[..i] == cToMerge1;

    i := 0;
    while i < |cToMerge2| - 3
      invariant 0 <= i <= |cToMerge2|
      invariant newCluster == cToMerge1 + cToMerge2[..i]
    {
      newCluster := newCluster + [cToMerge2[i]];
      newCluster := newCluster + [cToMerge2[i + 1]];
      newCluster := newCluster + [cToMerge2[i + 2]];
      newCluster := newCluster + [cToMerge2[i + 3]];
      i := i + 4;
    }
    while i < |cToMerge2|
      invariant 0 <= i <= |cToMerge2|
      invariant newCluster == cToMerge1 + cToMerge2[..i]
    {
      newCluster := newCluster + [cToMerge2[i]];
      i := i + 1;
    }
    assert cToMerge2[..i] == cToMerge2;
  }

  // ---------------------------------------------------------------------------
  // One step of the clustering loop
  // ---------------------------------------------------------------------------

  /** vector::erase at position k: the clusters after k move down by one. */
  function Erase(cs: seq<Cluster>, k: int): (r: seq<Cluster>)
    requires 0 <= k < |cs|
    ensures |r| == |cs| - 1
    ensures forall m :: 0 <= m < k ==> r[m] == cs[m]
    ensures forall m :: k <= m < |r| ==> r[m] == cs[m + 1]
  {
    cs[..k] + cs[k + 1..]
  }

  /** The sequences of a working set, split around position k. */
  lemma FlattenAround(cs: seq<Cluster>, k: int)
    requires 0 <= k < |cs|
    ensures Flatten(cs) == Flatten(cs[..k]) + (cs[k] + Flatten(cs[k + 1..]))
  {
    var before, after := cs[..k], cs[k + 1..];
    var rest := cs[k..];
    assert Flatten(rest) == cs[k] + Flatten(after) by {
      assert rest[0] == cs[k] && rest[1..] == after;
    }
    assert cs == before + rest;
    FlattenAppend(before, rest);
  }

  /** Erasing a cluster removes exactly its sequences from the working set. */
  lemma EraseRemovesCluster(cs: seq<Cluster>, k: int)
    requires 0 <= k < |cs|
    ensures multiset(Flatten(cs)) == multiset(Flatten(Erase(cs, k))) + multiset(cs[k])
  {
    FlattenAround(cs, k);
    FlattenAppend(cs[..k], cs[k + 1..]);
    assert Erase(cs, k) == cs[..k] + cs[k + 1..];
  }

  /** The working set with the clusters at positions idxC1 and idxC2 erased,
      the larger position first so that the smaller one still names the
      same cluster when it is erased. */
  function EraseBoth(cs: seq<Cluster>, idxC1: int, idxC2: int): seq<Cluster>
    requires 0 <= idxC1 < |cs| && 0 <= idxC2 < |cs| && idxC1 != idxC2
  {
    if idxC1 > idxC2 then Erase(Erase(cs, idxC1), idxC2)
    else Erase(Erase(cs, idxC2), idxC1)
  }

  /** The working set after merging the clusters at positions idxC1 and
      idxC2: both are erased and their concatenation is appended at the end. */
  function MergeStep(cs: seq<Cluster>, idxC1: int, idxC2: int): seq<Cluster>
    requires 0 <= idxC1 < |cs| && 0 <= idxC2 < |cs| && idxC1 != idxC2
  {
    EraseBoth(cs, idxC1, idxC2) + [cs[idxC1] + cs[idxC2]]
  }

  /** Nothing else changes: for a pair i < j, a merge step keeps every other
      cluster, in its order, and ends with cs[i] followed by cs[j]. */
  lemma MergeStepLayout(cs: seq<Cluster>, i: int, j: int)
    requires IsPair(|cs|, i, j)
    ensures var r := MergeStep(cs, i, j);
            && |r| == |cs| - 1
            && (forall m :: 0 <= m < i ==> r[m] == cs[m])
            && (forall m :: i <= m < j - 1 ==> r[m] == cs[m + 1])
            && (forall m :: j - 1 <= m < |cs| - 2 ==> r[m] == cs[m + 2])
            && r[|cs| - 2] == cs[i] + cs[j]
  {
  }

  /** Erasing position hi and then position lo < hi removes exactly the
      sequences of cs[lo] and cs[hi]. */
  lemma EraseTwoRemovesClusters(cs: seq<Cluster>, hi: int, lo: int)
    requires 0 <= lo < hi < |cs|
    ensures multiset(Flatten(cs)) == multiset(Flatten(Erase(Erase(cs, hi), lo))) + multiset(cs[lo]) + multiset(cs[hi])
  {
    var once := Erase(cs, hi);
    EraseRemovesCluster(cs, hi);
    EraseRemovesCluster(once, lo);
    assert once[lo] == cs[lo];
  }

  /** Erasing both merged clusters removes exactly their sequences. */
  lemma EraseBothRemovesClusters(cs: seq<Cluster>, idxC1: int, idxC2: int)
    requires 0 <= idxC1 < |cs| && 0 <= idxC2 < |cs| && idxC1 != idxC2
    ensures multiset(Flatten(cs)) == multiset(Flatten(EraseBoth(cs, idxC1, idxC2))) + multiset(cs[idxC1] + cs[idxC2])
  {
    if idxC1 > idxC2 {
      EraseTwoRemovesClusters(cs, idxC1, idxC2);
    } else {
      EraseTwoRemovesClusters(cs, idxC2, idxC1);
    }
  }

  /** A merge step neither loses nor duplicates a sequence. */
  lemma MergeStepKeepsSequences(cs: seq<Cluster>, idxC1: int, idxC2: int)
    requires 0 <= idxC1 < |cs| && 0 <= idxC2 < |cs| && idxC1 != idxC2
    ensures multiset(Flatten(MergeStep(cs, idxC1, idxC2))) == multiset(Flatten(cs))
  {
    var merged := cs[idxC1] + cs[idxC2];
    EraseBothRemovesClusters(cs, idxC1, idxC2);
    FlattenAppend(EraseBoth(cs, idxC1, idxC2), [merged]);
    FlattenSingle(merged);
  }

  // ---------------------------------------------------------------------------
  // UPGMA
  // ---------------------------------------------------------------------------

  /** steps is a run of the clustering loop from cs to final: every step
      merges the first closest pair of the working set it is applied to. */
  ghost predicate IsRun(cs: seq<Cluster>, d: (Cluster, Cluster) -> real, steps: seq<(int, int)>, final: seq<Cluster>)
    decreases |steps|
  {
    if |steps| == 0 then final == cs
    else
      && IsFirstMinimalPair(cs, d, steps[0].0, steps[0].1)
      && IsRun(MergeStep(cs, steps[0].0, steps[0].1), d, steps[1..], final)
  }

  lemma SplitFirst<T>(s: seq<T>, x: T)
    requires |s| > 0
    ensures s + [x] == [s[0]] + (s[1..] + [x])
  {
    assert s == [s[0]] + s[1..];
  }

  /** A closest-pair merge followed by a run is a run. */
  lemma RunCons(cs: seq<Cluster>, d: (Cluster, Cluster) -> real, step: (int, int), rest: seq<(int, int)>, final: seq<Cluster>)
    requires IsFirstMinimalPair(cs, d, step.0, step.1)
    requires IsRun(MergeStep(cs, step.0, step.1), d, rest, final)
    ensures IsRun(cs, d, [step] + rest, final)
  {
    var steps := [step] + rest;
    assert steps[0] == step && steps[1..] == rest;
  }

  /** A run followed by one more closest-pair merge is a run. */
  lemma {:induction false} RunExtends(cs: seq<Cluster>, d: (Cluster, Cluster) -> real, steps: seq<(int, int)>,
                                      current: seq<Cluster>, i: int, j: int)
    requires IsRun(cs, d, steps, current)
    requires IsFirstMinimalPair(current, d, i, j)
    ensures IsRun(cs, d, steps + [(i, j)], MergeStep(current, i, j))
    decreases |steps|
  {
    if |steps| == 0 {
      assert IsRun(MergeStep(current, i, j), d, [], MergeStep(current, i, j));
      RunCons(cs, d, (i, j), [], MergeStep(current, i, j));
      assert steps + [(i, j)] == [(i, j)] + [];
    } else {
      var next := MergeStep(cs, steps[0].0, steps[0].1);
      RunExtends(next, d, steps[1..], current, i, j);
      RunCons(cs, d, steps[0], steps[1..] + [(i, j)], MergeStep(current, i, j));
      SplitFirst(steps, (i, j));
    }
  }

  /** UPGMA: repeatedly find the two closest clusters, erase them (larger
      position first) and append their merge, until one cluster is left.
      The aligning of the two clusters in between is not part of this model.
      Returns the final working set and the positions merged at each step. */
  method Upgma(clusters: seq<Cluster>, d: (Cluster, Cluster) -> real)
    returns (result: seq<Cluster>, steps: seq<(int, int)>)
    ensures |clusters| == 0 ==> result == [] && steps == []
    ensures |clusters| >= 1 ==> |result| == 1 && |steps| == |clusters| - 1
    ensures |clusters| >= 1 ==> multiset(result[0]) == multiset(Flatten(clusters))
    ensures multiset(Flatten(result)) == multiset(Flatten(clusters))
    ensures IsRun(clusters, d, steps, result)
  {
    var cs := clusters;
    var numClusters := |cs|;
    steps := [];
    while numClusters > 1
      invariant numClusters == |cs|
      invariant |clusters| >= 1 ==> numClusters >= 1 && |steps| == |clusters| - numClusters
      invariant |clusters| == 0 ==> cs == [] && steps == []
      invariant multiset(Flatten(cs)) == multiset(Flatten(clusters))
      invariant IsRun(clusters, d, steps, cs)
      decreases numClusters
    {
      var cToMerge1, idxC1, cToMerge2, idxC2 := FindClosestClusters(cs, d);
      ghost var before := cs;
      cs := EraseBoth(cs, idxC1, idxC2);
      var newCluster := MergeClusters(cToMerge1, cToMerge2);
      cs := cs + [newCluster];
      assert cs == MergeStep(before, idxC1, idxC2);
      MergeStepKeepsSequences(before, idxC1, idxC2);
      RunExtends(clusters, d, steps, before, idxC1, idxC2);
      numClusters := numClusters - 1;
      steps := steps + [(idxC1, idxC2)];
    }
    result := cs;
    if |clusters| >= 1 {
      FlattenSingle(result[0]);
      assert result == [result[0]];
    }
  }

  /** Two clusters are merged into one, the first followed by the second. */
  lemma TwoClustersMerge(cs: seq<Cluster>, d: (Cluster, Cluster) -> real, steps: seq<(int, int)>, final: seq<Cluster>)
    requires |cs| == 2 && |steps| == 1 && IsRun(cs, d, steps, final)
    ensures final == [cs[0] + cs[1]]
  {
    assert steps[0] == (0, 1);
    assert steps[1..] == [];
  }

  lemma SameHeadAndTail<T>(s: seq<T>, t: seq<T>)
    requires |s| > 0 && |t| > 0 && s[0] == t[0] && s[1..] == t[1..]
    ensures s == t
  {
    assert s == [s[0]] + s[1..];
    assert t == [t[0]] + t[1..];
  }

  /** The clustering is determined by its input: two runs of the same length
      make the same merges and end in the same working set. */
  lemma {:induction false} RunIsDetermined(cs: seq<Cluster>, d: (Cluster, Cluster) -> real,
                                           steps: seq<(int, int)>, final: seq<Cluster>,
                                           steps': seq<(int, int)>, final': seq<Cluster>)
    requires IsRun(cs, d, steps, final) && IsRun(cs, d, steps', final')
    requires |steps| == |steps'|
    ensures steps == steps' && final == final'
    decreases |steps|
  {
    if |steps| > 0 {
      FirstMinimalPairUnique(cs, d, steps[0].0, steps[0].1, steps'[0].0, steps'[0].1);
      RunIsDetermined(MergeStep(cs, steps[0].0, steps[0].1), d, steps[1..], final, steps'[1..], final');
      SameHeadAndTail(steps, steps');
    }
  }
}
