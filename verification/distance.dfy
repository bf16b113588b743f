/** The pairwise embedding distance: each sequence's row of the n x n distance
    matrix is a vector, two sequences are compared by the squared Euclidean
    distance of their rows, and two clusters by the mean root distance over
    all cross pairs.  Floating point is modelled by exact reals. */
module Distance {

  import opened Types
  import opened Arith

  // ---------------------------------------------------------------------------
  // Squares of reals
  // ---------------------------------------------------------------------------

  /** The identity; used as the second factor of Square.  A verifier
      workaround, not part of the modelled program. */
  function Same(x: real): real
  {
    x
  }

  /** x squared.  The second factor is written `Same(x)` so that the solver
      keeps the square as a product of two terms and does not rewrite it
      (a verifier workaround; mathematically Square(x) is x * x). */
  function Square(x: real): real
  {
    x * Same(x)
  }

  /** A plain product of a value with itself is its square. */
  lemma ProductIsSquare(x: real)
    ensures x * x == Square(x)
  {
  }

  lemma ProductOfPositives(x: real, y: real)
    requires x > 0.0 && y > 0.0
    ensures x * y > 0.0
  {
  }

  lemma ProductOfNegatives(x: real, y: real)
    requires x < 0.0 && y < 0.0
    ensures x * y > 0.0
  {
    var u, v := -x, -y;
    ProductOfPositives(u, v);
    assert x * y == u * v;
  }

  /** A square is non-negative and is zero only at zero. */
  lemma SquareFacts(x: real)
    ensures Square(x) >= 0.0
    ensures Square(x) == 0.0 <==> x == 0.0
  {
    if x < 0.0 {
      ProductOfNegatives(x, Same(x));
    } else if x > 0.0 {
      ProductOfPositives(x, Same(x));
    }
  }

  /** Squaring ignores the order of a difference. */
  lemma SquareOfSwappedDifference(x: real, y: real)
    ensures Square(x - y) == Square(y - x)
  {
  }

  // ---------------------------------------------------------------------------
  // The reference definition: a plain sum over the columns
  // ---------------------------------------------------------------------------

  /** The flat matrix holds n rows of n distances, row after row. */
  predicate IsMatrix(mx: seq<real>, n: nat)
  {
    |mx| == n * n
  }

  /** Column k of row a. */
  function Cell(mx: seq<real>, n: nat, a: nat, k: nat): real
    requires IsMatrix(mx, n) && a < n && k < n
  {
    RowCellInBounds(n, a, k);
    mx[a * n + k]
  }

  /** The squared difference of rows a and b at column k. */
  function Term(mx: seq<real>, n: nat, a: nat, b: nat, k: nat): real
    requires IsMatrix(mx, n) && a < n && b < n && k < n
  {
    Square(Cell(mx, n, a, k) - Cell(mx, n, b, k))
  }

  /** The sum of the squared differences over the columns 0 .. upto-1. */
  function PartialSum(mx: seq<real>, n: nat, a: nat, b: nat, upto: nat): real
    requires IsMatrix(mx, n) && a < n && b < n && upto <= n
  {
    if upto == 0 then 0.0 else PartialSum(mx, n, a, b, upto - 1) + Term(mx, n, a, b, upto - 1)
  }

  /** The squared Euclidean distance of rows a and b: the sum over every
      column of the squared difference.  No root is taken. */
  function SquaredDistance(mx: seq<real>, n: nat, a: nat, b: nat): real
    requires IsMatrix(mx, n) && a < n && b < n
  {
    PartialSum(mx, n, a, b, n)
  }

  /** Rows a and b agree on the columns 0 .. upto-1. */
  predicate RowsAgree(mx: seq<real>, n: nat, a: nat, b: nat, upto: nat)
    requires IsMatrix(mx, n) && a < n && b < n && upto <= n
  {
    forall k :: 0 <= k < upto ==> Cell(mx, n, a, k) == Cell(mx, n, b, k)
  }

  lemma {:induction false} PartialSumNonNegative(mx: seq<real>, n: nat, a: nat, b: nat, upto: nat)
    requires IsMatrix(mx, n) && a < n && b < n && upto <= n
    ensures PartialSum(mx, n, a, b, upto) >= 0.0
  {
    if upto > 0 {
      PartialSumNonNegative(mx, n, a, b, upto - 1);
      SquareFacts(Cell(mx, n, a, upto - 1) - Cell(mx, n, b, upto - 1));
    }
  }

  lemma {:induction false} PartialSumSymmetric(mx: seq<real>, n: nat, a: nat, b: nat, upto: nat)
    requires IsMatrix(mx, n) && a < n && b < n && upto <= n
    ensures PartialSum(mx, n, a, b, upto) == PartialSum(mx, n, b, a, upto)
  {
    if upto > 0 {
      PartialSumSymmetric(mx, n, a, b, upto - 1);
      SquareOfSwappedDifference(Cell(mx, n, a, upto - 1), Cell(mx, n, b, upto - 1));
    }
  }

  /** A sum of squares is zero exactly when every square is. */
  lemma {:induction false} PartialSumZeroIff(mx: seq<real>, n: nat, a: nat, b: nat, upto: nat)
    requires IsMatrix(mx, n) && a < n && b < n && upto <= n
    ensures PartialSum(mx, n, a, b, upto) == 0.0 <==> RowsAgree(mx, n, a, b, upto)
  {
    if upto > 0 {
      PartialSumZeroIff(mx, n, a, b, upto - 1);
      PartialSumNonNegative(mx, n, a, b, upto - 1);
      var diff := Cell(mx, n, a, upto - 1) - Cell(mx, n, b, upto - 1);
      SquareFacts(diff);
      assert RowsAgree(mx, n, a, b, upto) <==> RowsAgree(mx, n, a, b, upto - 1) && diff == 0.0;
    }
  }

  /** The squared distance is non-negative. */
  lemma SquaredDistanceNonNegative(mx: seq<real>, n: nat, a: nat, b: nat)
    requires IsMatrix(mx, n) && a < n && b < n
    ensures SquaredDistance(mx, n, a, b) >= 0.0
  {
    PartialSumNonNegative(mx, n, a, b, n);
  }

  /** The squared distance is symmetric in the two sequences. */
  lemma SquaredDistanceSymmetric(mx: seq<real>, n: nat, a: nat, b: nat)
    requires IsMatrix(mx, n) && a < n && b < n
    ensures SquaredDistance(mx, n, a, b) == SquaredDistance(mx, n, b, a)
  {
    PartialSumSymmetric(mx, n, a, b, n);
  }

  /** The squared distance is zero exactly when the two rows are equal, so in
      particular the distance of a sequence to itself is zero. */
  lemma SquaredDistanceZeroIff(mx: seq<real>, n: nat, a: nat, b: nat)
    requires IsMatrix(mx, n) && a < n && b < n
    ensures SquaredDistance(mx, n, a, b) == 0.0 <==> RowsAgree(mx, n, a, b, n)
    ensures SquaredDistance(mx, n, a, a) == 0.0
  {
    PartialSumZeroIff(mx, n, a, b, n);
    PartialSumZeroIff(mx, n, a, a, n);
  }

  // ---------------------------------------------------------------------------
  // The 8-lane vector operations, by their lane-wise meaning
  // ---------------------------------------------------------------------------

  /** A 256-bit register of eight single floats. */
  type Vec8 = v: seq<real> | |v| == 8 witness [0.0, 0.0, 0.0, 0.0, 0.0, 0.0, 0.0, 0.0]

  /** _mm256_set1_ps(x) */
  function Broadcast(x: real): Vec8
  {
    seq(8, _ => x)
  }

  /** _mm256_loadu_ps(&mx[from]) */
  function Load(mx: seq<real>, from: int): Vec8
    requires 0 <= from && from + 8 <= |mx|
  {
    mx[from .. from + 8]
  }

  /** _mm256_sub_ps */
  function Sub(x: Vec8, y: Vec8): Vec8
  {
    seq(8, lane requires 0 <= lane < 8 => x[lane] - y[lane])
  }

  /** _mm256_mul_ps */
  function Mul(x: Vec8, y: Vec8): Vec8
  {
    seq(8, lane requires 0 <= lane < 8 => x[lane] * y[lane])
  }

  /** _mm256_add_ps */
  function Add(x: Vec8, y: Vec8): Vec8
  {
    seq(8, lane requires 0 <= lane < 8 => x[lane] + y[lane])
  }

  /** _mm256_hadd_ps: pairwise sums, interleaved per 128-bit half. */
  function HAdd(x: Vec8, y: Vec8): Vec8
  {
    [x[0] + x[1], x[2] + x[3], y[0] + y[1], y[2] + y[3], x[4] + x[5], x[6] + x[7], y[4] + y[5], y[6] + y[7]]
  }

  /** _mm256_permute2f128_ps(x, x, 1): the two 128-bit halves swapped. */
  function SwapHalves(x: Vec8): Vec8
  {
    [x[4], x[5], x[6], x[7], x[0], x[1], x[2], x[3]]
  }

  /** The sum of lanes from .. 7. */
  function LanesFrom(x: Vec8, from: nat): real
    requires from <= 8
    decreases 8 - from
  {
    if from == 8 then 0.0 else x[from] + LanesFrom(x, from + 1)
  }

  /** The sum of the eight lanes. */
  function LaneSum(x: Vec8): real
  {
    LanesFrom(x, 0)
  }

  /** The lane sum written out lane by lane. */
  lemma LaneSumExpand(x: Vec8)
    ensures LaneSum(x) == x[0] + x[1] + x[2] + x[3] + x[4] + x[5] + x[6] + x[7]
  {
    assert LanesFrom(x, 6) == x[6] + x[7] + LanesFrom(x, 8);
    assert LanesFrom(x, 4) == x[4] + x[5] + LanesFrom(x, 6);
    assert LanesFrom(x, 2) == x[2] + x[3] + LanesFrom(x, 4);
    assert LanesFrom(x, 0) == x[0] + x[1] + LanesFrom(x, 2);
  }

  /** The horizontal reduction at the end of the vector loop: two hadds, a
      half swap and an add. */
  function Reduce(x: Vec8): Vec8
  {
    var h := HAdd(x, x);
    var h2 := HAdd(h, h);
    Add(h2, SwapHalves(h2))
  }

  /** The reduction leaves the sum of all eight lanes in every lane, lane 0 included. */
  lemma ReduceSumsLanes(x: Vec8)
    ensures forall lane :: 0 <= lane < 8 ==> Reduce(x)[lane] == LaneSum(x)
  {
    LaneSumExpand(x);
  }

  /** Adding two registers adds their lane sums. */
  lemma AddSumsLanes(x: Vec8, y: Vec8)
    ensures LaneSum(Add(x, y)) == LaneSum(x) + LaneSum(y)
  {
    LaneSumExpand(x);
    LaneSumExpand(y);
    LaneSumExpand(Add(x, y));
  }

  /** The squared differences of the eight columns base .. base+7. */
  function ChunkTerms(mx: seq<real>, n: nat, a: nat, b: nat, base: nat): real
    requires IsMatrix(mx, n) && a < n && b < n && base + 8 <= n
  {
    Term(mx, n, a, b, base) + Term(mx, n, a, b, base + 1) + Term(mx, n, a, b, base + 2)
    + Term(mx, n, a, b, base + 3) + Term(mx, n, a, b, base + 4) + Term(mx, n, a, b, base + 5)
    + Term(mx, n, a, b, base + 6) + Term(mx, n, a, b, base + 7)
  }

  /** Eight more columns add their eight squared differences. */
  lemma PartialSumAdvance8(mx: seq<real>, n: nat, a: nat, b: nat, base: nat)
    requires IsMatrix(mx, n) && a < n && b < n && base + 8 <= n
    ensures PartialSum(mx, n, a, b, base + 8) == PartialSum(mx, n, a, b, base) + ChunkTerms(mx, n, a, b, base)
  {
    assert PartialSum(mx, n, a, b, base + 8) == PartialSum(mx, n, a, b, base + 7) + Term(mx, n, a, b, base + 7);
    assert PartialSum(mx, n, a, b, base + 7) == PartialSum(mx, n, a, b, base + 6) + Term(mx, n, a, b, base + 6);
    assert PartialSum(mx, n, a, b, base + 6) == PartialSum(mx, n, a, b, base + 5) + Term(mx, n, a, b, base + 5);
    assert PartialSum(mx, n, a, b, base + 5) == PartialSum(mx, n, a, b, base + 4) + Term(mx, n, a, b, base + 4);
    assert PartialSum(mx, n, a, b, base + 4) == PartialSum(mx, n, a, b, base + 3) + Term(mx, n, a, b, base + 3);
    assert PartialSum(mx, n, a, b, base + 3) == PartialSum(mx, n, a, b, base + 2) + Term(mx, n, a, b, base + 2);
    assert PartialSum(mx, n, a, b, base + 2) == PartialSum(mx, n, a, b, base + 1) + Term(mx, n, a, b, base + 1);
  }

  /** The eight columns base .. base+7 of row a lie inside the matrix. */
  lemma ChunkInBounds(n: nat, a: nat, base: nat)
    requires a < n && base + 8 <= n
    ensures 0 <= a * n && a * n + base + 8 <= n * n
  {
    RowCellInBounds(n, a, base + 7);
  }

  /** Lane `lane` of the difference of two loaded row chunks is the
      difference of the two rows at column base + lane. */
  lemma LoadedLane(mx: seq<real>, n: nat, a: nat, b: nat, base: nat, lane: nat)
    requires IsMatrix(mx, n) && a < n && b < n && base + 8 <= n && lane < 8
    ensures 0 <= a * n && 0 <= b * n && a * n + base + 8 <= |mx| && b * n + base + 8 <= |mx|
    ensures Sub(Load(mx, a * n + base), Load(mx, b * n + base))[lane]
         == Cell(mx, n, a, base + lane) - Cell(mx, n, b, base + lane)
  {
    ChunkInBounds(n, a, base);
    ChunkInBounds(n, b, base);
    var x, y := Load(mx, a * n + base), Load(mx, b * n + base);
    assert x[lane] == mx[a * n + (base + lane)];
    assert y[lane] == mx[b * n + (base + lane)];
  }

  /** The two loaded row chunks, subtracted and squared lane by lane, sum to
      the squared differences of columns base .. base+7. */
  lemma LoadedChunk(mx: seq<real>, n: nat, a: nat, b: nat, base: nat)
    requires IsMatrix(mx, n) && a < n && b < n && base + 8 <= n
    ensures 0 <= a * n && 0 <= b * n && a * n + base + 8 <= |mx| && b * n + base + 8 <= |mx|
    ensures var d := Sub(Load(mx, a * n + base), Load(mx, b * n + base));
            LaneSum(Mul(d, d)) == ChunkTerms(mx, n, a, b, base)
  {
    ChunkInBounds(n, a, base);
    ChunkInBounds(n, b, base);
    var d := Sub(Load(mx, a * n + base), Load(mx, b * n + base));
    var sq := Mul(d, d);
    forall lane | 0 <= lane < 8
      ensures sq[lane] == Term(mx, n, a, b, base + lane)
    {
      LoadedLane(mx, n, a, b, base, lane);
      ProductIsSquare(d[lane]);
    }
    LaneSumExpand(sq);
    assert sq[0] == Term(mx, n, a, b, base);
  }

  // ---------------------------------------------------------------------------
  // seq_to_seq_distance: 8-lane chunks, horizontal reduction, scalar tail
  // ---------------------------------------------------------------------------

  /** The body of the vector loop: loads the chunk of eight columns at
      column k * 8 of rows a and b, subtracts them, squares the difference
      lane by lane and adds it to the accumulator register. */
  method AddChunk(mx: seq<real>, n: nat, a: nat, b: nat, k: nat, dist: Vec8) returns (next: Vec8)
    requires IsMatrix(mx, n) && a < n && b < n && k * 8 + 8 <= n
    ensures LaneSum(next) == LaneSum(dist) + ChunkTerms(mx, n, a, b, k * 8)
  {
    ChunkInBounds(n, a, k * 8);
    ChunkInBounds(n, b, k * 8);
    var vec1Dists := Load(mx, a * n + k * 8);
    var vec2Dists := Load(mx, b * n + k * 8);
    var diff := Sub(vec1Dists, vec2Dists);
    var square := Mul(diff, diff);
    LoadedChunk(mx, n, a, b, k * 8);
    AddSumsLanes(dist, square);
    next := Add(dist, square);
  }

  /** The vector loop of seq_to_seq_distance: eight columns per step, each
      lane accumulating the squared differences of its own columns, so that
      the lanes together hold the sum over the first 8 * chunkCount columns. */
  method AccumulateChunks(mx: seq<real>, n: nat, a: nat, b: nat, chunkCount: nat) returns (dist: Vec8)
    requires IsMatrix(mx, n) && a < n && b < n && 8 * chunkCount <= n
    ensures LaneSum(dist) == PartialSum(mx, n, a, b, 8 * chunkCount)
  {
    dist := Broadcast(0.0);
    var k := 0;
    while k < chunkCount
      invariant 0 <= k <= chunkCount
      invariant LaneSum(dist) == PartialSum(mx, n, a, b, k * 8)
    {
      dist := AddChunk(mx, n, a, b, k, dist);
      PartialSumAdvance8(mx, n, a, b, k * 8);
      assert (k + 1) * 8 == k * 8 + 8;
      k := k + 1;
    }
  }

  /** seq_to_seq_distance.  The vector loop covers the columns
      0 .. 8 * chunkCount - 1, the reduction folds the eight lanes into lane 0,
      and the scalar tail adds the next n % 8 columns; so the result is the
      plain sum over the first 8 * chunkCount + n % 8 columns, which is every
      column when chunkCount is n / 8 (see SeqToSeqDistanceCoversRow). */
  method SeqToSeqDistance(mx: seq<real>, n: nat, a: nat, b: nat, chunkCount: nat) returns (r: real)
    requires IsMatrix(mx, n) && a < n && b < n
    requires 8 * chunkCount + n % 8 <= n
    ensures r == PartialSum(mx, n, a, b, 8 * chunkCount + n % 8)
    ensures chunkCount == n / 8 ==> r == SquaredDistance(mx, n, a, b)
  {
    SeqToSeqDistanceCoversRow(n);
    var dist := AccumulateChunks(mx, n, a, b, chunkCount);
    ReduceSumsLanes(dist);
    dist := Reduce(dist);
    var total := dist[0];

    // the columns the vector loop did not reach
    var remaining := n % 8;
    var startAt := 8 * chunkCount;
    var i := 0;
    while i < remaining
      invariant 0 <= i <= remaining
      invariant total == PartialSum(mx, n, a, b, startAt + i)
    {
      RowCellInBounds(n, a, startAt + i);
      RowCellInBounds(n, b, startAt + i);
      var d := mx[a * n + (startAt + i)] - mx[b * n + (startAt + i)];
      ProductIsSquare(d);
      d := d * d;
      total := total + d;
      i := i + 1;
    }
    r := total;
  }

  /** With chunkCount = n / 8, as its caller passes it, seq_to_seq_distance
      covers every column exactly once. */
  lemma SeqToSeqDistanceCoversRow(n: nat)
    ensures 8 * (n / 8) + n % 8 == n
  {
  }

  // ---------------------------------------------------------------------------
  // mean_difference: the average linkage of two clusters
  // ---------------------------------------------------------------------------

  /** Every sequence of the cluster has a row in the n x n matrix. */
  predicate Indexed(c: Cluster, n: nat)
  {
    forall s :: s in c ==> 0 <= s.index < n
  }

  /** The distance of two sequences: the root of their squared distance.
      `root` stands for the square root of the C library. */
  function SeqDistance(mx: seq<real>, n: nat, root: real -> real, s: Sequence, t: Sequence): real
    requires IsMatrix(mx, n) && 0 <= s.index < n && 0 <= t.index < n
  {
    root(SquaredDistance(mx, n, s.index, t.index))
  }

  /** The distances of s to every sequence of c, summed in the order of c. */
  function RowSum(mx: seq<real>, n: nat, root: real -> real, s: Sequence, c: Cluster): real
    requires IsMatrix(mx, n) && 0 <= s.index < n && Indexed(c, n)
  {
    if |c| == 0 then 0.0
    else RowSum(mx, n, root, s, c[..|c| - 1]) + SeqDistance(mx, n, root, s, c[|c| - 1])
  }

  /** The distances of every cross pair, row after row. */
  function PairSum(mx: seq<real>, n: nat, root: real -> real, c1: Cluster, c2: Cluster): real
    requires IsMatrix(mx, n) && Indexed(c1, n) && Indexed(c2, n)
  {
    if |c1| == 0 then 0.0
    else PairSum(mx, n, root, c1[..|c1| - 1], c2) + RowSum(mx, n, root, c1[|c1| - 1], c2)
  }

  /** The average linkage of two clusters: the mean distance over all cross
      pairs, None when there is no pair. */
  function MeanLinkage(mx: seq<real>, n: nat, root: real -> real, c1: Cluster, c2: Cluster): Option<real>
    requires IsMatrix(mx, n) && Indexed(c1, n) && Indexed(c2, n)
  {
    if |c1| == 0 || |c2| == 0 then None
    else Some(PairSum(mx, n, root, c1, c2) / ((|c1| * |c2|) as real))
  }

  /** One more column of a row of cross pairs. */
  lemma RowSumStep(mx: seq<real>, n: nat, root: real -> real, s: Sequence, c: Cluster, j: nat)
    requires IsMatrix(mx, n) && 0 <= s.index < n && Indexed(c, n) && j < |c|
    ensures RowSum(mx, n, root, s, c[..j + 1]) == RowSum(mx, n, root, s, c[..j]) + SeqDistance(mx, n, root, s, c[j])
  {
    assert c[..j + 1][..j] == c[..j];
  }

  /** One more row of cross pairs. */
  lemma PairSumStep(mx: seq<real>, n: nat, root: real -> real, c1: Cluster, c2: Cluster, i: nat)
    requires IsMatrix(mx, n) && Indexed(c1, n) && Indexed(c2, n) && i < |c1|
    ensures PairSum(mx, n, root, c1[..i + 1], c2) == PairSum(mx, n, root, c1[..i], c2) + RowSum(mx, n, root, c1[i], c2)
  {
    assert c1[..i + 1][..i] == c1[..i];
  }

  /** The inner loop of mean_difference: adds the distances of seq1 to every
      sequence of c2, in order, to the running total. */
  method AddRowDistances(mx: seq<real>, n: nat, root: real -> real, seq1: Sequence, c2: Cluster, mean: real)
    returns (total: real)
    requires IsMatrix(mx, n) && 0 <= seq1.index < n && Indexed(c2, n)
    ensures total == mean + RowSum(mx, n, root, seq1, c2)
  {
    var chunkCount := n / 8;
    SeqToSeqDistanceCoversRow(n);
    total := mean;
    var j := 0;
    while j < |c2|
      invariant 0 <= j <= |c2|
      invariant total == mean + RowSum(mx, n, root, seq1, c2[..j])
    {
      var seq2 := c2[j];
      var squared := SeqToSeqDistance(mx, n, seq1.index, seq2.index, chunkCount);
      RowSumStep(mx, n, root, seq1, c2, j);
      total := total + root(squared);
      j := j + 1;
    }
    assert c2[..j] == c2;
  }

  /** mean_difference: the sum of the distances of all |c1| * |c2| cross
      pairs, divided by |c1| * |c2|.  When a cluster is empty the division is
      0 / 0, whose NaN is modelled by None. */
  method MeanDifference(mx: seq<real>, n: nat, root: real -> real, c1: Cluster, c2: Cluster)
    returns (r: Option<real>)
    requires IsMatrix(mx, n) && Indexed(c1, n) && Indexed(c2, n)
    ensures r == None <==> |c1| == 0 || |c2| == 0
    ensures r.Some? ==> r.value == PairSum(mx, n, root, c1, c2) / ((|c1| * |c2|) as real)
    ensures r == MeanLinkage(mx, n, root, c1, c2)
  {
    var mean := 0.0;
    var c1Size := |c1|;
    var c2Size := |c2|;
    var i := 0;
    while i < c1Size
      invariant 0 <= i <= c1Size
      invariant mean == PairSum(mx, n, root, c1[..i], c2)
    {
      PairSumStep(mx, n, root, c1, c2, i);
      mean := AddRowDistances(mx, n, root, c1[i], c2, mean);
      i := i + 1;
    }
    assert c1[..i] == c1;
    if c1Size == 0 || c2Size == 0 {
      r := None;
    } else {
      r := Some(mean / ((c1Size * c2Size) as real));
    }
  }

  /** Two sequences are as far from each other in either order. */
  lemma SeqDistanceSymmetric(mx: seq<real>, n: nat, root: real -> real, s: Sequence, t: Sequence)
    requires IsMatrix(mx, n) && 0 <= s.index < n && 0 <= t.index < n
    ensures SeqDistance(mx, n, root, s, t) == SeqDistance(mx, n, root, t, s)
  {
    SquaredDistanceSymmetric(mx, n, s.index, t.index);
  }

  /** With no second cluster there is nothing to sum. */
  lemma {:induction false} PairSumEmptyRight(mx: seq<real>, n: nat, root: real -> real, c1: Cluster)
    requires IsMatrix(mx, n) && Indexed(c1, n)
    ensures PairSum(mx, n, root, c1, []) == 0.0
    decreases |c1|
  {
    if |c1| > 0 {
      PairSumEmptyRight(mx, n, root, c1[..|c1| - 1]);
    }
  }

  /** One more sequence t in the second cluster adds the column of t. */
  lemma {:induction false} PairSumAppendColumn(mx: seq<real>, n: nat, root: real -> real,
                                               c1: Cluster, c2: Cluster, t: Sequence)
    requires IsMatrix(mx, n) && Indexed(c1, n) && Indexed(c2, n) && 0 <= t.index < n
    ensures Indexed(c2 + [t], n)
    ensures PairSum(mx, n, root, c1, c2 + [t])
         == PairSum(mx, n, root, c1, c2) + RowSum(mx, n, root, t, c1)
    decreases |c1|
  {
    var c2t := c2 + [t];
    assert c2t[..|c2t| - 1] == c2;
    if |c1| > 0 {
      var s := c1[|c1| - 1];
      PairSumAppendColumn(mx, n, root, c1[..|c1| - 1], c2, t);
      SeqDistanceSymmetric(mx, n, root, s, t);
    }
  }

  /** The cross-pair sum does not depend on which cluster comes first. */
  lemma {:induction false} PairSumSymmetric(mx: seq<real>, n: nat, root: real -> real, c1: Cluster, c2: Cluster)
    requires IsMatrix(mx, n) && Indexed(c1, n) && Indexed(c2, n)
    ensures PairSum(mx, n, root, c1, c2) == PairSum(mx, n, root, c2, c1)
    decreases |c2|
  {
    if |c2| == 0 {
      PairSumEmptyRight(mx, n, root, c1);
    } else {
      var front, t := c2[..|c2| - 1], c2[|c2| - 1];
      assert front + [t] == c2;
      PairSumSymmetric(mx, n, root, c1, front);
      PairSumAppendColumn(mx, n, root, c1, front, t);
    }
  }

  /** The mean linkage is symmetric: mean_difference(c1, c2) and
      mean_difference(c2, c1) agree. */
  lemma MeanDifferenceSymmetric(mx: seq<real>, n: nat, root: real -> real, c1: Cluster, c2: Cluster)
    requires IsMatrix(mx, n) && Indexed(c1, n) && Indexed(c2, n)
    ensures MeanLinkage(mx, n, root, c1, c2) == MeanLinkage(mx, n, root, c2, c1)
  {
    PairSumSymmetric(mx, n, root, c1, c2);
    assert |c1| * |c2| == |c2| * |c1|;
  }

  lemma {:induction false} RowSumNonNegative(mx: seq<real>, n: nat, root: real -> real, s: Sequence, c: Cluster)
    requires IsMatrix(mx, n) && 0 <= s.index < n && Indexed(c, n)
    requires forall x :: x >= 0.0 ==> root(x) >= 0.0
    ensures RowSum(mx, n, root, s, c) >= 0.0
    decreases |c|
  {
    if |c| > 0 {
      RowSumNonNegative(mx, n, root, s, c[..|c| - 1]);
      SquaredDistanceNonNegative(mx, n, s.index, c[|c| - 1].index);
    }
  }

  lemma {:induction false} PairSumNonNegative(mx: seq<real>, n: nat, root: real -> real, c1: Cluster, c2: Cluster)
    requires IsMatrix(mx, n) && Indexed(c1, n) && Indexed(c2, n)
    requires forall x :: x >= 0.0 ==> root(x) >= 0.0
    ensures PairSum(mx, n, root, c1, c2) >= 0.0
    decreases |c1|
  {
    if |c1| > 0 {
      PairSumNonNegative(mx, n, root, c1[..|c1| - 1], c2);
      RowSumNonNegative(mx, n, root, c1[|c1| - 1], c2);
    }
  }

  lemma QuotientNonNegative(p: real, q: real)
    requires p >= 0.0 && q > 0.0
    ensures p / q >= 0.0
  {
  }

  /** With a root that is non-negative on non-negative arguments, as the
      square root is, the mean linkage of two clusters is non-negative. */
  lemma MeanDifferenceNonNegative(mx: seq<real>, n: nat, root: real -> real, c1: Cluster, c2: Cluster)
    requires IsMatrix(mx, n) && Indexed(c1, n) && Indexed(c2, n)
    requires forall x :: x >= 0.0 ==> root(x) >= 0.0
    ensures MeanLinkage(mx, n, root, c1, c2).Some? ==> MeanLinkage(mx, n, root, c1, c2).value >= 0.0
  {
    if |c1| > 0 && |c2| > 0 {
      PairSumNonNegative(mx, n, root, c1, c2);
      MulMonotone(1, |c1|, |c2|);
      QuotientNonNegative(PairSum(mx, n, root, c1, c2), (|c1| * |c2|) as real);
    }
  }

  /** The mean linkage of two single-sequence clusters is the distance of
      the two sequences. */
  lemma MeanDifferenceOfSingletons(mx: seq<real>, n: nat, root: real -> real, s: Sequence, t: Sequence)
    requires IsMatrix(mx, n) && 0 <= s.index < n && 0 <= t.index < n
    ensures Indexed([s], n) && Indexed([t], n)
    ensures MeanLinkage(mx, n, root, [s], [t]) == Some(SeqDistance(mx, n, root, s, t))
  {
    assert [s][..0] == [] && [t][..0] == [];
    assert RowSum(mx, n, root, s, [t]) == SeqDistance(mx, n, root, s, t);
    assert PairSum(mx, n, root, [s], [t]) == SeqDistance(mx, n, root, s, t);
  }
}
