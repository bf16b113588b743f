# Guide-tree clustering of msa.cpp, modelled in Dafny

This project models the clustering core of the multiple-sequence aligner in
`msa.cpp`. That core has four parts:

- the substitution score table builder (`make_sub_matrix`);
- the pairwise embedding distance (`seq_to_seq_distance`), where each
  sequence's row of the N x N distance matrix is its embedding vector;
- the average-linkage cluster distance (`mean_difference`) and the
  closest-cluster search (`find_closest_clusters`);
- the UPGMA loop with its cluster merge (`UPGMA`, `merge_clusters`).

It also models the line handling of the FASTA reader (`read_fasta_file`).

Files, one module each:

| file | module | models |
|---|---|---|
| `types.dfy` | `Types` | `Sequence`, clusters, the working set and its flattening, `Option` |
| `arith.dfy` | `Arith` | integer product facts used for row-major addresses |
| `sub_matrix.dfy` | `SubMatrix` | `make_sub_matrix` |
| `distance.dfy` | `Distance` | `seq_to_seq_distance`, `mean_difference` |
| `search.dfy` | `Search` | `find_closest_clusters` |
| `clustering.dfy` | `Clustering` | `merge_clusters`, `UPGMA` |
| `fasta.dfy` | `Fasta` | the line loop of `read_fasta_file` |

Modelling choices:

- **Header constants.** `ASCII_OFFSET`, `ROW_LEN` and `MATRIX_SIZE` come from a
  header that is not part of this model. They become a `Layout` value. The
  requirement `ValidLayout` says every shifted code fits in a row and the last
  address fits in the table. The BLOSUM table is a parameter of 20 rows of 20
  scores. `NUM_LETTERS`, also a header constant, is fixed as `NumLetters` =
  20, the length of `aOrder` (msa.cpp:103); the scalar tail's literal start
  16 (msa.cpp:137) relies on that value.
- **Write log.** `MakeSubMatrix` also returns the log of addresses it wrote, in
  write order. With it, "each pair is written exactly once and nothing else is
  written" can be stated as a contract.
- **Arithmetic.** Single floats are exact reals. The square root is a parameter
  `root`. The AVX registers are 8-element sequences with the lane-wise meaning
  of each intrinsic, and `hadd` and `permute2f128` are modelled lane by lane.
- **Missing values.** The `DBL_MAX` "nothing found yet" sentinel of the search
  is `Option.None`. The 0 / 0 of `mean_difference` on an empty cluster is also
  `None`.
- **Reference definitions.** Some contracts are tied to definitions that do
  not follow the code's loops:
  - `PartialSum` and `SquaredDistance`, the plain column-by-column sums, for
    the chunked distance kernel;
  - `IsFirstMinimalPair` for the search;
  - `c1 + c2` for the unrolled merge;
  - the declarative table contract of `MakeSubMatrix` (a score at every
    letter-pair address, 0 elsewhere, no address written twice).

  Three definitions instead restate a loop recursively: `ReadFasta` (the
  reader's line loop as a fold), `MergeStep` (one pass of the clustering
  loop) and `MeanLinkage` (the two summing loops of `mean_difference`, row by
  row). Their meaning comes from lemmas about them: `ReadFastaFacts` and
  `ReadFastaOfRender` for the reader, `MergeStepKeepsSequences` and
  `MergeStepLayout` for the merge step, and `PairSumSymmetric`,
  `MeanDifferenceSymmetric` and `MeanDifferenceOfSingletons` for the linkage.
- **Search order.** `find_closest_clusters` is modelled as one thread runs it:
  row by row with a strict `<`. The chosen pair is therefore the first minimal
  pair in scan order.
- **Empty input.** `read_fasta_file` always emits a final record, so the
  reader never returns an empty list (`Fasta.ReadFastaOfNothing`). `UPGMA`
  with zero clusters does not enter its loop (`Clustering.Upgma`, first
  postcondition).

## Model

| member | source | states |
|---|---|---|
| SubMatrix.AOrderFacts | msa.cpp:103 | the 20 letter codes lie between 'A' and 'Y' and are pairwise distinct (each is found at its own position) |
| SubMatrix.CellIndex | msa.cpp:140-141 | under a valid layout, the address of every letter pair lies inside the table |
| SubMatrix.CellIndexInjective | msa.cpp:112-118 | two letter pairs with the same address are the same pair, because a row is wider than the span of shifted codes and the codes are distinct |
| SubMatrix.FillRow | msa.cpp:109-142 | one row pass (two 8-lane chunks for columns 0..15, then the scalar tail for 16..19) writes every column of the row and extends the filled region to the next row |
| SubMatrix.MakeSubMatrix | msa.cpp:99-146 | the table holds blosum[i][j] at the address of every letter pair; every cell not written is 0; exactly 400 writes happen, in row-major order, with no address written twice |
| SubMatrix.WrittenOnce | msa.cpp:109-142 | the 400 logged addresses are pairwise distinct, so no cell is written twice |
| Distance.SquaredDistanceNonNegative | msa.cpp:381-382 | the sum of squared row differences is never negative |
| Distance.SquaredDistanceSymmetric | msa.cpp:381-382 | swapping the two sequences does not change their squared distance |
| Distance.SquaredDistanceZeroIff | msa.cpp:381-382 | the squared distance is zero exactly when the two rows are equal, and in particular a sequence is at distance zero from itself |
| Distance.ReduceSumsLanes | msa.cpp:387-394 | the two hadds, the half swap and the add leave the sum of all eight lanes in every lane, lane 0 included |
| Distance.AddSumsLanes | msa.cpp:384 | a lane-wise add adds the lane sums |
| Distance.LoadedChunk | msa.cpp:375-382 | the loaded chunks of rows a and b, subtracted and squared lane-wise, sum to the squared differences of the eight columns k*8 .. k*8+7 |
| Distance.AddChunk | msa.cpp:375-384 | one pass of the vector loop adds exactly the eight squared differences of its chunk to the accumulator |
| Distance.AccumulateChunks | msa.cpp:369-385 | after the vector loop the lanes sum to the squared differences of the first 8 * chunkCount columns |
| Distance.SeqToSeqDistance | msa.cpp:366-408 | the vector loop, the reduction and the scalar tail together give the plain sum over the first 8 * chunkCount + n % 8 columns, and with chunkCount = n / 8 that is the squared distance over every column |
| Distance.AddRowDistances | msa.cpp:353-360 | the inner loop adds to the running total the distance of seq1 to every sequence of c2 |
| Distance.MeanDifference | msa.cpp:338-364 | the result is undefined (None) exactly when a cluster is empty, and is otherwise the sum of the root distances of all cross pairs divided by the number of cross pairs |
| Distance.PairSumSymmetric | msa.cpp:348-361 | summing the cross-pair distances row by row over c1 or over c2 gives the same total |
| Distance.MeanDifferenceSymmetric | msa.cpp:338-364 | the mean linkage of (c1, c2) equals that of (c2, c1) |
| Distance.MeanDifferenceNonNegative | msa.cpp:358-363 | with a root that is non-negative on non-negative arguments, the mean linkage is non-negative |
| Distance.MeanDifferenceOfSingletons | msa.cpp:338-364 | the mean linkage of two one-sequence clusters is the distance of the two sequences |
| Search.FindClosestClusters | msa.cpp:265-317 | with two or more clusters it returns a pair i < j with no closer pair and no equally close pair earlier in scan order, together with copies of those two clusters; with fewer it leaves the outputs at their initial values |
| Search.FirstMinimalPairUnique | msa.cpp:284-298 | the pair the scan settles on is determined by the working set and the linkage |
| Search.StrictMinimumIsChosen | msa.cpp:292-296 | a pair strictly closer than every other pair is the one chosen |
| Search.TiesGoToTheEarlierPair | msa.cpp:292-296 | among pairs at the smallest linkage, the strict comparison keeps the earliest in scan order |
| Clustering.MergeClusters | msa.cpp:210-242 | the merged cluster is exactly the first cluster followed by the second, in order, for every size, including sizes below four where the unrolled loop does not run |
| Clustering.Erase | msa.cpp:181-185 | erasing position k keeps the clusters before k and shifts the ones after it down by one |
| Clustering.EraseRemovesCluster | msa.cpp:181-185 | an erase removes exactly the sequences of the erased cluster |
| Clustering.EraseBothRemovesClusters | msa.cpp:179-186 | erasing the larger position first and then the smaller removes exactly the sequences of the two chosen clusters |
| Clustering.MergeStepLayout | msa.cpp:179-192 | after a merge step for i < j, every other cluster keeps its relative order and the last cluster is cs[i] followed by cs[j] |
| Clustering.MergeStepKeepsSequences | msa.cpp:179-192 | a merge step neither loses nor duplicates a sequence: the multiset of sequences is unchanged |
| Clustering.RunExtends | msa.cpp:165-194 | a run of closest-pair merges followed by one more such merge is again a run |
| Clustering.Upgma | msa.cpp:159-195 | N >= 1 clusters end in exactly one cluster after exactly N - 1 closest-pair merges, holding every input sequence exactly once; zero clusters give zero merges |
| Clustering.TwoClustersMerge | msa.cpp:159-195 | two clusters are merged into one cluster, the first followed by the second |
| Clustering.RunIsDetermined | msa.cpp:165-194 | two runs of the same length from the same working set make the same merges and end in the same working set |
| Fasta.FeedConsistent | msa.cpp:438-460 | reading one more line keeps the saved records indexed in order, with residues, with every id empty (before the first header) or a header line of the input, and with all body text accounted for |
| Fasta.ReadFastaFacts | msa.cpp:431-469 | the reader returns at least one record; the records are indexed 0, 1, 2, ... in input order; all but the last have residues; every id is empty (before the first header) or a header line of the input; and the residues of all records, in order, are exactly the non-header lines, in order |
| Fasta.ReadFastaFile | msa.cpp:431-469 | the line loop followed by the final save produces the records of the fold `ReadFasta`, never an empty list, with the last record indexed last |
| Fasta.ReadFastaOfRender | msa.cpp:431-469 | reading the id and residue lines of well-formed records gives back exactly those records |
| Fasta.ReadFastaOfNothing | msa.cpp:461-466 | an input with no lines still yields one record, with empty id and residues, at index 0 |
| Fasta.HeaderPairDropped | msa.cpp:441-456 | a header directly followed by another header is lost wherever the pair stands: the input with both headers reads to the same records as the input with only the second |
| Fasta.HeaderWithoutResiduesIsDropped | msa.cpp:441-456 | instance of the above: the input header, header, body line reads to the single record (second header, body, 0) |

## Left out

- I/O is not modelled. This covers `main`, MPI initialisation and finalisation, rank checks, timing, console output (msa.cpp:13-88), `print_seqs` (msa.cpp:478-487) and opening the file or exiting on failure in `read_fasta_file` (msa.cpp:424-429). The reader takes the file's lines as a sequence of strings, so `getline` and line-ending handling are not modelled. `Fasta.Render` mirrors the two-line id/residues layout that `print_seqs` writes, but nothing is printed.
- The OpenMP parallelism in `find_closest_clusters` and `mean_difference` is not modelled. The model is the sequential result. Under several threads the tie between equally close pairs in different threads' ranges may be broken differently.
- `calc_distances` (msa.cpp:39) is not part of this model: the distance matrix is an input. `align_clusters` (msa.cpp:177) is not part of this model either; the two clusters are merged as the search returned them.
- Search.FindClosestClusters: linkage values are exact reals. The NaN that `mean_difference` yields for an empty cluster is not modelled, and neither is the conversion of `DBL_MAX` to an infinite single float. The first pair scanned is always accepted, as it is for any finite linkage.
- Clustering.Upgma: the linkage is a function parameter `d`. The loop is not composed with `Distance.MeanDifference`, because that returns `None` on empty clusters. The mean linkage has its own properties in `Distance`.
- Distance.SeqToSeqDistance: floating-point rounding is not modelled, so the result is the exact sum. The order of summation (eight lane sums, then the tail) therefore does not matter in the model. The requirement `8 * chunkCount + n % 8 <= n` excludes the out-of-bounds reads the code would make with a larger chunkCount; its only caller passes n / 8.
- Distance.MeanDifference: the square root is the parameter `root`, and the division is exact. `MeanDifferenceNonNegative` assumes only that `root` is non-negative on non-negative arguments.
- Integer widths are not modelled. This covers `seq1Index * numSeqs`, `c1Size * c2Size` and `_mm256_mullo_epi32` in the address computation of `make_sub_matrix`. The layout constants are unbounded integers restricted by `ValidLayout`.
