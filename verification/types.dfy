/** The records the clustering works on: sequences, clusters of sequences,
    and the working set of clusters. */
module Types {

  /** A value that may be absent. */
  datatype Option<T> = None | Some(value: T)

  /** One input record. `id` is the whole FASTA header line (with its '>'),
      `residues` the concatenated sequence lines, and `index` the row of the
      distance matrix that belongs to this sequence for the whole run. */
  datatype Sequence = Sequence(id: string, residues: string, index: int)

  /** A cluster is an ordered list of sequences; order is insertion order. */
  type Cluster = seq<Sequence>

  /** Every sequence of a working set, cluster after cluster. */
  function Flatten(cs: seq<Cluster>): seq<Sequence>
  {
    if |cs| == 0 then [] else cs[0] + Flatten(cs[1..])
  }

  /** Flattening distributes over concatenation of working sets. */
  lemma {:induction false} FlattenAppend(a: seq<Cluster>, b: seq<Cluster>)
    ensures Flatten(a + b) == Flatten(a) + Flatten(b)
    decreases |a|
  {
    if |a| == 0 {
      assert a + b == b;
    } else {
      assert (a + b)[1..] == a[1..] + b;
      FlattenAppend(a[1..], b);
    }
  }

  /** Flattening a single cluster gives back that cluster. */
  lemma FlattenSingle(c: Cluster)
    ensures Flatten([c]) == c
  {
    assert [c][1..] == [];
  }
}
