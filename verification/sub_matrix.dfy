/** The substitution score table builder: spreads the 20x20 BLOSUM table
    over a flat array addressed by pairs of character codes. */
module SubMatrix {

  import opened Arith

  /** Number of amino-acid letters, rows and columns of the BLOSUM table:
      the header constant NUM_LETTERS, fixed at the length of aOrder. */
  const NumLetters := 20

  /** Lanes of one 256-bit vector of 32-bit integers. */
  const LaneWidth := 8

  /** First column written by the scalar tail (the literal 16 in make_sub_matrix). */
  const TailStart := 16

  /** Character codes of the BLOSUM row/column order "ARNDCQEGHILKMFPSTWYV". */
  const AOrder: seq<int> := [65, 82, 78, 68, 67, 81, 69, 71, 72, 73, 76, 75, 77, 70, 80, 83, 84, 87, 89, 86]

  /** Smallest and largest code of AOrder ('A' and 'Y'). */
  const MinCode := 65
  const MaxCode := 89

  /** Row position of a code in AOrder, or -1 for a code that is not there. */
  function Position(code: int): int
  {
    if code == 65 then 0 else if code == 82 then 1 else if code == 78 then 2
    else if code == 68 then 3 else if code == 67 then 4 else if code == 81 then 5
    else if code == 69 then 6 else if code == 71 then 7 else if code == 72 then 8
    else if code == 73 then 9 else if code == 76 then 10 else if code == 75 then 11
    else if code == 77 then 12 else if code == 70 then 13 else if code == 80 then 14
    else if code == 83 then 15 else if code == 84 then 16 else if code == 87 then 17
    else if code == 89 then 18 else if code == 86 then 19 else -1
  }

  /** Every code of AOrder lies in MinCode..MaxCode and is found at its own position,
      so the 20 codes are pairwise distinct. */
  lemma AOrderFacts()
    ensures |AOrder| == NumLetters
    ensures forall i :: 0 <= i < NumLetters ==> MinCode <= AOrder[i] <= MaxCode
    ensures forall i :: 0 <= i < NumLetters ==> Position(AOrder[i]) == i
  {
  }

  /** The header constants ASCII_OFFSET, ROW_LEN and MATRIX_SIZE. */
  datatype Layout = Layout(asciiOffset: int, rowLen: int, matrixSize: int)

  /** Every shifted code is a column of a row of width rowLen. */
  predicate CodesFitRow(l: Layout)
  {
    0 <= MinCode + l.asciiOffset && MaxCode + l.asciiOffset < l.rowLen
  }

  /** The codes fit a row, and the last cell of the last row fits in the table. */
  predicate ValidLayout(l: Layout)
  {
    && CodesFitRow(l)
    && (MaxCode + l.asciiOffset) * l.rowLen + (MaxCode + l.asciiOffset) < l.matrixSize
  }

  /** The BLOSUM table is 20 rows of 20 scores. */
  predicate IsBlosum(blosum: seq<seq<int>>)
  {
    |blosum| == NumLetters && forall r :: 0 <= r < NumLetters ==> |blosum[r]| == NumLetters
  }

  /** The flat address of the score for letters i (row) and j (column). */
  function CellIndex(l: Layout, i: int, j: int): (r: int)
    requires 0 <= i < NumLetters && 0 <= j < NumLetters
    ensures ValidLayout(l) ==> 0 <= r < l.matrixSize
  {
    CellIndexInBounds(l, i, j);
    Address(l, AOrder[i], AOrder[j])
  }

  /** Under a valid layout the address of every letter pair is a cell of the table. */
  lemma CellIndexInBounds(l: Layout, i: int, j: int)
    requires 0 <= i < NumLetters && 0 <= j < NumLetters
    ensures ValidLayout(l) ==> 0 <= Address(l, AOrder[i], AOrder[j]) < l.matrixSize
  {
    if ValidLayout(l) {
      CodeRange(i);
      CodeRange(j);
      AddressInBounds(l, AOrder[i], AOrder[j]);
    }
  }

  /** The flat address of the pair of character codes (a, b). */
  function Address(l: Layout, a: int, b: int): int
  {
    (a + l.asciiOffset) * l.rowLen + (b + l.asciiOffset)
  }

  /** Position in the write log of the pair (r, c): row-major order, so that
      position p holds the pair (p / NumLetters, p % NumLetters). */
  function LogPosition(r: int, c: int): int
  {
    NumLetters * r + c
  }

  /** Every address of two codes of the table lies inside the table. */
  lemma AddressInBounds(l: Layout, a: int, b: int)
    requires ValidLayout(l)
    requires MinCode <= a <= MaxCode && MinCode <= b <= MaxCode
    ensures 0 <= Address(l, a, b) < l.matrixSize
  {
    MulMonotone(a + l.asciiOffset, MaxCode + l.asciiOffset, l.rowLen);
  }

  /** Equal addresses come from equal row codes and equal column codes. */
  lemma AddressInjective(l: Layout, a: int, b: int, a': int, b': int)
    requires CodesFitRow(l)
    requires MinCode <= b <= MaxCode && MinCode <= b' <= MaxCode
    requires Address(l, a, b) == Address(l, a', b')
    ensures a == a' && b == b'
  {
    RowColumnUnique(l.rowLen, a + l.asciiOffset, b + l.asciiOffset, a' + l.asciiOffset, b' + l.asciiOffset);
  }

  /** Distinct letter pairs have distinct addresses. */
  lemma CellIndexInjective(l: Layout, i: int, j: int, i': int, j': int)
    requires CodesFitRow(l)
    requires 0 <= i < NumLetters && 0 <= j < NumLetters
    requires 0 <= i' < NumLetters && 0 <= j' < NumLetters
    requires CellIndex(l, i, j) == CellIndex(l, i', j')
    ensures i == i' && j == j'
  {
    CodeRange(j);
    CodeRange(j');
    AddressInjective(l, AOrder[i], AOrder[j], AOrder[i'], AOrder[j']);
    CodesDistinct(i, i');
    CodesDistinct(j, j');
  }

  /** The code of row i lies in MinCode..MaxCode. */
  lemma CodeRange(i: int)
    requires 0 <= i < NumLetters
    ensures MinCode <= AOrder[i] <= MaxCode
  {
    AOrderFacts();
  }

  /** Two rows with the same code are the same row. */
  lemma CodesDistinct(i: int, i': int)
    requires 0 <= i < NumLetters && 0 <= i' < NumLetters
    requires AOrder[i] == AOrder[i']
    ensures i == i'
  {
    AOrderFacts();
    assert Position(AOrder[i]) == i && Position(AOrder[i']) == i';
  }

  /** (r, c) is written before (i, j): rows in order, and in each row the
      columns in order. */
  predicate Before(r: int, c: int, i: int, j: int)
  {
    r < i || (r == i && c < j)
  }

  /** The state after all of rows 0..i-1 and columns 0..j-1 of row i have been
      written: their cells hold the BLOSUM scores, the log lists their addresses
      in write order, and every cell not in the log still holds 0. */
  ghost predicate Filled(l: Layout, blosum: seq<seq<int>>, m: seq<int>, written: seq<int>, i: int, j: int)
    requires ValidLayout(l) && IsBlosum(blosum)
  {
    && 0 <= i <= NumLetters && 0 <= j <= NumLetters
    && |m| == l.matrixSize
    && |written| == NumLetters * i + j
    && (forall r, c :: 0 <= r < NumLetters && 0 <= c < NumLetters && Before(r, c, i, j) ==>
          0 <= CellIndex(l, r, c) < |m| && written[LogPosition(r, c)] == CellIndex(l, r, c) && m[CellIndex(l, r, c)] == blosum[r][c])
    && (forall k :: 0 <= k < |m| && k !in written ==> m[k] == 0)
  }

  /** Writing the score of (i, j) extends the filled region by one column. */
  lemma WriteCell(l: Layout, blosum: seq<seq<int>>, m: seq<int>, written: seq<int>, i: int, j: int)
    requires ValidLayout(l) && IsBlosum(blosum)
    requires 0 <= i < NumLetters && 0 <= j < NumLetters
    requires Filled(l, blosum, m, written, i, j)
    ensures 0 <= CellIndex(l, i, j) < |m|
    ensures Filled(l, blosum, m[CellIndex(l, i, j) := blosum[i][j]], written + [CellIndex(l, i, j)], i, j + 1)
  {
    var x := CellIndex(l, i, j);
    var m' := m[x := blosum[i][j]];
    var w' := written + [x];
    forall r, c | 0 <= r < NumLetters && 0 <= c < NumLetters && Before(r, c, i, j + 1)
      ensures 0 <= CellIndex(l, r, c) < |m'| && w'[LogPosition(r, c)] == CellIndex(l, r, c) && m'[CellIndex(l, r, c)] == blosum[r][c]
    {
      if Before(r, c, i, j) {
        if CellIndex(l, r, c) == x {
          CellIndexInjective(l, r, c, i, j);
        }
      }
    }
  }

  /** Before the first write: an all-zero table and an empty log. */
  lemma NothingFilled(l: Layout, blosum: seq<seq<int>>, m: seq<int>)
    requires ValidLayout(l) && IsBlosum(blosum)
    requires |m| == l.matrixSize && forall k :: 0 <= k < |m| ==> m[k] == 0
    ensures Filled(l, blosum, m, [], 0, 0)
  {
  }

  /** A fully written row hands over to the start of the next one. */
  lemma NextRow(l: Layout, blosum: seq<seq<int>>, m: seq<int>, written: seq<int>, i: int)
    requires ValidLayout(l) && IsBlosum(blosum)
    requires 0 <= i < NumLetters
    requires Filled(l, blosum, m, written, i, NumLetters)
    ensures Filled(l, blosum, m, written, i + 1, 0)
  {
  }

  /** make_sub_matrix: fills the table row by row, starting from an all-zero
      table.  Besides the table it returns the log of the addresses it wrote,
      in write order. */
  method MakeSubMatrix(l: Layout, blosum: seq<seq<int>>) returns (m: seq<int>, written: seq<int>)
    requires ValidLayout(l) && IsBlosum(blosum)
    ensures |m| == l.matrixSize
    ensures forall i, j :: 0 <= i < NumLetters && 0 <= j < NumLetters ==>
              m[CellIndex(l, i, j)] == blosum[i][j]
    ensures forall k :: 0 <= k < |m| && k !in written ==> m[k] == 0
    ensures |written| == NumLetters * NumLetters
    ensures forall i, j :: 0 <= i < NumLetters && 0 <= j < NumLetters ==>
              written[LogPosition(i, j)] == CellIndex(l, i, j)
    ensures forall p, q :: 0 <= p < q < |written| ==> written[p] != written[q]
  {
    assert CellIndex(l, 0, 0) < l.matrixSize;
    m := seq(l.matrixSize, _ => 0);
    written := [];
    NothingFilled(l, blosum, m);
    var i := 0;
    while i < NumLetters
      invariant 0 <= i <= NumLetters
      invariant Filled(l, blosum, m, written, i, 0)
    {
      m, written := FillRow(l, blosum, m, written, i);
      i := i + 1;
    }
    AllFilled(l, blosum, m, written);
    WrittenOnce(l, written);
  }

  /** Once every row is written, every pair holds its score at its address. */
  lemma AllFilled(l: Layout, blosum: seq<seq<int>>, m: seq<int>, written: seq<int>)
    requires ValidLayout(l) && IsBlosum(blosum)
    requires Filled(l, blosum, m, written, NumLetters, 0)
    ensures |written| == NumLetters * NumLetters
    ensures forall i, j :: 0 <= i < NumLetters && 0 <= j < NumLetters ==>
              m[CellIndex(l, i, j)] == blosum[i][j] && written[LogPosition(i, j)] == CellIndex(l, i, j)
  {
    forall i, j | 0 <= i < NumLetters && 0 <= j < NumLetters
      ensures m[CellIndex(l, i, j)] == blosum[i][j] && written[LogPosition(i, j)] == CellIndex(l, i, j)
    {
      assert Before(i, j, NumLetters, 0);
    }
  }

  /** One iteration of the outer loop of make_sub_matrix: the vector body
      scatters columns 0..15 of row i eight lanes at a time, then the scalar
      tail writes columns 16..19. */
  method FillRow(l: Layout, blosum: seq<seq<int>>, m0: seq<int>, written0: seq<int>, i: int)
    returns (m: seq<int>, written: seq<int>)
    requires ValidLayout(l) && IsBlosum(blosum)
    requires 0 <= i < NumLetters
    requires Filled(l, blosum, m0, written0, i, 0)
    ensures Filled(l, blosum, m, written, i + 1, 0)
  {
    m, written := m0, written0;
    var j := 0;
    while j < NumLetters - LaneWidth
      invariant j == 0 || j == LaneWidth || j == TailStart
      invariant Filled(l, blosum, m, written, i, j)
    {
      // the eight addresses and the eight scores of this chunk
      var indexArr := seq(LaneWidth, lane requires 0 <= lane < LaneWidth => CellIndex(l, i, j + lane));
      var scoreArr := blosum[i][j .. j + LaneWidth];
      var lane := 0;
      while lane < LaneWidth
        invariant 0 <= lane <= LaneWidth
        invariant Filled(l, blosum, m, written, i, j + lane)
      {
        WriteCell(l, blosum, m, written, i, j + lane);
        m := m[indexArr[lane] := scoreArr[lane]];
        written := written + [indexArr[lane]];
        lane := lane + 1;
      }
      j := j + LaneWidth;
    }
    j := TailStart;
    while j < NumLetters
      invariant TailStart <= j <= NumLetters
      invariant Filled(l, blosum, m, written, i, j)
    {
      WriteCell(l, blosum, m, written, i, j);
      m := m[CellIndex(l, i, j) := blosum[i][j]];
      written := written + [CellIndex(l, i, j)];
      j := j + 1;
    }
    NextRow(l, blosum, m, written, i);
  }

  /** The write log has no repeated address: every cell is written at most once. */
  lemma {:induction false} WrittenOnce(l: Layout, written: seq<int>)
    requires ValidLayout(l)
    requires |written| == NumLetters * NumLetters
    requires forall i, j :: 0 <= i < NumLetters && 0 <= j < NumLetters ==>
               written[LogPosition(i, j)] == CellIndex(l, i, j)
    ensures forall p, q :: 0 <= p < q < |written| ==> written[p] != written[q]
  {
    forall p, q | 0 <= p < q < |written|
      ensures written[p] != written[q]
    {
      var pi, pj := p / NumLetters, p % NumLetters;
      var qi, qj := q / NumLetters, q % NumLetters;
      assert written[LogPosition(pi, pj)] == CellIndex(l, pi, pj);
      assert written[LogPosition(qi, qj)] == CellIndex(l, qi, qj);
      if written[p] == written[q] {
        CellIndexInjective(l, pi, pj, qi, qj);
        assert false;
      }
    }
  }
}
