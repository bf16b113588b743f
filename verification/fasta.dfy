/** Reading FASTA text, line by line, into Sequence records.  A line whose
    first character is '>' starts a record and is kept whole as its id; every
    other line is appended to the residues of the current record. */
module Fasta {

  import opened Types

  /** The line starts a new record.  Reading the first character of an empty
      line gives the terminating NUL, so an empty line is not a header. */
  predicate IsHeader(line: string)
  {
    |line| > 0 && line[0] == '>'
  }

  /** The reader's state between lines: the records saved so far, the
      residues and id of the record being read, and the next index. */
  datatype Reader = Reader(seqs: seq<Sequence>, currentSeq: string, currentId: string, seqCount: int)

  /** Nothing read yet. */
  const Start: Reader := Reader([], "", "", 0)

  /** One line.  A header saves the current record first, but only when it
      has residues; a header that follows a header just replaces the id. */
  function Feed(r: Reader, line: string): Reader
  {
    if IsHeader(line) then
      if |r.currentSeq| > 0 then
        Reader(r.seqs + [Sequence(r.currentId, r.currentSeq, r.seqCount)], "", line, r.seqCount + 1)
      else
        r.(currentId := line)
    else
      r.(currentSeq := r.currentSeq + line)
  }

  /** The state after reading the given lines from the start. */
  function ReadLines(lines: seq<string>): Reader
  {
    if |lines| == 0 then Start else Feed(ReadLines(lines[..|lines| - 1]), lines[|lines| - 1])
  }

  /** The state's record in progress, as the end of the input saves it. */
  function Pending(r: Reader): Sequence
  {
    Sequence(r.currentId, r.currentSeq, r.seqCount)
  }

  /** read_fasta_file on the lines of a file: after the last line the record
      in progress is always saved, even when it has no residues. */
  function ReadFasta(lines: seq<string>): seq<Sequence>
  {
    var r := ReadLines(lines);
    r.seqs + [Pending(r)]
  }

  // ---------------------------------------------------------------------------
  // What the reader keeps
  // ---------------------------------------------------------------------------

  /** The residues of the records, concatenated in order. */
  function AllResidues(ss: seq<Sequence>): string
  {
    if |ss| == 0 then "" else AllResidues(ss[..|ss| - 1]) + ss[|ss| - 1].residues
  }

  /** The non-header lines, concatenated in order. */
  function BodyText(lines: seq<string>): string
  {
    if |lines| == 0 then ""
    else BodyText(lines[..|lines| - 1]) + (if IsHeader(lines[|lines| - 1]) then "" else lines[|lines| - 1])
  }

  /** The id is empty (no header seen yet) or is a header line of the input. */
  predicate IdFromInput(id: string, lines: seq<string>)
  {
    id == "" || (IsHeader(id) && id in lines)
  }

  /** What holds of the reader's state after any prefix of the input. */
  ghost predicate Consistent(r: Reader, lines: seq<string>)
  {
    && r.seqCount == |r.seqs|
    && (forall k :: 0 <= k < |r.seqs| ==> r.seqs[k].index == k)
    && (forall k :: 0 <= k < |r.seqs| ==> |r.seqs[k].residues| > 0)
    && (forall k :: 0 <= k < |r.seqs| ==> IdFromInput(r.seqs[k].id, lines))
    && IdFromInput(r.currentId, lines)
    && AllResidues(r.seqs) + r.currentSeq == BodyText(lines)
  }

  lemma AllResiduesAppend(ss: seq<Sequence>, s: Sequence)
    ensures AllResidues(ss + [s]) == AllResidues(ss) + s.residues
  {
    assert (ss + [s])[..|ss|] == ss;
  }

  /** Reading one more line keeps the state consistent. */
  lemma FeedConsistent(r: Reader, lines: seq<string>, line: string)
    requires Consistent(r, lines)
    ensures Consistent(Feed(r, line), lines + [line])
  {
    var lines' := lines + [line];
    assert lines'[..|lines|] == lines;
    forall id | IdFromInput(id, lines)
      ensures IdFromInput(id, lines')
    {
      if id != "" {
        assert id in lines';
      }
    }
    if IsHeader(line) {
      assert line in lines';
      if |r.currentSeq| > 0 {
        AllResiduesAppend(r.seqs, Pending(r));
      }
    }
  }

  lemma {:induction false} ReadLinesConsistent(lines: seq<string>)
    ensures Consistent(ReadLines(lines), lines)
    decreases |lines|
  {
    if |lines| > 0 {
      var front := lines[..|lines| - 1];
      ReadLinesConsistent(front);
      FeedConsistent(ReadLines(front), front, lines[|lines| - 1]);
      assert front + [lines[|lines| - 1]] == lines;
    }
  }

  /** read_fasta_file always returns at least one record; the records are
      indexed 0, 1, 2, ... in input order; every record but the last has
      residues; every id is a header line of the input (or empty, before the
      first header); and no residue is lost or invented: the residues of all
      records, in order, are exactly the non-header lines, in order. */
  lemma ReadFastaFacts(lines: seq<string>)
    ensures var ss := ReadFasta(lines);
            && |ss| >= 1
            && (forall k :: 0 <= k < |ss| ==> ss[k].index == k)
            && (forall k :: 0 <= k < |ss| - 1 ==> |ss[k].residues| > 0)
            && (forall k :: 0 <= k < |ss| ==> IdFromInput(ss[k].id, lines))
            && AllResidues(ss) == BodyText(lines)
  {
    var r := ReadLines(lines);
    ReadLinesConsistent(lines);
    AllResiduesAppend(r.seqs, Pending(r));
  }

  // ---------------------------------------------------------------------------
  // The reading loop
  // ---------------------------------------------------------------------------

  /** read_fasta_file after the file is opened: the loop over the lines with
      the reader's variables, then the unconditional save of the last record. */
  method ReadFastaFile(lines: seq<string>) returns (seqs: seq<Sequence>)
    ensures seqs == ReadFasta(lines)
    ensures |seqs| >= 1 && seqs[|seqs| - 1].index == |seqs| - 1
  {
    seqs := [];
    var currentSeq := "";
    var currentId := "";
    var seqCount := 0;
    var i := 0;
    while i < |lines|
      invariant 0 <= i <= |lines|
      invariant Reader(seqs, currentSeq, currentId, seqCount) == ReadLines(lines[..i])
    {
      var line := lines[i];
      assert lines[..i + 1][..i] == lines[..i];
      if |line| > 0 && line[0] == '>' {
        if |currentSeq| > 0 {
          seqs := seqs + [Sequence(currentId, currentSeq, seqCount)];
          seqCount := seqCount + 1;
          currentSeq := "";
        }
        currentId := line;
      } else {
        currentSeq := currentSeq + line;
      }
      i := i + 1;
    }
    assert lines[..i] == lines;
    seqs := seqs + [Sequence(currentId, currentSeq, seqCount)];
    ReadFastaFacts(lines);
  }

  // ---------------------------------------------------------------------------
  // Writing records back as lines, and reading them again
  // ---------------------------------------------------------------------------

  /** Each record as two lines, its id and then its residues: the layout
      that print_seqs (msa.cpp:478-487) writes. */
  function Render(ss: seq<Sequence>): seq<string>
  {
    if |ss| == 0 then [] else Render(ss[..|ss| - 1]) + [ss[|ss| - 1].id, ss[|ss| - 1].residues]
  }

  /** Records the reader can reproduce exactly: at least one, indexed in
      order, each id a header and each residue line non-empty and not a
      header. */
  predicate WellFormed(ss: seq<Sequence>)
  {
    && |ss| >= 1
    && (forall k :: 0 <= k < |ss| ==> ss[k].index == k)
    && (forall k :: 0 <= k < |ss| ==> IsHeader(ss[k].id))
    && (forall k :: 0 <= k < |ss| ==> |ss[k].residues| > 0 && !IsHeader(ss[k].residues))
  }

  /** After the first m records' lines the reader holds records 0 .. m-2 and
      has record m-1 in progress. */
  lemma {:induction false} ReadRenderedPrefix(ss: seq<Sequence>, m: nat)
    requires WellFormed(ss) && 1 <= m <= |ss|
    ensures ReadLines(Render(ss[..m])) == Reader(ss[..m - 1], ss[m - 1].residues, ss[m - 1].id, m - 1)
    decreases m
  {
    var s := ss[m - 1];
    assert ss[..m][..m - 1] == ss[..m - 1];
    var front := Render(ss[..m - 1]);
    var lines := front + [s.id, s.residues];
    assert Render(ss[..m]) == lines;
    var mid := front + [s.id];
    assert lines[..|lines| - 1] == mid;
    assert mid[..|front|] == front;
    assert ReadLines(lines) == Feed(ReadLines(mid), s.residues);
    assert ReadLines(mid) == Feed(ReadLines(front), s.id);
    if m == 1 {
      assert front == [];
    } else {
      ReadRenderedPrefix(ss, m - 1);
      assert ss[..m - 2] + [ss[m - 2]] == ss[..m - 1];
    }
  }

  /** Reading the rendered lines gives back the records. */
  lemma ReadFastaOfRender(ss: seq<Sequence>)
    requires WellFormed(ss)
    ensures ReadFasta(Render(ss)) == ss
  {
    ReadRenderedPrefix(ss, |ss|);
    assert ss[..|ss|] == ss;
    assert ss[..|ss| - 1] + [ss[|ss| - 1]] == ss;
  }

  /** An empty input still yields one record, with empty id and residues. */
  lemma ReadFastaOfNothing()
    ensures ReadFasta([]) == [Sequence("", "", 0)]
  {
  }

  /** Two readers in the same state stay in the same state on the same lines. */
  lemma {:induction false} SameStateAfter(x: seq<string>, y: seq<string>, post: seq<string>)
    requires ReadLines(x) == ReadLines(y)
    ensures ReadLines(x + post) == ReadLines(y + post)
    decreases |post|
  {
    if |post| == 0 {
      assert x + post == x && y + post == y;
    } else {
      var init := post[..|post| - 1];
      SameStateAfter(x, y, init);
      assert (x + post)[..|x + post| - 1] == x + init;
      assert (y + post)[..|y + post| - 1] == y + init;
    }
  }

  /** A header read right after a header leaves the state the second header
      alone would give: the first id is overwritten before any residue. */
  lemma HeaderThenHeader(r: Reader, h1: string, h2: string)
    requires IsHeader(h1) && IsHeader(h2)
    ensures Feed(Feed(r, h1), h2) == Feed(r, h2)
  {
  }

  /** A header directly followed by another header is lost, wherever the
      pair stands in the input: the records are those of the input without
      the first header. */
  lemma HeaderPairDropped(pre: seq<string>, h1: string, h2: string, post: seq<string>)
    requires IsHeader(h1) && IsHeader(h2)
    ensures ReadFasta(pre + [h1, h2] + post) == ReadFasta(pre + [h2] + post)
  {
    var x, y := pre + [h1, h2], pre + [h2];
    assert x[..|x| - 1] == pre + [h1] && (pre + [h1])[..|pre|] == pre;
    assert y[..|y| - 1] == pre;
    HeaderThenHeader(ReadLines(pre), h1, h2);
    SameStateAfter(x, y, post);
  }

  /** An instance of HeaderPairDropped: with two headers and one body line,
      only the second id names the residues. */
  lemma HeaderWithoutResiduesIsDropped(h1: string, h2: string, body: string)
    requires IsHeader(h1) && IsHeader(h2) && |body| > 0 && !IsHeader(body)
    ensures ReadFasta([h1, h2, body]) == [Sequence(h2, body, 0)]
  {
    assert [h1, h2, body][..2] == [h1, h2];
    assert [h1, h2][..1] == [h1];
    assert [h1][..0] == [];
    assert ReadLines([h1]) == Start.(currentId := h1);
    assert ReadLines([h1, h2]) == Start.(currentId := h2);
    assert ReadLines([h1, h2, body]) == Reader([], body, h2, 0);
  }
}
