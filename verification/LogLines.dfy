/** How buffered log lines are packed into chunks, and what can be read back from them. */
module LogLines {

  /** One byte per character. */
  type Line = string

  const NEWLINE: char := '\n'
  const MAX_BATCH_BYTES: nat := 256 * 1024
  const MAX_BATCH_LINES: nat := 4096
  const MAX_CHUNK_BYTES: nat := 1024 * 1024
  const LONGEST_LINE: nat := 768 * 1024

  /** Add a line to a batch; the separator is skipped while the batch is still empty. */
  function AppendLine(batch: string, line: Line): string {
    if batch == "" then line else batch + [NEWLINE] + line
  }

  /** The bytes a batch of lines is sent as. */
  function ChunkOf(lines: seq<Line>): string {
    if lines == [] then "" else AppendLine(ChunkOf(lines[..|lines| - 1]), lines[|lines| - 1])
  }

  function Flatten(batches: seq<seq<Line>>): seq<Line> {
    if batches == [] then [] else Flatten(batches[..|batches| - 1]) + batches[|batches| - 1]
  }

  /** The chunks actually written for these batches: an empty batch is not written at all. */
  function ChunksOf(batches: seq<seq<Line>>): seq<string> {
    if batches == [] then []
    else
      var n := |batches| - 1;
      ChunksOf(batches[..n]) + (if ChunkOf(batches[n]) == "" then [] else [ChunkOf(batches[n])])
  }

  /** What a batch counts against the log limit: every line and its line break. */
  function Cost(lines: seq<Line>): nat {
    if lines == [] then 0 else Cost(lines[..|lines| - 1]) + |lines[|lines| - 1]| + 1
  }

  function TotalLength(chunks: seq<string>): nat {
    if chunks == [] then 0 else TotalLength(chunks[..|chunks| - 1]) + |chunks[|chunks| - 1]|
  }

  // ---- reading chunks back ----

  /** The receiver's view: split at line breaks. */
  function SplitLines(s: string): (lines: seq<Line>)
    ensures lines != []
  {
    if s == "" then [""] else Prepend(s[0], SplitLines(s[1..]))
  }

  function Prepend(c: char, rest: seq<Line>): (lines: seq<Line>)
    requires rest != []
    ensures lines != []
  {
    if c == NEWLINE then [""] + rest else [[c] + rest[0]] + rest[1..]
  }

  function NonEmpty(lines: seq<Line>): seq<Line> {
    if lines == [] then []
    else if lines[0] == "" then NonEmpty(lines[1..])
    else [lines[0]] + NonEmpty(lines[1..])
  }

  /** Non-empty lines of a sequence of chunks, in order. */
  function Read(chunks: seq<string>): seq<Line> {
    if chunks == [] then [] else Read(chunks[..|chunks| - 1]) + NonEmpty(SplitLines(chunks[|chunks| - 1]))
  }

  predicate NoBreaks(line: Line) {
    NEWLINE !in line
  }

  predicate AllNoBreaks(lines: seq<Line>) {
    forall i :: 0 <= i < |lines| ==> NoBreaks(lines[i])
  }

  lemma {:induction false} NonEmptyAppend(a: seq<Line>, b: seq<Line>)
    ensures NonEmpty(a + b) == NonEmpty(a) + NonEmpty(b)
  {
    if a == [] {
      assert a + b == b;
    } else {
      var x, y := NonEmpty(a[1..]), NonEmpty(b);
      NonEmptyAppend(a[1..], b);
      assert (a + b)[0] == a[0] && (a + b)[1..] == a[1..] + b;
      assert [a[0]] + (x + y) == [a[0]] + x + y;
    }
  }

  lemma {:induction false} SplitOneLine(line: Line)
    requires NoBreaks(line)
    ensures SplitLines(line) == [line]
  {
    if line == "" {
    } else {
      SplitOneLine(line[1..]);
      assert [line[0]] + line[1..] == line;
    }
  }

  lemma {:induction false} SplitAtBreak(a: string, b: string)
    ensures SplitLines(a + [NEWLINE] + b) == SplitLines(a) + SplitLines(b)
  {
    var s := a + [NEWLINE] + b;
    if a == "" {
      assert s[1..] == b;
    } else {
      SplitAtBreak(a[1..], b);
      assert s[0] == a[0] && s[1..] == a[1..] + [NEWLINE] + b;
      PrependAppend(a[0], SplitLines(a[1..]), SplitLines(b));
    }
  }

  lemma PrependAppend(c: char, x: seq<Line>, y: seq<Line>)
    requires x != []
    ensures Prepend(c, x + y) == Prepend(c, x) + y
  {
    assert (x + y)[0] == x[0] && (x + y)[1..] == x[1..] + y;
  }

  lemma NothingInEmptyChunk()
    ensures NonEmpty(SplitLines("")) == []
  {
    assert SplitLines("") == [""] && [""][1..] == [];
  }

  lemma AppendLineReads(batch: string, line: Line)
    requires NoBreaks(line)
    ensures NonEmpty(SplitLines(AppendLine(batch, line))) == NonEmpty(SplitLines(batch)) + NonEmpty([line])
  {
    SplitOneLine(line);
    if batch == "" {
      NothingInEmptyChunk();
    } else {
      SplitAtBreak(batch, line);
      NonEmptyAppend(SplitLines(batch), [line]);
    }
  }

  /** A chunk holds exactly the non-empty lines of its batch, in order. */
  lemma {:induction false} ChunkReadsBack(lines: seq<Line>)
    requires AllNoBreaks(lines)
    ensures NonEmpty(SplitLines(ChunkOf(lines))) == NonEmpty(lines)
  {
    if lines == [] {
      NothingInEmptyChunk();
    } else {
      var front, last := lines[..|lines| - 1], lines[|lines| - 1];
      ChunkReadsBack(front);
      AppendLineReads(ChunkOf(front), last);
      NonEmptyAppend(front, [last]);
      assert front + [last] == lines;
    }
  }

  lemma ReadOneMore(chunks: seq<string>, c: string)
    ensures Read(chunks + [c]) == Read(chunks) + NonEmpty(SplitLines(c))
    ensures TotalLength(chunks + [c]) == TotalLength(chunks) + |c|
  {
    var all := chunks + [c];
    assert all[..|all| - 1] == chunks;
  }

  /** The chunks of a run of batches hold exactly the non-empty lines of those batches, in order. */
  lemma {:induction false} ChunksReadBack(batches: seq<seq<Line>>)
    requires forall i :: 0 <= i < |batches| ==> AllNoBreaks(batches[i])
    ensures Read(ChunksOf(batches)) == NonEmpty(Flatten(batches))
  {
    if batches == [] {
    } else {
      var n := |batches| - 1;
      var front, last := batches[..n], batches[n];
      ChunksReadBack(front);
      ChunkReadsBack(last);
      NonEmptyAppend(Flatten(front), last);
      if ChunkOf(last) == "" {
        NothingInEmptyChunk();
        assert ChunksOf(batches) == ChunksOf(front);
      } else {
        ReadOneMore(ChunksOf(front), ChunkOf(last));
      }
    }
  }

  /** The lines with one line break between neighbours and none at either end. */
  function Joined(lines: seq<Line>): string
    requires lines != []
  {
    if |lines| == 1 then lines[0] else lines[0] + "\n" + Joined(lines[1..])
  }

  lemma {:induction false} JoinedOneMore(lines: seq<Line>, line: Line)
    requires lines != []
    ensures Joined(lines + [line]) == Joined(lines) + "\n" + line
  {
    var all := lines + [line];
    if |lines| == 1 {
      assert all[1..] == [line];
    } else {
      JoinedOneMore(lines[1..], line);
      assert all[1..] == lines[1..] + [line];
    }
  }

  /** A chunk that begins with a non-empty line is its lines joined; empty lines before that leave no trace. */
  lemma {:induction false} ChunkIsJoined(lines: seq<Line>)
    ensures lines != [] && lines[0] != "" ==> ChunkOf(lines) == Joined(lines) != ""
    ensures lines != [] && lines[0] == "" ==> ChunkOf(lines) == ChunkOf(lines[1..])
  {
    if |lines| <= 1 {
      assert lines != [] ==> lines[..0] == [] && lines[1..] == [];
    } else {
      var front, last := lines[..|lines| - 1], lines[|lines| - 1];
      ChunkIsJoined(front);
      assert front + [last] == lines && front[0] == lines[0];
      JoinedOneMore(front, last);
      assert lines[1..][..|lines| - 2] == front[1..];
    }
  }

  // ---- sizes ----

  lemma {:induction false} ChunkWithinCost(lines: seq<Line>)
    ensures |ChunkOf(lines)| <= Cost(lines)
  {
    if lines == [] {
    } else {
      ChunkWithinCost(lines[..|lines| - 1]);
    }
  }

  lemma {:induction false} CostAppend(a: seq<Line>, b: seq<Line>)
    ensures Cost(a + b) == Cost(a) + Cost(b)
  {
    if b == [] {
      assert a + b == a;
    } else {
      var n := |b| - 1;
      CostAppend(a, b[..n]);
      assert (a + b)[..|a + b| - 1] == a + b[..n];
    }
  }

  /** What is written for a run of batches never exceeds what they count against the limit. */
  lemma {:induction false} ChunksWithinCost(batches: seq<seq<Line>>)
    ensures TotalLength(ChunksOf(batches)) <= Cost(Flatten(batches))
  {
    if batches == [] {
    } else {
      var n := |batches| - 1;
      ChunksWithinCost(batches[..n]);
      ChunkWithinCost(batches[n]);
      CostAppend(Flatten(batches[..n]), batches[n]);
      ReadOneMore(ChunksOf(batches[..n]), ChunkOf(batches[n]));
      assert ChunksOf(batches[..n]) + [] == ChunksOf(batches[..n]);
    }
  }

  lemma {:induction false} FlattenMonotone(batches: seq<seq<Line>>, k: nat)
    requires k <= |batches|
    ensures Flatten(batches[..k]) <= Flatten(batches)
    ensures Cost(Flatten(batches[..k])) <= Cost(Flatten(batches))
    decreases |batches|
  {
    if k == |batches| {
      assert batches[..k] == batches;
    } else {
      var n := |batches| - 1;
      FlattenMonotone(batches[..n], k);
      assert batches[..n][..k] == batches[..k];
      CostAppend(Flatten(batches[..n]), batches[n]);
    }
  }
}
