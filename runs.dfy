/**
 * Sorted runs and merge passes, as values: what a pass of
 * `MergeFilesAsync` does to the contents of the run-set, independently of
 * the file names that hold them.
 */
module Runs {
  import opened Outcomes
  import opened Rows
  import opened Chunking
  import opened KWayMerge

  /** A file the merge can read to the end: it has a first line and every line parses. */
  predicate Good(f: seq<string>) {
    |f| > 0 && ParseLines(f).Ok?
  }

  predicate AllGood(files: seq<seq<string>>) {
    forall t :: 0 <= t < |files| ==> Good(files[t])
  }

  predicate AllSorted(files: seq<seq<string>>) {
    forall t :: 0 <= t < |files| ==> FileSorted(files[t])
  }

  /** Every line is written the way the writer writes a row. */
  predicate Canonical(f: seq<string>) {
    ParseLines(f).Ok? && f == Lines(ParseLines(f).value)
  }

  lemma {:induction false} FilesBagAppend(a: seq<seq<string>>, b: seq<seq<string>>)
    ensures FilesBag(a + b) == FilesBag(a) + FilesBag(b)
    decreases |b|
  {
    if b == [] {
      assert a + b == a;
    } else {
      var b' := b[..|b| - 1];
      assert (a + b)[..|a + b| - 1] == a + b';
      FilesBagAppend(a, b');
    }
  }

  lemma FilesBagSingle(f: seq<string>)
    ensures FilesBag([f]) == FileBag(f)
  {
    assert [f][..0] == [];
  }

  /** Good files hold at least one row between them. */
  lemma {:induction false} GoodFilesHoldRows(files: seq<seq<string>>)
    requires AllGood(files) && |files| > 0
    ensures |FilesBag(files)| > 0
  {
    var last := files[|files| - 1];
    assert |ParseLines(last).value| == |last| > 0;
    assert |FileBag(last)| > 0;
  }

  /**
   * What a batch of a pass leaves behind in its output file `o`: a lone run
   * is moved unchanged; several runs are merged, which succeeds only on good
   * runs and gives a good file with their rows, sorted when they were.
   */
  predicate BatchResult(batch: seq<seq<string>>, o: seq<string>) {
    if |batch| == 1 then o == batch[0]
    else
      && AllGood(batch) && Good(o) && FileBag(o) == FilesBag(batch)
      && (AllSorted(batch) ==> FileSorted(o))
  }

  /** A completed pass of fan-in `r` over the runs `cur`, leaving the runs `outs`. */
  predicate PassResult(cur: seq<seq<string>>, outs: seq<seq<string>>, r: nat)
    requires r > 0
  {
    && |outs| == |Batches(cur, r)|
    && forall j :: 0 <= j < |outs| ==> BatchResult(Batches(cur, r)[j], outs[j])
  }

  lemma BatchPreserves(batch: seq<seq<string>>, o: seq<string>)
    requires BatchResult(batch, o) && |batch| > 0
    ensures Good(o) <==> AllGood(batch)
    ensures AllGood(batch) ==> FileBag(o) == FilesBag(batch)
    ensures AllGood(batch) && AllSorted(batch) ==> FileSorted(o)
  {
    if |batch| == 1 {
      SingleFile(batch);
      FilesBagSingle(batch[0]);
    }
  }

  lemma SingleFile(batch: seq<seq<string>>)
    requires |batch| == 1
    ensures AllGood(batch) <==> Good(batch[0])
    ensures AllSorted(batch) <==> FileSorted(batch[0])
  {
    if Good(batch[0]) {
      forall t | 0 <= t < |batch| ensures Good(batch[t]) {
        assert t == 0;
      }
    }
    if FileSorted(batch[0]) {
      forall t | 0 <= t < |batch| ensures FileSorted(batch[t]) {
        assert t == 0;
      }
    }
  }

  /**
   * A completed pass keeps every run good exactly when every run was good,
   * and then keeps the rows and their sortedness.
   */
  lemma {:induction false} PassPreserves(cur: seq<seq<string>>, outs: seq<seq<string>>, r: nat)
    requires r > 0 && PassResult(cur, outs, r)
    ensures AllGood(outs) <==> AllGood(cur)
    ensures AllGood(cur) ==> FilesBag(outs) == FilesBag(cur)
    ensures AllGood(cur) && AllSorted(cur) ==> AllSorted(outs)
    decreases |cur|
  {
    if cur != [] {
      var head, rest := PassSplit(cur, outs, r);
      PassPreserves(rest, outs[1..], r);
      BatchPreserves(head, outs[0]);
      Combine(head, rest, cur, outs[0], outs[1..], outs);
    }
  }

  /** The first batch of a pass and the pass over the runs after it. */
  lemma PassSplit(cur: seq<seq<string>>, outs: seq<seq<string>>, r: nat)
      returns (head: seq<seq<string>>, rest: seq<seq<string>>)
    requires r > 0 && PassResult(cur, outs, r) && cur != []
    ensures cur == head + rest && |head| > 0 && |rest| < |cur| && |outs| > 0
    ensures BatchResult(head, outs[0]) && PassResult(rest, outs[1..], r)
  {
    head, rest := FirstBatch(cur, r);
    PassTail(Batches(cur, r), Batches(rest, r), outs);
  }

  /** The batches of a non-empty sequence are its first batch followed by the batches of the rest. */
  lemma FirstBatch<T>(s: seq<T>, r: nat) returns (head: seq<T>, rest: seq<T>)
    requires r > 0 && s != []
    ensures s == head + rest && |head| > 0 && |rest| < |s|
    ensures Batches(s, r) == [head] + Batches(rest, r)
  {
    head := if |s| <= r then s else s[..r];
    rest := if |s| <= r then [] else s[r..];
  }

  /** Pairing batches with output files one to one survives dropping the first pair. */
  lemma PassTail(b: seq<seq<seq<string>>>, tail: seq<seq<seq<string>>>, outs: seq<seq<string>>)
    requires |outs| == |b| > 0 && b == [b[0]] + tail
    requires forall j :: 0 <= j < |outs| ==> BatchResult(b[j], outs[j])
    ensures BatchResult(b[0], outs[0]) && |outs[1..]| == |tail|
    ensures forall j :: 0 <= j < |tail| ==> BatchResult(tail[j], outs[1..][j])
  {
    forall j | 0 <= j < |tail| ensures BatchResult(tail[j], outs[1..][j]) {
      assert tail[j] == b[j + 1] && outs[1..][j] == outs[j + 1];
    }
  }

  /** What holds of a first batch and of the rest holds of the whole pass. */
  lemma Combine(head: seq<seq<string>>, rest: seq<seq<string>>, cur: seq<seq<string>>,
                o: seq<string>, outs: seq<seq<string>>, all: seq<seq<string>>)
    requires cur == head + rest && |all| > 0 && o == all[0] && outs == all[1..]
    requires Good(o) <==> AllGood(head)
    requires AllGood(head) ==> FileBag(o) == FilesBag(head)
    requires AllGood(head) && AllSorted(head) ==> FileSorted(o)
    requires AllGood(outs) <==> AllGood(rest)
    requires AllGood(rest) ==> FilesBag(outs) == FilesBag(rest)
    requires AllGood(rest) && AllSorted(rest) ==> AllSorted(outs)
    ensures AllGood(all) <==> AllGood(cur)
    ensures AllGood(cur) ==> FilesBag(all) == FilesBag(cur)
    ensures AllGood(cur) && AllSorted(cur) ==> AllSorted(all)
  {
    assert all == [o] + outs;
    AllGoodAppend(head, rest);
    AllGoodAppend([o], outs);
    SingleFile([o]);
    assert AllGood(all) <==> AllGood(cur);
    if AllGood(cur) {
      CombineBag(head, rest, o, outs);
      if AllSorted(cur) {
        AllSortedAppend(head, rest);
        CombineSorted(o, outs, all);
      }
    }
  }

  lemma CombineSorted(o: seq<string>, outs: seq<seq<string>>, all: seq<seq<string>>)
    requires all == [o] + outs && FileSorted(o) && AllSorted(outs)
    ensures AllSorted(all)
  {
    forall t | 0 <= t < |all| ensures FileSorted(all[t]) {
      if t > 0 { assert all[t] == outs[t - 1]; }
    }
  }

  lemma CombineBag(head: seq<seq<string>>, rest: seq<seq<string>>, o: seq<string>, outs: seq<seq<string>>)
    requires FileBag(o) == FilesBag(head) && FilesBag(outs) == FilesBag(rest)
    ensures FilesBag([o] + outs) == FilesBag(head + rest)
  {
    FilesBagAppend(head, rest);
    FilesBagAppend([o], outs);
    FilesBagSingle(o);
  }

  lemma AllGoodAppend(a: seq<seq<string>>, b: seq<seq<string>>)
    ensures AllGood(a + b) <==> AllGood(a) && AllGood(b)
  {
    if AllGood(a) && AllGood(b) {
      forall t | 0 <= t < |a + b| ensures Good((a + b)[t]) {
        if t >= |a| { assert (a + b)[t] == b[t - |a|]; }
      }
    }
    if AllGood(a + b) {
      forall t | 0 <= t < |a| ensures Good(a[t]) {
        assert (a + b)[t] == a[t];
      }
      forall t | 0 <= t < |b| ensures Good(b[t]) {
        assert (a + b)[|a| + t] == b[t];
      }
    }
  }

  lemma AllSortedAppend(a: seq<seq<string>>, b: seq<seq<string>>)
    ensures AllSorted(a + b) <==> AllSorted(a) && AllSorted(b)
  {
    if AllSorted(a) && AllSorted(b) {
      forall t | 0 <= t < |a + b| ensures FileSorted((a + b)[t]) {
        if t >= |a| { assert (a + b)[t] == b[t - |a|]; }
      }
    }
    if AllSorted(a + b) {
      forall t | 0 <= t < |a| ensures FileSorted(a[t]) {
        assert (a + b)[t] == a[t];
      }
      forall t | 0 <= t < |b| ensures FileSorted(b[t]) {
        assert (a + b)[|a| + t] == b[t];
      }
    }
  }

  /**
   * A canonical sorted file is determined by its rows: it is the reference
   * sort of any plain rows with the same multiset, written out.
   */
  lemma CanonicalSortedIsSortRows(f: seq<string>, rows: seq<Row>)
    requires Canonical(f) && FileSorted(f) && Plain(rows) && FileBag(f) == multiset(rows)
    ensures f == Lines(SortRows(rows))
  {
    SortedIsSortRows(rows, ParseLines(f).value);
  }

  /** A successful merge of good inputs writes at least one line. */
  lemma MergedGood(inputs: seq<seq<string>>, out: seq<string>)
    requires AllGood(inputs) && |inputs| > 0
    requires ParseLines(out).Ok? && multiset(ParseLines(out).value) == FilesBag(inputs)
    ensures Good(out)
  {
    GoodFilesHoldRows(inputs);
    assert |ParseLines(out).value| > 0;
  }

  /** A chunk sorted by the reference sort and written out; nothing for a chunk that does not parse. */
  function SortedRun(lines: seq<string>): seq<string> {
    match ParseLines(lines)
    case Ok(rows) => Lines(SortRows(rows))
    case Err(_) => []
  }

  /** The sorted run of each chunk. */
  function SortedRuns(chunks: seq<seq<string>>): (runs: seq<seq<string>>)
    ensures |runs| == |chunks| && forall k :: 0 <= k < |chunks| ==> runs[k] == SortedRun(chunks[k])
  {
    if chunks == [] then [] else SortedRuns(chunks[..|chunks| - 1]) + [SortedRun(chunks[|chunks| - 1])]
  }

  /** Every chunk parses and fits a buffer of `capacity` rows. */
  predicate ChunksFit(chunks: seq<seq<string>>, capacity: nat) {
    forall k :: 0 <= k < |chunks| ==> |chunks[k]| <= capacity && ParseLines(chunks[k]).Ok?
  }

  /**
   * The sorted run of a chunk that parses is canonical and sorted, as long
   * as the chunk, and holds the chunk's rows.
   */
  lemma SortedRunFacts(c: seq<string>)
    requires ParseLines(c).Ok?
    ensures Canonical(SortedRun(c)) && FileSorted(SortedRun(c))
    ensures FileBag(SortedRun(c)) == multiset(ParseLines(c).value)
    ensures Good(SortedRun(c)) <==> |c| > 0
  {
    var rows := ParseLines(c).value;
    assert Plain(rows) && |rows| == |c|;
    SortedLinesFacts(rows);
  }

  /** The reference sort of plain rows, written out: canonical, sorted, the same rows, as many lines. */
  lemma SortedLinesFacts(rows: seq<Row>)
    requires Plain(rows)
    ensures Canonical(Lines(SortRows(rows))) && FileSorted(Lines(SortRows(rows)))
    ensures FileBag(Lines(SortRows(rows))) == multiset(rows)
    ensures |Lines(SortRows(rows))| == |rows|
  {
    var sorted := SortRows(rows);
    SortRowsSorted(rows);
    SortRowsCounts(rows);
    PlainOfSameRows(rows, sorted);
    assert |sorted| == |rows| by {
      assert |multiset(sorted)| == |multiset(rows)|;
    }
    WrittenRows(sorted);
  }

  /** Written plain rows read back as themselves: a canonical file of as many lines. */
  lemma WrittenRows(rows: seq<Row>)
    requires Plain(rows)
    ensures ParseLines(Lines(rows)) == Ok(rows) && Canonical(Lines(rows)) && |Lines(rows)| == |rows|
  {
    ParseLinesOfLines(rows);
  }

  /** The chunks all parse exactly when their concatenation does. */
  lemma {:induction false} ChunksParse(chunks: seq<seq<string>>)
    ensures ParseLines(Concat(chunks)).Ok? <==> forall k :: 0 <= k < |chunks| ==> ParseLines(chunks[k]).Ok?
    decreases |chunks|
  {
    if chunks != [] {
      var init, last := chunks[..|chunks| - 1], chunks[|chunks| - 1];
      assert chunks == init + [last];
      ConcatAppend(init, last);
      ChunksParse(init);
      ParseLinesAppend(Concat(init), last);
    }
  }

  /** The sorted runs of parsing chunks hold the rows of their concatenation. */
  lemma {:induction false} ChunksBag(chunks: seq<seq<string>>)
    requires ParseLines(Concat(chunks)).Ok?
    ensures FilesBag(SortedRuns(chunks)) == multiset(ParseLines(Concat(chunks)).value)
    decreases |chunks|
  {
    if chunks != [] {
      var init, last := chunks[..|chunks| - 1], chunks[|chunks| - 1];
      assert chunks == init + [last];
      ConcatAppend(init, last);
      ParseLinesAppend(Concat(init), last);
      ChunksBag(init);
      SortedRunFacts(last);
      assert SortedRuns(chunks)[..|chunks| - 1] == SortedRuns(init);
    }
  }

  /** The sorted runs of parsing chunks are sorted, and good exactly when no chunk is empty. */
  lemma SortedRunsFacts(chunks: seq<seq<string>>)
    requires forall k :: 0 <= k < |chunks| ==> ParseLines(chunks[k]).Ok?
    ensures AllSorted(SortedRuns(chunks))
    ensures AllGood(SortedRuns(chunks)) <==> forall k :: 0 <= k < |chunks| ==> |chunks[k]| > 0
  {
    var runs := SortedRuns(chunks);
    forall k | 0 <= k < |chunks| ensures FileSorted(runs[k]) && (Good(runs[k]) <==> |chunks[k]| > 0) {
      SortedRunFacts(chunks[k]);
    }
  }

  predicate NoneEmpty(chunks: seq<seq<string>>) {
    forall k :: 0 <= k < |chunks| ==> |chunks[k]| > 0
  }

  /**
   * The chunks of a non-empty source all parse, fit a buffer of `capacity`
   * rows and are non-empty exactly when the source parses and either it is
   * shorter than a chunk and fits, or a full chunk fits and the source is
   * not a whole number of chunks (which would leave the last chunk empty).
   */
  lemma ChunksFitIff(source: seq<string>, size: nat, capacity: nat)
    requires size > 0 && source != []
    ensures ChunksFit(Chunks(source, size), capacity) && NoneEmpty(Chunks(source, size)) <==>
      && ParseLines(source).Ok?
      && (if |source| < size then |source| <= capacity else size <= capacity && |source| % size != 0)
  {
    var chunks := Chunks(source, size);
    ChunksConcat(source, size);
    ChunksParse(chunks);
    ChunkSizes(source, size, capacity);
    assert ChunksFit(chunks, capacity) <==>
      (forall k :: 0 <= k < |chunks| ==> |chunks[k]| <= capacity) &&
      (forall k :: 0 <= k < |chunks| ==> ParseLines(chunks[k]).Ok?);
  }

  lemma ChunkSizes(source: seq<string>, size: nat, capacity: nat)
    requires size > 0 && source != []
    ensures (forall k :: 0 <= k < |Chunks(source, size)| ==> |Chunks(source, size)[k]| <= capacity)
              && NoneEmpty(Chunks(source, size)) <==>
            if |source| < size then |source| <= capacity else size <= capacity && |source| % size != 0
  {
    var chunks := Chunks(source, size);
    ChunksShape(source, size);
    var last := |chunks| - 1;
    if |source| < size {
      assert |chunks| == 1;
    } else {
      assert |chunks| >= 2;
      assert |chunks[0]| == size;
      forall k | 0 <= k < |chunks| ensures |chunks[k]| <= size {
        if k == last {
          assert |source| % size < size;
        }
      }
    }
  }
}
