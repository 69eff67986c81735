/**
 * `ExternalSortService`: split the source into chunk files, sort each chunk
 * in a reusable row buffer, then merge the sorted runs in passes of
 * `FilesPerRun` until a final merge writes the target. Files are line
 * sequences held in the temporary directory `dir`.
 */
module Service {
  import opened Outcomes
  import opened Rows
  import opened Chunking
  import opened BufferSort
  import opened KWayMerge
  import opened TempDir
  import opened Runs

  /** Lines per chunk file; the split uses this constant, not `RowsPerFile`. */
  const ChunkLines: nat := 100000

  /**
   * The sources the whole sort succeeds on: non-empty, every line parses,
   * each chunk fits the row buffer, and no chunk is left empty (a source
   * of more than one chunk that is a whole number of chunks leaves an
   * empty last chunk, which the merge cannot read).
   */
  predicate Sortable(source: seq<string>, rowsPerFile: nat) {
    && source != []
    && ParseLines(source).Ok?
    && if |source| < ChunkLines then |source| <= rowsPerFile
       else ChunkLines <= rowsPerFile && |source| % ChunkLines != 0
  }

  class ExternalSortService {
    /** The temporary directory. */
    var dir: Dir
    /** The target file, `None` while it does not exist. */
    var target: Option<seq<string>>
    /** `_unsortedRows`: the sort buffer, null slots unused. */
    var unsortedRows: array<Option<Row>>
    /** `_totalFilesToMerge`: the estimate merge progress is measured against. */
    var totalFilesToMerge: nat
    /** `_mergeFilesProcessed`: merge inputs exhausted so far. */
    var mergeFilesProcessed: nat
    /** `SplitFile.RowsPerFile`: the length of the sort buffer. */
    const rowsPerFile: nat
    /** `MergeFile.FilesPerRun`: the fan-in of a merge. */
    const filesPerRun: nat

    /** The service over a temporary directory and target in their current state, with an empty buffer. */
    constructor(rowsPerFile: nat, filesPerRun: nat, dir: Dir, target: Option<seq<string>>)
      requires rowsPerFile > 0 && filesPerRun > 0
      ensures this.rowsPerFile == rowsPerFile && this.filesPerRun == filesPerRun
      ensures this.dir == dir && this.target == target
      ensures unsortedRows.Length == 0 && fresh(unsortedRows)
      ensures totalFilesToMerge == 0 && mergeFilesProcessed == 0
    {
      this.rowsPerFile := rowsPerFile;
      this.filesPerRun := filesPerRun;
      this.dir := dir;
      this.target := target;
      unsortedRows := new Option<Row>[0];
      totalFilesToMerge := 0;
      mergeFilesProcessed := 0;
    }

    // -------------------------------------------------------------------
    // Progress estimate
    // -------------------------------------------------------------------

    /**
     * `CalculateTotalFilesToMerge`: the run count plus its successive
     * quotients by the fan-in. Only a fan-in of at least 2 ends the loop.
     */
    static method CalculateTotalFilesToMerge(n: nat, size: nat) returns (total: nat)
      requires size >= 2
      ensures total == Estimate(n, size)
    {
      var st := EstimateStart(n, size);
      EstimateStartTotal(n, size);
      while !st.done
        invariant EstimateTotal(st, size) == Estimate(n, size)
        decreases EstimateVariant(st)
      {
        EstimateStepTotal(st, size);
        st := EstimateStep(st, size);
      }
      total := st.filesToMerge;
    }

    // -------------------------------------------------------------------
    // Split
    // -------------------------------------------------------------------

    /**
     * `SplitFileAsync`: an empty source is refused; otherwise the source
     * lines go to `1.unsorted`, `2.unsorted`, ..., a new chunk file being
     * opened each time one reaches `ChunkLines` lines.
     */
    method SplitFile(source: seq<string>) returns (res: Result<seq<Name>>)
      modifies this
      ensures source == [] ==> res == Err(EmptyInput) && dir == old(dir)
      ensures source != [] ==>
        && res == Ok(Names(|Chunks(source, ChunkLines)|, Unsorted))
        && dir == old(dir) + Numbered(Chunks(source, ChunkLines), Unsorted)
      ensures target == old(target) && unsortedRows == old(unsortedRows)
      ensures totalFilesToMerge == old(totalFilesToMerge) && mergeFilesProcessed == old(mergeFilesProcessed)
    {
      if source == [] {
        return Err(EmptyInput);
      }
      var linesCount := 0;
      var currentFile := 1;
      var filenames: seq<Name> := [];
      var filename := Name(currentFile, Unsorted);
      ghost var closed: seq<seq<string>> := [];
      ghost var current: seq<string> := [];
      AddFile(old(dir), closed, current, Unsorted);
      dir := dir[filename := []];
      assert source[..0] == [];
      var i := 0;
      while i < |source|
        invariant 0 <= i <= |source|
        invariant Splitting(source, i, closed, current, old(dir), dir)
        invariant linesCount == |current| && currentFile == |closed| + 1
        invariant filenames == Names(|closed|, Unsorted) && filename == Name(currentFile, Unsorted)
        invariant target == old(target) && unsortedRows == old(unsortedRows)
        invariant totalFilesToMerge == old(totalFilesToMerge) && mergeFilesProcessed == old(mergeFilesProcessed)
      {
        var line := source[i];
        SplitStep(source, i, closed, current, old(dir), dir);
        dir := dir[filename := dir[filename] + [line]];
        current := current + [line];
        linesCount := linesCount + 1;
        if linesCount == ChunkLines {
          NamesSnoc(|closed|, Unsorted);
          linesCount := 0;
          filenames := filenames + [filename];
          closed := closed + [current];
          current := [];
          currentFile := currentFile + 1;
          filename := Name(currentFile, Unsorted);
          dir := dir[filename := []];
        }
        i := i + 1;
      }
      assert source[..i] == source;
      NamesSnoc(|closed|, Unsorted);
      filenames := filenames + [filename];
      res := Ok(filenames);
    }
  
    // -------------------------------------------------------------------
    // Sort
    // -------------------------------------------------------------------

    /** Every slot of the sort buffer is null. */
    predicate BufferClear()
      reads this, unsortedRows
    {
      forall i :: 0 <= i < unsortedRows.Length ==> unsortedRows[i].None?
    }

    /**
     * `SortFile`: parse each line into the next buffer slot, sort the buffer,
     * write its non-null rows, clear it. A line that does not parse, or a
     * line with no slot left for it, fails the sort.
     */
    method SortFile(lines: seq<string>) returns (res: Result<seq<string>>)
      requires BufferClear()
      modifies unsortedRows
      ensures res.Ok? <==> |lines| <= unsortedRows.Length && ParseLines(lines).Ok?
      ensures res.Ok? ==> res.value == Lines(SortRows(ParseLines(lines).value)) && BufferClear()
    {
      var a := unsortedRows;
      var counter := 0;
      while counter < |lines|
        invariant counter <= |lines| && counter <= a.Length
        invariant forall i :: 0 <= i < counter ==> Parse(lines[i]).Ok? && a[i] == Some(Parse(lines[i]).value)
        invariant forall i :: counter <= i < a.Length ==> a[i] == None
      {
        match Parse(lines[counter])
        case Err(e) =>
          return Err(e);
        case Ok(row) =>
          if counter >= a.Length {
            return Err(BufferOverflow);
          }
          a[counter] := Some(row);
          counter := counter + 1;
      }
      ghost var rows := ParseLines(lines).value;
      ghost var filled := a[..];
      assert Present(filled) == rows by {
        PresentOfFilled(filled, rows);
      }
      SortSlots(a);
      assert Present(a[..]) == SortRows(rows) by {
        PresentPermutation(filled, a[..]);
        PresentSorted(a[..]);
        assert Plain(rows);
        SortedIsSortRows(rows, Present(a[..]));
      }
      var out := WritePresent(a);
      ClearSlots(a);
      res := Ok(out);
    }

    /**
     * `SortFilesAsync`: each chunk `k.unsorted` is sorted into `k.sorted`
     * and deleted. It succeeds exactly when every chunk fits the buffer and
     * parses; the names of the sorted runs are returned in order. No
     * `.sorted` file of a chunk's number may exist beforehand (see
     * `SortOneFile`).
     */
    method SortFiles(files: seq<Name>) returns (res: Result<seq<Name>>)
      requires forall k :: 0 <= k < |files| ==> files[k] in dir && files[k].ext == Unsorted
      requires forall j, k :: 0 <= j < k < |files| ==> files[j] != files[k]
      requires forall k :: 0 <= k < |files| ==> WithExt(files[k], Sorted) !in dir
      requires BufferClear()
      modifies this, unsortedRows
      ensures res.Ok? <==> ChunksFit(Contents(old(dir), files), unsortedRows.Length)
      ensures res.Ok? ==> |res.value| == |files|
      ensures res.Ok? ==> forall k :: 0 <= k < |files| ==> res.value[k] == WithExt(files[k], Sorted)
      ensures res.Ok? ==> forall n :: n in dir <==> (n in old(dir) && n !in files) || n in res.value
      ensures res.Ok? ==> Contents(dir, res.value) == SortedRuns(Contents(old(dir), files))
      ensures res.Ok? ==> forall n :: n in dir && n !in files && n !in res.value ==> dir[n] == old(dir)[n]
      ensures res.Ok? ==> BufferClear()
      ensures OthersUnchanged()
    {
      var sortedFiles: seq<Name> := [];
      ghost var inputs := Contents(dir, files);
      ghost var runs: seq<seq<string>> := [];
      ReplacedStart(dir, files, Sorted);
      var i := 0;
      while i < |files|
        invariant i == |sortedFiles| == |runs|
        invariant Replaced(old(dir), dir, files, sortedFiles, runs, Sorted)
        invariant RunsOf(inputs, runs) && FitSoFar(inputs, i, unsortedRows.Length)
        invariant BufferClear()
        invariant OthersUnchanged()
      {
        var unsortedFile := files[i];
        ReplacedFree(old(dir), dir, files, sortedFiles, runs, Sorted, Unsorted);
        ReplacedStep(old(dir), dir, files, sortedFiles, runs, Sorted, SortedRun(inputs[i]), Unsorted);
        var sortedFilename := SortOneFile(unsortedFile);
        if sortedFilename.Err? {
          NotAllFit(inputs, i, unsortedRows.Length);
          return Err(sortedFilename.error);
        }
        RunsOfStep(inputs, runs);
        FitSoFarStep(inputs, i, unsortedRows.Length);
        sortedFiles := sortedFiles + [sortedFilename.value];
        runs := runs + [SortedRun(inputs[i])];
        i := i + 1;
      }
      SortedFilesFacts(old(dir), dir, files, sortedFiles, runs, inputs, unsortedRows.Length);
      res := Ok(sortedFiles);
    }

    /**
     * One step of `SortFilesAsync`: the chunk is sorted into the file of the
     * same index with the `.sorted` extension, and deleted. That file must
     * not exist yet: `File.OpenWrite` overwrites from the start without
     * truncating, so a longer file would keep its tail.
     */
    method SortOneFile(unsortedFile: Name) returns (res: Result<Name>)
      requires unsortedFile in dir && unsortedFile.ext == Unsorted && BufferClear()
      requires WithExt(unsortedFile, Sorted) !in dir
      modifies this, unsortedRows
      ensures res.Ok? <==> |old(dir)[unsortedFile]| <= unsortedRows.Length && ParseLines(old(dir)[unsortedFile]).Ok?
      ensures res.Ok? ==> && res.value == WithExt(unsortedFile, Sorted)
                          && dir == old(dir)[res.value := SortedRun(old(dir)[unsortedFile])] - {unsortedFile}
                          && BufferClear()
      ensures OthersUnchanged()
    {
      var sortedFilename := WithExt(unsortedFile, Sorted);
      var sorted := SortFile(dir[unsortedFile]);
      if sorted.Err? {
        return Err(sorted.error);
      }
      dir := dir[sortedFilename := sorted.value];
      dir := dir - {unsortedFile};
      res := Ok(sortedFilename);
    }

    /** Nothing but the directory (and what the method names besides) has changed. */
    twostate predicate OthersUnchanged()
      reads this
    {
      && target == old(target) && unsortedRows == old(unsortedRows)
      && totalFilesToMerge == old(totalFilesToMerge) && mergeFilesProcessed == old(mergeFilesProcessed)
    }

    // -------------------------------------------------------------------
    // Directory operations
    // -------------------------------------------------------------------

    /**
     * `File.Move(from, to, overwrite)`: the file takes the new name,
     * replacing a file of that name only when `overwrite` is set.
     */
    method MoveFile(from: Name, to: Name, overwrite: bool)
      requires from in dir && (!overwrite ==> to !in dir)
      modifies this
      ensures dir == (old(dir) - {from})[to := old(dir)[from]]
      ensures OthersUnchanged()
    {
      var contents := dir[from];
      dir := (dir - {from})[to := contents];
    }

    /**
     * `CleanupRun`: each merged input is renamed to `<name>.removal` and
     * that file is deleted, so the inputs leave the directory and nothing
     * else changes.
     */
    method CleanupRun(files: seq<Name>)
      requires forall k :: 0 <= k < |files| ==> files[k] in dir && files[k].ext == Sorted
      requires forall j, k :: 0 <= j < k < |files| ==> files[j] != files[k]
      requires forall n :: n in dir ==> n.ext != SortedRemoval
      modifies this
      ensures forall n :: n in dir <==> n in old(dir) && n !in files
      ensures forall n :: n in dir ==> dir[n] == old(dir)[n]
      ensures OthersUnchanged()
    {
      var i := 0;
      while i < |files|
        invariant 0 <= i <= |files|
        invariant forall n :: n in dir <==> n in old(dir) && n !in files[..i]
        invariant forall n :: n in dir ==> dir[n] == old(dir)[n]
        invariant OthersUnchanged()
      {
        var removal := WithExt(files[i], SortedRemoval);
        assert files[i] !in files[..i];
        MoveFile(files[i], removal, false);
        dir := dir - {removal};
        PrefixSnoc(files, i);
        i := i + 1;
      }
      assert files[..i] == files;
    }

    // -------------------------------------------------------------------
    // Merge
    // -------------------------------------------------------------------

    /**
     * The end of `Merge`: every input has been counted as finished (the
     * progress counter goes up once per input that runs out), and
     * `CleanupRun` removes the inputs.
     */
    method FinishRun(files: seq<Name>)
      requires forall k :: 0 <= k < |files| ==> files[k] in dir && files[k].ext == Sorted
      requires forall j, k :: 0 <= j < k < |files| ==> files[j] != files[k]
      requires forall n :: n in dir ==> n.ext != SortedRemoval
      modifies this
      ensures forall n :: n in dir <==> n in old(dir) && n !in files
      ensures forall n :: n in dir ==> dir[n] == old(dir)[n]
      ensures mergeFilesProcessed == old(mergeFilesProcessed) + |files|
      ensures target == old(target) && unsortedRows == old(unsortedRows)
      ensures totalFilesToMerge == old(totalFilesToMerge)
    {
      mergeFilesProcessed := mergeFilesProcessed + |files|;
      CleanupRun(files);
    }

    /**
     * `Merge`: k-way merge of the named sorted runs into a new file; on
     * success the inputs are removed and counted as processed. It succeeds
     * exactly when every input has a first line and every line parses, and
     * then writes every input row once, in canonical form, in order when
     * the inputs were sorted.
     */
    method Merge(files: seq<Name>) returns (res: Result<seq<string>>)
      requires |files| > 0
      requires forall k :: 0 <= k < |files| ==> files[k] in dir && files[k].ext == Sorted
      requires forall j, k :: 0 <= j < k < |files| ==> files[j] != files[k]
      requires forall n :: n in dir ==> n.ext != SortedRemoval
      modifies this
      ensures res.Ok? <==> AllGood(Contents(old(dir), files))
      ensures res.Ok? ==> Good(res.value) && Canonical(res.value)
      ensures res.Ok? ==> FileBag(res.value) == FilesBag(Contents(old(dir), files))
      ensures res.Ok? && AllSorted(Contents(old(dir), files)) ==> FileSorted(res.value)
      ensures res.Ok? ==> forall n :: n in dir <==> n in old(dir) && n !in files
      ensures res.Ok? ==> forall n :: n in dir ==> dir[n] == old(dir)[n]
      ensures res.Ok? ==> mergeFilesProcessed == old(mergeFilesProcessed) + |files|
      ensures target == old(target) && unsortedRows == old(unsortedRows)
      ensures totalFilesToMerge == old(totalFilesToMerge)
    {
      var inputs := Contents(dir, files);
      res := MergeStreams(inputs);
      if res.Ok? {
        MergedGood(inputs, res.value);
        FinishRun(files);
      }
    }

    // -------------------------------------------------------------------
    // Merge passes
    // -------------------------------------------------------------------

    /**
     * The rescan after a pass: the `.sorted` files of the directory ordered
     * by the number in their name.
     */
    method SortedFiles() returns (names: seq<Name>)
      ensures forall n :: n in names <==> n in dir && n.ext == Sorted
      ensures Increasing(names)
    {
      var remaining := set n | n in dir.Keys && n.ext == Sorted;
      ghost var all := remaining;
      names := [];
      while remaining != {}
        invariant Rescanning(names, remaining, all)
        decreases |remaining|
      {
        ghost var m := LeastIndex(remaining);
        var next :| next in remaining && forall x :: x in remaining ==> next.index <= x.index;
        RescanStep(names, remaining, all, next);
        names := names + [next];
        remaining := remaining - {next};
      }
    }

    /**
     * A pass of `MergeFilesAsync` that is not the final run: the runs are
     * taken `filesPerRun` at a time; batch `k` is merged into
     * `k.sorted.tmp`, which is then renamed to `k.sorted`, and a lone last
     * run is renamed straight to `k.sorted`. It fails only on a run that is
     * empty or holds a malformed line; it leaves the outputs numbered from 1.
     */
    method MergePass(files: seq<Name>, ghost cur: seq<seq<string>>) returns (res: Outcome, ghost outs: seq<seq<string>>)
      requires 2 <= filesPerRun < |cur|
      requires files == Names(|cur|, Sorted) && dir == Numbered(cur, Sorted)
      modifies this
      ensures res.Fail? ==> !AllGood(cur)
      ensures res.Done? ==> PassResult(cur, outs, filesPerRun) && dir == Numbered(outs, Sorted)
      ensures target == old(target) && unsortedRows == old(unsortedRows)
      ensures totalFilesToMerge == old(totalFilesToMerge)
    {
      var r := filesPerRun;
      var runs := Batches(files, r);
      BatchesCount(files, r);
      BatchesCount(cur, r);
      outs := [];
      PassDirStart(dir, cur);
      ghost var pos := 0;
      var chunkCounter := 0;
      while chunkCounter < |runs|
        invariant chunkCounter == |outs| <= |runs| && pos == chunkCounter * r
        invariant PassDir(dir, outs, cur, pos)
        invariant PassPrefix(cur, outs, r)
        invariant target == old(target) && unsortedRows == old(unsortedRows)
        invariant totalFilesToMerge == old(totalFilesToMerge)
      {
        var batch := runs[chunkCounter];
        ghost var from, to := BatchStep(files, cur, r, chunkCounter);
        ghost var o;
        res, o := MergeBatch(batch, chunkCounter + 1, cur, outs, from, to);
        if res.Fail? {
          return;
        }
        PassPrefixSnoc(cur, outs, r, o);
        outs := outs + [o];
        PassDirBeyond(dir, outs, cur, to, from + r);
        pos := from + r;
        chunkCounter := chunkCounter + 1;
      }
      BatchesCover(cur, r);
      PassDirEnd(dir, outs, cur, pos);
      res := Done;
    }

    /**
     * The body of the pass for one batch, number `chunkCounter`: a lone run
     * is renamed to `chunkCounter.sorted`; several runs are merged into
     * `chunkCounter.sorted.tmp`, which is then renamed to
     * `chunkCounter.sorted`.
     */
    method MergeBatch(batch: seq<Name>, chunkCounter: nat, ghost cur: seq<seq<string>>, ghost outs: seq<seq<string>>,
                      ghost from: nat, ghost to: nat)
      returns (res: Outcome, ghost o: seq<string>)
      requires chunkCounter == |outs| + 1 && |outs| <= from < to <= |cur|
      requires batch == Names(|cur|, Sorted)[from..to]
      requires |batch| == 1 ==> to == |cur|
      requires PassDir(dir, outs, cur, from)
      modifies this
      ensures res.Fail? ==> !AllGood(cur)
      ensures res.Done? ==> BatchResult(cur[from..to], o) && PassDir(dir, outs + [o], cur, to)
      ensures target == old(target) && unsortedRows == old(unsortedRows)
      ensures totalFilesToMerge == old(totalFilesToMerge)
    {
      var outputFilename := Name(chunkCounter, SortedTmp);
      NamesSlice(|cur|, from, to, Sorted);
      if |batch| == 1 {
        assert batch[0] == Name(from + 1, Sorted);
        MoveStepDir(outs, cur, from, dir);
        MoveFile(batch[0], WithExt(outputFilename, Sorted), true);
        o := cur[from];
        assert cur[from..to] == [o];
        return Done, o;
      }
      ghost var d0 := dir;
      dir := dir[outputFilename := []];
      BatchContents(d0, dir, outs, cur, from, to, batch, outputFilename);
      var merged := Merge(batch);
      if merged.Err? {
        BadBatch(cur, from, to);
        return Fail(merged.error), [];
      }
      MergeStepDir(outs, cur, from, to, merged.value, outputFilename, d0, batch, dir);
      dir := dir[outputFilename := merged.value];
      MoveFile(outputFilename, WithExt(outputFilename, Sorted), true);
      o := merged.value;
      res := Done;
    }

    /**
     * The final run of the merge: the remaining runs, few enough for one
     * batch, merged straight into the target.
     */
    method FinalRun(files: seq<Name>, ghost cur: seq<seq<string>>, ghost runs: seq<seq<string>>) returns (res: Outcome)
      requires 1 <= |cur| && files == Names(|cur|, Sorted) && dir == Numbered(cur, Sorted)
      requires Tracks(cur, runs)
      modifies this
      ensures res.Done? <==> AllGood(runs)
      ensures res.Done? ==> dir == map[] && target.Some? && Canonical(target.value)
      ensures res.Done? ==> FileBag(target.value) == FilesBag(runs)
      ensures res.Done? && AllSorted(runs) ==> FileSorted(target.value)
      ensures unsortedRows == old(unsortedRows) && totalFilesToMerge == old(totalFilesToMerge)
    {
      ContentsNumbered(dir, cur, Sorted);
      ghost var d0 := dir;
      var merged := Merge(files);
      FinalRunFacts(cur, runs, merged);
      if merged.Err? {
        return Fail(merged.error);
      }
      AllMerged(d0, dir, cur, files);
      target := Some(merged.value);
      return Done;
    }

    /**
     * `MergeFilesAsync`: merge passes until at most `filesPerRun` runs are
     * left, then a final run merges them into the target. It succeeds
     * exactly when every run is good, and then leaves the directory empty
     * and the target holding every row of the runs once, in canonical form,
     * sorted when the runs were.
     */
    method MergeFiles(sortedFiles: seq<Name>, ghost runs: seq<seq<string>>) returns (res: Outcome)
      requires 2 <= filesPerRun && |runs| >= 1
      requires sortedFiles == Names(|runs|, Sorted) && dir == Numbered(runs, Sorted)
      modifies this
      ensures res.Done? <==> AllGood(runs)
      ensures res.Done? ==> dir == map[] && target.Some? && Canonical(target.value)
      ensures res.Done? ==> FileBag(target.value) == FilesBag(runs)
      ensures res.Done? && AllSorted(runs) ==> FileSorted(target.value)
      ensures unsortedRows == old(unsortedRows) && totalFilesToMerge == old(totalFilesToMerge)
    {
      var files := sortedFiles;
      ghost var cur := runs;
      while true
        invariant 1 <= |cur| && files == Names(|cur|, Sorted) && dir == Numbered(cur, Sorted)
        invariant Tracks(cur, runs)
        invariant unsortedRows == old(unsortedRows) && totalFilesToMerge == old(totalFilesToMerge)
        decreases |cur|
      {
        var runSize := filesPerRun;
        var finalRun := |files| <= runSize;
        if finalRun {
          res := FinalRun(files, cur, runs);
          return;
        }
        var pass;
        ghost var outs;
        pass, outs := MergePass(files, cur);
        if pass.Fail? {
          return pass;
        }
        PassKeeps(cur, outs, runSize, runs);
        var names := SortedFiles();
        RescanNames(dir, outs, names, Sorted);
        if |names| <= 1 {
          // the loop's other exit, `done = true`: a pass that is not the
          // final run always leaves at least two runs
          assert false;
        }
        files := names;
        cur := outs;
      }
    }

    // -------------------------------------------------------------------
    // The whole sort
    // -------------------------------------------------------------------

    /**
     * `SortAsync`: split the source into chunks; sort a single chunk
     * straight into the target; otherwise sort every chunk into a run and
     * merge the runs into the target. It succeeds exactly when the source
     * is `Sortable`, and then the target holds the source rows sorted, as
     * the writer writes them, and the temporary directory is empty again.
     */
    method SortAsync(source: seq<string>) returns (res: Outcome)
      requires dir == map[] && (filesPerRun >= 2 || |source| < ChunkLines)
      modifies this
      ensures res.Done? <==> Sortable(source, rowsPerFile)
      ensures res.Done? ==> target == Some(Lines(SortRows(ParseLines(source).value))) && dir == map[]
      ensures source == [] ==> res == Fail(EmptyInput) && target == old(target) && dir == old(dir)
    {
      var files := SplitFile(source);
      if files.Err? {
        return Fail(files.error);
      }
      ghost var chunks := Chunks(source, ChunkLines);
      assert dir == Numbered(chunks, Unsorted);
      ChunksFitIff(source, ChunkLines, rowsPerFile);
      ChunksShape(source, ChunkLines);
      unsortedRows := new Option<Row>[rowsPerFile](_ => None);
      target := Some([]);

      if |files.value| == 1 {
        var unsortedFilePath := files.value[0];
        assert chunks == [source] && unsortedFilePath == Name(1, Unsorted);
        var sorted := SortFile(dir[unsortedFilePath]);
        if sorted.Err? {
          return Fail(sorted.error);
        }
        target := Some(sorted.value);
        dir := dir - {unsortedFilePath};
        return Done;
      }

      assert filesPerRun >= 2;
      res := SortChunks(files.value, chunks);
      if res.Done? {
        MergedIsSorted(source, target.value);
      }
    }

    /**
     * The path of `SortAsync` for two chunks or more: sort every chunk into
     * a run, then merge the runs into the target. It succeeds exactly when
     * every chunk fits the buffer, parses and is not empty.
     */
    method SortChunks(files: seq<Name>, ghost chunks: seq<seq<string>>) returns (res: Outcome)
      requires |chunks| >= 2 && files == Names(|chunks|, Unsorted) && dir == Numbered(chunks, Unsorted)
      requires unsortedRows.Length == rowsPerFile && BufferClear() && filesPerRun >= 2
      modifies this, unsortedRows
      ensures res.Done? <==> ChunksFit(chunks, rowsPerFile) && NoneEmpty(chunks)
      ensures res.Done? ==> dir == map[] && target.Some? && Canonical(target.value) && FileSorted(target.value)
      ensures res.Done? ==> FileBag(target.value) == FilesBag(SortedRuns(chunks))
    {
      ghost var d0 := dir;
      ContentsNumbered(d0, chunks, Unsorted);
      var sortedFiles := SortFiles(files);
      if sortedFiles.Err? {
        return Fail(sortedFiles.error);
      }
      totalFilesToMerge := CalculateTotalFilesToMerge(|sortedFiles.value|, filesPerRun);
      ghost var runs := SortedRuns(chunks);
      SortedDir(d0, dir, files, sortedFiles.value, chunks, runs);
      SortedRunsFacts(chunks);
      res := MergeFiles(sortedFiles.value, runs);
    }
  }

  /** A canonical sorted file holding the rows of the sorted runs of the source's chunks is the source sorted. */
  lemma MergedIsSorted(source: seq<string>, out: seq<string>)
    requires ParseLines(source).Ok? && Canonical(out) && FileSorted(out)
    requires FileBag(out) == FilesBag(SortedRuns(Chunks(source, ChunkLines)))
    ensures out == Lines(SortRows(ParseLines(source).value))
  {
    ChunksConcat(source, ChunkLines);
    ChunksBag(Chunks(source, ChunkLines));
    CanonicalSortedIsSortRows(out, ParseLines(source).value);
  }

  /** The outputs so far are those of the first `|outs|` batches. */
  ghost predicate PassPrefix(cur: seq<seq<string>>, outs: seq<seq<string>>, r: nat)
    requires r > 0
  {
    && |outs| <= |Batches(cur, r)|
    && forall j :: 0 <= j < |outs| ==> BatchResult(Batches(cur, r)[j], outs[j])
  }

  lemma PassPrefixSnoc(cur: seq<seq<string>>, outs: seq<seq<string>>, r: nat, o: seq<string>)
    requires r > 0 && PassPrefix(cur, outs, r) && |outs| < |Batches(cur, r)|
    requires BatchResult(Batches(cur, r)[|outs|], o)
    ensures PassPrefix(cur, outs + [o], r)
  {
    forall j | 0 <= j < |outs| + 1 ensures BatchResult(Batches(cur, r)[j], (outs + [o])[j]) {
      if j < |outs| {
        assert (outs + [o])[j] == outs[j];
      }
    }
  }

  /** Batch `k` of the names and of the runs: the same slice, `from = k * r` to `to`. */
  lemma BatchStep(files: seq<Name>, cur: seq<seq<string>>, r: nat, k: nat) returns (from: nat, to: nat)
    requires r >= 2 && files == Names(|cur|, Sorted) && k < |Batches(files, r)|
    ensures |Batches(cur, r)| == |Batches(files, r)|
    ensures from == k * r && (k + 1) * r == from + r && k <= from
    ensures from < to <= |cur| && to == (if from + r <= |cur| then from + r else |cur|)
    ensures Batches(files, r)[k] == files[from..to] && Batches(cur, r)[k] == cur[from..to]
    ensures |Batches(files, r)[k]| == 1 ==> to == |cur|
  {
    BatchesCount(files, r);
    BatchesCount(cur, r);
    BatchAt(files, r, k);
    BatchAt(cur, r, k);
    from := k * r;
    to := if from + r <= |cur| then from + r else |cur|;
    MulFacts(k, r);
  }

  lemma MulFacts(k: nat, r: nat)
    requires r >= 1
    ensures (k + 1) * r == k * r + r && k <= k * r
  {
    assert k * r == k + k * (r - 1);
  }

  /** The batch being merged names the runs `from + 1` to `to`, all present, and their contents. */
  lemma BatchContents(d0: Dir, d: Dir, outs: seq<seq<string>>, cur: seq<seq<string>>, from: nat, to: nat,
                      batch: seq<Name>, tmp: Name)
    requires |outs| <= from < to <= |cur| && tmp.ext == SortedTmp
    requires PassDir(d0, outs, cur, from) && d == d0[tmp := []]
    requires batch == Names(|cur|, Sorted)[from..to]
    ensures forall k :: 0 <= k < |batch| ==> batch[k] in d && batch[k].ext == Sorted
    ensures forall j, k :: 0 <= j < k < |batch| ==> batch[j] != batch[k]
    ensures forall n :: n in d ==> n.ext != SortedRemoval
    ensures Contents(d, batch) == cur[from..to]
  {
    forall k | 0 <= k < |batch| ensures batch[k] == Name(from + k + 1, Sorted) {
    }
  }

  /** A merge that fails on a batch shows a run of the pass that is not good. */
  lemma BadBatch(cur: seq<seq<string>>, from: nat, to: nat)
    requires from <= to <= |cur| && !AllGood(cur[from..to])
    ensures !AllGood(cur)
  {
    var t :| 0 <= t < to - from && !Good(cur[from..to][t]);
    assert cur[from..to][t] == cur[from + t];
  }

  /** The runs written by the sort of chunks numbered from 1 are the sorted runs, numbered from 1. */
  lemma SortedDir(d0: Dir, d: Dir, files: seq<Name>, news: seq<Name>, chunks: seq<seq<string>>, runs: seq<seq<string>>)
    requires d0 == Numbered(chunks, Unsorted) && |chunks| == |runs|
    requires files == Names(|runs|, Unsorted)
    requires |news| == |files| && forall k :: 0 <= k < |files| ==> news[k] == WithExt(files[k], Sorted)
    requires forall n :: n in d <==> (n in d0 && n !in files) || n in news
    requires Contents(d, news) == runs
    ensures news == Names(|runs|, Sorted) && d == Numbered(runs, Sorted)
  {
    RenamedNames(files, news, |runs|);
    NumberedListed(d0, chunks, files, Unsorted);
    OnlyNew(d0, d, files, news);
    SortedDirValues(d, news, runs);
  }

  /** Giving `1<.unsorted>`, ..., `m<.unsorted>` the `.sorted` extension. */
  lemma RenamedNames(files: seq<Name>, news: seq<Name>, m: nat)
    requires files == Names(m, Unsorted) && |news| == m
    requires forall k :: 0 <= k < m ==> news[k] == WithExt(files[k], Sorted)
    ensures news == Names(m, Sorted)
  {
  }

  /** When every old file was replaced, only the new files are left. */
  lemma OnlyNew(d0: Dir, d: Dir, files: seq<Name>, news: seq<Name>)
    requires forall n :: n in d0 ==> n in files
    requires forall n :: n in d <==> (n in d0 && n !in files) || n in news
    ensures forall n :: n in d <==> n in news
  {
  }

  lemma SortedDirValues(d: Dir, news: seq<Name>, runs: seq<seq<string>>)
    requires news == Names(|runs|, Sorted) && (forall n :: n in d <==> n in news)
    requires forall k :: 0 <= k < |runs| ==> d[news[k]] == runs[k]
    ensures d == Numbered(runs, Sorted)
  {
    var e := Numbered(runs, Sorted);
    NumberedFacts(runs, Sorted);
    forall n | n in d ensures n in e && d[n] == e[n] {
      var k := n.index - 1;
      assert news[k] == n;
    }
    forall n | n in e ensures n in d {
      assert news[n.index - 1] == n;
    }
  }

  /** After a pass that is not the final run, the loop invariant of the merge holds of its outputs, which are fewer, and at least two. */
  lemma PassKeeps(cur: seq<seq<string>>, outs: seq<seq<string>>, r: nat, runs: seq<seq<string>>)
    requires 2 <= r < |cur| && PassResult(cur, outs, r) && Tracks(cur, runs)
    ensures 2 <= |outs| < |cur| && Tracks(outs, runs)
  {
    PassPreserves(cur, outs, r);
    BatchesCount(cur, r);
    PassShrinks(|cur|, r);
  }

  /**
   * The runs `cur` left by the passes so far stand for the initial `runs`:
   * good exactly when they were, and then with their rows, sorted when
   * they were.
   */
  ghost predicate Tracks(cur: seq<seq<string>>, runs: seq<seq<string>>) {
    && (AllGood(cur) <==> AllGood(runs))
    && (AllGood(cur) ==> FilesBag(cur) == FilesBag(runs))
    && (AllGood(cur) && AllSorted(runs) ==> AllSorted(cur))
  }

  /** What the final run's merge of `cur` says about the initial runs. */
  lemma FinalRunFacts(cur: seq<seq<string>>, runs: seq<seq<string>>, merged: Result<seq<string>>)
    requires Tracks(cur, runs)
    requires merged.Ok? <==> AllGood(cur)
    requires merged.Ok? ==> FileBag(merged.value) == FilesBag(cur)
    requires merged.Ok? && AllSorted(cur) ==> FileSorted(merged.value)
    ensures merged.Ok? <==> AllGood(runs)
    ensures merged.Ok? ==> FileBag(merged.value) == FilesBag(runs)
    ensures merged.Ok? && AllSorted(runs) ==> FileSorted(merged.value)
  {
  }

  /** A final run over every run leaves the directory empty. */
  lemma AllMerged(d0: Dir, d: Dir, cur: seq<seq<string>>, files: seq<Name>)
    requires d0 == Numbered(cur, Sorted) && files == Names(|cur|, Sorted)
    requires forall n :: n in d <==> n in d0 && n !in files
    ensures d == map[]
  {
    NumberedListed(d0, cur, files, Sorted);
  }

  /** `runs` are the sorted runs of the first `|runs|` chunks. */
  ghost predicate RunsOf(inputs: seq<seq<string>>, runs: seq<seq<string>>) {
    && |runs| <= |inputs|
    && forall k :: 0 <= k < |runs| ==> runs[k] == SortedRun(inputs[k])
  }

  /** The first `n` chunks fit a buffer of `cap` rows. */
  ghost predicate FitSoFar(inputs: seq<seq<string>>, n: nat, cap: nat) {
    && n <= |inputs|
    && forall k :: 0 <= k < n ==> |inputs[k]| <= cap && ParseLines(inputs[k]).Ok?
  }

  lemma RunsOfStep(inputs: seq<seq<string>>, runs: seq<seq<string>>)
    requires RunsOf(inputs, runs) && |runs| < |inputs|
    ensures RunsOf(inputs, runs + [SortedRun(inputs[|runs|])])
  {
    var runs' := runs + [SortedRun(inputs[|runs|])];
    forall k | 0 <= k < |runs'| ensures runs'[k] == SortedRun(inputs[k]) {
      if k < |runs| { assert runs'[k] == runs[k]; }
    }
  }

  lemma FitSoFarStep(inputs: seq<seq<string>>, n: nat, cap: nat)
    requires FitSoFar(inputs, n, cap) && n < |inputs|
    requires |inputs[n]| <= cap && ParseLines(inputs[n]).Ok?
    ensures FitSoFar(inputs, n + 1, cap)
  {
  }

  /** One chunk that does not fit or does not parse fails the whole sort phase. */
  lemma NotAllFit(inputs: seq<seq<string>>, i: nat, cap: nat)
    requires i < |inputs| && !(|inputs[i]| <= cap && ParseLines(inputs[i]).Ok?)
    ensures !ChunksFit(inputs, cap)
  {
  }

  /** After every chunk is sorted: each chunk fit, and each was replaced by its sorted run. */
  lemma SortedFilesFacts(d0: Dir, d: Dir, files: seq<Name>, news: seq<Name>, runs: seq<seq<string>>,
                         inputs: seq<seq<string>>, cap: nat)
    requires forall k :: 0 <= k < |files| ==> files[k] in d0
    requires inputs == Contents(d0, files)
    requires Replaced(d0, d, files, news, runs, Sorted) && |news| == |files|
    requires RunsOf(inputs, runs) && FitSoFar(inputs, |inputs|, cap) && |runs| == |inputs|
    ensures ChunksFit(Contents(d0, files), cap)
    ensures forall k :: 0 <= k < |files| ==> news[k] == WithExt(files[k], Sorted)
    ensures forall n :: n in d <==> (n in d0 && n !in files) || n in news
    ensures forall n :: n in d && n !in files && n !in news ==> d[n] == d0[n]
    ensures forall k :: 0 <= k < |news| ==> news[k] in d
    ensures Contents(d, news) == SortedRuns(Contents(d0, files))
  {
    ReplacedAll(d0, d, files, news, runs, Sorted);
    assert Contents(d, news) == runs;
    assert runs == SortedRuns(inputs);
  }

  /**
   * The rescan so far: the names taken, in increasing order, and the names
   * still to take, all of higher number, together make up `all`.
   */
  ghost predicate Rescanning(names: seq<Name>, remaining: set<Name>, all: set<Name>) {
    && (forall n :: n in names || n in remaining <==> n in all)
    && (forall n :: n in names ==> n !in remaining)
    && Increasing(names)
    && (forall j, m :: 0 <= j < |names| && m in remaining ==> names[j].index < m.index)
  }

  lemma RescanStep(names: seq<Name>, remaining: set<Name>, all: set<Name>, next: Name)
    requires Rescanning(names, remaining, all) && forall n :: n in all ==> n.ext == Sorted
    requires next in remaining && forall x :: x in remaining ==> next.index <= x.index
    ensures Rescanning(names + [next], remaining - {next}, all)
  {
    var names' := names + [next];
    forall j, m | 0 <= j < |names'| && m in remaining - {next} ensures names'[j].index < m.index {
      if j < |names| { assert names'[j] == names[j]; }
      else { assert names'[j] == next && next != m && next.ext == m.ext; }
    }
  }

  /**
   * The split after `i` source lines: the chunks closed so far and the one
   * being filled are the chunks of those lines, and the directory holds
   * them, numbered from 1, beside what `base` held.
   */
  ghost predicate Splitting(source: seq<string>, i: nat, closed: seq<seq<string>>, current: seq<string>,
                            base: Dir, d: Dir) {
    && i <= |source|
    && closed + [current] == Chunks(source[..i], ChunkLines)
    && d == base + Numbered(closed + [current], Unsorted)
  }

  /**
   * Appending line `i` to the chunk being filled, and then, when that chunk
   * is full, opening an empty one.
   */
  lemma SplitStep(source: seq<string>, i: nat, closed: seq<seq<string>>, current: seq<string>, base: Dir, d: Dir)
    requires Splitting(source, i, closed, current, base, d) && i < |source|
    ensures |current| < ChunkLines
    ensures Name(|closed| + 1, Unsorted) in d && d[Name(|closed| + 1, Unsorted)] == current
    ensures var d' := d[Name(|closed| + 1, Unsorted) := current + [source[i]]];
      if |current| + 1 < ChunkLines then Splitting(source, i + 1, closed, current + [source[i]], base, d')
      else Splitting(source, i + 1, closed + [current + [source[i]]], [], base, d'[Name(|closed| + 2, Unsorted) := []])
  {
    var line := source[i];
    ChunksSnoc(closed, current, source[..i], line, ChunkLines);
    assert source[..i + 1] == source[..i] + [line];
    SetLastFile(base, closed, current, current + [line], Unsorted);
    AddFile(base, closed + [current + [line]], [], Unsorted);
    NumberedFacts(closed + [current], Unsorted);
  }
}
