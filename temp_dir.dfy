/**
 * The temporary directory of the engine: files named `<index><extension>`,
 * each holding a sequence of lines.
 */
module TempDir {

  /** The extensions the engine gives its temporary files. */
  datatype Ext =
    | Unsorted       // `.unsorted`: a chunk of the source
    | Sorted         // `.sorted`: a sorted run
    | SortedTmp      // `.sorted.tmp`: a merge output being written
    | SortedRemoval  // `.sorted.removal`: a merged input about to be deleted

  datatype Name = Name(index: nat, ext: Ext)

  type Dir = map<Name, seq<string>>

  /** `1<ext>`, `2<ext>`, ..., `n<ext>`. */
  function Names(n: nat, ext: Ext): (names: seq<Name>)
    ensures |names| == n
    ensures forall k :: 0 <= k < n ==> names[k] == Name(k + 1, ext)
  {
    seq(n, k requires 0 <= k < n => Name(k + 1, ext))
  }

  /** A directory holding `files` in order as `1<ext>`, `2<ext>`, .... */
  function Numbered(files: seq<seq<string>>, ext: Ext): Dir {
    if files == [] then map[]
    else Numbered(files[..|files| - 1], ext)[Name(|files|, ext) := files[|files| - 1]]
  }

  /** Every file of a numbered directory is one of the listed names. */
  lemma NumberedListed(d: Dir, files: seq<seq<string>>, names: seq<Name>, ext: Ext)
    requires d == Numbered(files, ext) && names == Names(|files|, ext)
    ensures forall n :: n in d ==> n in names
  {
    NumberedFacts(files, ext);
    forall n | n in d ensures n in names {
      assert n == names[n.index - 1];
    }
  }

  /** The names in `Numbered(files, ext)` and what each holds. */
  lemma {:induction false} NumberedFacts(files: seq<seq<string>>, ext: Ext)
    ensures forall n :: n in Numbered(files, ext) <==> n.ext == ext && 1 <= n.index <= |files|
    ensures forall k :: 0 <= k < |files| ==> Numbered(files, ext)[Name(k + 1, ext)] == files[k]
    decreases |files|
  {
    if files != [] {
      var init := files[..|files| - 1];
      NumberedFacts(init, ext);
      assert forall k :: 0 <= k < |init| ==> init[k] == files[k];
    }
  }

  lemma NumberedSnoc(files: seq<seq<string>>, f: seq<string>, ext: Ext)
    ensures Numbered(files + [f], ext) == Numbered(files, ext)[Name(|files| + 1, ext) := f]
  {
  }

  lemma NumberedSetLast(files: seq<seq<string>>, f: seq<string>, g: seq<string>, ext: Ext)
    ensures Numbered(files + [f], ext)[Name(|files| + 1, ext) := g] == Numbered(files + [g], ext)
  {
  }

  /** Writing the last of the numbered files of a directory. */
  lemma SetLastFile(base: Dir, files: seq<seq<string>>, f: seq<string>, g: seq<string>, ext: Ext)
    ensures (base + Numbered(files + [f], ext))[Name(|files| + 1, ext) := g] == base + Numbered(files + [g], ext)
  {
    NumberedSetLast(files, f, g, ext);
  }

  /** Creating one more numbered file in a directory. */
  lemma AddFile(base: Dir, files: seq<seq<string>>, f: seq<string>, ext: Ext)
    ensures (base + Numbered(files, ext))[Name(|files| + 1, ext) := f] == base + Numbered(files + [f], ext)
  {
    NumberedSnoc(files, f, ext);
  }

  lemma NamesSnoc(n: nat, ext: Ext)
    ensures Names(n, ext) + [Name(n + 1, ext)] == Names(n + 1, ext)
  {
  }

  /** The file name with the same index and another extension (`string.Replace` on the extension). */
  function WithExt(n: Name, ext: Ext): Name {
    n.(ext := ext)
  }

  /** The contents of the named files, in order. */
  function Contents(d: Dir, files: seq<Name>): (c: seq<seq<string>>)
    requires forall k :: 0 <= k < |files| ==> files[k] in d
    ensures |c| == |files| && forall k :: 0 <= k < |files| ==> c[k] == d[files[k]]
  {
    seq(|files|, k requires 0 <= k < |files| => d[files[k]])
  }

  lemma PrefixSnoc(files: seq<Name>, i: nat)
    requires i < |files|
    ensures files[..i + 1] == files[..i] + [files[i]]
  {
  }

  /**
   * The first `|news|` of `files` were each replaced in `d0` by a file of
   * the same index with extension `ext`, holding `contents`; nothing else
   * changed.
   */
  ghost predicate Replaced(d0: Dir, d: Dir, files: seq<Name>, news: seq<Name>, contents: seq<seq<string>>, ext: Ext) {
    && |news| <= |files| && |contents| == |news|
    && (forall k :: 0 <= k < |news| ==> news[k] == WithExt(files[k], ext))
    && (forall n :: n in d <==> (n in d0 && n !in files[..|news|]) || n in news)
    && (forall k :: 0 <= k < |news| ==> d[news[k]] == contents[k])
    && (forall n :: n in d && n !in files[..|news|] && n !in news ==> n in d0 && d[n] == d0[n])
  }

  lemma ReplacedStart(d0: Dir, files: seq<Name>, ext: Ext)
    ensures Replaced(d0, d0, files, [], [], ext)
  {
  }

  /** Replacing the next file: it is still there, unchanged, and afterwards one more file is replaced. */
  lemma ReplacedStep(d0: Dir, d: Dir, files: seq<Name>, news: seq<Name>, contents: seq<seq<string>>, ext: Ext,
                     c: seq<string>, from: Ext)
    requires Replaced(d0, d, files, news, contents, ext) && |news| < |files| && from != ext
    requires forall k :: 0 <= k < |files| ==> files[k] in d0 && files[k].ext == from
    requires forall j, k :: 0 <= j < k < |files| ==> files[j] != files[k]
    ensures files[|news|] in d && d[files[|news|]] == d0[files[|news|]]
    ensures Replaced(d0, d[WithExt(files[|news|], ext) := c] - {files[|news|]}, files,
                     news + [WithExt(files[|news|], ext)], contents + [c], ext)
  {
    var i := |news|;
    var f := files[i];
    assert f !in files[..i];
    assert f !in news;
    PrefixSnoc(files, i);
    forall k | 0 <= k < i ensures news[k] != WithExt(f, ext) {
      assert files[k] != f;
    }
  }

  /** The replacement of the next file is not there yet when no replacement was there at the start. */
  lemma ReplacedFree(d0: Dir, d: Dir, files: seq<Name>, news: seq<Name>, contents: seq<seq<string>>, ext: Ext,
                     from: Ext)
    requires Replaced(d0, d, files, news, contents, ext) && |news| < |files|
    requires forall k :: 0 <= k < |files| ==> files[k].ext == from
    requires forall j, k :: 0 <= j < k < |files| ==> files[j] != files[k]
    requires forall k :: 0 <= k < |files| ==> WithExt(files[k], ext) !in d0
    ensures WithExt(files[|news|], ext) !in d
  {
    var f := files[|news|];
    forall k | 0 <= k < |news| ensures news[k] != WithExt(f, ext) {
      assert files[k] != f;
    }
  }

  /** Once every file is replaced, the directory is the old one without `files` and with `news`. */
  lemma ReplacedAll(d0: Dir, d: Dir, files: seq<Name>, news: seq<Name>, contents: seq<seq<string>>, ext: Ext)
    requires Replaced(d0, d, files, news, contents, ext) && |news| == |files|
    ensures forall n :: n in d <==> (n in d0 && n !in files) || n in news
    ensures forall k :: 0 <= k < |news| ==> d[news[k]] == contents[k]
    ensures forall n :: n in d && n !in files && n !in news ==> d[n] == d0[n]
  {
    assert files[..|news|] == files;
  }

  /** A name of least index in a non-empty set. */
  lemma LeastIndex(s: set<Name>) returns (m: Name)
    requires s != {}
    ensures m in s && forall x :: x in s ==> m.index <= x.index
    decreases |s|
  {
    var y :| y in s;
    if s == {y} {
      m := y;
    } else {
      assert s - {y} != {};
      var m' := LeastIndex(s - {y});
      m := if y.index < m'.index then y else m';
    }
  }

  /** The names are listed by strictly increasing index. */
  predicate Increasing(names: seq<Name>) {
    forall j, k :: 0 <= j < k < |names| ==> names[j].index < names[k].index
  }

  /**
   * Names listed by increasing index, covering exactly `1<ext>` to
   * `m<ext>`, are those names in order.
   */
  lemma {:induction false} IncreasingNames(names: seq<Name>, m: nat, ext: Ext)
    requires Increasing(names)
    requires forall n :: n in names <==> n.ext == ext && 1 <= n.index <= m
    ensures names == Names(m, ext)
  {
    forall k | 0 <= k < |names| ensures names[k] == Name(k + 1, ext) {
      IndexAt(names, m, ext, k);
    }
    if m > 0 {
      assert Name(m, ext) in names;
      var p :| 0 <= p < |names| && names[p] == Name(m, ext);
      assert |names| >= m;
    }
    if |names| > 0 {
      assert names[|names| - 1] in names;
    }
  }

  /** A rescan of a directory numbering `files` lists `1<ext>` to `|files|<ext>` in order. */
  lemma RescanNames(d: Dir, files: seq<seq<string>>, names: seq<Name>, ext: Ext)
    requires d == Numbered(files, ext) && Increasing(names)
    requires forall n :: n in names <==> n in d && n.ext == ext
    ensures names == Names(|files|, ext)
  {
    NumberedFacts(files, ext);
    IncreasingNames(names, |files|, ext);
  }

  lemma {:induction false} IndexAt(names: seq<Name>, m: nat, ext: Ext, k: nat)
    requires Increasing(names)
    requires forall n :: n in names <==> n.ext == ext && 1 <= n.index <= m
    requires k < |names|
    ensures names[k] == Name(k + 1, ext)
    decreases k
  {
    assert names[k] in names;
    if k > 0 {
      IndexAt(names, m, ext, k - 1);
    }
    assert names[k].index >= k + 1;
    assert Name(k + 1, ext) in names;
    var p :| 0 <= p < |names| && names[p] == Name(k + 1, ext);
    assert p == k;
  }

  /** Membership in a slice of `Names(m, ext)`. */
  lemma NamesSlice(m: nat, from: nat, to: nat, ext: Ext)
    requires from <= to <= m
    ensures forall n :: n in Names(m, ext)[from..to] <==> n.ext == ext && from < n.index <= to
  {
    var s := Names(m, ext)[from..to];
    forall n: Name | n.ext == ext && from < n.index <= to ensures n in s {
      assert s[n.index - 1 - from] == n;
    }
  }

  /** The contents of `1<ext>`, ..., `n<ext>` in a directory numbering `files` are `files`. */
  lemma ContentsNumbered(d: Dir, files: seq<seq<string>>, ext: Ext)
    requires d == Numbered(files, ext)
    ensures forall n :: n in d ==> n.ext == ext
    ensures forall k :: 0 <= k < |files| ==> Names(|files|, ext)[k] in d
    ensures Contents(d, Names(|files|, ext)) == files
  {
    NumberedFacts(files, ext);
  }

  /**
   * The directory during a merge pass over the runs `cur`: the first
   * `|outs|` outputs are `1<.sorted>` to `|outs|<.sorted>`, and the runs
   * not yet merged keep their names `from + 1` to `|cur|`.
   */
  ghost predicate PassDir(d: Dir, outs: seq<seq<string>>, cur: seq<seq<string>>, from: nat) {
    && (forall n :: n in d <==> n.ext == Sorted && (1 <= n.index <= |outs| || from < n.index <= |cur|))
    && (forall k :: 0 <= k < |outs| ==> d[Name(k + 1, Sorted)] == outs[k])
    && (forall k :: from <= k < |cur| ==> d[Name(k + 1, Sorted)] == cur[k])
  }

  lemma PassDirStart(d: Dir, cur: seq<seq<string>>)
    requires d == Numbered(cur, Sorted)
    ensures PassDir(d, [], cur, 0)
  {
    NumberedFacts(cur, Sorted);
  }

  lemma PassDirEnd(d: Dir, outs: seq<seq<string>>, cur: seq<seq<string>>, from: nat)
    requires PassDir(d, outs, cur, from) && from >= |cur|
    ensures d == Numbered(outs, Sorted)
  {
    var e := Numbered(outs, Sorted);
    NumberedFacts(outs, Sorted);
    forall n | n in d ensures d[n] == e[n] {
      var k := n.index - 1;
      assert 0 <= k < |outs| && n == Name(k + 1, Sorted);
      assert d[Name(k + 1, Sorted)] == outs[k] == e[Name(k + 1, Sorted)];
    }
  }

  /**
   * A merge step of a pass: the inputs `from + 1` to `to` are removed, the
   * merged file written to `tmp` and renamed to `|outs| + 1`.
   */
  lemma MergeStepDir(outs: seq<seq<string>>, cur: seq<seq<string>>, from: nat, to: nat,
                     o: seq<string>, tmp: Name, d0: Dir, batch: seq<Name>, d: Dir)
    requires |outs| < to && |outs| <= from < to <= |cur| && tmp.ext == SortedTmp
    requires PassDir(d0, outs, cur, from) && batch == Names(|cur|, Sorted)[from..to]
    requires forall n :: n in d <==> n in d0[tmp := []] && n !in batch
    requires forall n :: n in d ==> d[n] == d0[tmp := []][n]
    ensures PassDir((d[tmp := o] - {tmp})[Name(|outs| + 1, Sorted) := o], outs + [o], cur, to)
  {
    NamesSlice(|cur|, from, to, Sorted);
    var d' := (d[tmp := o] - {tmp})[Name(|outs| + 1, Sorted) := o];
    forall k | 0 <= k < |outs| ensures d'[Name(k + 1, Sorted)] == (outs + [o])[k] {
      assert Name(k + 1, Sorted) in d0;
    }
    forall k | to <= k < |cur| ensures d'[Name(k + 1, Sorted)] == cur[k] {
      assert Name(k + 1, Sorted) in d0;
    }
  }

  /** A lone last run renamed from `from + 1` to `|outs| + 1`. */
  lemma MoveStepDir(outs: seq<seq<string>>, cur: seq<seq<string>>, from: nat, d: Dir)
    requires |outs| <= from && from + 1 == |cur|
    requires PassDir(d, outs, cur, from)
    ensures Name(from + 1, Sorted) in d
    ensures PassDir((d - {Name(from + 1, Sorted)})[Name(|outs| + 1, Sorted) := d[Name(from + 1, Sorted)]],
                    outs + [cur[from]], cur, from + 1)
  {
    var d' := (d - {Name(from + 1, Sorted)})[Name(|outs| + 1, Sorted) := d[Name(from + 1, Sorted)]];
    forall k | 0 <= k < |outs| ensures d'[Name(k + 1, Sorted)] == (outs + [cur[from]])[k] {
      assert Name(k + 1, Sorted) in d;
    }
  }

  /** Once the runs are used up, how far the pass has got no longer matters. */
  lemma PassDirBeyond(d: Dir, outs: seq<seq<string>>, cur: seq<seq<string>>, a: nat, b: nat)
    requires PassDir(d, outs, cur, a) && (a == b || (a == |cur| && b >= |cur|))
    ensures PassDir(d, outs, cur, b)
  {
  }
}
