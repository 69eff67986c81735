/**
 * The k-way merge of `ExternalSortService.Merge` and
 * `InitializeStreamReaders`: one current row (head) per open input, the least
 * head written out at each step and replaced by the next line of its input,
 * an input retired when it is exhausted.
 */
module KWayMerge {
  import opened Outcomes
  import opened Rows

  // ---------------------------------------------------------------------
  // Specification helpers
  // ---------------------------------------------------------------------

  /** The row a line holds when it parses (a placeholder row otherwise). */
  ghost function Decode(line: string): Row {
    match Parse(line)
    case Ok(r) => r
    case Err(_) => Row(0, "", 0)
  }

  ghost function DecodeAll(lines: seq<string>): (rows: seq<Row>)
    ensures |rows| == |lines|
    ensures forall i :: 0 <= i < |lines| ==> rows[i] == Decode(lines[i])
  {
    seq(|lines|, i requires 0 <= i < |lines| => Decode(lines[i]))
  }

  lemma DecodeAllParsed(lines: seq<string>)
    requires ParseLines(lines).Ok?
    ensures DecodeAll(lines) == ParseLines(lines).value
  {
  }

  /** The rows of a file, as a multiset; no rows when the file does not parse. */
  function FileBag(lines: seq<string>): multiset<Row> {
    match ParseLines(lines)
    case Ok(rows) => multiset(rows)
    case Err(_) => multiset{}
  }

  /** The file parses and its rows are sorted. */
  predicate FileSorted(lines: seq<string>) {
    ParseLines(lines).Ok? && Sorted(ParseLines(lines).value)
  }

  /** The rows of all the files together. */
  function FilesBag(files: seq<seq<string>>): multiset<Row> {
    if files == [] then multiset{} else FilesBag(files[..|files| - 1]) + FileBag(files[|files| - 1])
  }

  ghost function DecodedBag(files: seq<seq<string>>): multiset<Row> {
    if files == [] then multiset{} else DecodedBag(files[..|files| - 1]) + multiset(DecodeAll(files[|files| - 1]))
  }

  lemma {:induction false} DecodedBagIsFilesBag(files: seq<seq<string>>)
    requires forall t :: 0 <= t < |files| ==> ParseLines(files[t]).Ok?
    ensures DecodedBag(files) == FilesBag(files)
  {
    if files != [] {
      DecodedBagIsFilesBag(files[..|files| - 1]);
      DecodeAllParsed(files[|files| - 1]);
    }
  }

  ghost predicate InputsSorted(inputs: seq<seq<string>>) {
    forall t :: 0 <= t < |inputs| ==> Sorted(DecodeAll(inputs[t]))
  }

  /** The lines from position `p` on; none when `p` is past the end. */
  function Rest(lines: seq<string>, p: nat): seq<string> {
    if p <= |lines| then lines[p..] else []
  }

  /** The rows of `lines` from position `p` on. */
  ghost function Tail(lines: seq<string>, p: nat): multiset<Row> {
    multiset(DecodeAll(Rest(lines, p)))
  }

  /** The rows not yet read from the first `n` inputs. */
  ghost function Unread(inputs: seq<seq<string>>, pos: seq<nat>, n: nat): multiset<Row>
    requires n <= |inputs| && n <= |pos|
  {
    if n == 0 then multiset{}
    else Unread(inputs, pos, n - 1) + Tail(inputs[n - 1], pos[n - 1])
  }

  lemma {:induction false} UnreadUpdate(inputs: seq<seq<string>>, pos: seq<nat>, n: nat, s: nat, p: nat)
    requires n <= |inputs| && n <= |pos| && s < n
    ensures Unread(inputs, pos[s := p], n) + Tail(inputs[s], pos[s])
      == Unread(inputs, pos, n) + Tail(inputs[s], p)
  {
    var pos' := pos[s := p];
    var a', a := Unread(inputs, pos', n - 1), Unread(inputs, pos, n - 1);
    var xOld, xNew := Tail(inputs[s], pos[s]), Tail(inputs[s], p);
    if s < n - 1 {
      UnreadUpdate(inputs, pos, n - 1, s, p);
      var y := Tail(inputs[n - 1], pos[n - 1]);
      assert pos'[n - 1] == pos[n - 1];
      assert Unread(inputs, pos', n) == a' + y;
      AddBoth(a', a, y, xOld, xNew);
    } else {
      UnreadBeyond(inputs, pos, n - 1, s, p);
      assert Unread(inputs, pos', n) == a + xNew;
      assert Unread(inputs, pos, n) == a + xOld;
      Swap(a, xNew, xOld);
    }
  }

  /** Moving a stream at or after `n` leaves the rows unread from the first `n` alone. */
  lemma {:induction false} UnreadBeyond(inputs: seq<seq<string>>, pos: seq<nat>, n: nat, s: nat, p: nat)
    requires n <= |inputs| && n <= |pos| && n <= s < |pos|
    ensures Unread(inputs, pos[s := p], n) == Unread(inputs, pos, n)
  {
    if n > 0 {
      UnreadBeyond(inputs, pos, n - 1, s, p);
      assert pos[s := p][n - 1] == pos[n - 1];
    }
  }

  lemma Swap<T>(a: multiset<T>, x: multiset<T>, y: multiset<T>)
    ensures a + x + y == a + y + x
  {
  }

  lemma AddBoth<T>(a': multiset<T>, a: multiset<T>, y: multiset<T>, xOld: multiset<T>, xNew: multiset<T>)
    requires a' + xOld == a + xNew
    ensures a' + y + xOld == a + y + xNew
  {
    forall z ensures (a' + y + xOld)[z] == (a + y + xNew)[z] {
      assert (a' + xOld)[z] == (a + xNew)[z];
    }
  }

  lemma {:induction false} UnreadStart(inputs: seq<seq<string>>, pos: seq<nat>, n: nat)
    requires n <= |inputs| && n <= |pos| && forall t :: 0 <= t < n ==> pos[t] == 0
    ensures Unread(inputs, pos, n) == DecodedBag(inputs[..n])
  {
    if n > 0 {
      UnreadStart(inputs, pos, n - 1);
      assert inputs[..n][..n - 1] == inputs[..n - 1];
      assert Rest(inputs[n - 1], 0) == inputs[n - 1];
    }
  }

  lemma {:induction false} UnreadEnd(inputs: seq<seq<string>>, pos: seq<nat>, n: nat)
    requires n <= |inputs| && n <= |pos| && forall t :: 0 <= t < n ==> pos[t] == |inputs[t]|
    ensures Unread(inputs, pos, n) == multiset{}
  {
    if n > 0 {
      UnreadEnd(inputs, pos, n - 1);
      assert Rest(inputs[n - 1], pos[n - 1]) == [];
    }
  }

  /** Reading the line at position `pos[s]` of input `s` takes its row out of the unread rows. */
  lemma UnreadAdvance(inputs: seq<seq<string>>, pos: seq<nat>, s: nat)
    requires |pos| == |inputs| && s < |inputs| && pos[s] < |inputs[s]|
    ensures Unread(inputs, pos[s := pos[s] + 1], |inputs|) + multiset{Decode(inputs[s][pos[s]])}
         == Unread(inputs, pos, |inputs|)
  {
    var n := |inputs|;
    var d := Decode(inputs[s][pos[s]]);
    var xOld, xNew := Tail(inputs[s], pos[s]), Tail(inputs[s], pos[s] + 1);
    assert xOld == multiset{d} + xNew by {
      TailSplit(inputs[s], pos[s]);
    }
    UnreadUpdate(inputs, pos, n, s, pos[s] + 1);
    var u', u := Unread(inputs, pos[s := pos[s] + 1], n), Unread(inputs, pos, n);
    forall z ensures (u' + multiset{d})[z] == u[z] {
      assert (u' + xOld)[z] == (u + xNew)[z];
    }
  }

  lemma TailSplit(lines: seq<string>, p: nat)
    requires p < |lines|
    ensures Tail(lines, p) == multiset{Decode(lines[p])} + Tail(lines, p + 1)
  {
    assert DecodeAll(lines[p..]) == [Decode(lines[p])] + DecodeAll(lines[p + 1..]);
  }

  function UntaggedAll(rows: seq<Row>): (r: seq<Row>)
    ensures |r| == |rows| && forall k :: 0 <= k < |rows| ==> r[k] == Untagged(rows[k])
  {
    seq(|rows|, k requires 0 <= k < |rows| => Untagged(rows[k]))
  }

  // ---------------------------------------------------------------------
  // Loop invariants
  // ---------------------------------------------------------------------

  /** `h` is the current row of its input: the last line read from it. */
  ghost predicate IsHead(inputs: seq<seq<string>>, pos: seq<nat>, h: Row)
    requires |pos| == |inputs|
  {
    0 <= h.streamReader < |inputs| && 1 <= pos[h.streamReader] <= |inputs[h.streamReader]| &&
    Untagged(h) == Decode(inputs[h.streamReader][pos[h.streamReader] - 1])
  }

  /** Every input has been read from, and not past its end. */
  ghost predicate PosValid(inputs: seq<seq<string>>, pos: seq<nat>) {
    |pos| == |inputs| && forall t :: 0 <= t < |inputs| ==> 1 <= pos[t] <= |inputs[t]|
  }

  /** Every line read so far parsed (a line that does not stops the merge). */
  ghost predicate ReadParsed(inputs: seq<seq<string>>, pos: seq<nat>)
    requires |pos| == |inputs|
  {
    forall t, j :: 0 <= t < |inputs| && 0 <= j < pos[t] && j < |inputs[t]| ==> Parse(inputs[t][j]).Ok?
  }

  /** Each head is the current row of its input, and no input has two heads. */
  ghost predicate HeadsCurrent(inputs: seq<seq<string>>, pos: seq<nat>, rows: seq<Row>)
    requires |pos| == |inputs|
  {
    && (forall k :: 0 <= k < |rows| ==> IsHead(inputs, pos, rows[k]))
    && (forall k, l :: 0 <= k < l < |rows| ==> rows[k].streamReader != rows[l].streamReader)
  }

  /** An input with lines left has a head. */
  ghost predicate HeadsCover(inputs: seq<seq<string>>, pos: seq<nat>, rows: seq<Row>)
    requires |pos| == |inputs|
  {
    forall t :: 0 <= t < |inputs| && pos[t] < |inputs[t]| ==>
      exists k :: 0 <= k < |rows| && rows[k].streamReader == t
  }

  /** `rows.Count + finishedStreamReaders.Count` is the number of inputs, and a retired input has no head. */
  ghost predicate FinishedApart(inputs: seq<seq<string>>, rows: seq<Row>, finished: seq<int>) {
    && |rows| + |finished| == |inputs|
    && (forall i, k :: 0 <= i < |finished| && 0 <= k < |rows| ==> finished[i] != rows[k].streamReader)
  }

  /** Book-keeping of the open inputs: positions, heads and retired inputs. */
  ghost predicate StreamsInv(inputs: seq<seq<string>>, pos: seq<nat>, rows: seq<Row>, finished: seq<int>) {
    && PosValid(inputs, pos)
    && ReadParsed(inputs, pos)
    && HeadsCurrent(inputs, pos, rows)
    && HeadsCover(inputs, pos, rows)
    && FinishedApart(inputs, rows, finished)
  }

  /** Every row of the inputs is written, a head, or still unread, exactly once. */
  ghost predicate BagInv(inputs: seq<seq<string>>, pos: seq<nat>, rows: seq<Row>, written: seq<Row>)
    requires |pos| == |inputs|
  {
    multiset(written) + multiset(UntaggedAll(rows)) + Unread(inputs, pos, |inputs|) == DecodedBag(inputs)
  }

  /** With sorted inputs, the output is sorted and no head sorts before it. */
  ghost predicate OrderInv(inputs: seq<seq<string>>, rows: seq<Row>, written: seq<Row>) {
    InputsSorted(inputs) ==>
      Sorted(written) &&
      forall i, k :: 0 <= i < |written| && 0 <= k < |rows| ==> Le(written[i], rows[k])
  }

  ghost predicate MergeInv(inputs: seq<seq<string>>, pos: seq<nat>, rows: seq<Row>,
                           finished: seq<int>, written: seq<Row>) {
    && StreamsInv(inputs, pos, rows, finished)
    && BagInv(inputs, pos, rows, written)
    && OrderInv(inputs, rows, written)
    && Plain(written)
  }

  /** The invariant while the first line of inputs `0 .. i-1` has been read. */
  ghost predicate InitInv(inputs: seq<seq<string>>, pos: seq<nat>, rows: seq<Row>, i: nat) {
    && |pos| == |inputs| && i <= |inputs| && |rows| == i
    && (forall t :: 0 <= t < i ==>
          pos[t] == 1 <= |inputs[t]| && Parse(inputs[t][0]).Ok? &&
          rows[t].streamReader == t && Untagged(rows[t]) == Decode(inputs[t][0]))
    && (forall t :: i <= t < |inputs| ==> pos[t] == 0)
    && multiset(UntaggedAll(rows)) + Unread(inputs, pos, |inputs|) == DecodedBag(inputs)
  }

  // ---------------------------------------------------------------------
  // Invariant steps
  // ---------------------------------------------------------------------

  lemma InitStart(inputs: seq<seq<string>>)
    ensures InitInv(inputs, seq(|inputs|, _ => 0), [], 0)
  {
    var pos: seq<nat> := seq(|inputs|, _ => 0);
    UnreadStart(inputs, pos, |inputs|);
    assert inputs[..|inputs|] == inputs;
  }

  lemma InitStep(inputs: seq<seq<string>>, pos: seq<nat>, rows: seq<Row>, i: nat, row: Row)
    requires InitInv(inputs, pos, rows, i) && i < |inputs| && |inputs[i]| >= 1
    requires ParseTagged(inputs[i][0], i) == Ok(row)
    ensures InitInv(inputs, pos[i := 1], rows + [row], i + 1)
  {
    var pos' := pos[i := 1];
    var rows' := rows + [row];
    InitBagStep(inputs, pos, rows, i, row);
    forall t | 0 <= t < i + 1
      ensures pos'[t] == 1 <= |inputs[t]| && Parse(inputs[t][0]).Ok? &&
              rows'[t].streamReader == t && Untagged(rows'[t]) == Decode(inputs[t][0])
    {
    }
  }

  lemma InitBagStep(inputs: seq<seq<string>>, pos: seq<nat>, rows: seq<Row>, i: nat, row: Row)
    requires |pos| == |inputs| && i < |inputs| && pos[i] == 0 && |inputs[i]| >= 1
    requires Untagged(row) == Decode(inputs[i][0])
    requires multiset(UntaggedAll(rows)) + Unread(inputs, pos, |inputs|) == DecodedBag(inputs)
    ensures multiset(UntaggedAll(rows + [row])) + Unread(inputs, pos[i := 1], |inputs|) == DecodedBag(inputs)
  {
    var x := Decode(inputs[i][0]);
    UnreadAdvance(inputs, pos, i);
    assert UntaggedAll(rows + [row]) == UntaggedAll(rows) + [x];
    MoveOne(multiset(UntaggedAll(rows)), Unread(inputs, pos, |inputs|), Unread(inputs, pos[i := 1], |inputs|), x);
  }

  lemma InitDone(inputs: seq<seq<string>>, pos: seq<nat>, rows: seq<Row>)
    requires InitInv(inputs, pos, rows, |inputs|)
    ensures MergeInv(inputs, pos, rows, [], [])
  {
    forall t | 0 <= t < |inputs| && pos[t] < |inputs[t]|
      ensures exists k :: 0 <= k < |rows| && rows[k].streamReader == t
    {
      assert rows[t].streamReader == t;
    }
    assert StreamsInv(inputs, pos, rows, []);
    assert BagInv(inputs, pos, rows, []) by {
      var none: seq<Row> := [];
      assert multiset(none) + multiset(UntaggedAll(rows)) == multiset(UntaggedAll(rows));
    }
    assert OrderInv(inputs, rows, []);
  }

  /** `rows[m]` is a least head: the one `rows.Sort()` brings to the front. */
  ghost predicate IsLeast(rows: seq<Row>, m: nat) {
    m < |rows| && forall k :: 0 <= k < |rows| ==> Le(rows[m], rows[k])
  }

  lemma HeadsAdvance(inputs: seq<seq<string>>, pos: seq<nat>, rows: seq<Row>, m: nat, s: nat, row: Row)
    requires PosValid(inputs, pos) && HeadsCurrent(inputs, pos, rows) && m < |rows|
    requires s == rows[m].streamReader
    requires pos[s] < |inputs[s]| && ParseTagged(inputs[s][pos[s]], s) == Ok(row)
    ensures HeadsCurrent(inputs, pos[s := pos[s] + 1], rows[m := row])
  {
    var pos', rows' := pos[s := pos[s] + 1], rows[m := row];
    assert forall k :: 0 <= k < |rows| ==> rows'[k].streamReader == rows[k].streamReader;
    forall k | 0 <= k < |rows'|
      ensures IsHead(inputs, pos', rows'[k])
    {
      if k != m {
        assert rows[k].streamReader != s;
        assert IsHead(inputs, pos, rows[k]);
      }
    }
  }

  lemma CoverAdvance(inputs: seq<seq<string>>, pos: seq<nat>, rows: seq<Row>, m: nat, s: nat, row: Row)
    requires PosValid(inputs, pos) && HeadsCover(inputs, pos, rows) && m < |rows|
    requires s == rows[m].streamReader == row.streamReader && s < |inputs|
    ensures HeadsCover(inputs, pos[s := pos[s] + 1], rows[m := row])
  {
    var pos', rows' := pos[s := pos[s] + 1], rows[m := row];
    forall t | 0 <= t < |inputs| && pos'[t] < |inputs[t]|
      ensures exists k :: 0 <= k < |rows'| && rows'[k].streamReader == t
    {
      var k :| 0 <= k < |rows| && rows[k].streamReader == t;
      assert rows'[k].streamReader == t;
    }
  }

  lemma ParsedAdvance(inputs: seq<seq<string>>, pos: seq<nat>, s: nat)
    requires PosValid(inputs, pos) && ReadParsed(inputs, pos) && s < |inputs|
    requires pos[s] < |inputs[s]| && Parse(inputs[s][pos[s]]).Ok?
    ensures ReadParsed(inputs, pos[s := pos[s] + 1])
  {
    var pos' := pos[s := pos[s] + 1];
    forall t, j | 0 <= t < |inputs| && 0 <= j < pos'[t] && j < |inputs[t]|
      ensures Parse(inputs[t][j]).Ok?
    {
      if t != s || j < pos[s] {
        assert j < pos[t];
      }
    }
  }

  lemma StreamsAdvance(inputs: seq<seq<string>>, pos: seq<nat>, rows: seq<Row>, finished: seq<int>,
                       m: nat, s: nat, row: Row)
    requires StreamsInv(inputs, pos, rows, finished) && m < |rows|
    requires s == rows[m].streamReader
    requires pos[s] < |inputs[s]| && ParseTagged(inputs[s][pos[s]], s) == Ok(row)
    ensures StreamsInv(inputs, pos[s := pos[s] + 1], rows[m := row], finished)
  {
    HeadsAdvance(inputs, pos, rows, m, s, row);
    CoverAdvance(inputs, pos, rows, m, s, row);
    ParsedAdvance(inputs, pos, s);
    PosAdvance(inputs, pos, s);
    FinishedAdvance(inputs, rows, finished, m, row);
  }

  lemma PosAdvance(inputs: seq<seq<string>>, pos: seq<nat>, s: nat)
    requires PosValid(inputs, pos) && s < |inputs| && pos[s] < |inputs[s]|
    ensures PosValid(inputs, pos[s := pos[s] + 1])
  {
  }

  lemma FinishedAdvance(inputs: seq<seq<string>>, rows: seq<Row>, finished: seq<int>, m: nat, row: Row)
    requires FinishedApart(inputs, rows, finished) && m < |rows| && row.streamReader == rows[m].streamReader
    ensures FinishedApart(inputs, rows[m := row], finished)
  {
    var rows' := rows[m := row];
    assert forall k :: 0 <= k < |rows| ==> rows'[k].streamReader == rows[k].streamReader;
  }

  lemma UntaggedReplace(rows: seq<Row>, m: nat, row: Row)
    requires m < |rows|
    ensures multiset(UntaggedAll(rows[m := row])) + multiset{Untagged(rows[m])}
         == multiset(UntaggedAll(rows)) + multiset{Untagged(row)}
  {
    var u, u' := UntaggedAll(rows), UntaggedAll(rows[m := row]);
    assert u' == u[m := Untagged(row)];
    assert u[m] == Untagged(rows[m]);
  }

  lemma BagAdvance(inputs: seq<seq<string>>, pos: seq<nat>, rows: seq<Row>,
                   written: seq<Row>, m: nat, s: nat, row: Row)
    requires PosValid(inputs, pos) && BagInv(inputs, pos, rows, written) && m < |rows|
    requires IsHead(inputs, pos, rows[m])
    requires s == rows[m].streamReader
    requires pos[s] < |inputs[s]| && ParseTagged(inputs[s][pos[s]], s) == Ok(row)
    ensures BagInv(inputs, pos[s := pos[s] + 1], rows[m := row], written + [Untagged(rows[m])])
  {
    var d, h := Decode(inputs[s][pos[s]]), Untagged(rows[m]);
    var u, u' := multiset(UntaggedAll(rows)), multiset(UntaggedAll(rows[m := row]));
    var r, r' := Unread(inputs, pos, |inputs|), Unread(inputs, pos[s := pos[s] + 1], |inputs|);
    assert u' + multiset{h} == u + multiset{d} by {
      assert Untagged(row) == d;
      UntaggedReplace(rows, m, row);
    }
    assert r' + multiset{d} == r by {
      UnreadAdvance(inputs, pos, s);
    }
    assert multiset(written + [h]) == multiset(written) + multiset{h};
    Exchange(multiset(written), u, r, u', r', h, d);
  }

  lemma MoveOne<T>(u: multiset<T>, r: multiset<T>, r': multiset<T>, x: T)
    requires r' + multiset{x} == r
    ensures (u + multiset{x}) + r' == u + r
  {
    forall z ensures ((u + multiset{x}) + r')[z] == (u + r)[z] {
      assert (r' + multiset{x})[z] == r[z];
    }
  }

  lemma Exchange<T>(w: multiset<T>, u: multiset<T>, r: multiset<T>, u': multiset<T>, r': multiset<T>, h: T, d: T)
    requires u' + multiset{h} == u + multiset{d}
    requires r' + multiset{d} == r
    ensures (w + multiset{h}) + u' + r' == w + u + r
  {
    forall z ensures ((w + multiset{h}) + u' + r')[z] == (w + u + r)[z] {
      assert (u' + multiset{h})[z] == (u + multiset{d})[z];
      assert (r' + multiset{d})[z] == r[z];
    }
  }

  lemma OrderAdvance(inputs: seq<seq<string>>, pos: seq<nat>, rows: seq<Row>, finished: seq<int>,
                     written: seq<Row>, m: nat, s: nat, row: Row)
    requires StreamsInv(inputs, pos, rows, finished) && OrderInv(inputs, rows, written)
    requires IsLeast(rows, m)
    requires s == rows[m].streamReader
    requires pos[s] < |inputs[s]| && ParseTagged(inputs[s][pos[s]], s) == Ok(row)
    ensures OrderInv(inputs, rows[m := row], written + [Untagged(rows[m])])
  {
    if InputsSorted(inputs) {
      var rows', written' := rows[m := row], written + [Untagged(rows[m])];
      var h := Untagged(rows[m]);
      assert IsHead(inputs, pos, rows[m]);
      assert Le(h, row) by {
        var all := DecodeAll(inputs[s]);
        assert Le(all[pos[s] - 1], all[pos[s]]);
      }
      forall i, j | 0 <= i < j < |written'|
        ensures Le(written'[i], written'[j])
      {
        if j == |written| {
          assert Le(written[i], rows[m]);
        }
      }
      forall i, k | 0 <= i < |written'| && 0 <= k < |rows'|
        ensures Le(written'[i], rows'[k])
      {
        if k == m {
          if i < |written| {
            assert Le(written[i], rows[m]);
            LeTransitive(written[i], h, row);
          }
        } else {
          assert Le(rows[m], rows[k]);
          if i < |written| {
            assert Le(written[i], rows[k]);
          }
        }
      }
    }
  }

  /** Removing head `m` from the list: the rows before and after it. */
  function Without(rows: seq<Row>, m: nat): (r: seq<Row>)
    requires m < |rows|
    ensures |r| == |rows| - 1
    ensures forall k :: 0 <= k < |r| ==> r[k] == rows[if k < m then k else k + 1]
  {
    rows[..m] + rows[m + 1..]
  }

  lemma HeadsExhaust(inputs: seq<seq<string>>, pos: seq<nat>, rows: seq<Row>, m: nat)
    requires PosValid(inputs, pos) && HeadsCurrent(inputs, pos, rows) && m < |rows|
    ensures HeadsCurrent(inputs, pos, Without(rows, m))
  {
    var rows' := Without(rows, m);
    forall k, l | 0 <= k < l < |rows'|
      ensures rows'[k].streamReader != rows'[l].streamReader
    {
      var k0, l0 := if k < m then k else k + 1, if l < m then l else l + 1;
      assert k0 < l0;
    }
  }

  lemma CoverExhaust(inputs: seq<seq<string>>, pos: seq<nat>, rows: seq<Row>, m: nat, s: nat)
    requires PosValid(inputs, pos) && HeadsCover(inputs, pos, rows) && m < |rows|
    requires s == rows[m].streamReader && s < |inputs| && pos[s] == |inputs[s]|
    ensures HeadsCover(inputs, pos, Without(rows, m))
  {
    var rows' := Without(rows, m);
    forall t | 0 <= t < |inputs| && pos[t] < |inputs[t]|
      ensures exists k :: 0 <= k < |rows'| && rows'[k].streamReader == t
    {
      var k :| 0 <= k < |rows| && rows[k].streamReader == t;
      assert k != m;
      var k' := if k < m then k else k - 1;
      assert rows'[k'].streamReader == t;
    }
  }

  lemma ApartExhaust(inputs: seq<seq<string>>, rows: seq<Row>, finished: seq<int>, m: nat, s: nat)
    requires FinishedApart(inputs, rows, finished) && m < |rows| && s == rows[m].streamReader
    requires forall k, l :: 0 <= k < l < |rows| ==> rows[k].streamReader != rows[l].streamReader
    ensures FinishedApart(inputs, Without(rows, m), finished + [s])
  {
    var rows', finished' := Without(rows, m), finished + [s];
    forall i, k | 0 <= i < |finished'| && 0 <= k < |rows'|
      ensures finished'[i] != rows'[k].streamReader
    {
      var k0 := if k < m then k else k + 1;
      assert rows'[k] == rows[k0] && k0 != m;
    }
  }

  /** Retiring an exhausted input keeps the book-keeping invariant. */
  lemma StreamsExhaust(inputs: seq<seq<string>>, pos: seq<nat>, rows: seq<Row>, finished: seq<int>,
                       m: nat, s: nat)
    requires StreamsInv(inputs, pos, rows, finished) && m < |rows|
    requires s == rows[m].streamReader && pos[s] == |inputs[s]|
    ensures StreamsInv(inputs, pos, Without(rows, m), finished + [s])
  {
    HeadsExhaust(inputs, pos, rows, m);
    CoverExhaust(inputs, pos, rows, m, s);
    ApartExhaust(inputs, rows, finished, m, s);
  }

  lemma UntaggedWithout(rows: seq<Row>, m: nat)
    requires m < |rows|
    ensures multiset(UntaggedAll(Without(rows, m))) + multiset{Untagged(rows[m])} == multiset(UntaggedAll(rows))
  {
    var u := UntaggedAll(rows);
    assert u == u[..m] + [u[m]] + u[m + 1..];
    assert UntaggedAll(Without(rows, m)) == u[..m] + u[m + 1..];
  }

  lemma BagExhaust(inputs: seq<seq<string>>, pos: seq<nat>, rows: seq<Row>, written: seq<Row>, m: nat)
    requires |pos| == |inputs| && BagInv(inputs, pos, rows, written) && m < |rows|
    ensures BagInv(inputs, pos, Without(rows, m), written + [Untagged(rows[m])])
  {
    var h := Untagged(rows[m]);
    var u, u' := multiset(UntaggedAll(rows)), multiset(UntaggedAll(Without(rows, m)));
    assert u' + multiset{h} == u by {
      UntaggedWithout(rows, m);
    }
    assert multiset(written + [h]) == multiset(written) + multiset{h};
    MoveOne(multiset(written), u, u', h);
  }

  lemma OrderExhaust(inputs: seq<seq<string>>, rows: seq<Row>, written: seq<Row>, m: nat)
    requires OrderInv(inputs, rows, written) && IsLeast(rows, m)
    ensures OrderInv(inputs, Without(rows, m), written + [Untagged(rows[m])])
  {
    if InputsSorted(inputs) {
      var rows', written' := Without(rows, m), written + [Untagged(rows[m])];
      forall i, j | 0 <= i < j < |written'|
        ensures Le(written'[i], written'[j])
      {
        if j == |written| {
          assert Le(written[i], rows[m]);
        }
      }
      forall i, k | 0 <= i < |written'| && 0 <= k < |rows'|
        ensures Le(written'[i], rows'[k])
      {
        var k0 := if k < m then k else k + 1;
        assert rows'[k] == rows[k0];
        assert Le(rows[m], rows[k0]);
        if i < |written| {
          assert Le(written[i], rows[k0]);
        }
      }
    }
  }

  /**
   * When every input is retired, every line has been read and parsed, and the
   * output holds exactly the rows of the inputs.
   */
  lemma MergeDone(inputs: seq<seq<string>>, pos: seq<nat>, rows: seq<Row>,
                  finished: seq<int>, written: seq<Row>)
    requires MergeInv(inputs, pos, rows, finished, written) && |finished| == |inputs|
    ensures forall t :: 0 <= t < |inputs| ==> |inputs[t]| > 0 && ParseLines(inputs[t]).Ok?
    ensures multiset(written) == FilesBag(inputs)
    ensures InputsSorted(inputs) ==> Sorted(written)
  {
    assert rows == [];
    forall t | 0 <= t < |inputs|
      ensures pos[t] == |inputs[t]|
    {
    }
    forall t | 0 <= t < |inputs|
      ensures ParseLines(inputs[t]).Ok?
    {
      forall j | 0 <= j < |inputs[t]| ensures Parse(inputs[t][j]).Ok? {
        assert j < pos[t];
      }
    }
    UnreadEnd(inputs, pos, |inputs|);
    DecodedBagIsFilesBag(inputs);
    assert UntaggedAll(rows) == [];
  }

  /** Writing the least head and replacing it with the next row of its input keeps the invariant. */
  lemma MergeAdvance(inputs: seq<seq<string>>, pos: seq<nat>, rows: seq<Row>, finished: seq<int>,
                     written: seq<Row>, m: nat, s: nat, row: Row)
    requires MergeInv(inputs, pos, rows, finished, written) && IsLeast(rows, m)
    requires s == rows[m].streamReader
    requires pos[s] < |inputs[s]| && ParseTagged(inputs[s][pos[s]], s) == Ok(row)
    ensures MergeInv(inputs, pos[s := pos[s] + 1], rows[m := row], finished, written + [Untagged(rows[m])])
  {
    StreamsAdvance(inputs, pos, rows, finished, m, s, row);
    BagAdvance(inputs, pos, rows, written, m, s, row);
    OrderAdvance(inputs, pos, rows, finished, written, m, s, row);
  }

  /** Writing the least head and retiring its exhausted input keeps the invariant. */
  lemma MergeExhaust(inputs: seq<seq<string>>, pos: seq<nat>, rows: seq<Row>, finished: seq<int>,
                     written: seq<Row>, m: nat, s: nat)
    requires MergeInv(inputs, pos, rows, finished, written) && IsLeast(rows, m)
    requires s == rows[m].streamReader && pos[s] == |inputs[s]|
    ensures MergeInv(inputs, pos, Without(rows, m), finished + [s], written + [Untagged(rows[m])])
  {
    StreamsExhaust(inputs, pos, rows, finished, m, s);
    BagExhaust(inputs, pos, rows, written, m);
    OrderExhaust(inputs, rows, written, m);
  }

  // ---------------------------------------------------------------------
  // The merge
  // ---------------------------------------------------------------------

  /** `rows.Sort(); rows[0]`: the position of a least head. */
  method FindLeast(rows: seq<Row>) returns (m: nat)
    requires |rows| > 0
    ensures IsLeast(rows, m)
  {
    m := 0;
    var i := 1;
    LeReflexive(rows[0]);
    while i < |rows|
      invariant 1 <= i <= |rows| && m < i
      invariant forall k :: 0 <= k < i ==> Le(rows[m], rows[k])
    {
      if CompareTo(rows[i], Some(rows[m])) < 0 {
        forall k | 0 <= k < i ensures Le(rows[i], rows[k]) {
          LeTransitive(rows[i], rows[m], rows[k]);
        }
        LeReflexive(rows[i]);
        m := i;
      } else {
        CompareToAntisymmetric(rows[i], rows[m]);
      }
      i := i + 1;
    }
  }

  /**
   * `Merge`: open every input and read its first line, then repeatedly write
   * the least head, replacing it with the next line of its input, or retiring
   * the input when its end is reached, until every input is retired. A line
   * that does not parse, including the missing first line of an empty input,
   * stops the merge with the parser's error.
   */
  method MergeStreams(inputs: seq<seq<string>>) returns (res: Result<seq<string>>)
    requires |inputs| > 0
    ensures res.Ok? <==> forall t :: 0 <= t < |inputs| ==> |inputs[t]| > 0 && ParseLines(inputs[t]).Ok?
    ensures res.Ok? ==> ParseLines(res.value).Ok? && multiset(ParseLines(res.value).value) == FilesBag(inputs)
    ensures res.Ok? ==> res.value == Lines(ParseLines(res.value).value)
    ensures res.Ok? && (forall t :: 0 <= t < |inputs| ==> FileSorted(inputs[t])) ==>
      Sorted(ParseLines(res.value).value)
  {
    // InitializeStreamReaders
    var pos: seq<nat> := seq(|inputs|, _ => 0);
    var rows: seq<Row> := [];
    InitStart(inputs);
    var i := 0;
    while i < |inputs|
      invariant InitInv(inputs, pos, rows, i)
    {
      var line := if |inputs[i]| > 0 then inputs[i][0] else "";
      match ParseTagged(line, i)
      case Err(e) =>
        res := Err(e);
        assert |inputs[i]| > 0 ==> !ParseLines(inputs[i]).Ok?;
        return;
      case Ok(row) =>
        InitStep(inputs, pos, rows, i, row);
        pos := pos[i := 1];
        rows := rows + [row];
      i := i + 1;
    }
    InitDone(inputs, pos, rows);

    var finished: seq<int> := [];
    ghost var written: seq<Row> := [];
    var out: seq<string> := [];
    var done := false;
    while !done
      invariant MergeInv(inputs, pos, rows, finished, written)
      invariant out == Lines(written)
      invariant done <==> |finished| == |inputs|
      decreases |DecodedBag(inputs)| - |written|
    {
      var m := FindLeast(rows);
      var s := rows[m].streamReader;
      out := out + [Serialize(rows[m])];
      LinesAppend(written, Untagged(rows[m]));
      if pos[s] == |inputs[s]| {
        MergeExhaust(inputs, pos, rows, finished, written, m, s);
        written := written + [Untagged(rows[m])];
        rows := Without(rows, m);
        finished := finished + [s];
        done := |finished| == |inputs|;
      } else {
        var line := inputs[s][pos[s]];
        match ParseTagged(line, s)
        case Err(e) =>
          res := Err(e);
          assert !ParseLines(inputs[s]).Ok?;
          return;
        case Ok(row) =>
          MergeAdvance(inputs, pos, rows, finished, written, m, s, row);
          written := written + [Untagged(rows[m])];
          pos := pos[s := pos[s] + 1];
          rows := rows[m := row];
      }
    }
    MergeDone(inputs, pos, rows, finished, written);
    ParseLinesOfLines(written);
    if forall t :: 0 <= t < |inputs| ==> FileSorted(inputs[t]) {
      forall t | 0 <= t < |inputs| ensures Sorted(DecodeAll(inputs[t])) {
        DecodeAllParsed(inputs[t]);
      }
    }
    res := Ok(out);
  }
}
