/**
 * The record of the sort engine: a `Row` of number and text, its total order
 * (`Row.CompareTo`) and its line codec (`RowDtoExtensions.Parse` and the
 * writer's `"{Number}. {Text}"`).
 */
module Rows {
  import opened Outcomes
  import opened Decimal

  /**
   * One record. `streamReader` is the index of the merge input the row was
   * read from; it is 0 for rows read outside a merge and is never written out.
   */
  datatype Row = Row(number: UInt32, text: string, streamReader: int)

  /** The row without its merge-input tag: what a line of a file holds. */
  function Untagged(r: Row): Row {
    r.(streamReader := 0)
  }

  // ---------------------------------------------------------------------
  // Ordering
  // ---------------------------------------------------------------------

  /**
   * Ordinal comparison of two texts: the first differing character decides,
   * and a proper prefix comes first. Returns -1, 0 or 1.
   */
  function CompareOrdinal(a: string, b: string): (c: int)
    ensures -1 <= c <= 1
  {
    if a == [] && b == [] then 0
    else if a == [] then -1
    else if b == [] then 1
    else if a[0] < b[0] then -1
    else if a[0] > b[0] then 1
    else CompareOrdinal(a[1..], b[1..])
  }

  /** `uint.CompareTo`. */
  function CompareNumbers(a: UInt32, b: UInt32): (c: int)
    ensures c == 0 <==> a == b
    ensures c < 0 <==> a < b
  {
    if a < b then -1 else if a > b then 1 else 0
  }

  /**
   * `Row.CompareTo(other)`: a null `other` compares below every row; otherwise
   * the texts decide and equal texts fall back to the numbers.
   */
  function CompareTo(self: Row, other: Option<Row>): (c: int)
    ensures other.None? ==> c == 1
    ensures -1 <= c <= 1
  {
    match other
    case None => 1
    case Some(o) =>
      var compareText := CompareOrdinal(self.text, o.text);
      if compareText != 0 then compareText else CompareNumbers(self.number, o.number)
  }

  /** `a` sorts no later than `b`. */
  predicate Le(a: Row, b: Row) {
    CompareTo(a, Some(b)) <= 0
  }

  lemma {:induction false} OrdinalZeroIff(a: string, b: string)
    ensures CompareOrdinal(a, b) == 0 <==> a == b
  {
    if a != [] && b != [] && a[0] == b[0] {
      OrdinalZeroIff(a[1..], b[1..]);
      assert a == [a[0]] + a[1..] && b == [b[0]] + b[1..];
    }
  }

  lemma {:induction false} OrdinalAntisymmetric(a: string, b: string)
    ensures CompareOrdinal(a, b) == -CompareOrdinal(b, a)
  {
    if a != [] && b != [] && a[0] == b[0] {
      OrdinalAntisymmetric(a[1..], b[1..]);
    }
  }

  lemma {:induction false} OrdinalTransitive(a: string, b: string, c: string)
    requires CompareOrdinal(a, b) <= 0 && CompareOrdinal(b, c) <= 0
    ensures CompareOrdinal(a, c) <= 0
  {
    if a != [] && b != [] && c != [] && a[0] == b[0] == c[0] {
      OrdinalTransitive(a[1..], b[1..], c[1..]);
    }
  }

  lemma {:induction false} OrdinalStrictTransitive(a: string, b: string, c: string)
    requires CompareOrdinal(a, b) < 0 && CompareOrdinal(b, c) <= 0
    ensures CompareOrdinal(a, c) < 0
  {
    if a != [] && b != [] && c != [] && a[0] == b[0] == c[0] {
      OrdinalStrictTransitive(a[1..], b[1..], c[1..]);
    }
  }

  /** The order is texts first, numbers to break ties; the merge tag plays no part. */
  lemma CompareToByTextThenNumber(a: Row, b: Row)
    ensures a.text != b.text ==>
      CompareTo(a, Some(b)) == CompareOrdinal(a.text, b.text) != 0
    ensures a.text == b.text ==>
      CompareTo(a, Some(b)) == CompareNumbers(a.number, b.number)
    ensures CompareTo(a, Some(b)) == CompareTo(Untagged(a), Some(Untagged(b)))
  {
    OrdinalZeroIff(a.text, b.text);
  }

  /** Comparing the other way round gives the opposite sign. */
  lemma CompareToAntisymmetric(a: Row, b: Row)
    ensures CompareTo(a, Some(b)) == -CompareTo(b, Some(a))
  {
    OrdinalAntisymmetric(a.text, b.text);
  }

  /** Two rows compare equal exactly when their texts and numbers are equal. */
  lemma CompareToZeroIff(a: Row, b: Row)
    ensures CompareTo(a, Some(b)) == 0 <==> a.text == b.text && a.number == b.number
  {
    OrdinalZeroIff(a.text, b.text);
  }

  lemma LeTotal(a: Row, b: Row)
    ensures Le(a, b) || Le(b, a)
  {
    CompareToAntisymmetric(a, b);
  }

  lemma LeReflexive(a: Row)
    ensures Le(a, a)
  {
    CompareToZeroIff(a, a);
  }

  lemma LeTransitive(a: Row, b: Row, c: Row)
    requires Le(a, b) && Le(b, c)
    ensures Le(a, c)
  {
    var ab, bc := CompareOrdinal(a.text, b.text), CompareOrdinal(b.text, c.text);
    OrdinalZeroIff(a.text, b.text);
    OrdinalZeroIff(b.text, c.text);
    if ab < 0 {
      OrdinalStrictTransitive(a.text, b.text, c.text);
    } else if bc < 0 {
      assert a.text == b.text;
    }
  }

  /** Rows that sort both ways round differ at most in their merge tag. */
  lemma LeAntisymmetric(a: Row, b: Row)
    requires Le(a, b) && Le(b, a)
    ensures Untagged(a) == Untagged(b)
  {
    CompareToAntisymmetric(a, b);
    CompareToZeroIff(a, b);
  }

  // ---------------------------------------------------------------------
  // Line codec
  // ---------------------------------------------------------------------

  /** The line a row is written as: `"{Number}. {Text}"`. */
  function Serialize(r: Row): string {
    Digits(r.number) + ". " + r.text
  }

  /** The two-character separator `". "` starts at position `i` of `s`. */
  predicate SeparatorAt(s: string, i: nat) {
    i + 1 < |s| && s[i] == '.' && s[i + 1] == ' '
  }

  /** `IndexOf(". ")`: the first position of the separator, if any. */
  function FindSeparator(s: string): (r: Option<nat>)
    ensures r.Some? ==> SeparatorAt(s, r.value)
    ensures r.Some? ==> forall j :: 0 <= j < r.value ==> !SeparatorAt(s, j)
    ensures r.None? ==> forall j :: 0 <= j < |s| ==> !SeparatorAt(s, j)
  {
    if |s| < 2 then None
    else if s[0] == '.' && s[1] == ' ' then Some(0)
    else
      match FindSeparator(s[1..])
      case None =>
        assert forall j :: 1 <= j < |s| ==> SeparatorAt(s, j) == SeparatorAt(s[1..], j - 1);
        None
      case Some(i) =>
        assert forall j :: 1 <= j <= i + 1 ==> SeparatorAt(s, j) == SeparatorAt(s[1..], j - 1);
        Some(i + 1)
  }

  /**
   * `line.Parse()`: the number is the text before the first `". "`, the text
   * everything after it. The merge tag is left at 0.
   */
  function Parse(line: string): (r: Result<Row>)
    ensures FindSeparator(line).None? ==> r == Err(MissingSeparator)
    ensures r.Ok? ==> r.value.streamReader == 0
  {
    match FindSeparator(line)
    case None => Err(MissingSeparator)
    case Some(splitAt) =>
      match ParseUInt(line[..splitAt])
      case Err(e) => Err(e)
      case Ok(n) => Ok(Row(n, line[splitAt + 2..], 0))
  }

  /** `line.Parse(streamReader)`: the same row, tagged with the merge input it came from. */
  function ParseTagged(line: string, streamReader: int): (r: Result<Row>)
    ensures r.Ok? <==> Parse(line).Ok?
    ensures r.Err? ==> r == Parse(line)
    ensures r.Ok? ==> r.value.streamReader == streamReader
    ensures r.Ok? ==> Untagged(r.value) == Parse(line).value
  {
    match Parse(line)
    case Err(e) => Err(e)
    case Ok(row) => Ok(row.(streamReader := streamReader))
  }

  /** A line without `". "` is refused. */
  lemma ParseWithoutSeparator(line: string)
    requires forall j :: 0 <= j < |line| ==> !SeparatorAt(line, j)
    ensures Parse(line) == Err(MissingSeparator)
  {
  }

  /**
   * When the line has a separator, the number is read from the text before the
   * first one and the text is everything after it, later separators included.
   */
  lemma ParseSplitsAtFirstSeparator(line: string, i: nat)
    requires SeparatorAt(line, i)
    requires forall j :: 0 <= j < i ==> !SeparatorAt(line, j)
    ensures Parse(line).Ok? <==> ParseUInt(line[..i]).Ok?
    ensures Parse(line).Err? ==> Parse(line) == Err(ParseUInt(line[..i]).error)
    ensures Parse(line).Ok? ==>
      Parse(line).value == Row(ParseUInt(line[..i]).value, line[i + 2..], 0)
  {
    assert FindSeparator(line) == Some(i);
  }

  /** A line starting with `". "` has an empty number, which is a format error. */
  lemma ParseEmptyNumber(line: string)
    requires SeparatorAt(line, 0)
    ensures Parse(line) == Err(InvalidNumber)
  {
    assert FindSeparator(line) == Some(0);
  }

  /** A serialised row contains its first separator right after the digits. */
  lemma FirstSeparatorOfSerialized(r: Row)
    ensures FindSeparator(Serialize(r)) == Some(|Digits(r.number)|)
  {
    var d := Digits(r.number);
    var s := Serialize(r);
    assert SeparatorAt(s, |d|);
    forall j | 0 <= j < |d|
      ensures !SeparatorAt(s, j)
    {
      assert s[j] == d[j];
    }
  }

  /**
   * Round trip: reading back a written row gives the row, whatever its text
   * holds (`". "` included), because decimal digits contain no '.'.
   */
  lemma ParseSerialize(r: Row)
    ensures Parse(Serialize(r)) == Ok(Untagged(r))
  {
    var d := Digits(r.number);
    var s := Serialize(r);
    FirstSeparatorOfSerialized(r);
    assert s[..|d|] == d;
    assert s[|d| + 2..] == r.text;
    ParseDigits(r.number);
  }

  /** Tagging does not change the row read. */
  lemma ParseTaggedSerialize(r: Row, streamReader: int)
    ensures ParseTagged(Serialize(r), streamReader) == Ok(r.(streamReader := streamReader))
  {
    ParseSerialize(r);
  }

  // ---------------------------------------------------------------------
  // Files of rows
  // ---------------------------------------------------------------------

  /** The lines a sequence of rows is written as. */
  function Lines(rows: seq<Row>): (lines: seq<string>)
    ensures |lines| == |rows|
    ensures forall i :: 0 <= i < |rows| ==> lines[i] == Serialize(rows[i])
  {
    if rows == [] then [] else [Serialize(rows[0])] + Lines(rows[1..])
  }

  lemma LinesAppend(rows: seq<Row>, r: Row)
    ensures Lines(rows + [r]) == Lines(rows) + [Serialize(r)]
  {
  }

  /** Reading a file line by line: the rows, or the error of the first bad line. */
  function ParseLines(lines: seq<string>): (r: Result<seq<Row>>)
    ensures r.Ok? <==> forall i :: 0 <= i < |lines| ==> Parse(lines[i]).Ok?
    ensures r.Ok? ==> |r.value| == |lines|
    ensures r.Ok? ==> forall i :: 0 <= i < |lines| ==> r.value[i] == Parse(lines[i]).value
  {
    if lines == [] then Ok([])
    else
      match Parse(lines[0])
      case Err(e) => Err(e)
      case Ok(row) =>
        match ParseLines(lines[1..])
        case Err(e) => Err(e)
        case Ok(rest) => Ok([row] + rest)
  }

  /** Rows whose merge tags are all 0, as every file of the engine holds. */
  predicate Plain(rows: seq<Row>) {
    forall i :: 0 <= i < |rows| ==> rows[i].streamReader == 0
  }

  /** Reading back written rows gives the rows. */
  lemma ParseLinesOfLines(rows: seq<Row>)
    requires Plain(rows)
    ensures ParseLines(Lines(rows)) == Ok(rows)
  {
    var lines := Lines(rows);
    forall i | 0 <= i < |lines| ensures Parse(lines[i]) == Ok(rows[i]) {
      ParseSerialize(rows[i]);
    }
    ParsedRows(lines, rows);
  }

  /** Lines that each parse to the row at the same index read back as those rows. */
  lemma ParsedRows(lines: seq<string>, rows: seq<Row>)
    requires |lines| == |rows| && forall i :: 0 <= i < |lines| ==> Parse(lines[i]) == Ok(rows[i])
    ensures ParseLines(lines) == Ok(rows)
  {
    assert ParseLines(lines).Ok?;
    var v := ParseLines(lines).value;
    forall i | 0 <= i < |rows| ensures v[i] == rows[i] {
      assert Parse(lines[i]).value == rows[i];
    }
    assert v == rows;
  }

  /** Reading a concatenation of files reads each in turn. */
  lemma ParseLinesAppend(a: seq<string>, b: seq<string>)
    ensures ParseLines(a + b).Ok? <==> ParseLines(a).Ok? && ParseLines(b).Ok?
    ensures ParseLines(a + b).Ok? ==>
      ParseLines(a + b).value == ParseLines(a).value + ParseLines(b).value
  {
    if ParseLines(a).Ok? && ParseLines(b).Ok? {
      ParseLinesAppendOk(a, b);
    } else if !ParseLines(a).Ok? {
      var i :| 0 <= i < |a| && !Parse(a[i]).Ok?;
      assert (a + b)[i] == a[i];
    } else {
      var i :| 0 <= i < |b| && !Parse(b[i]).Ok?;
      assert (a + b)[|a| + i] == b[i];
    }
  }

  lemma ParseLinesAppendOk(a: seq<string>, b: seq<string>)
    requires ParseLines(a).Ok? && ParseLines(b).Ok?
    ensures ParseLines(a + b).Ok?
    ensures ParseLines(a + b).value == ParseLines(a).value + ParseLines(b).value
  {
    ParsedConcat(a, b);
    PointwiseConcat(a, b, ParseLines(a + b).value, ParseLines(a).value, ParseLines(b).value);
  }

  lemma ParsedConcat(a: seq<string>, b: seq<string>)
    requires forall i :: 0 <= i < |a| ==> Parse(a[i]).Ok?
    requires forall i :: 0 <= i < |b| ==> Parse(b[i]).Ok?
    ensures forall i :: 0 <= i < |a + b| ==> Parse((a + b)[i]).Ok?
  {
    forall i | 0 <= i < |a + b| ensures Parse((a + b)[i]).Ok? {
      if i >= |a| { assert (a + b)[i] == b[i - |a|]; }
    }
  }

  /** Rows parsed line by line from `a + b` are the rows of `a` followed by those of `b`. */
  lemma PointwiseConcat(a: seq<string>, b: seq<string>, v: seq<Row>, va: seq<Row>, vb: seq<Row>)
    requires |v| == |a + b| && |va| == |a| && |vb| == |b|
    requires forall i :: 0 <= i < |a + b| ==> Parse((a + b)[i]).Ok? && v[i] == Parse((a + b)[i]).value
    requires forall i :: 0 <= i < |a| ==> Parse(a[i]).Ok? && va[i] == Parse(a[i]).value
    requires forall i :: 0 <= i < |b| ==> Parse(b[i]).Ok? && vb[i] == Parse(b[i]).value
    ensures v == va + vb
  {
    forall i | 0 <= i < |v| ensures v[i] == (va + vb)[i] {
      if i >= |a| { assert (a + b)[i] == b[i - |a|]; }
      else { assert (a + b)[i] == a[i]; }
    }
  }

  // ---------------------------------------------------------------------
  // Sortedness
  // ---------------------------------------------------------------------

  /** Non-decreasing by (Text, Number). */
  predicate Sorted(rows: seq<Row>) {
    forall i, j :: 0 <= i < j < |rows| ==> Le(rows[i], rows[j])
  }

  /** Every row of `rows` sorts no earlier than `r`. */
  predicate AllAtLeast(r: Row, rows: seq<Row>) {
    forall i :: 0 <= i < |rows| ==> Le(r, rows[i])
  }

  /** The first row of a sorted sequence sorts no later than any of its rows. */
  lemma SortedHeadIsLeast(a: seq<Row>, x: Row)
    requires Sorted(a) && x in multiset(a)
    ensures a != [] && Le(a[0], x)
  {
    var j :| 0 <= j < |a| && a[j] == x;
    if j == 0 {
      CompareToZeroIff(x, x);
    }
  }

  lemma SortedTail(a: seq<Row>)
    requires Sorted(a) && a != []
    ensures Sorted(a[1..]) && multiset(a[1..]) == multiset(a) - multiset{a[0]}
  {
    assert a == [a[0]] + a[1..];
  }

  /**
   * A sorted arrangement of a collection of plain rows is unique: two sorted
   * files with the same rows are the same file. This is why the result does
   * not depend on the chunk size or the fan-in.
   */
  lemma {:induction false} SortedUnique(a: seq<Row>, b: seq<Row>)
    requires Sorted(a) && Sorted(b) && Plain(a) && Plain(b)
    requires multiset(a) == multiset(b)
    ensures a == b
    decreases |a|
  {
    if a == [] {
      assert |b| == |multiset(b)| == 0;
    } else {
      assert a[0] in multiset(a);
      SortedHeadIsLeast(b, a[0]);
      assert b[0] in multiset(b);
      SortedHeadIsLeast(a, b[0]);
      LeAntisymmetric(a[0], b[0]);
      SortedTail(a);
      SortedTail(b);
      SortedUnique(a[1..], b[1..]);
      assert a == [a[0]] + a[1..] && b == [b[0]] + b[1..];
    }
  }

  // ---------------------------------------------------------------------
  // Reference sort
  // ---------------------------------------------------------------------

  /** `r` placed before the first row of `s` it does not sort after. */
  function Insert(r: Row, s: seq<Row>): seq<Row> {
    if s == [] then [r]
    else if Le(r, s[0]) then [r] + s
    else [s[0]] + Insert(r, s[1..])
  }

  /** The rows in sorted order: what sorting a file's rows must produce. */
  function SortRows(rows: seq<Row>): seq<Row> {
    if rows == [] then [] else Insert(rows[0], SortRows(rows[1..]))
  }

  lemma {:induction false} InsertCounts(r: Row, s: seq<Row>)
    ensures multiset(Insert(r, s)) == multiset(s) + multiset{r}
  {
    if s != [] && !Le(r, s[0]) {
      InsertCounts(r, s[1..]);
      assert s == [s[0]] + s[1..];
    }
  }

  lemma {:induction false} InsertAtLeast(x: Row, r: Row, s: seq<Row>)
    requires AllAtLeast(x, s) && Le(x, r)
    ensures AllAtLeast(x, Insert(r, s))
  {
    if s != [] && !Le(r, s[0]) {
      InsertAtLeast(x, r, s[1..]);
    }
  }

  lemma {:induction false} InsertSorted(r: Row, s: seq<Row>)
    requires Sorted(s)
    ensures Sorted(Insert(r, s))
  {
    if s == [] {
    } else if Le(r, s[0]) {
      var t := [r] + s;
      forall i, j | 0 <= i < j < |t| ensures Le(t[i], t[j]) {
        if i == 0 && j > 1 {
          LeTransitive(r, s[0], s[j - 1]);
        }
      }
    } else {
      LeTotal(r, s[0]);
      SortedTail(s);
      InsertSorted(r, s[1..]);
      assert AllAtLeast(s[0], s[1..]);
      InsertAtLeast(s[0], r, s[1..]);
      var u := Insert(r, s[1..]);
      var t := [s[0]] + u;
      forall i, j | 0 <= i < j < |t| ensures Le(t[i], t[j]) {
        if i > 0 {
          assert t[i] == u[i - 1] && t[j] == u[j - 1];
        }
      }
    }
  }

  /** The reference sort is sorted. */
  lemma {:induction false} SortRowsSorted(rows: seq<Row>)
    ensures Sorted(SortRows(rows))
  {
    if rows != [] {
      SortRowsSorted(rows[1..]);
      InsertSorted(rows[0], SortRows(rows[1..]));
    }
  }

  /** The reference sort neither loses nor adds a row. */
  lemma {:induction false} SortRowsCounts(rows: seq<Row>)
    ensures multiset(SortRows(rows)) == multiset(rows)
  {
    if rows != [] {
      SortRowsCounts(rows[1..]);
      InsertCounts(rows[0], SortRows(rows[1..]));
      assert rows == [rows[0]] + rows[1..];
    }
  }

  lemma PlainOfSameRows(a: seq<Row>, b: seq<Row>)
    requires Plain(a) && multiset(a) == multiset(b)
    ensures Plain(b)
  {
    forall i | 0 <= i < |b| ensures b[i].streamReader == 0 {
      assert b[i] in multiset(a);
    }
  }

  /**
   * Any sorted arrangement of plain rows is the reference sort: sorting is
   * determined by the rows alone.
   */
  lemma SortedIsSortRows(rows: seq<Row>, a: seq<Row>)
    requires Plain(rows) && Sorted(a) && multiset(a) == multiset(rows)
    ensures a == SortRows(rows)
  {
    SortRowsSorted(rows);
    SortRowsCounts(rows);
    PlainOfSameRows(rows, a);
    PlainOfSameRows(rows, SortRows(rows));
    SortedUnique(a, SortRows(rows));
  }
}
