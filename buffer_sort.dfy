/**
 * The row buffer of the sort phase: a `Row[]` whose unused slots are null,
 * ordered by `Array.Sort` with the default comparer (null before every row),
 * of which only the non-null entries are written out.
 */
module BufferSort {
  import opened Outcomes
  import opened Rows

  /** `Comparer<Row>.Default.Compare`: null equals null and sorts before every row. */
  function CompareSlots(x: Option<Row>, y: Option<Row>): int {
    match x
    case None => if y.None? then 0 else -1
    case Some(row) => CompareTo(row, y)
  }

  predicate SlotLe(x: Option<Row>, y: Option<Row>) {
    CompareSlots(x, y) <= 0
  }

  lemma SlotLeTotal(x: Option<Row>, y: Option<Row>)
    ensures SlotLe(x, y) || SlotLe(y, x)
  {
    if x.Some? && y.Some? { LeTotal(x.value, y.value); }
  }

  lemma SlotLeReflexive(x: Option<Row>)
    ensures SlotLe(x, x)
  {
    if x.Some? { CompareToZeroIff(x.value, x.value); }
  }

  lemma SlotLeTransitive(x: Option<Row>, y: Option<Row>, z: Option<Row>)
    requires SlotLe(x, y) && SlotLe(y, z)
    ensures SlotLe(x, z)
  {
    if x.Some? && y.Some? && z.Some? { LeTransitive(x.value, y.value, z.value); }
  }

  predicate SlotsSorted(s: seq<Option<Row>>) {
    forall i, j :: 0 <= i < j < |s| ==> SlotLe(s[i], s[j])
  }

  /** The rows held in the non-null slots, in slot order (`Where(n => n is not null)`). */
  function Present(s: seq<Option<Row>>): seq<Row> {
    if s == [] then []
    else (if s[0].Some? then [s[0].value] else []) + Present(s[1..])
  }

  /** Each row occurs in `Present(s)` as often as a slot of `s` holds it. */
  lemma {:induction false} PresentCounts(s: seq<Option<Row>>, r: Row)
    ensures multiset(Present(s))[r] == multiset(s)[Some(r)]
  {
    if s != [] {
      PresentCounts(s[1..], r);
      assert s == [s[0]] + s[1..];
    }
  }

  /** Rearranging the slots rearranges the rows they hold. */
  lemma PresentPermutation(s: seq<Option<Row>>, t: seq<Option<Row>>)
    requires multiset(s) == multiset(t)
    ensures multiset(Present(s)) == multiset(Present(t))
  {
    forall r: Row
      ensures multiset(Present(s))[r] == multiset(Present(t))[r]
    {
      PresentCounts(s, r);
      PresentCounts(t, r);
    }
  }

  lemma {:induction false} PresentMembers(s: seq<Option<Row>>, r: Row)
    requires r in Present(s)
    ensures Some(r) in s
  {
    PresentCounts(s, r);
    assert multiset(Present(s))[r] > 0;
  }

  /** The rows of sorted slots are sorted. */
  lemma {:induction false} PresentSorted(s: seq<Option<Row>>)
    requires SlotsSorted(s)
    ensures Sorted(Present(s))
  {
    if s != [] {
      PresentSorted(s[1..]);
      if s[0].Some? {
        var p := Present(s);
        var tail := Present(s[1..]);
        assert p == [s[0].value] + tail;
        forall j | 0 < j < |p|
          ensures Le(p[0], p[j])
        {
          assert p[j] in tail;
          PresentMembers(s[1..], p[j]);
        }
      }
    }
  }

  /** A buffer filled from the front with `rows` and null behind holds exactly `rows`. */
  lemma {:induction false} PresentOfFilled(s: seq<Option<Row>>, rows: seq<Row>)
    requires |rows| <= |s|
    requires forall i :: 0 <= i < |rows| ==> s[i] == Some(rows[i])
    requires forall i :: |rows| <= i < |s| ==> s[i] == None
    ensures Present(s) == rows
  {
    if s != [] {
      if rows == [] {
        PresentOfFilled(s[1..], []);
      } else {
        PresentOfFilled(s[1..], rows[1..]);
        assert rows == [rows[0]] + rows[1..];
      }
    }
  }

  lemma PresentAppend(s: seq<Option<Row>>, x: Option<Row>)
    ensures Present(s + [x]) == Present(s) + (if x.Some? then [x.value] else [])
  {
    if s != [] {
      assert (s + [x])[1..] == s[1..] + [x];
      PresentAppend(s[1..], x);
    }
  }

  /** The slot at or after `from` that sorts first. */
  method MinSlot(a: array<Option<Row>>, from: nat) returns (m: nat)
    requires from < a.Length
    ensures from <= m < a.Length
    ensures forall l :: from <= l < a.Length ==> SlotLe(a[m], a[l])
  {
    m := from;
    SlotLeReflexive(a[m]);
    var j := from + 1;
    while j < a.Length
      invariant from <= m < j <= a.Length
      invariant forall l :: from <= l < j ==> SlotLe(a[m], a[l])
    {
      SlotLeTotal(a[m], a[j]);
      if !SlotLe(a[m], a[j]) {
        forall l | from <= l < j
          ensures SlotLe(a[j], a[l])
        {
          SlotLeTransitive(a[j], a[m], a[l]);
        }
        SlotLeReflexive(a[j]);
        m := j;
      }
      j := j + 1;
    }
  }

  /**
   * `Array.Sort(_unsortedRows)`: afterwards the buffer is sorted (null slots
   * first) and holds the same slots as before.
   */
  method SortSlots(a: array<Option<Row>>)
    modifies a
    ensures SlotsSorted(a[..])
    ensures multiset(a[..]) == multiset(old(a[..]))
  {
    var i := 0;
    while i < a.Length
      invariant 0 <= i <= a.Length
      invariant forall k, l :: 0 <= k < l < i ==> SlotLe(a[k], a[l])
      invariant forall k, l :: 0 <= k < i <= l < a.Length ==> SlotLe(a[k], a[l])
      invariant multiset(a[..]) == multiset(old(a[..]))
    {
      var m := MinSlot(a, i);
      a[i], a[m] := a[m], a[i];
      i := i + 1;
    }
  }

  /** `foreach (var row in _unsortedRows.Where(n => n is not null))`: the lines written for the buffer. */
  method WritePresent(a: array<Option<Row>>) returns (out: seq<string>)
    ensures out == Lines(Present(a[..]))
  {
    out := [];
    var j := 0;
    while j < a.Length
      invariant j <= a.Length
      invariant out == Lines(Present(a[..j]))
    {
      assert a[..j + 1] == a[..j] + [a[j]];
      PresentAppend(a[..j], a[j]);
      if a[j].Some? {
        LinesAppend(Present(a[..j]), a[j].value);
        out := out + [Serialize(a[j].value)];
      }
      j := j + 1;
    }
    assert a[..j] == a[..];
  }

  /** `Array.Clear(_unsortedRows, 0, _unsortedRows.Length)`. */
  method ClearSlots(a: array<Option<Row>>)
    modifies a
    ensures forall i :: 0 <= i < a.Length ==> a[i] == None
  {
    var j := 0;
    while j < a.Length
      invariant j <= a.Length
      invariant forall i :: 0 <= i < j ==> a[i] == None
    {
      a[j] := None;
      j := j + 1;
    }
  }
}
