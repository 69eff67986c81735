/**
 * The arithmetic of the engine's three cuttings: the split of the source into
 * chunk files, the cut of a run-set into merge batches, and the up-front
 * estimate of the number of merge inputs.
 */
module Chunking {

  /** Integer division rounding up. */
  function Ceil(n: nat, r: nat): nat
    requires r > 0
  {
    (n + r - 1) / r
  }

  function Concat<T>(parts: seq<seq<T>>): seq<T> {
    if parts == [] then [] else parts[0] + Concat(parts[1..])
  }

  lemma {:induction false} ConcatAppend<T>(parts: seq<seq<T>>, last: seq<T>)
    ensures Concat(parts + [last]) == Concat(parts) + last
  {
    if parts != [] {
      assert (parts + [last])[1..] == parts[1..] + [last];
      ConcatAppend(parts[1..], last);
    }
  }

  // ---------------------------------------------------------------------
  // Split (SplitFileAsync)
  // ---------------------------------------------------------------------

  /**
   * The chunk files the split writes for `lines`: a chunk is closed as soon as
   * it reaches `size` lines and a fresh one is opened straight away, so the
   * last chunk is opened even when no line is left for it.
   */
  function Chunks(lines: seq<string>, size: nat): (chunks: seq<seq<string>>)
    requires size > 0
    decreases |lines|
  {
    if |lines| < size then [lines] else [lines[..size]] + Chunks(lines[size..], size)
  }

  /** The chunks hold the source lines in order, none lost and none added. */
  lemma {:induction false} ChunksConcat(lines: seq<string>, size: nat)
    requires size > 0
    ensures Concat(Chunks(lines, size)) == lines
    decreases |lines|
  {
    if |lines| >= size {
      var c := Chunks(lines, size);
      assert c[1..] == Chunks(lines[size..], size);
      ChunksConcat(lines[size..], size);
      assert lines == lines[..size] + lines[size..];
    }
  }

  /**
   * There are `L / size + 1` chunks; all but the last hold exactly `size`
   * lines and the last holds the remaining `L % size`, so it is empty when
   * `L` is a multiple of `size`.
   */
  lemma {:induction false} ChunksShape(lines: seq<string>, size: nat)
    requires size > 0
    ensures |Chunks(lines, size)| == |lines| / size + 1
    ensures forall k :: 0 <= k < |Chunks(lines, size)| - 1 ==> |Chunks(lines, size)[k]| == size
    ensures |Chunks(lines, size)[|Chunks(lines, size)| - 1]| == |lines| % size
    decreases |lines|
  {
    if |lines| >= size {
      var rest := lines[size..];
      ChunksShape(rest, size);
      var c := Chunks(lines, size);
      assert c == [lines[..size]] + Chunks(rest, size);
      assert |lines| / size == |rest| / size + 1 && |lines| % size == |rest| % size by {
        DivModStep(|rest|, size);
      }
    }
  }

  /**
   * Reading one more line: it joins the open chunk, and when that chunk
   * reaches `size` lines it is closed and an empty one opened.
   */
  lemma {:induction false} ChunksSnoc(closed: seq<seq<string>>, current: seq<string>, p: seq<string>,
                                      x: string, size: nat)
    requires size > 0 && closed + [current] == Chunks(p, size)
    ensures |current| < size
    ensures |current| + 1 < size ==> Chunks(p + [x], size) == closed + [current + [x]]
    ensures |current| + 1 == size ==> Chunks(p + [x], size) == closed + [current + [x]] + [[]]
    decreases |p|
  {
    if |p| < size {
      assert |closed + [current]| == 1;
      assert closed == [] && current == (closed + [current])[0] == p;
      if |p| + 1 == size {
        assert (p + [x])[size..] == [];
        assert (p + [x])[..size] == p + [x];
      }
    } else {
      assert |Chunks(p, size)| >= 2;
      assert (p + [x])[..size] == p[..size];
      assert (p + [x])[size..] == p[size..] + [x];
      var c := Chunks(p, size);
      assert c == [p[..size]] + Chunks(p[size..], size);
      assert closed[1..] + [current] == (closed + [current])[1..] == c[1..];
      ChunksSnoc(closed[1..], current, p[size..], x, size);
      assert closed == [closed[0]] + closed[1..];
    }
  }

  lemma DivModUnique(x: int, d: int, q: int, rem: int)
    requires d > 0 && 0 <= rem < d && x == q * d + rem
    ensures x / d == q && x % d == rem
  {
    var q0, r0 := x / d, x % d;
    assert q0 * d + r0 == x;
    if q > q0 {
      MulAtLeast(q - q0, d);
    } else if q < q0 {
      MulAtLeast(q0 - q, d);
    }
  }

  lemma MulAtLeast(a: int, d: int)
    requires a >= 1 && d > 0
    ensures a * d >= d
  {
    assert a * d == (a - 1) * d + d;
  }

  lemma DivModStep(m: nat, size: nat)
    requires size > 0
    ensures (m + size) / size == m / size + 1 && (m + size) % size == m % size
  {
    DivModUnique(m + size, size, m / size + 1, m % size);
  }

  /** Chunk `k` (0-based) holds source lines `k * size` up to the next `size`. */
  lemma {:induction false} ChunkAt(lines: seq<string>, size: nat, k: nat)
    requires size > 0 && k < |Chunks(lines, size)| - 1
    ensures k * size + size <= |lines|
    ensures Chunks(lines, size)[k] == lines[k * size..k * size + size]
    decreases k
  {
    if k > 0 {
      var rest := lines[size..];
      assert Chunks(lines, size)[k] == Chunks(rest, size)[k - 1];
      ChunkAt(rest, size, k - 1);
      var m := (k - 1) * size;
      MulSucc(k, size, m);
      SliceOfDrop(lines, size, m, m + size);
    }
  }

  /** A slice of `s[r..]` is the slice of `s` shifted by `r`. */
  lemma SliceOfDrop<T>(s: seq<T>, r: nat, m: nat, e: nat)
    requires r <= |s| && m <= e <= |s| - r
    ensures s[r..][m..e] == s[m + r..e + r]
  {
  }

  /** `k * r` is `r` more than `(k - 1) * r`. */
  lemma MulSucc(k: int, r: int, m: int)
    requires m == (k - 1) * r
    ensures k * r == m + r
  {
  }

  // ---------------------------------------------------------------------
  // Merge batches (Enumerable.Chunk in MergeFilesAsync)
  // ---------------------------------------------------------------------

  /** Consecutive batches of `r` items; only the last may be shorter. */
  function Batches<T>(s: seq<T>, r: nat): seq<seq<T>>
    requires r > 0
    decreases |s|
  {
    if s == [] then []
    else if |s| <= r then [s]
    else [s[..r]] + Batches(s[r..], r)
  }

  /** There are `⌈n / r⌉` batches. */
  lemma {:induction false} BatchesCount<T>(s: seq<T>, r: nat)
    requires r > 0
    ensures |Batches(s, r)| == Ceil(|s|, r)
    decreases |s|
  {
    if s == [] {
    } else if |s| <= r {
      DivModUnique(|s| + r - 1, r, 1, |s| - 1);
    } else {
      BatchesCount(s[r..], r);
      DivModStep(|s| - 1, r);
    }
  }

  /**
   * Batch `k` (0-based) is the slice of `s` from `k * r` to
   * `min(k * r + r, n)`; it is never empty.
   */
  lemma {:induction false} BatchAt<T>(s: seq<T>, r: nat, k: nat)
    requires r > 0 && k < |Batches(s, r)|
    ensures k * r < |s|
    ensures Batches(s, r)[k] == s[k * r..if k * r + r <= |s| then k * r + r else |s|]
    decreases k
  {
    if k > 0 {
      assert |s| > r;
      var rest := s[r..];
      assert Batches(s, r)[k] == Batches(rest, r)[k - 1];
      BatchAt(rest, r, k - 1);
      var m := (k - 1) * r;
      MulSucc(k, r, m);
      SliceOfDrop(s, r, m, if m + r <= |rest| then m + r else |rest|);
    }
  }

  /** The batches reach the end of the sequence: `r` times their count is at least its length. */
  lemma {:induction false} BatchesCover<T>(s: seq<T>, r: nat)
    requires r > 0
    ensures |Batches(s, r)| * r >= |s|
    decreases |s|
  {
    if |s| > r {
      BatchesCover(s[r..], r);
      assert |Batches(s, r)| * r == |Batches(s[r..], r)| * r + r;
    }
  }

  /**
   * A pass that does not finish (more than `r` runs) leaves at least two runs,
   * and it strictly shrinks the run-set exactly when the fan-in is at least 2.
   */
  lemma PassShrinks(n: nat, r: nat)
    requires 0 < r < n
    ensures Ceil(n, r) >= 2
    ensures Ceil(n, r) < n <==> r >= 2
  {
    var x := n + r - 1;
    DivAtLeast(x, r, 2, r + r);
    if r >= 2 {
      ProductGrows(n, r);
      DivBelow(x, r, n);
    }
  }

  /** A quotient is at least `c` when the dividend is at least `c * r`. */
  lemma DivAtLeast(x: nat, r: nat, c: nat, cr: nat)
    requires r > 0 && cr == c * r && cr <= x
    ensures c <= x / r
  {
    var q := x / r;
    assert x < (q + 1) * r by {
      assert (q + 1) * r == q * r + r;
    }
    MulLessCancel(c, q + 1, r);
  }

  lemma MulLessCancel(a: int, b: int, r: int)
    requires r > 0 && a * r < b * r
    ensures a < b
  {
  }

  /** `n + r - 1 < r * n` once both are at least 2. */
  lemma ProductGrows(n: nat, r: nat)
    requires r >= 2 && n >= 2
    ensures n + r - 1 < r * n
  {
    assert r * n == (r - 1) * (n - 1) + n + r - 1;
    MulMono(1, r - 1, n - 1);
  }

  // ---------------------------------------------------------------------
  // Progress estimate (CalculateTotalFilesToMerge)
  // ---------------------------------------------------------------------

  /**
   * The total the merge progress is measured against: the run count plus its
   * successive integer quotients by the fan-in, down to 0.
   */
  function Estimate(n: nat, size: nat): nat
    requires size >= 2
    decreases n
  {
    if n == 0 then 0 else n + Estimate(n / size, size)
  }

  function Pow(b: nat, k: nat): (p: nat)
    requires b >= 1
    ensures p >= 1
  {
    if k == 0 then 1 else b * Pow(b, k - 1)
  }

  /** `n / size^0 + n / size^1 + ... + n / size^(k-1)`. */
  function QuotientSum(n: nat, size: nat, k: nat): nat
    requires size >= 1
  {
    if k == 0 then 0 else QuotientSum(n, size, k - 1) + n / Pow(size, k - 1)
  }

  lemma DivDiv(n: nat, a: nat, b: nat)
    requires a >= 1 && b >= 1
    ensures n / a / b == n / (a * b)
  {
    var q, r1 := n / a, n % a;
    var q2, r2 := q / b, q % b;
    Regroup(n, q, r1, q2, r2, a, b);
    RemBound(r1, r2, a, b);
    DivModUnique(n, a * b, q2, r2 * a + r1);
  }

  /** Substituting one quotient-remainder decomposition into another. */
  lemma Regroup(n: int, q: int, r1: int, q2: int, r2: int, a: int, b: int)
    requires n == q * a + r1 && q == q2 * b + r2
    ensures n == q2 * (a * b) + (r2 * a + r1)
  {
    assert q * a == (q2 * b + r2) * a;
    assert (q2 * b + r2) * a == q2 * b * a + r2 * a;
    assert q2 * b * a == q2 * (a * b);
  }

  lemma RemBound(r1: int, r2: int, a: int, b: int)
    requires 0 <= r1 < a && 0 <= r2 < b
    ensures 0 <= r2 * a + r1 < a * b
  {
    MulMono(r2, b - 1, a);
    assert (b - 1) * a == a * b - a;
  }

  lemma MulMono(x: int, y: int, a: int)
    requires 0 <= x <= y && a >= 0
    ensures 0 <= x * a <= y * a
  {
  }

  lemma {:induction false} QuotientSumShift(n: nat, size: nat, k: nat)
    requires size >= 1
    ensures QuotientSum(n, size, k + 1) == n + QuotientSum(n / size, size, k)
  {
    if k > 0 {
      QuotientSumShift(n, size, k - 1);
      DivDiv(n, size, Pow(size, k - 1));
      assert Pow(size, k) == size * Pow(size, k - 1);
    }
  }

  lemma DivBelow(n: nat, size: nat, p: nat)
    requires size >= 1 && p >= 1 && n < size * p
    ensures n / size < p
  {
    var q := n / size;
    assert q * size < p * size by {
      assert q * size <= n;
      assert size * p == p * size;
    }
    MulLessCancel(q, p, size);
  }

  /**
   * The estimate is `n + ⌊n/size⌋ + ⌊n/size²⌋ + ...`: the sum of the quotients
   * by every power of the fan-in, the zero ones contributing nothing.
   */
  lemma {:induction false} EstimateIsQuotientSum(n: nat, size: nat, k: nat)
    requires size >= 2 && n < Pow(size, k)
    ensures Estimate(n, size) == QuotientSum(n, size, k)
    decreases k
  {
    if n == 0 {
      QuotientSumOfZero(size, k);
    } else {
      assert k > 0;
      DivBelow(n, size, Pow(size, k - 1));
      EstimateIsQuotientSum(n / size, size, k - 1);
      QuotientSumShift(n, size, k - 1);
    }
  }

  lemma {:induction false} QuotientSumOfZero(size: nat, k: nat)
    requires size >= 1
    ensures QuotientSum(0, size, k) == 0
  {
    if k > 0 { QuotientSumOfZero(size, k - 1); }
  }

  lemma DivShrinks(n: nat, size: nat)
    requires size >= 2 && n >= 1
    ensures n / size < n
  {
    DivBelow(n, size, n);
  }

  lemma DivFloor(n: nat, size: nat)
    requires size >= 1
    ensures size * (n / size) <= n
  {
  }

  lemma BoundStep(size: int, n: int, q: int, eq: int, e: int)
    requires size >= 2 && size * q <= n && (size - 1) * eq <= size * q && e == n + eq && eq >= 0
    ensures n <= e && (size - 1) * e <= size * n
  {
    assert (size - 1) * e == (size - 1) * n + (size - 1) * eq;
    assert (size - 1) * n + n == size * n;
  }

  /** The estimate counts every run once and is at most `size / (size - 1)` times the run count. */
  lemma {:induction false} EstimateBounds(n: nat, size: nat)
    requires size >= 2
    ensures n <= Estimate(n, size)
    ensures (size - 1) * Estimate(n, size) <= size * n
    decreases n
  {
    if n > 0 {
      var q := n / size;
      DivShrinks(n, size);
      EstimateBounds(q, size);
      DivFloor(n, size);
      BoundStep(size, n, q, Estimate(q, size), Estimate(n, size));
    }
  }

  /**
   * The state of the estimate loop: the running total, the last quotient, and
   * whether a zero quotient has been reached.
   */
  datatype EstimateLoop = EstimateLoop(filesToMerge: nat, result: nat, done: bool)

  function EstimateStart(n: nat, size: nat): EstimateLoop
    requires size > 0
  {
    EstimateLoop(n, n / size, false)
  }

  /** One iteration: stop once the quotient is zero, add it, divide it again. */
  function EstimateStep(st: EstimateLoop, size: nat): EstimateLoop
    requires size > 0
  {
    EstimateLoop(st.filesToMerge + st.result, st.result / size, st.done || st.result <= 0)
  }

  /** The running total plus what the remaining iterations will add. */
  function EstimateTotal(st: EstimateLoop, size: nat): nat
    requires size >= 2
  {
    st.filesToMerge + if st.done then 0 else Estimate(st.result, size)
  }

  /** The loop's variant: it drops with every iteration. */
  function EstimateVariant(st: EstimateLoop): nat {
    if st.done then 0 else st.result + 1
  }

  lemma EstimateStartTotal(n: nat, size: nat)
    requires size >= 2
    ensures EstimateTotal(EstimateStart(n, size), size) == Estimate(n, size)
  {
    var q := n / size;
    if n == 0 {
      DivOfZero(size);
      assert q == 0;
    } else {
      assert Estimate(n, size) == n + Estimate(q, size);
    }
  }

  lemma DivOfZero(size: nat)
    requires size >= 1
    ensures 0 / size == 0
  {
  }

  lemma EstimateStepTotal(st: EstimateLoop, size: nat)
    requires size >= 2 && !st.done
    ensures EstimateTotal(EstimateStep(st, size), size) == EstimateTotal(st, size)
    ensures EstimateVariant(EstimateStep(st, size)) < EstimateVariant(st)
  {
    if st.result > 0 {
      DivShrinks(st.result, size);
      assert Estimate(st.result, size) == st.result + Estimate(st.result / size, size);
    }
  }

  /** The loop state after at most `k` iterations (fewer when it finishes). */
  function EstimateIterate(st: EstimateLoop, size: nat, k: nat): EstimateLoop
    requires size > 0
    decreases k
  {
    if k == 0 || st.done then st else EstimateIterate(EstimateStep(st, size), size, k - 1)
  }

  /** With a fan-in of 1 the quotient never changes, so the loop never finishes. */
  lemma {:induction false} EstimateStalls(st: EstimateLoop, k: nat)
    requires st.result >= 1 && !st.done
    ensures EstimateIterate(st, 1, k).result == st.result && !EstimateIterate(st, 1, k).done
    decreases k
  {
    if k > 0 {
      EstimateStalls(EstimateStep(st, 1), k - 1);
    }
  }

  /** For any run count `n >= 1` and fan-in 1, no number of iterations finishes the estimate. */
  lemma EstimateNeverFinishesAtFanInOne(n: nat, k: nat)
    requires n >= 1
    ensures !EstimateIterate(EstimateStart(n, 1), 1, k).done
  {
    EstimateStalls(EstimateStart(n, 1), k);
  }
}
