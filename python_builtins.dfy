/**
 The parts of Python and NumPy semantics the embedding service relies on:
 `range(start, stop, step)`, slicing `s[lo:hi]` (negative bounds count from
 the end, out-of-range bounds are clamped), reversal `s[::-1]` and
 `np.concatenate(parts, axis=0)` on lists of rows.
 */
module PyBuiltins {

  /** The values produced by Python's `range(start, stop, step)`; a zero step raises in Python. */
  function Range(start: int, stop: int, step: int): seq<int>
    requires step != 0
    decreases if step > 0 then stop - start else start - stop
  {
    if (step > 0 && start < stop) || (step < 0 && start > stop) then
      [start] + Range(start + step, stop, step)
    else
      []
  }

  /** How Python turns a slice bound into an index of a sequence of length n. */
  function SliceBound(i: int, n: nat): (r: nat)
    ensures r <= n
    ensures 0 <= i <= n ==> r == i
    ensures i < 0 && -i <= n ==> r == n + i
  {
    if i < 0 then (if i + n < 0 then 0 else i + n)
    else if i > n then n
    else i
  }

  /** Python's `s[lo:hi]`: never fails, empty when the bounds cross. */
  function Slice<T>(s: seq<T>, lo: int, hi: int): seq<T>
  {
    var l := SliceBound(lo, |s|);
    var h := SliceBound(hi, |s|);
    if h <= l then [] else s[l..h]
  }

  /** Python's `s[::-1]`. */
  function Reversed<T>(s: seq<T>): seq<T>
  {
    seq(|s|, k requires 0 <= k < |s| => s[|s| - 1 - k])
  }

  /** `np.concatenate(parts, axis=0)` on row lists, defined for every list of parts;
      the empty list, which NumPy refuses, is the caller's case to rule out. */
  function Flatten<T>(parts: seq<seq<T>>): seq<T>
  {
    if parts == [] then [] else Flatten(parts[..|parts| - 1]) + parts[|parts| - 1]
  }

  lemma {:induction false} FlattenConcat<T>(a: seq<seq<T>>, b: seq<seq<T>>)
    ensures Flatten(a + b) == Flatten(a) + Flatten(b)
    decreases |b|
  {
    if b == [] {
      assert a + b == a;
    } else {
      var b' := b[..|b| - 1];
      assert (a + b)[..|a + b| - 1] == a + b';
      FlattenConcat(a, b');
    }
  }

  lemma FlattenCons<T>(x: seq<T>, rest: seq<seq<T>>)
    ensures Flatten([x] + rest) == x + Flatten(rest)
  {
    FlattenConcat([x], rest);
    assert [x][..0] == [];
  }

  /** Every value of a positive-step range lies in [start, stop) and the k-th one is start + k * step. */
  lemma {:induction false} RangeAt(start: int, stop: int, step: int, k: nat)
    requires step > 0
    requires k < |Range(start, stop, step)|
    ensures Range(start, stop, step)[k] == start + k * step
    ensures start <= Range(start, stop, step)[k] < stop
    decreases stop - start
  {
    if k > 0 {
      RangeAt(start + step, stop, step, k - 1);
      assert (k - 1) * step + step == k * step;
    }
  }

  lemma DivIsOne(x: int, b: int)
    requires b > 0 && b <= x < 2 * b
    ensures x / b == 1
  {
  }

  lemma {:induction false} MulAtLeast(d: nat, b: int)
    requires b > 0 && d >= 1
    ensures d * b >= b
  {
    if d > 1 {
      MulAtLeast(d - 1, b);
      assert d * b == (d - 1) * b + b;
    }
  }

  /** Euclidean quotients are unique: `q * b + r` with `0 <= r < b` divides back to q. */
  lemma DivUnique(x: int, b: int, q: int, r: int)
    requires b > 0 && x == q * b + r && 0 <= r < b
    ensures x / b == q
  {
    var q0 := x / b;
    assert (q - q0) * b == q * b - q0 * b;
    if q > q0 {
      MulAtLeast(q - q0, b);
    } else if q < q0 {
      MulAtLeast(q0 - q, b);
    }
  }

  lemma DivStep(x: int, b: int)
    requires b > 0 && x >= 0
    ensures (x + b) / b == x / b + 1
  {
    var q, r := x / b, x % b;
    assert x + b == (q + 1) * b + r;
    DivUnique(x + b, b, q + 1, r);
  }

  /** A positive-step range from start below stop has ceil((stop - start) / step) values,
      which Python writes `(stop - start + step - 1) // step`. */
  lemma {:induction false} RangeLength(start: int, stop: int, step: int)
    requires step > 0 && start <= stop
    ensures |Range(start, stop, step)| == (stop - start + step - 1) / step
    decreases stop - start
  {
    if start < stop {
      if start + step >= stop {
        DivIsOne(stop - start + step - 1, step);
      } else {
        RangeLength(start + step, stop, step);
        DivStep(stop - start - 1, step);
      }
    } else {
      assert 0 <= step - 1 < step;
    }
  }

  lemma ModStep(x: int, b: int)
    requires b > 0 && x >= b
    ensures (x - b) % b == x % b
  {
    var q, r := x / b, x % b;
    assert x - b == (q - 1) * b + r;
    DivUnique(x - b, b, q - 1, r);
  }

  /** A positive-step range from start holds exactly the values below stop that are reached
      from start in whole steps. */
  lemma {:induction false} RangeMembers(start: int, stop: int, step: int, v: int)
    requires step > 0
    ensures v in Range(start, stop, step) <==> start <= v < stop && (v - start) % step == 0
    decreases stop - start
  {
    if start < stop {
      RangeMembers(start + step, stop, step, v);
      if v >= start + step {
        ModStep(v - start, step);
      } else if start < v {
        assert (v - start) % step == v - start;
      }
    }
  }

  /** A negative-step range starting at or below its stop is empty. */
  lemma RangeNegativeStepEmpty(start: int, stop: int, step: int)
    requires step < 0 && start <= stop
    ensures Range(start, stop, step) == []
  {
  }

  /** What Python prints for a few calls. */
  lemma PythonExamples()
    ensures Range(0, 5, 2) == [0, 2, 4]
    ensures Range(0, 5, -1) == []
    ensures Slice([1, 2, 3, 4, 5], 4, 6) == [5]
    ensures Slice([1, 2, 3], 0, -5) == []
    ensures Slice([1, 2, 3], 0, -1) == [1, 2]
    ensures Reversed([1, 2, 3]) == [3, 2, 1]
    ensures Flatten([[1], [], [2, 3]]) == [1, 2, 3]
  {
    assert Range(4, 5, 2) == [4];
    assert [1, 2, 3, 4, 5][4..5] == [5];
    assert [1, 2, 3][0..2] == [1, 2];
    assert [[1], [], [2, 3]][..2] == [[1], []];
    assert [[1], []][..1] == [[1]];
  }
}
