/** `MultiThreadSumMatrix.sum` with the threads taken out.

    The workers share nothing mutable, so starting them all and joining them in
    list order gives the same result as evaluating them one after another; a
    worker is therefore a pure function of the matrix and its two integers.
    The model follows the code as written: a worker sums rows
    `[startpos, nelem)` (not `[startpos, startpos + nelem)`) over columns
    `[0, matrix.length)` (not the row's own width). */
module SumMatrix {
  import opened Wrappers
  import JavaInt

  /** A `double[][]`, entries as exact reals. */
  type Matrix = seq<seq<real>>

  /** `new Worker(matrix, startpos, nelem)`; the matrix is shared by all. */
  datatype Worker = Worker(startpos: int, nelem: int)

  /** How `Worker.run` ends: it assigns `res`, or an index out of bounds kills
      the thread with an uncaught exception before `res` is assigned. */
  datatype Run = Finished(res: real) | Died

  /** What `sum` throws before any worker exists: `% 0` when the object was
      built with no threads, and `new ArrayList<>(nthread)` when the thread
      count is negative. */
  datatype Error = ArithmeticException | IllegalArgumentException

  // ---------------------------------------------------------------------------
  // The partition plan
  // ---------------------------------------------------------------------------

  /** `size = (matrix.length % nthread + matrix.length) / nthread`. */
  function ChunkSize(len: nat, nthread: int): int
    requires nthread != 0
  {
    JavaInt.Div(JavaInt.Rem(len, nthread) + len, nthread)
  }

  /** `sum` does not get stuck in the worker loop: it throws before the loop (a thread
      count that is zero or negative), or the loop
      `for (start = 0; start < len; start += size)` ends.  `HaltsExactly`
      proves the second case is exactly "the matrix is empty or `size >= 1`". */
  predicate Halts(len: nat, nthread: int) {
    nthread <= 0 || len == 0 || 2 * len >= nthread
  }

  /** The workers the loop adds when it is at `start`: one per step, each
      given `nelem = size`, each starting inside the matrix and at least one
      step after the first. */
  function Workers(start: int, len: nat, size: int): (ws: seq<Worker>)
    requires 0 <= start
    requires start >= len || size >= 1
    ensures |ws| == 0 <==> start >= len
    ensures |ws| > 0 ==> ws[0].startpos == start
    ensures forall k :: 0 <= k < |ws| ==> ws[k].nelem == size && start <= ws[k].startpos < len
    ensures forall k :: 0 < k < |ws| ==> start + size <= ws[k].startpos
    decreases len - start
  {
    if start < len then [Worker(start, size)] + Workers(start + size, len, size) else []
  }

  /** The plan in full: the start positions are `start, start + size,
      start + 2 * size, ...`, and the last is the last one below `len`. */
  lemma {:induction false} WorkerPlan(start: int, len: nat, size: int)
    requires 0 <= start && size >= 1
    ensures var ws := Workers(start, len, size);
      (forall k :: 0 <= k < |ws| ==> ws[k] == Worker(start + k * size, size))
      && (|ws| > 0 ==> start + (|ws| - 1) * size < len <= start + |ws| * size)
    decreases len - start
  {
    if start < len {
      var ws := Workers(start, len, size);
      var rest := Workers(start + size, len, size);
      WorkerPlan(start + size, len, size);
      assert ws == [Worker(start, size)] + rest;
      forall k | 0 < k < |ws|
        ensures ws[k] == Worker(start + k * size, size)
      {
        assert ws[k] == rest[k - 1];
        StepShift(start, size, k);
      }
      if |rest| > 0 {
        StepShift(start, size, |ws| - 1);
        StepShift(start, size, |ws|);
      }
    }
  }

  lemma StepShift(start: int, size: int, k: int)
    ensures start + size + (k - 1) * size == start + k * size
  {
    assert (k - 1) * size == k * size - size;
  }

  // ---------------------------------------------------------------------------
  // One worker
  // ---------------------------------------------------------------------------

  /** `row[0] + ... + row[n - 1]`, left to right. */
  function RowSum(row: seq<real>, n: nat): real
    requires n <= |row|
  {
    if n == 0 then 0.0 else RowSum(row, n - 1) + row[n - 1]
  }

  /** Row `i` exists and `matrix[i][j]` is in bounds for every `j < cols`. */
  predicate RowFits(m: Matrix, i: int, cols: nat) {
    0 <= i < |m| && cols <= |m[i]|
  }

  /** Rows `lo .. hi - 1` all fit `cols` columns. */
  predicate Covers(m: Matrix, lo: int, hi: int, cols: nat) {
    forall i :: lo <= i < hi ==> RowFits(m, i, cols)
  }

  /** The sum of columns `[0, cols)` of rows `[lo, hi)`, row by row. */
  function Block(m: Matrix, lo: int, hi: int, cols: nat): real
    requires Covers(m, lo, hi, cols)
    decreases hi - lo
  {
    if hi <= lo then 0.0
    else
      assert RowFits(m, hi - 1, cols);
      Block(m, lo, hi - 1, cols) + RowSum(m[hi - 1], cols)
  }

  /** `Worker.run`: `IntStream.range(startpos, nelem)` over rows, each row
      summed over `IntStream.range(0, matrix.length)`.  `matrix[i]` is read
      only inside the column stream, so on an empty matrix no row is read
      and every row sums to 0. */
  function RunWorker(m: Matrix, w: Worker): (r: Run)
    ensures r.Died? <==> |m| > 0 && exists i :: w.startpos <= i < w.nelem && !RowFits(m, i, |m|)
    ensures w.nelem <= w.startpos || |m| == 0 ==> r == Finished(0.0)
  {
    if |m| == 0 then Finished(0.0)
    else if Covers(m, w.startpos, w.nelem, |m|) then Finished(Block(m, w.startpos, w.nelem, |m|))
    else Died
  }

  /** `getResult()` after `join()`: `res`, which keeps its default 0.0 when
      the worker thread died. */
  function ResultOf(r: Run): real {
    match r
    case Finished(x) => x
    case Died => 0.0
  }

  // ---------------------------------------------------------------------------
  // The coordinator
  // ---------------------------------------------------------------------------

  /** `double sum = 0; for (w : workers) sum += w.getResult();` */
  function Accumulate(rs: seq<real>): real {
    if |rs| == 0 then 0.0 else Accumulate(rs[..|rs| - 1]) + rs[|rs| - 1]
  }

  /** The results of the workers, in creation order. */
  function Results(m: Matrix, ws: seq<Worker>): (rs: seq<real>)
    ensures |rs| == |ws|
    ensures forall k :: 0 <= k < |ws| ==> rs[k] == ResultOf(RunWorker(m, ws[k]))
  {
    if |ws| == 0 then [] else [ResultOf(RunWorker(m, ws[0]))] + Results(m, ws[1..])
  }

  /** `sum(matrix)` on a `MultiThreadSumMatrix(nthread)`; the precondition
      excludes the inputs on which the worker loop never ends. */
  function Sum(m: Matrix, nthread: int): (r: Result<real, Error>)
    requires Halts(|m|, nthread)
    ensures r.Failure? <==> nthread <= 0
    ensures r == Failure(ArithmeticException) <==> nthread == 0
    ensures r == Failure(IllegalArgumentException) <==> nthread < 0
  {
    if nthread == 0 then Failure(ArithmeticException)
    else if nthread < 0 then Failure(IllegalArgumentException)
    else
      var size := ChunkSize(|m|, nthread);
      HaltsExactly(|m|, nthread);
      Success(Accumulate(Results(m, Workers(0, |m|, size))))
  }

  /** `Worker.run` as the nested loops it runs: rows `startpos, ...,
      nelem - 1`, each over columns `0, ..., matrix.length - 1`, reading
      `matrix[i][j]` in the inner loop and stopping at the first index out
      of bounds. */
  method RunWorkerLoop(m: Matrix, w: Worker) returns (run: Run)
    ensures run == RunWorker(m, w)
  {
    var res := 0.0;
    var i := w.startpos;
    while i < w.nelem
      invariant w.startpos <= i
      invariant i <= w.nelem || i == w.startpos
      invariant |m| > 0 ==> Covers(m, w.startpos, i, |m|) && res == Block(m, w.startpos, i, |m|)
      invariant |m| == 0 ==> res == 0.0
      decreases w.nelem - i
    {
      var rowSum := 0.0;
      var j := 0;
      while j < |m|
        invariant 0 <= j <= |m|
        invariant j == 0 ==> rowSum == 0.0
        invariant j > 0 ==> RowFits(m, i, j) && rowSum == RowSum(m[i], j)
      {
        if i < 0 || i >= |m| || j >= |m[i]| {
          assert !RowFits(m, i, |m|);
          return Died;
        }
        rowSum := rowSum + m[i][j];
        j := j + 1;
      }
      res := res + rowSum;
      i := i + 1;
    }
    run := Finished(res);
  }

  /** The worker-building loop of `sum`. */
  method BuildWorkers(len: nat, size: int) returns (workers: seq<Worker>)
    requires len == 0 || size >= 1
    ensures workers == Workers(0, len, size)
  {
    workers := [];
    var start := 0;
    while start < len
      invariant 0 <= start
      invariant workers + Workers(start, len, size) == Workers(0, len, size)
      decreases len - start
    {
      assert Workers(start, len, size) == [Worker(start, size)] + Workers(start + size, len, size);
      workers := workers + [Worker(start, size)];
      start := start + size;
    }
  }

  /** The join loop of `sum`: `sum += w.getResult()` for each worker in
      creation order. */
  method JoinAll(m: Matrix, workers: seq<Worker>) returns (total: real)
    ensures total == Accumulate(Results(m, workers))
  {
    ghost var rs := Results(m, workers);
    total := 0.0;
    var k := 0;
    while k < |workers|
      invariant 0 <= k <= |workers|
      invariant total == Accumulate(rs[..k])
    {
      var run := RunWorkerLoop(m, workers[k]);
      assert rs[..k + 1][..k] == rs[..k];
      total := total + ResultOf(run);
      k := k + 1;
    }
    assert rs[..k] == rs;
  }

  /** `sum` as its loops run: build the workers, then join them. */
  method SumLoop(m: Matrix, nthread: int) returns (r: Result<real, Error>)
    requires Halts(|m|, nthread)
    ensures r == Sum(m, nthread)
  {
    if nthread == 0 {
      return Failure(ArithmeticException);
    }
    if nthread < 0 {
      return Failure(IllegalArgumentException);
    }
    var size := ChunkSize(|m|, nthread);
    HaltsExactly(|m|, nthread);
    var workers := BuildWorkers(|m|, size);
    var total := JoinAll(m, workers);
    r := Success(total);
  }

  // ---------------------------------------------------------------------------
  // The chunk size and when the plan is finite
  // ---------------------------------------------------------------------------

  /** With positive operands the Java operators are Dafny's. */
  lemma ChunkSizeEuclid(len: nat, nthread: int)
    requires nthread >= 1
    ensures ChunkSize(len, nthread) == (len % nthread + len) / nthread
  {
    JavaInt.NonNegativeAgrees(len, nthread);
    JavaInt.NonNegativeAgrees(len % nthread + len, nthread);
  }

  /** A chunk never holds more rows than the matrix has. */
  lemma ChunkSizeBounds(len: nat, nthread: int)
    requires nthread >= 1
    ensures 0 <= ChunkSize(len, nthread) <= len
  {
    ChunkSizeEuclid(len, nthread);
    EuclidChunkBounds(len, nthread);
  }

  lemma EuclidChunkBounds(len: nat, nthread: int)
    requires nthread >= 1
    ensures 0 <= (len % nthread + len) / nthread <= len
  {
    var x := len % nthread + len;
    MulGrows(len, nthread);
    assert x < nthread * len + nthread;
    DivBelow(x, nthread, len);
  }

  lemma MulGrows(a: nat, b: int)
    requires b >= 1
    ensures a <= b * a
  {
    assert b * a == a + (b - 1) * a;
  }

  lemma DivBelow(x: nat, y: int, bound: nat)
    requires y >= 1 && x < y * bound + y
    ensures x / y <= bound
  {
    var q := x / y;
    assert q * y <= x;
    assert q * y < (bound + 1) * y;
    MulCancel(q, bound + 1, y);
  }

  lemma MulCancel(a: int, b: int, y: int)
    requires y >= 1 && a * y < b * y
    ensures a < b
  {
    if a >= b {
      MulMonotone(b, a, y);
    }
  }

  lemma MulMonotone(a: int, b: int, y: int)
    requires y >= 1 && a <= b
    ensures a * y <= b * y
  {
    assert b * y == a * y + (b - a) * y;
  }

  lemma DivZero(x: nat, y: int)
    requires y >= 1
    ensures x / y == 0 <==> x < y
  {
  }

  /** The chunk size is zero exactly when there are more than twice as many
      threads as rows. */
  lemma ChunkSizeZero(len: nat, nthread: int)
    requires nthread >= 1 && len >= 1
    ensures ChunkSize(len, nthread) == 0 <==> 2 * len < nthread
  {
    ChunkSizeEuclid(len, nthread);
    EuclidChunkZero(len, nthread);
  }

  lemma EuclidChunkZero(len: nat, nthread: int)
    requires nthread >= 1 && len >= 1
    ensures (len % nthread + len) / nthread == 0 <==> 2 * len < nthread
  {
    var r := len % nthread;
    if len < nthread {
      assert r == len;
    } else {
      assert r + len >= nthread;
    }
    DivZero(r + len, nthread);
  }

  /** The worker-building loop, which only a positive thread count reaches,
      ends exactly when the matrix is empty or the chunk holds at least one
      row: when the matrix has at least half as many rows as there are
      threads. */
  lemma HaltsExactly(len: nat, nthread: int)
    requires nthread >= 1
    ensures Halts(len, nthread) <==> len == 0 || ChunkSize(len, nthread) >= 1
  {
    if len >= 1 {
      ChunkSizeZero(len, nthread);
      ChunkSizeBounds(len, nthread);
    }
  }

  /** The plan is `ceil(len / size)` workers. */
  lemma WorkerCount(len: nat, size: int)
    requires size >= 1
    ensures |Workers(0, len, size)| == (len + size - 1) / size
  {
    var n := |Workers(0, len, size)|;
    WorkerPlan(0, len, size);
    if n > 0 {
      assert (n - 1) * size < len <= n * size;
      assert n * size == (n - 1) * size + size;
      CeilUnique(len, size, n);
    }
  }

  lemma CeilUnique(len: nat, size: int, n: nat)
    requires size >= 1 && n >= 1
    requires (n - 1) * size < len <= n * size
    ensures (len + size - 1) / size == n
  {
    var x := len + size - 1;
    assert (n - 1) * size + size == n * size;
    assert n * size <= x < n * size + size;
    var q := x / size;
    assert q * size <= x < q * size + size;
    MulCancel(n - 1, q + 1, size);
    assert (q + 1) * size == q * size + size;
    MulCancel(q, n + 1, size);
    assert (n + 1) * size == n * size + size;
  }

  // ---------------------------------------------------------------------------
  // What `sum` returns
  // ---------------------------------------------------------------------------

  /** On an empty matrix the chunk size is zero, whatever the thread count. */
  lemma ChunkSizeEmpty(nthread: int)
    requires nthread != 0
    ensures ChunkSize(0, nthread) == 0
  {
    assert JavaInt.Rem(0, nthread) == 0;
  }

  /** A left-to-right sum whose later terms are all zero is its first term. */
  lemma {:induction false} AccumulateFirst(rs: seq<real>, k: nat)
    requires 1 <= k <= |rs|
    requires forall i :: 1 <= i < |rs| ==> rs[i] == 0.0
    ensures Accumulate(rs[..k]) == rs[0]
  {
    assert rs[..k][..k - 1] == rs[..k - 1];
    if k > 1 {
      AccumulateFirst(rs, k - 1);
    } else {
      assert rs[..k - 1] == [];
    }
  }

  /** Every worker after the first sums no row at all: its `startpos` is at
      least `size`, which is its `nelem`. */
  lemma LaterWorkersContributeZero(m: Matrix, size: int)
    requires |m| >= 1 && size >= 1
    ensures forall i :: 1 <= i < |Workers(0, |m|, size)| ==> Results(m, Workers(0, |m|, size))[i] == 0.0
  {
  }

  /** `sum` returns the first worker's result: columns `[0, matrix.length)` of
      rows `[0, size)` when those rows are wide enough, and 0 when the first
      worker dies of an out-of-bounds index. */
  lemma SumIsFirstChunk(m: Matrix, nthread: int)
    requires nthread >= 1 && Halts(|m|, nthread)
    ensures var size := ChunkSize(|m|, nthread);
      Sum(m, nthread) == Success(if Covers(m, 0, size, |m|) then Block(m, 0, size, |m|) else 0.0)
  {
    var size := ChunkSize(|m|, nthread);
    if |m| == 0 {
      ChunkSizeEmpty(nthread);
    } else {
      HaltsExactly(|m|, nthread);
      var ws := Workers(0, |m|, size);
      var rs := Results(m, ws);
      LaterWorkersContributeZero(m, size);
      AccumulateFirst(rs, |rs|);
      assert rs[..|rs|] == rs;
      assert ws[0] == Worker(0, size);
    }
  }

  /** An empty matrix gets no workers and sums to 0 for every positive thread
      count; a negative one throws before the loop. */
  lemma EmptyMatrixSum(m: Matrix, nthread: int)
    requires |m| == 0 && nthread != 0
    ensures Halts(|m|, nthread)
    ensures Workers(0, |m|, ChunkSize(|m|, nthread)) == []
    ensures nthread >= 1 ==> Sum(m, nthread) == Success(0.0)
    ensures nthread < 0 ==> Sum(m, nthread) == Failure(IllegalArgumentException)
  {
    ChunkSizeEmpty(nthread);
  }

  /** With one thread the chunk is the whole matrix. */
  lemma SingleThreadChunk(len: nat)
    ensures ChunkSize(len, 1) == len
  {
    ChunkSizeEuclid(len, 1);
  }

  // ---------------------------------------------------------------------------
  // The sum of every element
  // ---------------------------------------------------------------------------

  /** The rows `[lo, hi)`, each summed over its own width. */
  function RowsTotal(m: Matrix, lo: int, hi: int): real
    requires 0 <= lo && hi <= |m|
    decreases hi - lo
  {
    if hi <= lo then 0.0 else RowsTotal(m, lo, hi - 1) + RowSum(m[hi - 1], |m[hi - 1]|)
  }

  /** The sum of every element of the matrix. */
  function Total(m: Matrix): real {
    RowsTotal(m, 0, |m|)
  }

  /** On rows exactly `cols` wide the block sum is the sum of those rows. */
  lemma {:induction false} BlockOfFullRows(m: Matrix, lo: nat, hi: int, cols: nat)
    requires hi <= |m|
    requires forall i :: lo <= i < hi ==> |m[i]| == cols
    ensures Covers(m, lo, hi, cols)
    ensures Block(m, lo, hi, cols) == RowsTotal(m, lo, hi)
    decreases hi - lo
  {
    if hi > lo {
      BlockOfFullRows(m, lo, hi - 1, cols);
      assert |m[hi - 1]| == cols;
    }
  }

  /** The documented "sum of every element" holds for a square matrix summed
      with one thread. */
  lemma SquareSingleThreadIsTotal(m: Matrix)
    requires forall i :: 0 <= i < |m| ==> |m[i]| == |m|
    ensures Halts(|m|, 1)
    ensures Sum(m, 1) == Success(Total(m))
  {
    assert Block(m, 0, |m|, |m|) == Total(m) by {
      BlockOfFullRows(m, 0, |m|, |m|);
    }
    assert Sum(m, 1) == Success(Block(m, 0, |m|, |m|)) by {
      SingleThreadChunk(|m|);
      BlockOfFullRows(m, 0, |m|, |m|);
      SumIsFirstChunk(m, 1);
    }
  }

  // ---------------------------------------------------------------------------
  // Inputs on which the code as written misses its documented result
  // ---------------------------------------------------------------------------

  /** Three threads on a 3x3 matrix of ones: only row 0 is summed, because the
      second and third workers get the empty row ranges `[1, 1)` and `[2, 1)`. */
  lemma RowRangeDropsRows(m: Matrix)
    requires m == [[1.0, 1.0, 1.0], [1.0, 1.0, 1.0], [1.0, 1.0, 1.0]]
    ensures Halts(|m|, 3) && Sum(m, 3) == Success(3.0) && Total(m) == 9.0
  {
    ChunkSizeEuclid(3, 3);
    assert ChunkSize(3, 3) == 1;
    assert RowFits(m, 0, 3);
    assert Sum(m, 3) == Success(Block(m, 0, 1, 3)) by {
      SumIsFirstChunk(m, 3);
    }
    assert Block(m, 0, 1, 3) == 3.0;
    assert RowsTotal(m, 0, 1) == 3.0;
    assert RowsTotal(m, 0, 2) == 6.0;
  }

  /** One thread on the 1x2 matrix `[[1, 2]]`: the column bound is the row
      count 1, so the second column is never read. */
  lemma ColumnBoundMissesColumns(m: Matrix)
    requires m == [[1.0, 2.0]]
    ensures Halts(|m|, 1) && Sum(m, 1) == Success(1.0) && Total(m) == 3.0
  {
    ChunkSizeEuclid(1, 1);
    assert ChunkSize(1, 1) == 1;
    assert RowFits(m, 0, 1);
    assert Sum(m, 1) == Success(Block(m, 0, 1, 1)) by {
      SumIsFirstChunk(m, 1);
    }
    assert RowsTotal(m, 0, 1) == 3.0;
  }

  /** Two threads on the 4x2 matrix `[[1, 2], [3, 4], [5, 6], [7, 8]]`: the
      first worker reads `matrix[0][2]`, dies, and `sum` returns 0 instead
      of 36. */
  lemma NarrowRowsKillWorker(m: Matrix)
    requires m == [[1.0, 2.0], [3.0, 4.0], [5.0, 6.0], [7.0, 8.0]]
    ensures Halts(|m|, 2) && Sum(m, 2) == Success(0.0) && Total(m) == 36.0
  {
    ChunkSizeEuclid(4, 2);
    assert ChunkSize(4, 2) == 2;
    assert !RowFits(m, 0, 4);
    assert Sum(m, 2) == Success(0.0) by {
      SumIsFirstChunk(m, 2);
    }
    assert RowsTotal(m, 0, 1) == 3.0;
    assert RowsTotal(m, 0, 2) == 10.0;
    assert RowsTotal(m, 0, 3) == 21.0;
  }

  /** One row and three threads: `size` is 0, so `start += size` never moves
      and the loop adds workers until memory runs out. */
  lemma ZeroChunkNeverHalts()
    ensures ChunkSize(1, 3) == 0 && !Halts(1, 3)
  {
    ChunkSizeZero(1, 3);
  }

  // ---------------------------------------------------------------------------
  // The intended partition: ceil-sized chunks of rows, each row summed in full
  // ---------------------------------------------------------------------------

  /** `ceil(len / nthread)`: the smallest chunk with which `nthread` chunks
      cover every row. */
  function CorrectChunkSize(len: nat, nthread: int): (size: nat)
    requires nthread >= 1
    ensures len <= size * nthread < len + nthread
    ensures len >= 1 ==> size >= 1
  {
    var size := (len + nthread - 1) / nthread;
    JavaInt.EuclidBracket(len + nthread - 1, nthread);
    size
  }

  function Min(a: int, b: int): int {
    if a <= b then a else b
  }

  /** A worker that sums rows `[startpos, startpos + nelem)` that exist, each
      over its own width. */
  function CorrectedRun(m: Matrix, w: Worker): real
    requires 0 <= w.startpos
  {
    RowsTotal(m, w.startpos, Min(w.startpos + w.nelem, |m|))
  }

  function CorrectedResults(m: Matrix, ws: seq<Worker>): (rs: seq<real>)
    requires forall k :: 0 <= k < |ws| ==> 0 <= ws[k].startpos
    ensures |rs| == |ws|
    ensures forall k :: 0 <= k < |ws| ==> rs[k] == CorrectedRun(m, ws[k])
  {
    if |ws| == 0 then [] else [CorrectedRun(m, ws[0])] + CorrectedResults(m, ws[1..])
  }

  /** Consecutive row ranges add up. */
  lemma {:induction false} RowsTotalSplit(m: Matrix, lo: int, mid: int, hi: int)
    requires 0 <= lo <= mid <= hi <= |m|
    ensures RowsTotal(m, lo, mid) + RowsTotal(m, mid, hi) == RowsTotal(m, lo, hi)
    decreases hi - mid
  {
    if hi > mid {
      RowsTotalSplit(m, lo, mid, hi - 1);
    }
  }

  /** The first `k` corrected workers sum the rows before `k * size`. */
  lemma {:induction false} CorrectedPrefix(m: Matrix, size: int, k: nat)
    requires size >= 1
    requires k <= |Workers(0, |m|, size)|
    ensures Accumulate(CorrectedResults(m, Workers(0, |m|, size))[..k]) == RowsTotal(m, 0, Min(k * size, |m|))
    decreases k
  {
    var rs := CorrectedResults(m, Workers(0, |m|, size));
    if k == 0 {
      assert rs[..0] == [];
    } else {
      CorrectedPrefix(m, size, k - 1);
      var start := (k - 1) * size;
      var stop := Min(k * size, |m|);
      CorrectedStep(m, size, k);
      assert Min(start, |m|) == start;
      RowsTotalSplit(m, 0, start, stop);
    }
  }

  /** The `k`-th corrected worker adds rows `[(k - 1) * size, k * size)`. */
  lemma CorrectedStep(m: Matrix, size: int, k: nat)
    requires size >= 1
    requires 1 <= k <= |Workers(0, |m|, size)|
    ensures 0 <= (k - 1) * size < |m| && (k - 1) * size <= Min(k * size, |m|)
    ensures var rs := CorrectedResults(m, Workers(0, |m|, size));
      Accumulate(rs[..k]) == Accumulate(rs[..k - 1]) + RowsTotal(m, (k - 1) * size, Min(k * size, |m|))
  {
    var ws := Workers(0, |m|, size);
    var rs := CorrectedResults(m, ws);
    var start := (k - 1) * size;
    assert ws[k - 1] == Worker(start, size) by {
      WorkerPlan(0, |m|, size);
    }
    assert k * size == start + size by {
      StepShift(0, size, k);
    }
    assert rs[..k][..k - 1] == rs[..k - 1];
  }

  /** Chunks of any positive size, each summed in full, add up to the total. */
  lemma CorrectedCoversAll(m: Matrix, size: int)
    requires size >= 1
    ensures Accumulate(CorrectedResults(m, Workers(0, |m|, size))) == Total(m)
  {
    var ws := Workers(0, |m|, size);
    var rs := CorrectedResults(m, ws);
    CorrectedPrefix(m, size, |ws|);
    assert rs[..|ws|] == rs;
    assert Min(|ws| * size, |m|) == |m| by {
      WorkerPlan(0, |m|, size);
    }
  }

  /** The intended `sum`: the sum of every element, for every thread count. */
  function CorrectedSum(m: Matrix, nthread: int): (r: real)
    requires nthread >= 1
    ensures r == Total(m)
  {
    var size := CorrectChunkSize(|m|, nthread);
    if |m| == 0 then 0.0
    else
      CorrectedCoversAll(m, size);
      Accumulate(CorrectedResults(m, Workers(0, |m|, size)))
  }
}
