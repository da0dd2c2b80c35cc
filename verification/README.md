# Music catalogue and partitioned matrix sum, in Dafny

This project models two sequential cores of a Java exercise repository and
proves properties of them.

**The music catalogue (`MusicGroupImpl`), module `MusicGroup`.** The
catalogue's state is a map from album name to release year and a set of
songs. A song is a name, an optional album and a duration. Two songs are
equal when all three parts are equal, which is what `Song.equals` checks. The
state is an immutable `Group` value, and each mutator returns the next state.
`addAlbum` records or overwrites a year. `addSong` rejects a song that names
an unregistered album (the `InvalidAlbumName` failure) and otherwise adds the
song to the set. The queries iterate a set in an order Dafny leaves
unspecified, just as a stream over a `HashSet` or a `HashMap` key set does.
Their contracts therefore promise only what holds for every iteration order:
membership, counts, sums, sortedness and "some maximiser".

**The matrix sum (`MultiThreadSumMatrix`), module `SumMatrix`.** The threads
are taken out. The workers share no mutable state, so starting them all and
then joining them in list order gives the same result as evaluating them one
after another. The model keeps the Java arithmetic and the Java control flow
as written:
- the chunk size is `(len % nthread + len) / nthread`, with Java's truncating
  operators (module `JavaInt`);
- the `start += size` loop builds the worker list;
- each worker sums rows `[startpos, nelem)` over columns `[0, matrix.length)`;
- the partial results are added left to right, in creation order.

An out-of-bounds index inside a worker kills that worker's thread. Its `res`
field then keeps its default 0.0, and `join()` returns normally. The model
states this as `Run.Died`, whose result is 0.0. A thread count of zero makes
`%` throw `ArithmeticException`, and a negative one makes
`new ArrayList<>(nthread)` throw `IllegalArgumentException`; both happen
before any worker exists. Only a positive thread count reaches the worker
loop. The inputs on which that loop never ends are excluded by the
precondition `Halts`, and the lemma `HaltsExactly` characterises them.

The main theorem is `SumIsFirstChunk`. As written, `sum` returns exactly the
first worker's block: columns `[0, len)` of rows `[0, size)`. It returns 0
when one of those rows is narrower than `len`. Every later worker sums an
empty row range. The documented "sum of every element" therefore holds for a
square matrix summed with one thread (`SquareSingleThreadIsTotal`), and it
fails for other inputs (see Findings). The intended behaviour is
`CorrectedSum`: ceil-sized chunks, each row summed over its own width. It is
proved equal to the sum of every element for every positive thread count.

Helper modules: `Wrappers` (Option, Result), `JavaInt` (Java `/` and `%`),
`StringOrder` (`String.compareTo` and the sort `Stream.sorted()` performs).

## Model

| member | source | states |
|---|---|---|
| MusicGroup.AddAlbum | 111-stream-utilities-for-music-model/src/main/java/it/unibo/oop/lab/streams/MusicGroupImpl.java:24-26 | the album maps to the given year, whatever year it had before; all other albums keep their years; no album is removed; the songs are unchanged; a valid catalogue stays valid |
| MusicGroup.AddSong | 111-stream-utilities-for-music-model/src/main/java/it/unibo/oop/lab/streams/MusicGroupImpl.java:29-34 | fails exactly when an album is named and is not registered; on success the albums are unchanged and the songs are the old ones plus exactly the new song; a valid catalogue stays valid |
| MusicGroup.AddExistingSongUnchanged | 111-stream-utilities-for-music-model/src/main/java/it/unibo/oop/lab/streams/MusicGroupImpl.java:132-139 | adding a song equal (same name, album, duration) to one already present succeeds and leaves the state unchanged |
| MusicGroup.ReplayPreservesValid | 111-stream-utilities-for-music-model/src/main/java/it/unibo/oop/lab/streams/MusicGroupImpl.java:24-34 | after any sequence of addAlbum/addSong calls (rejected ones changing nothing), every song with an album names a registered album, and no album or song has been removed |
| MusicGroup.ReachableIsValid | 111-stream-utilities-for-music-model/src/main/java/it/unibo/oop/lab/streams/MusicGroupImpl.java:20-34 | every state reachable from a new catalogue satisfies the album-membership invariant |
| MusicGroup.OrderedSongNames | 111-stream-utilities-for-music-model/src/main/java/it/unibo/oop/lab/streams/MusicGroupImpl.java:37-39 | the result is sorted and holds each name exactly as many times as there are songs with that name (a permutation of the songs' names) |
| StringOrder.Sort | 111-stream-utilities-for-music-model/src/main/java/it/unibo/oop/lab/streams/MusicGroupImpl.java:38 | `sorted()` on strings: the result is ordered by `compareTo` and is a permutation of the input |
| StringOrder.SortedUnique | 111-stream-utilities-for-music-model/src/main/java/it/unibo/oop/lab/streams/MusicGroupImpl.java:38 | two sorted permutations of the same strings are equal, so the sorted song names do not depend on the set's iteration order |
| MusicGroup.AlbumNames | 111-stream-utilities-for-music-model/src/main/java/it/unibo/oop/lab/streams/MusicGroupImpl.java:42-44 | each registered album appears exactly once, and nothing else appears |
| MusicGroup.AlbumInYear | 111-stream-utilities-for-music-model/src/main/java/it/unibo/oop/lab/streams/MusicGroupImpl.java:47-49 | an album appears iff it is registered with exactly that year, and then exactly once |
| MusicGroup.Tally | 111-stream-utilities-for-music-model/src/main/java/it/unibo/oop/lab/streams/MusicGroupImpl.java:61-67 | the filter by album yields the number of songs on that album and the exact sum of their durations |
| MusicGroup.CountSongs | 111-stream-utilities-for-music-model/src/main/java/it/unibo/oop/lab/streams/MusicGroupImpl.java:52-54 | the number of songs whose album is the given name |
| MusicGroup.CountSongsInNoAlbum | 111-stream-utilities-for-music-model/src/main/java/it/unibo/oop/lab/streams/MusicGroupImpl.java:57-59 | the number of songs with no album |
| MusicGroup.AlbumCountsCover | 111-stream-utilities-for-music-model/src/main/java/it/unibo/oop/lab/streams/MusicGroupImpl.java:52-54 | summing countSongs over distinct album names counts each song of those albums exactly once |
| MusicGroup.CountsPartition | 111-stream-utilities-for-music-model/src/main/java/it/unibo/oop/lab/streams/MusicGroupImpl.java:52-66 | over any distinct list of albums that includes every album a song names, the album counts plus the no-album count equal the number of songs |
| MusicGroup.RegisteredCountsPartition | 111-stream-utilities-for-music-model/src/main/java/it/unibo/oop/lab/streams/MusicGroupImpl.java:52-66 | in a valid catalogue, the counts of the registered albums plus the no-album count equal the number of songs |
| MusicGroup.AverageDurationOfSongs | 111-stream-utilities-for-music-model/src/main/java/it/unibo/oop/lab/streams/MusicGroupImpl.java:70-72 | empty iff the album has no songs; otherwise the value times the song count is the album's total duration (the mean) |
| MusicGroup.LongestSong | 111-stream-utilities-for-music-model/src/main/java/it/unibo/oop/lab/streams/MusicGroupImpl.java:75-79 | empty iff there are no songs; otherwise it is the name of a song that no other song outlasts |
| MusicGroup.DurationByAlbum | 111-stream-utilities-for-music-model/src/main/java/it/unibo/oop/lab/streams/MusicGroupImpl.java:83-90 | the grouping has a key exactly for each album with at least one song, mapped to that album's total duration |
| MusicGroup.LongestAlbum | 111-stream-utilities-for-music-model/src/main/java/it/unibo/oop/lab/streams/MusicGroupImpl.java:82-95 | empty iff no song has an album; otherwise an album with songs whose total duration is at least that of every album with songs |
| SumMatrix.ChunkSizeBounds | 114-workers/src/main/java/it/unibo/oop/workers02/MultiThreadSumMatrix.java:67 | for a positive thread count the chunk size lies between 0 and the row count |
| SumMatrix.ChunkSizeZero | 114-workers/src/main/java/it/unibo/oop/workers02/MultiThreadSumMatrix.java:67 | for a non-empty matrix and a positive thread count, the chunk size is 0 exactly when 2·rows < threads |
| SumMatrix.SingleThreadChunk | 114-workers/src/main/java/it/unibo/oop/workers02/MultiThreadSumMatrix.java:67 | with one thread the chunk is the whole matrix |
| SumMatrix.HaltsExactly | 114-workers/src/main/java/it/unibo/oop/workers02/MultiThreadSumMatrix.java:67-74 | for a positive thread count, the only one that reaches the worker loop, the loop ends (the matrix is empty or the chunk size is at least 1) iff the matrix is empty or the threads are at most 2·rows |
| SumMatrix.Workers | 114-workers/src/main/java/it/unibo/oop/workers02/MultiThreadSumMatrix.java:72-74 | the plan is empty iff the start is already past the rows; each worker gets nelem = size and a start inside the matrix; all but the first start at least one step later |
| SumMatrix.WorkerPlan | 114-workers/src/main/java/it/unibo/oop/workers02/MultiThreadSumMatrix.java:72-74 | the start positions are exactly start, start+size, start+2·size, …, and the last one is the last such position below the row count |
| SumMatrix.WorkerCount | 114-workers/src/main/java/it/unibo/oop/workers02/MultiThreadSumMatrix.java:72-74 | for size ≥ 1 there are ceil(rows/size) workers |
| SumMatrix.BuildWorkers | 114-workers/src/main/java/it/unibo/oop/workers02/MultiThreadSumMatrix.java:71-74 | the `start += size` loop produces exactly the worker plan |
| SumMatrix.RunWorker | 114-workers/src/main/java/it/unibo/oop/workers02/MultiThreadSumMatrix.java:43-52 | a worker dies iff the matrix is non-empty and one of its rows is missing or narrower than the row count; on an empty matrix, or when its start is not below its nelem, it reads no element and finishes with 0 |
| SumMatrix.RunWorkerLoop | 114-workers/src/main/java/it/unibo/oop/workers02/MultiThreadSumMatrix.java:46-51 | the nested row/column loops, reading `matrix[i][j]` only inside the column loop and stopping at the first out-of-bounds index, give the same outcome as the block-sum definition |
| SumMatrix.JoinAll | 114-workers/src/main/java/it/unibo/oop/workers02/MultiThreadSumMatrix.java:86-94 | the join loop's running sum is the left-to-right sum of the workers' results in creation order |
| SumMatrix.Sum | 114-workers/src/main/java/it/unibo/oop/workers02/MultiThreadSumMatrix.java:66-71 | `sum` fails exactly when the thread count is not positive: with ArithmeticException exactly when it is 0 (the `%` at line 67), and with IllegalArgumentException exactly when it is negative (the list capacity at line 71) |
| SumMatrix.SumLoop | 114-workers/src/main/java/it/unibo/oop/workers02/MultiThreadSumMatrix.java:66-99 | checking the thread count, building the workers and then joining them computes the same result, or throws the same exception, as the functional definition of `sum` |
| SumMatrix.LaterWorkersContributeZero | 114-workers/src/main/java/it/unibo/oop/workers02/MultiThreadSumMatrix.java:46-74 | every worker after the first contributes 0, because its start is at least its nelem |
| SumMatrix.SumIsFirstChunk | 114-workers/src/main/java/it/unibo/oop/workers02/MultiThreadSumMatrix.java:46-98 | for a positive thread count, `sum` returns columns [0, rows) of rows [0, size) when those rows are wide enough, and 0 otherwise |
| SumMatrix.EmptyMatrixSum | 114-workers/src/main/java/it/unibo/oop/workers02/MultiThreadSumMatrix.java:67-98 | an empty matrix never loops and creates no workers; it sums to 0 for a positive thread count and throws IllegalArgumentException for a negative one |
| SumMatrix.SquareSingleThreadIsTotal | 114-workers/src/main/java/it/unibo/oop/workers02/MultiThreadSumMatrix.java:54-61 | for a square matrix and one thread, `sum` is the sum of every element, as the doc comment says |
| SumMatrix.RowRangeDropsRows | 114-workers/src/main/java/it/unibo/oop/workers02/MultiThreadSumMatrix.java:46 | a 3×3 matrix of ones with 3 threads sums to 3, not 9 |
| SumMatrix.ColumnBoundMissesColumns | 114-workers/src/main/java/it/unibo/oop/workers02/MultiThreadSumMatrix.java:48 | `[[1, 2]]` with 1 thread sums to 1, not 3 |
| SumMatrix.NarrowRowsKillWorker | 114-workers/src/main/java/it/unibo/oop/workers02/MultiThreadSumMatrix.java:48-49 | `[[1,2],[3,4],[5,6],[7,8]]` with 2 threads sums to 0, not 36 |
| SumMatrix.ZeroChunkNeverHalts | 114-workers/src/main/java/it/unibo/oop/workers02/MultiThreadSumMatrix.java:67-72 | one row and three threads give size 0, so the worker loop never ends and `sum` never returns normally |
| SumMatrix.CorrectChunkSize | 114-workers/src/main/java/it/unibo/oop/workers02/MultiThreadSumMatrix.java:67 | the corrected size is the least size whose thread-count chunks cover the rows, and it is at least 1 for a non-empty matrix |
| SumMatrix.CorrectedCoversAll | 114-workers/src/main/java/it/unibo/oop/workers02/MultiThreadSumMatrix.java:46-51 | workers covering [start, start+size) with rows summed over their own width add up to the sum of every element, for any size ≥ 1 |
| SumMatrix.CorrectedSum | 114-workers/src/main/java/it/unibo/oop/workers02/MultiThreadSumMatrix.java:54-61 | the corrected `sum` equals the sum of every element for every positive thread count |

## Left out

- Threads: `start`, `join`, and the `InterruptedException` to `IllegalStateException` path in `MultiThreadSumMatrix.sum`. Workers are evaluated in list order, which gives the same result because they share no mutable state. Nothing in the model interrupts a thread.
- The console line printed by `Worker.run`: output only.
- IEEE-754 `double`. Durations and matrix entries are exact reals. So the model does not cover rounding, the compensated summation of `DoubleStream.sum`/`average`, the summation order of `summingDouble`, NaN in `Double.compare`, or the `==` comparison of durations in `Song.equals` (NaN, and 0.0 against -0.0).
- 32-bit `int` overflow. `start += size` and `len % nthread + len` are modelled unbounded. They could overflow only for matrices with more than about 2^30 rows.
- MusicGroup.CountSongs: does not model the `(int)` cast of the `long` count, which matters only with more than 2^31 - 1 songs.
- MusicGroup.CountSongsInNoAlbum: the same `(int)` cast is not modelled, for the same reason.
- StringOrder.Sort: orders characters by Dafny `char`, which is a Unicode scalar value. Java compares UTF-16 code units, and the two orders differ only for characters outside the Basic Multilingual Plane.
- Which maximiser `longestSong` and `longestAlbum` return on ties, and the order of `albumNames` and `albumInYear`. All depend on hash order; the contracts promise some maximiser and some order.
- `Song.hashCode` with its cached hash, and `Song.toString`: collection plumbing. Datatype equality is `Song.equals`.
- `null` arguments and `null` matrix rows: Dafny values cannot be null.
- A positive thread count greater than twice the row count of a non-empty matrix: the chunk size is 0, the worker loop adds workers until memory runs out, and `sum` never returns normally, so the `Halts` precondition excludes it. `HaltsExactly` and `ZeroChunkNeverHalts` state when this happens.
- `AnotherConcurrentGUI`: Swing UI and timed background threads, with no sequential logic to state.

## Findings

| source | as written | input that shows it | evidently intended | confidence | as-written member | corrected member |
|---|---|---|---|---|---|---|
| 114-workers/src/main/java/it/unibo/oop/workers02/MultiThreadSumMatrix.java:46 | rows `IntStream.range(startpos, nelem)` | 3×3 matrix of ones, 3 threads: workers get `[0,1)`, `[1,1)`, `[2,1)`, and the sum is 3 | rows `[startpos, startpos + nelem)`, sum 9 | high; not executed | SumMatrix.RowRangeDropsRows | SumMatrix.CorrectedSum |
| 114-workers/src/main/java/it/unibo/oop/workers02/MultiThreadSumMatrix.java:48 | columns `IntStream.range(0, matrix.length)` | `[[1, 2]]`, 1 thread: only column 0 is read, and the sum is 1 | columns `[0, matrix[i].length)`, sum 3 | high; not executed | SumMatrix.ColumnBoundMissesColumns | SumMatrix.CorrectedSum |
| 114-workers/src/main/java/it/unibo/oop/workers02/MultiThreadSumMatrix.java:48-49 | a row narrower than `matrix.length` throws inside the worker thread; the exception is lost and `res` stays 0 | `[[1,2],[3,4],[5,6],[7,8]]`, 2 threads: the first worker reads `matrix[0][2]`, and the sum is 0 | every element summed, 36 | high; not executed | SumMatrix.NarrowRowsKillWorker | SumMatrix.CorrectedSum |
| 114-workers/src/main/java/it/unibo/oop/workers02/MultiThreadSumMatrix.java:67-72 | `size = (len % nthread + len) / nthread` can be 0, and then `start += size` never advances | 1 row, 3 threads: size 0, so the loop adds workers until memory runs out and `sum` never returns normally | `ceil(len / nthread)`, which is at least 1 for a non-empty matrix | high; not executed | SumMatrix.ZeroChunkNeverHalts | SumMatrix.CorrectChunkSize |
