/**
 * The arithmetic of the offline splitter (tmp/chunk.py): how many parts a
 * Parquet file of a given byte size is split into, which row range each
 * part copies, what each part file is called, and the verification view
 * that unions the parts back together.
 */
module Chunk {
  import opened Wrappers
  import opened Paths
  import opened PartNames

  const MiB: nat := 1024 * 1024

  /** The default `target_size_mb`. */
  const DefaultTargetMb: nat := 60

  /** `math.ceil(total_size / target_chunk_size)` or `total_size // num_chunks`
      divided by zero. */
  datatype ChunkError = ZeroDivision

  /** `math.ceil(a / b)`, computed exactly. */
  function CeilDiv(a: nat, b: nat): nat
    requires b > 0
  {
    (a + b - 1) / b
  }

  lemma MulLe(i: int, j: int, k: nat)
    requires i <= j
    ensures i * k <= j * k
  {
  }

  lemma MulPred(i: int, k: int)
    ensures (i - 1) * k == i * k - k
  {
  }

  lemma DivMod(a: nat, b: nat)
    requires b > 0
    ensures a == b * (a / b) + a % b && 0 <= a % b < b
    ensures a / b >= 0
  {
  }

  /** The ceiling is the least count of `b`-sized pieces that covers `a`. */
  lemma CeilDivBounds(a: nat, b: nat)
    requires b > 0
    ensures CeilDiv(a, b) * b >= a
    ensures a > 0 ==> CeilDiv(a, b) >= 1 && (CeilDiv(a, b) - 1) * b < a
    ensures CeilDiv(a, b) <= a
  {
    var q := CeilDiv(a, b);
    DivMod(a + b - 1, b);
    var r := (a + b - 1) % b;
    assert q * b == a + b - 1 - r;
    MulPred(q, b);
    if q >= 1 {
      MulLe(1, b, q - 1);
      assert (q - 1) * b >= q - 1;
    }
  }

  /** A positive total split into at most `total` pieces gives each at least one unit. */
  lemma QuotientPositive(t: nat, n: nat)
    requires 0 < n <= t
    ensures t / n >= 1
  {
    DivMod(t, n);
  }

  /** What is left after `n - 1` chunks of `t / n`. */
  lemma LastChunk(t: nat, n: nat)
    requires n > 0
    ensures t - (n - 1) * (t / n) == t / n + t % n
  {
    DivMod(t, n);
    MulPred(n, t / n);
  }

  function Sum(s: seq<int>): int
  {
    if s == [] then 0 else Sum(s[..|s| - 1]) + s[|s| - 1]
  }

  lemma SumSnoc(s: seq<int>, x: int)
    ensures Sum(s + [x]) == Sum(s) + x
  {
    assert (s + [x])[..|s|] == s;
  }

  /** `get_chunk_sizes`: `num_chunks - 1` chunks of `total_size //
      num_chunks` bytes followed by whatever remains. A zero size or a zero
      target fails with a division by zero. */
  method GetChunkSizes(totalSize: nat, target: nat) returns (r: Result<seq<int>, ChunkError>)
    ensures r.Failure? <==> totalSize == 0 || target == 0
    ensures r.Success? ==> |r.value| == CeilDiv(totalSize, target)
    ensures r.Success? ==> Sum(r.value) == totalSize
    ensures r.Success? ==> forall i :: 0 <= i < |r.value| - 1 ==> r.value[i] == totalSize / |r.value|
    ensures r.Success? ==> r.value[|r.value| - 1] == totalSize / |r.value| + totalSize % |r.value|
  {
    if target == 0 || totalSize == 0 {
      return Failure(ZeroDivision);
    }
    var numChunks := CeilDiv(totalSize, target);
    CeilDivBounds(totalSize, target);
    var base := totalSize / numChunks;
    var sizes: seq<int> := [];
    var remaining: int := totalSize;
    var i := 0;
    while i < numChunks - 1
      invariant 0 <= i <= numChunks - 1
      invariant |sizes| == i
      invariant forall j :: 0 <= j < i ==> sizes[j] == base
      invariant Sum(sizes) + remaining == totalSize
    {
      SumSnoc(sizes, base);
      sizes := sizes + [base];
      remaining := remaining - base;
      i := i + 1;
    }
    SumConst(sizes, base);
    LastChunk(totalSize, numChunks);
    SumSnoc(sizes, remaining);
    sizes := sizes + [remaining];
    return Success(sizes);
  }

  lemma {:induction false} SumConst(s: seq<int>, x: int)
    requires forall j :: 0 <= j < |s| ==> s[j] == x
    ensures Sum(s) == |s| * x
  {
    if s != [] {
      SumConst(s[..|s| - 1], x);
      MulPred(|s|, x);
    }
  }

  /** Every chunk holds at least one byte, and the last one is the largest
      by less than the chunk count. */
  lemma ChunkSizesBounds(totalSize: nat, target: nat)
    requires totalSize > 0 && target > 0
    ensures var n := CeilDiv(totalSize, target);
      && n >= 1
      && totalSize / n >= 1
      && totalSize / n <= totalSize / n + totalSize % n < totalSize / n + n
  {
    CeilDivBounds(totalSize, target);
    var n := CeilDiv(totalSize, target);
    QuotientPositive(totalSize, n);
    DivMod(totalSize, n);
  }

  /** The splitter yields exactly the loader's six parts only for inputs of
      more than 300 MiB and at most 360 MiB at the default target size. */
  lemma PartCountMatchesLoader(totalSize: nat)
    requires totalSize > 0
    ensures CeilDiv(totalSize, DefaultTargetMb * MiB) == TotalParts
        <==> 5 * 60 * MiB < totalSize <= 6 * 60 * MiB
  {
    var b := DefaultTargetMb * MiB;
    CeilDivBounds(totalSize, b);
    var n := CeilDiv(totalSize, b);
    MulPred(n, b);
    if n <= 5 {
      MulLe(n, 5, b);
    } else if n >= 7 {
      MulLe(6, n - 1, b);
    }
  }

  // ---------------------------------------------------------------------
  // The row ranges of `split_parquet_file`

  /** One `COPY (SELECT * FROM input_data LIMIT limit OFFSET offset) TO output`
      for part number `part`; the output file is `Output(outputDir, job)`. */
  datatype CopyJob = CopyJob(part: nat, offset: int, limit: int)

  /** `jobs` cover the rows `lo .. hi - 1` in order, each starting where the
      previous one ends. */
  predicate Tiles(jobs: seq<CopyJob>, lo: int, hi: int)
  {
    && |jobs| > 0
    && jobs[0].offset == lo
    && (forall i :: 0 <= i < |jobs| ==> jobs[i].limit >= 0)
    && (forall i :: 0 <= i < |jobs| - 1 ==> jobs[i + 1].offset == jobs[i].offset + jobs[i].limit)
    && jobs[|jobs| - 1].offset + jobs[|jobs| - 1].limit == hi
  }

  /** Output file of part `i`. */
  function PartPath(outputDir: string, i: nat): string
  {
    PathJoin(outputDir, PartFileName(i))
  }

  /** The file a copy writes. */
  function Output(outputDir: string, job: CopyJob): string
  {
    PartPath(outputDir, job.part)
  }

  /** `split_parquet_file`: the chunk count comes from `get_chunk_sizes`;
      the row ranges and file names from `PlanParts`. */
  method SplitParquetFile(outputDir: string, totalSize: nat, totalRows: nat, targetMb: nat)
    returns (r: Result<seq<CopyJob>, ChunkError>)
    ensures r.Failure? <==> totalSize == 0 || targetMb == 0
    ensures r.Success? ==> |r.value| == CeilDiv(totalSize, targetMb * MiB)
    ensures r.Success? ==> Tiles(r.value, 0, totalRows)
    ensures r.Success? ==> forall i :: 0 <= i < |r.value| - 1 ==> r.value[i].limit == totalRows / |r.value|
    ensures r.Success? ==> forall i :: 0 <= i < |r.value| ==> r.value[i].part == i
    ensures r.Success? ==> forall i, j :: 0 <= i < j < |r.value| ==> Output(outputDir, r.value[i]) != Output(outputDir, r.value[j])
  {
    var chunks := GetChunkSizes(totalSize, targetMb * MiB);
    if chunks.Failure? {
      return Failure(chunks.error);
    }
    CeilDivBounds(totalSize, targetMb * MiB);
    var n := |chunks.value|;
    var jobs := PlanParts(totalRows, n);
    PartJobsTile(totalRows, n, jobs);
    VerificationReadsCopies(outputDir, jobs);
    return Success(jobs);
  }

  /** Part `i` of `n`, `rowsPerChunk` rows each, as `split_parquet_file`
      computes it: `start_row = i * rows_per_chunk`, and `end_row` is the
      next part's start, or the row count for the last part. */
  function PartJob(totalRows: nat, n: nat, rowsPerChunk: nat, i: nat): CopyJob
  {
    var startRow := Times(i, rowsPerChunk);
    var endRow := if i < n - 1 then Times(i + 1, rowsPerChunk) else totalRows;
    CopyJob(i, startRow, endRow - startRow)
  }

  /** `i * k` as `i` additions of `k`; `TimesIsProduct` relates the two. */
  function Times(i: nat, k: nat): nat
  {
    if i == 0 then 0 else Times(i - 1, k) + k
  }

  lemma {:induction false} TimesIsProduct(i: nat, k: nat)
    ensures Times(i, k) == i * k
  {
    if i > 0 {
      TimesIsProduct(i - 1, k);
      MulPred(i, k);
    }
  }

  /** Parts `0 .. k - 1`, in index order. */
  function PartJobs(totalRows: nat, n: nat, rowsPerChunk: nat, k: nat): (jobs: seq<CopyJob>)
    ensures |jobs| == k
  {
    if k == 0 then [] else PartJobs(totalRows, n, rowsPerChunk, k - 1) + [PartJob(totalRows, n, rowsPerChunk, k - 1)]
  }

  /** The `j`-th of the first `k` parts is part `j`. */
  lemma {:induction false} PartJobsAt(totalRows: nat, n: nat, rowsPerChunk: nat, k: nat)
    ensures forall j :: 0 <= j < k ==> PartJobs(totalRows, n, rowsPerChunk, k)[j] == PartJob(totalRows, n, rowsPerChunk, j)
  {
    if k > 0 {
      PartJobsAt(totalRows, n, rowsPerChunk, k - 1);
    }
  }

  /** The parts' row ranges tile `0 .. totalRows - 1`: each starts where the
      previous one ends, every part but the last has `totalRows / n` rows
      and the last ends at the row count. */
  lemma PartJobsTile(totalRows: nat, n: nat, jobs: seq<CopyJob>)
    requires n > 0 && jobs == PartJobs(totalRows, n, totalRows / n, n)
    ensures Tiles(jobs, 0, totalRows)
    ensures forall j :: 0 <= j < n - 1 ==> jobs[j].limit == totalRows / n
    ensures forall j :: 0 <= j < n ==> jobs[j].part == j
  {
    var r := totalRows / n;
    PartJobsAt(totalRows, n, r, n);
    forall j | 0 <= j < n - 1
      ensures jobs[j].limit == r
      ensures jobs[j + 1].offset == jobs[j].offset + jobs[j].limit
    {
      PartJobNext(totalRows, n, r, j);
    }
    LastPartNonNegative(totalRows, n);
    assert jobs[n - 1].limit >= 0;
    assert jobs[0].offset == 0;
    forall j | 0 <= j < n
      ensures jobs[j].limit >= 0 && jobs[j].part == j
    {
      assert jobs[j] == PartJob(totalRows, n, r, j);
      if j < n - 1 {
        assert jobs[j].limit == r;
      } else {
        assert j == n - 1;
      }
    }
  }

  lemma PartJobNext(totalRows: nat, n: nat, rowsPerChunk: nat, j: nat)
    requires j < n - 1
    ensures PartJob(totalRows, n, rowsPerChunk, j).limit == rowsPerChunk
    ensures PartJob(totalRows, n, rowsPerChunk, j + 1).offset
         == PartJob(totalRows, n, rowsPerChunk, j).offset + PartJob(totalRows, n, rowsPerChunk, j).limit
  {
  }

  lemma LastPartNonNegative(totalRows: nat, n: nat)
    requires n > 0
    ensures Times(n - 1, totalRows / n) <= totalRows
  {
    TimesIsProduct(n - 1, totalRows / n);
    DivMod(totalRows, n);
    MulLe(n - 1, n, totalRows / n);
  }

  /** The loop of `split_parquet_file` over the chunk count: one COPY per
      part, named by its index. `start_row` (`i * rows_per_chunk` in the
      source) is carried from one iteration to the next by adding
      `rows_per_chunk`, the same value (`TimesIsProduct`). */
  method PlanParts(totalRows: nat, n: nat) returns (jobs: seq<CopyJob>)
    requires n > 0
    ensures jobs == PartJobs(totalRows, n, totalRows / n, n)
  {
    var rowsPerChunk: nat := totalRows / n;
    jobs := [];
    var i := 0;
    var startRow: nat := 0;
    while i < n
      invariant 0 <= i <= n
      invariant startRow == Times(i, rowsPerChunk)
      invariant jobs == PartJobs(totalRows, n, rowsPerChunk, i)
    {
      var endRow := if i < n - 1 then startRow + rowsPerChunk else totalRows;
      jobs := jobs + [CopyJob(i, startRow, endRow - startRow)];
      startRow := startRow + rowsPerChunk;
      i := i + 1;
    }
  }

  // ---------------------------------------------------------------------
  // The verification view

  /** `LIMIT limit OFFSET offset` over the input rows, in scan order. */
  function Slice<T>(rows: seq<T>, job: CopyJob): seq<T>
  {
    var lo := if job.offset < 0 then 0 else if job.offset > |rows| then |rows| else job.offset;
    var hi := if job.offset + job.limit < lo then lo
              else if job.offset + job.limit > |rows| then |rows| else job.offset + job.limit;
    rows[lo..hi]
  }

  /** The parts read back in index order and concatenated (`UNION ALL`). */
  function UnionAll<T>(rows: seq<T>, jobs: seq<CopyJob>): seq<T>
  {
    if jobs == [] then [] else Slice(rows, jobs[0]) + UnionAll(rows, jobs[1..])
  }

  function SumLimits(jobs: seq<CopyJob>): int
  {
    if jobs == [] then 0 else jobs[0].limit + SumLimits(jobs[1..])
  }

  /** Tiles that cover rows `lo .. hi - 1` of the input union back to
      exactly those rows, and their row counts add up to `hi - lo`. */
  lemma {:induction false} UnionOfTiles<T>(rows: seq<T>, jobs: seq<CopyJob>, lo: int, hi: int)
    requires Tiles(jobs, lo, hi) && 0 <= lo && hi <= |rows|
    ensures lo <= hi
    ensures UnionAll(rows, jobs) == rows[lo..hi]
    ensures SumLimits(jobs) == hi - lo
    decreases |jobs|
  {
    var mid := lo + jobs[0].limit;
    if |jobs| > 1 {
      TilesRest(jobs, lo, hi);
      UnionOfTiles(rows, jobs[1..], mid, hi);
    }
    SliceInRange(rows, jobs[0]);
    if |jobs| == 1 {
      assert UnionAll(rows, jobs[1..]) == [];
      assert rows[lo..mid] + [] == rows[lo..mid];
    } else {
      assert rows[lo..mid] + rows[mid..hi] == rows[lo..hi];
    }
  }

  /** A range inside the input reads exactly those rows. */
  lemma SliceInRange<T>(rows: seq<T>, job: CopyJob)
    requires 0 <= job.offset && 0 <= job.limit && job.offset + job.limit <= |rows|
    ensures Slice(rows, job) == rows[job.offset..job.offset + job.limit]
  {
  }

  /** Dropping the first tile leaves tiles from where it ends. */
  lemma TilesRest(jobs: seq<CopyJob>, lo: int, hi: int)
    requires Tiles(jobs, lo, hi) && |jobs| > 1
    ensures Tiles(jobs[1..], lo + jobs[0].limit, hi)
  {
    var rest := jobs[1..];
    forall i | 0 <= i < |rest| - 1
      ensures rest[i + 1].offset == rest[i].offset + rest[i].limit
    {
      assert rest[i] == jobs[i + 1] && rest[i + 1] == jobs[i + 2];
    }
  }

  /** The sources of the `combined` view, in `UNION ALL` order. */
  function VerificationSources(outputDir: string, n: nat): (sources: seq<string>)
    ensures |sources| == n
    ensures forall i :: 0 <= i < n ==> sources[i] == PartPath(outputDir, i)
  {
    if n == 0 then [] else VerificationSources(outputDir, n - 1) + [PartPath(outputDir, n - 1)]
  }

  /** The `combined` view reads the files the copies wrote, in the same
      order, and distinct parts go to distinct files. */
  lemma VerificationReadsCopies(outputDir: string, jobs: seq<CopyJob>)
    requires forall i :: 0 <= i < |jobs| ==> jobs[i].part == i
    ensures forall i :: 0 <= i < |jobs| ==> VerificationSources(outputDir, |jobs|)[i] == Output(outputDir, jobs[i])
    ensures forall i, j :: 0 <= i < j < |jobs| ==> Output(outputDir, jobs[i]) != Output(outputDir, jobs[j])
  {
    forall i, j | 0 <= i < j < |jobs|
      ensures Output(outputDir, jobs[i]) != Output(outputDir, jobs[j])
    {
      if Output(outputDir, jobs[i]) == Output(outputDir, jobs[j]) {
        PartFileNamesRelative(i);
        PartFileNamesRelative(j);
        PathJoinInjective(outputDir, PartFileName(i), PartFileName(j));
        PartFileNameInjective(i, j);
      }
    }
  }

  lemma PartFileNamesRelative(i: nat)
    ensures PartFileName(i) != [] && PartFileName(i)[0] != '/'
  {
    assert PartFileName(i)[0] == FilePrefix[0];
  }

  /** When every copy succeeds, the `combined` view holds exactly the input
      rows in order, so the script's "Match" line compares equal counts. */
  lemma SplitRoundTrip<T>(rows: seq<T>, jobs: seq<CopyJob>)
    requires Tiles(jobs, 0, |rows|)
    ensures UnionAll(rows, jobs) == rows
    ensures SumLimits(jobs) == |rows|
  {
    UnionOfTiles(rows, jobs, 0, |rows|);
  }
}
