/**
 * The reading plan of MultithreadedRead: how many workers read the file,
 * and the part descriptor each of them gets.
 */
module ChunkPlan {
  import opened Results
  import opened Text

  /** An I/O error reported by the operating system, with its message text. */
  datatype IoError = IoError(msg: string)

  /** One part of the file to read (the source's filePart). */
  datatype FilePart = FilePart(
    partNumber: nat,
    startReadingByte: nat,
    content: seq<byte>,
    lengthRequested: nat,
    lengthRead: nat,
    error: Option<IoError>)

  /** The number of workers for a file of `fSize` bytes: 1 up to 1 MiB, 8 up to 128 MiB, 16 beyond. */
  function ThreadCount(fSize: nat): (n: nat)
    ensures n == 1 || n == 8 || n == 16
    ensures n == 1 <==> fSize <= 1048576
    ensures n == 16 <==> fSize > 134217728
  {
    if fSize <= 1048576 then 1
    else if fSize <= 134217728 then 8
    else 16
  }

  /** Above one worker, each worker has more bytes to read than there are workers. */
  lemma ThreadCountBelowSize(fSize: nat)
    ensures ThreadCount(fSize) == 1 || ThreadCount(fSize) * ThreadCount(fSize) < fSize
  {
  }

  /** Integer ceiling of `a / b` (the source's math.Ceil on the float quotient). */
  function CeilDiv(a: nat, b: nat): nat
    requires b > 0
  {
    (a + b - 1) / b
  }

  /** CeilDiv(a, b) is the least multiple count of `b` that reaches `a`. */
  lemma CeilDivBounds(a: nat, b: nat)
    requires b > 0
    ensures a <= CeilDiv(a, b) * b < a + b
  {
    var q := (a + b - 1) / b;
    assert a + b - 1 == q * b + (a + b - 1) % b;
  }

  function ChunkSize(fSize: nat): nat
  {
    CeilDiv(fSize, ThreadCount(fSize))
  }

  /** ChunkSize workers' worth of bytes covers the file, and a non-empty file has non-empty chunks. */
  lemma ChunkSizeBounds(fSize: nat)
    ensures fSize <= ChunkSize(fSize) * ThreadCount(fSize) < fSize + ThreadCount(fSize)
    ensures fSize > 0 ==> ChunkSize(fSize) > 0
  {
    var n, c := ThreadCount(fSize), ChunkSize(fSize);
    CeilDivBounds(fSize, n);
    if n == 1 {
      assert c * n == c;
    } else if n == 8 {
      assert c * n == c * 8;
    } else {
      assert c * n == c * 16;
    }
  }

  /** The last part's length as the source computes it, in signed arithmetic. */
  function LastChunkSize(fSize: nat): int
  {
    fSize - ChunkSize(fSize) * (ThreadCount(fSize) - 1)
  }

  /**
   * Under the size thresholds the last part is never negative and never
   * longer than the others, and it is empty only for an empty file.
   */
  lemma LastChunkBounds(fSize: nat)
    ensures 0 <= LastChunkSize(fSize) <= ChunkSize(fSize)
    ensures LastChunkSize(fSize) == 0 <==> fSize == 0
  {
    var n, c := ThreadCount(fSize), ChunkSize(fSize);
    CeilDivBounds(fSize, n);
    ThreadCountBelowSize(fSize);
    if n == 8 {
      assert c >= 8;
    } else if n == 16 {
      assert c >= 16;
    }
  }

  /** The number of bytes part `i` requests. */
  function PartLength(fSize: nat, i: nat): nat
    requires i < ThreadCount(fSize)
  {
    LastChunkBounds(fSize);
    if i == ThreadCount(fSize) - 1 then LastChunkSize(fSize) else ChunkSize(fSize)
  }

  /** The offset the plan loop has reached at part `i`: ChunkSize added `i` times. */
  function Start(fSize: nat, i: nat): nat
  {
    if i == 0 then 0 else Start(fSize, i - 1) + ChunkSize(fSize)
  }

  /** make([]byte, n): a zero-filled buffer. */
  function Zeros(n: nat): (z: seq<byte>)
    ensures |z| == n
    ensures forall k :: 0 <= k < n ==> z[k] == 0
  {
    if n == 0 then [] else Zeros(n - 1) + [0]
  }

  /** The descriptor the plan loop stores in slot `i`. */
  function PlannedPart(fSize: nat, i: nat): FilePart
    requires i < ThreadCount(fSize)
  {
    FilePart(i, Start(fSize, i), Zeros(PartLength(fSize, i)), PartLength(fSize, i), 0, None)
  }

  /** The whole plan, part 0 first. */
  function Plan(fSize: nat): seq<FilePart>
  {
    seq(ThreadCount(fSize), i requires 0 <= i < ThreadCount(fSize) => PlannedPart(fSize, i))
  }

  /** Where part `i` starts, for `i` up to the number of parts; the end of the file for the last. */
  function Boundary(fSize: nat, i: nat): nat
    requires i <= ThreadCount(fSize)
  {
    if i < ThreadCount(fSize) then Start(fSize, i) else fSize
  }

  /** The start offset of part `i` is `i * ChunkSize`. */
  lemma {:induction false} StartIsMultiple(fSize: nat, i: nat)
    ensures Start(fSize, i) == i * ChunkSize(fSize)
  {
    if i > 0 {
      StartIsMultiple(fSize, i - 1);
      MulSucc(i - 1, ChunkSize(fSize));
    }
  }

  /** Sum of the requested lengths. */
  function TotalRequested(parts: seq<FilePart>): nat
  {
    if parts == [] then 0 else TotalRequested(parts[..|parts| - 1]) + parts[|parts| - 1].lengthRequested
  }

  /** Part `i` of the plan covers exactly [Boundary(i), Boundary(i + 1)). */
  lemma PartBounds(fSize: nat, i: nat)
    requires i < ThreadCount(fSize)
    ensures Plan(fSize)[i].startReadingByte == Boundary(fSize, i)
    ensures Plan(fSize)[i].startReadingByte + Plan(fSize)[i].lengthRequested == Boundary(fSize, i + 1)
  {
    var n := ThreadCount(fSize);
    assert Plan(fSize)[i] == PlannedPart(fSize, i);
    LastChunkBounds(fSize);
    if i == n - 1 {
      StartIsMultiple(fSize, i);
    }
  }

  /**
   * Each part of the plan: part `i` is numbered `i`, starts at
   * `i * ChunkSize` and carries a zero buffer of its requested length.
   */
  lemma PlanParts(fSize: nat)
    ensures |Plan(fSize)| == ThreadCount(fSize)
    ensures forall i :: 0 <= i < |Plan(fSize)| ==>
              Plan(fSize)[i].partNumber == i
              && Plan(fSize)[i].startReadingByte == i * ChunkSize(fSize)
              && Plan(fSize)[i].content == Zeros(Plan(fSize)[i].lengthRequested)
              && Plan(fSize)[i].error.None?
  {
    var plan := Plan(fSize);
    forall i | 0 <= i < |plan|
      ensures plan[i].partNumber == i && plan[i].startReadingByte == i * ChunkSize(fSize)
      ensures plan[i].content == Zeros(plan[i].lengthRequested) && plan[i].error.None?
    {
      assert plan[i] == PlannedPart(fSize, i);
      StartIsMultiple(fSize, i);
    }
  }

  /**
   * The plan tiles the file: every part but the last requests ChunkSize
   * bytes, and the parts follow each other without gap or overlap from
   * byte 0 to the end of the file.
   */
  lemma PlanTiles(fSize: nat)
    ensures |Plan(fSize)| == ThreadCount(fSize)
    ensures Plan(fSize)[0].startReadingByte == 0
    ensures forall i :: 0 <= i < |Plan(fSize)| - 1 ==>
              Plan(fSize)[i].lengthRequested == ChunkSize(fSize)
              && Plan(fSize)[i].startReadingByte + Plan(fSize)[i].lengthRequested == Plan(fSize)[i + 1].startReadingByte
    ensures Plan(fSize)[|Plan(fSize)| - 1].lengthRequested <= ChunkSize(fSize)
    ensures Plan(fSize)[|Plan(fSize)| - 1].startReadingByte + Plan(fSize)[|Plan(fSize)| - 1].lengthRequested == fSize
  {
    var n, plan := ThreadCount(fSize), Plan(fSize);
    LastChunkBounds(fSize);
    PartBounds(fSize, 0);
    forall i | 0 <= i < n - 1
      ensures plan[i].lengthRequested == ChunkSize(fSize)
      ensures plan[i].startReadingByte + plan[i].lengthRequested == plan[i + 1].startReadingByte
    {
      assert plan[i] == PlannedPart(fSize, i);
      PartBounds(fSize, i);
      PartBounds(fSize, i + 1);
    }
    assert plan[n - 1] == PlannedPart(fSize, n - 1);
    PartBounds(fSize, n - 1);
  }

  /** The requested lengths of the first `i` parts add up to Boundary(i); all of them add up to the file size. */
  lemma {:induction false} PlanPrefixTotal(fSize: nat, i: nat)
    requires i <= ThreadCount(fSize)
    ensures TotalRequested(Plan(fSize)[..i]) == Boundary(fSize, i)
  {
    if i > 0 {
      PlanPrefixTotal(fSize, i - 1);
      assert Plan(fSize)[..i][..i - 1] == Plan(fSize)[..i - 1];
      PartBounds(fSize, i - 1);
    }
  }

  lemma PlanTotal(fSize: nat)
    ensures TotalRequested(Plan(fSize)) == fSize
  {
    PlanPrefixTotal(fSize, ThreadCount(fSize));
    assert Plan(fSize)[..ThreadCount(fSize)] == Plan(fSize);
  }

  predicate Covers(part: FilePart, b: nat)
  {
    part.startReadingByte <= b < part.startReadingByte + part.lengthRequested
  }

  /** Every byte of the file lies in exactly one part of the plan. */
  lemma PlanPartition(fSize: nat, b: nat)
    requires b < fSize
    ensures exists i :: 0 <= i < |Plan(fSize)| && Covers(Plan(fSize)[i], b)
    ensures forall i, j :: (0 <= i < |Plan(fSize)| && 0 <= j < |Plan(fSize)|
              && Covers(Plan(fSize)[i], b) && Covers(Plan(fSize)[j], b)) ==> i == j
  {
    var n := ThreadCount(fSize);
    var q := OwnerOf(fSize, b);
    assert Covers(Plan(fSize)[q], b);
    forall i, j | 0 <= i < n && 0 <= j < n && Covers(Plan(fSize)[i], b) && Covers(Plan(fSize)[j], b)
      ensures i == j
    {
      if i < j {
        PartsOrdered(fSize, i, j);
      } else if j < i {
        PartsOrdered(fSize, j, i);
      }
    }
  }

  /** A part that holds byte `b`: part b / ChunkSize. */
  lemma OwnerOf(fSize: nat, b: nat) returns (q: nat)
    requires b < fSize
    ensures q < ThreadCount(fSize) && Covers(Plan(fSize)[q], b)
  {
    var n, c := ThreadCount(fSize), ChunkSize(fSize);
    ChunkSizeBounds(fSize);
    q := Quotient(b, c, n, fSize);
    StartIsMultiple(fSize, q);
    PartBounds(fSize, q);
  }

  /** The quotient of a byte offset below `f` by the chunk size `c` is a part index. */
  lemma Quotient(b: nat, c: nat, n: nat, f: nat) returns (q: nat)
    requires b < f <= c * n
    ensures q < n && q * c <= b < q * c + c
  {
    assert c > 0;
    q := b / c;
    DivBounds(b, c);
    if q >= n {
      MulMono(n, q, c);
    }
  }

  lemma DivBounds(b: nat, c: nat)
    requires c > 0
    ensures (b / c) * c <= b < (b / c) * c + c
  {
    assert b == (b / c) * c + b % c;
  }

  /** An earlier part ends no later than a later part starts. */
  lemma PartsOrdered(fSize: nat, i: nat, j: nat)
    requires i < j < ThreadCount(fSize)
    ensures Plan(fSize)[i].startReadingByte + Plan(fSize)[i].lengthRequested <= Plan(fSize)[j].startReadingByte
  {
    PartBounds(fSize, i);
    PartBounds(fSize, j);
    StartMono(fSize, i + 1, j);
  }

  /** No boundary lies beyond the end of the file. */
  lemma BoundaryWithinFile(fSize: nat, i: nat)
    requires i <= ThreadCount(fSize)
    ensures Boundary(fSize, i) <= fSize
  {
    var n := ThreadCount(fSize);
    if i < n {
      PartBounds(fSize, n - 1);
      StartMono(fSize, i, n - 1);
    }
  }

  lemma {:induction false} StartMono(fSize: nat, i: nat, j: nat)
    requires i <= j
    ensures Start(fSize, i) <= Start(fSize, j)
    decreases j
  {
    if i < j {
      StartMono(fSize, i, j - 1);
    }
  }

  lemma MulSucc(i: nat, c: nat)
    ensures (i + 1) * c == i * c + c
  {
  }

  lemma MulMono(a: nat, b: nat, c: nat)
    requires a <= b
    ensures a * c <= b * c
  {
  }

  /** When the worker count divides the size, all parts are equal. */
  lemma PlanEvenSplit(fSize: nat)
    requires fSize % ThreadCount(fSize) == 0
    ensures forall i :: 0 <= i < |Plan(fSize)| ==> Plan(fSize)[i].lengthRequested == fSize / ThreadCount(fSize)
  {
    var n := ThreadCount(fSize);
    assert fSize == (fSize / n) * n;
    assert ChunkSize(fSize) == fSize / n;
  }

  /** An empty file is read as one empty part at offset 0. */
  lemma PlanOfEmptyFile()
    ensures Plan(0) == [FilePart(0, 0, [], 0, 0, None)]
  {
    PlanOfOnePart(0);
    EmptyFilePart();
  }

  lemma PlanOfOnePart(fSize: nat)
    requires fSize <= 1048576
    ensures Plan(fSize) == [PlannedPart(fSize, 0)]
  {
    var plan := Plan(fSize);
    assert |plan| == 1;
    assert plan[0] == PlannedPart(fSize, 0);
  }

  lemma EmptyFilePart()
    ensures PlannedPart(0, 0) == FilePart(0, 0, [], 0, 0, None)
  {
    assert PartLength(0, 0) == 0;
  }

  /** The size thresholds at their boundaries. */
  lemma ThreadCountBoundaries()
    ensures ThreadCount(1048576) == 1 && ThreadCount(1048577) == 8
    ensures ThreadCount(134217728) == 8 && ThreadCount(134217729) == 16
  {
  }

  /**
   * The plan loop: fills slot `i` with the descriptor of part `i`, the last
   * slot with the last part's length, and advances the start offset by
   * ChunkSize each time.
   */
  method MakePlan(fSize: nat) returns (fileInChunks: array<FilePart>)
    ensures fresh(fileInChunks)
    ensures fileInChunks[..] == Plan(fSize)
  {
    var numberOfThreads := ThreadCount(fSize);
    var chunkSize := ChunkSize(fSize);
    LastChunkBounds(fSize);
    var lastChunkSize: nat := LastChunkSize(fSize);
    fileInChunks := new FilePart[numberOfThreads];
    var startIndex := 0;
    var i := 0;
    while i < numberOfThreads
      invariant 0 <= i <= numberOfThreads
      invariant startIndex == Start(fSize, i)
      invariant forall k :: 0 <= k < i ==> fileInChunks[k] == PlannedPart(fSize, k)
    {
      fileInChunks[i] := FilePart(i, startIndex, Zeros(chunkSize), chunkSize, 0, None);
      if i == numberOfThreads - 1 {
        fileInChunks[i] := FilePart(i, startIndex, Zeros(lastChunkSize), lastChunkSize, 0, None);
      }
      startIndex := startIndex + chunkSize;
      i := i + 1;
    }
  }
}
