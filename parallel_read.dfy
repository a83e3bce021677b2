/**
 * MultithreadedRead: each worker reads its part of the file with ReadAt,
 * the receive loop stores the parts that come back over the channel in
 * whatever order they arrive and collects their error messages, and the
 * assembly loop concatenates the parts in plan order.
 *
 * The file system is a map from paths to contents. The failure of
 * os.OpenFile and the failure of the ReadAt call of a part are parameters,
 * and the order in which the workers finish is the sequence `arrival` of
 * part numbers.
 */
module ParallelRead {
  import opened Results
  import opened Text
  import opened Paths
  import opened ChunkPlan

  datatype ReadError =
    | InvalidPath(reason: PathError)
    | NotExist
    | OpenFailed(cause: IoError)
    | PartsFailed(message: string)
    | SizeMismatch(expected: int, got: int)

  /** How many bytes ReadAt can deliver into a buffer of `len` bytes at offset `start`. */
  function Available(fileLen: nat, start: nat, len: nat): (n: nat)
    ensures n <= len && (n == 0 || start + n <= fileLen)
    ensures start + len <= fileLen ==> n == len
    ensures n < len ==> start + n >= fileLen
  {
    if start >= fileLen then 0
    else if len <= fileLen - start then len
    else fileLen - start
  }

  /**
   * The worker readChunkFn: f.ReadAt(part.content, part.startReadingByte).
   * Without a fault it copies the file bytes under the buffer into it and
   * records their number; a short read (io.EOF) is not an error. A fault
   * is recorded as the part's error; an empty buffer never reaches the
   * operating system, so it never faults.
   */
  function ReadChunk(file: seq<byte>, part: FilePart, fault: Option<IoError>): (r: FilePart)
    ensures r.partNumber == part.partNumber && r.startReadingByte == part.startReadingByte
    ensures r.lengthRequested == part.lengthRequested && |r.content| == |part.content|
    ensures r.error == (if fault.Some? && part.content != [] then fault else part.error)
    ensures fault.None? || part.content == [] ==>
              r.lengthRead == Available(|file|, part.startReadingByte, |part.content|)
              && forall k :: 0 <= k < |r.content| ==>
                   r.content[k] == if part.startReadingByte + k < |file| then file[part.startReadingByte + k] else part.content[k]
  {
    if fault.Some? && part.content != [] then
      part.(error := fault, lengthRead := 0)
    else
      var n := Available(|file|, part.startReadingByte, |part.content|);
      var copied := if n == 0 then [] else file[part.startReadingByte..part.startReadingByte + n];
      part.(content := copied + part.content[n..], lengthRead := n)
  }

  /** The fault injected into the worker of part `i`, if any. */
  function FaultOf(faults: map<nat, IoError>, i: nat): Option<IoError>
  {
    if i in faults then Some(faults[i]) else None
  }

  /** What each worker sends back over the channel, indexed by part. */
  function ReadAll(file: seq<byte>, plan: seq<FilePart>, faults: map<nat, IoError>): (results: seq<FilePart>)
    ensures |results| == |plan|
  {
    seq(|plan|, i requires 0 <= i < |plan| => ReadChunk(file, plan[i], FaultOf(faults, i)))
  }

  /**
   * The order in which the `n` workers finish: each part number below `n`
   * arrives, and only those, `n` times in all (so a permutation of 0..n-1).
   */
  predicate IsArrivalOrder(arrival: seq<nat>, n: nat)
  {
    |arrival| == n
    && (forall k :: 0 <= k < |arrival| ==> arrival[k] < n)
    && (forall i :: 0 <= i < n ==> i in arrival)
  }

  /** What the receive loop adds to the error message for one part. */
  function ErrorPiece(part: FilePart): string
  {
    if part.error.Some? then part.error.value.msg + "; " else ""
  }

  /**
   * The error message the receive loop builds from the parts taken off the
   * channel in the order `arrival`. Only part numbers of the plan arrive; a
   * number outside it would add nothing.
   */
  function ErrorText(results: seq<FilePart>, arrival: seq<nat>): string
  {
    if arrival == [] then ""
    else
      var last := arrival[|arrival| - 1];
      ErrorText(results, arrival[..|arrival| - 1]) + (if last < |results| then ErrorPiece(results[last]) else "")
  }

  /** The concatenation of the parts' buffers, in order. */
  function Assembled(parts: seq<FilePart>): seq<byte>
  {
    if parts == [] then [] else Assembled(parts[..|parts| - 1]) + parts[|parts| - 1].content
  }

  /** No worker of the plan of a `fSize`-byte file faults (a fault on an empty part stays silent). */
  predicate NoPartFails(fSize: nat, faults: map<nat, IoError>)
  {
    forall i :: 0 <= i < ThreadCount(fSize) && i in faults ==> PartLength(fSize, i) == 0
  }

  /**
   * The outcome of MultithreadedRead: the path's syntax error, os.ErrNotExist
   * from os.Stat, the error of os.OpenFile, the collected error message of
   * the failed parts, or the file's contents.
   */
  function ReadOutcome(path: string, disk: map<string, seq<byte>>, openFault: Option<IoError>,
                       faults: map<nat, IoError>, arrival: seq<nat>): Result<seq<byte>, ReadError>
    requires path in disk ==> IsArrivalOrder(arrival, ThreadCount(|disk[path]|))
  {
    if SyntaxError(path).Some? then Err(InvalidPath(SyntaxError(path).value))
    else if path !in disk then Err(NotExist)
    else if openFault.Some? then Err(OpenFailed(openFault.value))
    else
      var file := disk[path];
      var results := ReadAll(file, Plan(|file|), faults);
      var message := ErrorText(results, arrival);
      if message != "" then Err(PartsFailed(message)) else Ok(file)
  }

  // ---------------------------------------------------------------------
  // Error collection
  // ---------------------------------------------------------------------

  /** The message is empty exactly when no part taken off the channel carries an error. */
  lemma {:induction false} ErrorTextEmptyIff(results: seq<FilePart>, arrival: seq<nat>)
    requires forall k :: 0 <= k < |arrival| ==> arrival[k] < |results|
    ensures ErrorText(results, arrival) == "" <==> forall k :: 0 <= k < |arrival| ==> results[arrival[k]].error.None?
  {
    if arrival != [] {
      var init := arrival[..|arrival| - 1];
      ErrorTextEmptyIff(results, init);
      assert forall k :: 0 <= k < |init| ==> init[k] == arrival[k];
    }
  }

  /** Taking one more part off the channel appends its piece to the message. */
  lemma ErrorTextStep(results: seq<FilePart>, arrival: seq<nat>, j: nat)
    requires j < |arrival| && arrival[j] < |results|
    ensures ErrorText(results, arrival[..j + 1]) == ErrorText(results, arrival[..j]) + ErrorPiece(results[arrival[j]])
  {
    assert arrival[..j + 1][..j] == arrival[..j];
  }

  /** Every part arrives, so the parts received are error-free exactly when all results are. */
  lemma ArrivedErrorsIff(results: seq<FilePart>, arrival: seq<nat>)
    requires IsArrivalOrder(arrival, |results|)
    ensures (forall k :: 0 <= k < |arrival| ==> results[arrival[k]].error.None?)
            <==> (forall i :: 0 <= i < |results| ==> results[i].error.None?)
  {
    if forall k :: 0 <= k < |arrival| ==> results[arrival[k]].error.None? {
      forall i | 0 <= i < |results|
        ensures results[i].error.None?
      {
        assert i in arrival;
        var k :| 0 <= k < |arrival| && arrival[k] == i;
      }
    }
  }

  /** A part of the plan comes back with an error exactly when its worker faults on a non-empty part. */
  lemma ReadAllError(file: seq<byte>, faults: map<nat, IoError>, i: nat)
    requires i < ThreadCount(|file|)
    ensures ReadAll(file, Plan(|file|), faults)[i].error.Some?
            <==> i in faults && PartLength(|file|, i) > 0
  {
    assert Plan(|file|)[i] == PlannedPart(|file|, i);
  }

  /** The read is free of part errors exactly when no worker faults on a non-empty part. */
  lemma ReadAllErrorsIff(file: seq<byte>, faults: map<nat, IoError>)
    ensures (forall i :: 0 <= i < ThreadCount(|file|) ==> ReadAll(file, Plan(|file|), faults)[i].error.None?)
            <==> NoPartFails(|file|, faults)
  {
    forall i | 0 <= i < ThreadCount(|file|) {
      ReadAllError(file, faults, i);
    }
  }

  /** Every result carries its own part number. */
  lemma ReadAllNumbers(file: seq<byte>, faults: map<nat, IoError>)
    ensures forall i :: 0 <= i < ThreadCount(|file|) ==> ReadAll(file, Plan(|file|), faults)[i].partNumber == i
  {
    PlanParts(|file|);
  }

  // ---------------------------------------------------------------------
  // Assembly
  // ---------------------------------------------------------------------

  /** Without a fault, part `i` brings back the bytes of the file between its boundaries. */
  lemma ReadPartOfPlan(file: seq<byte>, faults: map<nat, IoError>, i: nat)
    requires i < ThreadCount(|file|)
    requires i !in faults || PartLength(|file|, i) == 0
    ensures Boundary(|file|, i) <= Boundary(|file|, i + 1) <= |file|
    ensures ReadAll(file, Plan(|file|), faults)[i].content == file[Boundary(|file|, i)..Boundary(|file|, i + 1)]
  {
    var part := Plan(|file|)[i];
    assert part == PlannedPart(|file|, i);
    PartBounds(|file|, i);
    BoundaryWithinFile(|file|, i + 1);
    var r := ReadAll(file, Plan(|file|), faults)[i];
    assert r == ReadChunk(file, part, FaultOf(faults, i));
    var s, e := Boundary(|file|, i), Boundary(|file|, i + 1);
    assert forall k :: 0 <= k < |r.content| ==> r.content[k] == file[s + k];
  }

  lemma AssembledSnoc(parts: seq<FilePart>, i: nat)
    requires i < |parts|
    ensures Assembled(parts[..i + 1]) == Assembled(parts[..i]) + parts[i].content
  {
    assert parts[..i + 1][..i] == parts[..i];
  }

  lemma SliceJoin(file: seq<byte>, b0: nat, b1: nat)
    requires b0 <= b1 <= |file|
    ensures file[..b0] + file[b0..b1] == file[..b1]
  {
  }

  /** The first `i` parts, read without faults, assemble to the file up to Boundary(i). */
  lemma {:induction false} AssembledPrefix(file: seq<byte>, faults: map<nat, IoError>, i: nat)
    requires i <= ThreadCount(|file|)
    requires NoPartFails(|file|, faults)
    ensures Boundary(|file|, i) <= |file|
    ensures Assembled(ReadAll(file, Plan(|file|), faults)[..i]) == file[..Boundary(|file|, i)]
  {
    var results := ReadAll(file, Plan(|file|), faults);
    BoundaryWithinFile(|file|, i);
    if i > 0 {
      AssembledPrefix(file, faults, i - 1);
      ReadPartOfPlan(file, faults, i - 1);
      AssembledSnoc(results, i - 1);
      SliceJoin(file, Boundary(|file|, i - 1), Boundary(|file|, i));
    }
  }

  /** Round trip: the parts of a fault-free read assemble to exactly the file. */
  lemma AssembledReadIsFile(file: seq<byte>, faults: map<nat, IoError>)
    requires NoPartFails(|file|, faults)
    ensures Assembled(ReadAll(file, Plan(|file|), faults)) == file
  {
    var results := ReadAll(file, Plan(|file|), faults);
    AssembledPrefix(file, faults, ThreadCount(|file|));
    assert results[..ThreadCount(|file|)] == results;
  }

  /** The first `i` parts, faulty or not, assemble to Boundary(i) bytes. */
  lemma {:induction false} AssembledPrefixLength(file: seq<byte>, faults: map<nat, IoError>, i: nat)
    requires i <= ThreadCount(|file|)
    ensures |Assembled(ReadAll(file, Plan(|file|), faults)[..i])| == Boundary(|file|, i)
  {
    var results := ReadAll(file, Plan(|file|), faults);
    if i > 0 {
      AssembledPrefixLength(file, faults, i - 1);
      AssembledSnoc(results, i - 1);
      assert Plan(|file|)[i - 1] == PlannedPart(|file|, i - 1);
      PartBounds(|file|, i - 1);
    }
  }

  /**
   * The assembled buffer always has the file's size, whichever parts
   * fault: the size check after the assembly loop cannot fire.
   */
  lemma AssembledLength(file: seq<byte>, faults: map<nat, IoError>)
    ensures |Assembled(ReadAll(file, Plan(|file|), faults))| == |file|
  {
    var results := ReadAll(file, Plan(|file|), faults);
    AssembledPrefixLength(file, faults, ThreadCount(|file|));
    assert results[..ThreadCount(|file|)] == results;
  }

  /**
   * MultithreadedRead succeeds exactly when the path is well formed, names
   * an existing file that opens, and no worker faults on a non-empty part;
   * it then returns the file's contents, whatever order the parts arrive
   * in. When a part fails the message is not empty.
   */
  lemma ReadOutcomeCases(path: string, disk: map<string, seq<byte>>, openFault: Option<IoError>,
                         faults: map<nat, IoError>, arrival: seq<nat>)
    requires path in disk ==> IsArrivalOrder(arrival, ThreadCount(|disk[path]|))
    ensures var r := ReadOutcome(path, disk, openFault, faults, arrival);
      && (r.Ok? <==> SyntaxError(path).None? && path in disk && openFault.None? && NoPartFails(|disk[path]|, faults))
      && (r.Ok? ==> r.value == disk[path])
      && (r.Err? && r.error.PartsFailed? ==> r.error.message != "")
      && (SyntaxError(path).None? && path !in disk ==> r == Err(NotExist))
      && !(r.Err? && r.error.SizeMismatch?)
  {
    if SyntaxError(path).None? && path in disk && openFault.None? {
      var file := disk[path];
      var results := ReadAll(file, Plan(|file|), faults);
      ErrorTextEmptyIff(results, arrival);
      ArrivedErrorsIff(results, arrival);
      ReadAllErrorsIff(file, faults);
    }
  }

  // ---------------------------------------------------------------------
  // The loops of MultithreadedRead
  // ---------------------------------------------------------------------

  /**
   * The receive loop: takes `n` parts off the channel in arrival order,
   * appends the message of each failed one to the error text and stores
   * each part in its slot.
   */
  method Collect(fileInChunks: array<FilePart>, results: seq<FilePart>, arrival: seq<nat>)
      returns (errMessage: string)
    requires 0 < fileInChunks.Length == |results|
    requires forall i :: 0 <= i < |results| ==> results[i].partNumber == i
    requires IsArrivalOrder(arrival, |results|)
    modifies fileInChunks
    ensures fileInChunks[..] == results
    ensures errMessage == ErrorText(results, arrival)
  {
    var numberOfThreads := fileInChunks.Length;
    var receivedFragments := 0;
    errMessage := "";
    while true
      invariant 0 <= receivedFragments < numberOfThreads
      invariant errMessage == ErrorText(results, arrival[..receivedFragments])
      invariant Received(fileInChunks[..], results, arrival, receivedFragments)
      decreases numberOfThreads - receivedFragments
    {
      var fPart := results[arrival[receivedFragments]];
      ErrorTextStep(results, arrival, receivedFragments);
      if fPart.error.Some? {
        errMessage := errMessage + (fPart.error.value.msg + "; ");
      }
      assert fPart.partNumber == arrival[receivedFragments];
      ghost var before := fileInChunks[..];
      fileInChunks[fPart.partNumber] := fPart;
      assert fileInChunks[..] == before[fPart.partNumber := fPart];
      ReceivedStep(before, results, arrival, receivedFragments);
      receivedFragments := receivedFragments + 1;
      if receivedFragments == numberOfThreads {
        break;
      }
    }
    assert arrival[..receivedFragments] == arrival;
    EverySlotReceived(fileInChunks[..], results, arrival);
  }

  /** The slots of the first `j` parts to arrive hold those parts. */
  predicate Received(slots: seq<FilePart>, results: seq<FilePart>, arrival: seq<nat>, j: nat)
  {
    j <= |arrival| && forall k :: 0 <= k < j ==> arrival[k] < |slots| && arrival[k] < |results| && slots[arrival[k]] == results[arrival[k]]
  }

  /** Storing the next part to arrive in its slot extends the parts received by one. */
  lemma ReceivedStep(slots: seq<FilePart>, results: seq<FilePart>, arrival: seq<nat>, j: nat)
    requires Received(slots, results, arrival, j) && j < |arrival|
    requires arrival[j] < |slots| && arrival[j] < |results|
    ensures Received(slots[arrival[j] := results[arrival[j]]], results, arrival, j + 1)
  {
  }

  /** Once every part number has arrived, every slot holds its own part. */
  lemma EverySlotReceived(slots: seq<FilePart>, results: seq<FilePart>, arrival: seq<nat>)
    requires |slots| == |results|
    requires IsArrivalOrder(arrival, |results|)
    requires Received(slots, results, arrival, |arrival|)
    ensures slots == results
  {
    forall i | 0 <= i < |slots|
      ensures slots[i] == results[i]
    {
      assert i in arrival;
      var k :| 0 <= k < |arrival| && arrival[k] == i;
    }
  }

  /** The assembly loop: appends the parts' buffers in slot order. */
  method Assemble(fileInChunks: array<FilePart>) returns (assembledFile: seq<byte>)
    ensures assembledFile == Assembled(fileInChunks[..])
  {
    assembledFile := [];
    var i := 0;
    while i < fileInChunks.Length
      invariant 0 <= i <= fileInChunks.Length
      invariant assembledFile == Assembled(fileInChunks[..i])
    {
      assert fileInChunks[..i + 1][..i] == fileInChunks[..i];
      assembledFile := assembledFile + fileInChunks[i].content;
      i := i + 1;
    }
    assert fileInChunks[..i] == fileInChunks[..];
  }

  /**
   * MultithreadedRead: validate the path, look the file up, open it, make
   * the plan, run one worker per part, collect the parts as they arrive,
   * give up with the collected message if any part failed, and otherwise
   * assemble the parts and check the size.
   */
  method MultithreadedRead(path: string, disk: map<string, seq<byte>>, openFault: Option<IoError>,
                           faults: map<nat, IoError>, arrival: seq<nat>)
      returns (r: Result<seq<byte>, ReadError>)
    requires path in disk ==> IsArrivalOrder(arrival, ThreadCount(|disk[path]|))
    ensures r == ReadOutcome(path, disk, openFault, faults, arrival)
  {
    var syntax := SyntaxError(path);
    if syntax.Some? {
      return Err(InvalidPath(syntax.value));
    }
    if path !in disk {
      return Err(NotExist);
    }
    if openFault.Some? {
      return Err(OpenFailed(openFault.value));
    }
    var file := disk[path];
    var fSize := |file|;
    var fileInChunks := MakePlan(fSize);
    var results := ReadAll(file, fileInChunks[..], faults);
    ReadAllNumbers(file, faults);
    var errMessage := Collect(fileInChunks, results, arrival);
    if errMessage != "" {
      return Err(PartsFailed(errMessage));
    }
    var assembledFile := Assemble(fileInChunks);
    ErrorTextEmptyIff(results, arrival);
    ArrivedErrorsIff(results, arrival);
    ReadAllErrorsIff(file, faults);
    AssembledReadIsFile(file, faults);
    r := if |assembledFile| == fSize then Ok(assembledFile) else Err(SizeMismatch(fSize, |assembledFile|));
  }
}
