/**
 * FastLoadTxtFile: the file read by MultithreadedRead, split into trimmed
 * lines by splitToLines, and, when the caller asks for it, ErrFileEmpty
 * instead of an empty result.
 */
module FastLoad {
  import opened Results
  import opened Text
  import opened Paths
  import opened ChunkPlan
  import opened ParallelRead
  import opened LineSplit

  /** The errors of FastLoadTxtFile: an error of MultithreadedRead passed on, or ErrFileEmpty. */
  datatype LoadError = ReadFailed(cause: ReadError) | FileEmpty

  /** The last check of FastLoadTxtFile: no lines at all is ErrFileEmpty when the caller asks for it. */
  function EmptyCheck(lines: seq<Line>, returnErrorOnEmptyFile: bool): (r: Result<seq<Line>, LoadError>)
    ensures r.Err? <==> returnErrorOnEmptyFile && lines == []
    ensures r.Err? ==> r.error == FileEmpty
    ensures r.Ok? ==> r.value == lines
  {
    if returnErrorOnEmptyFile && |lines| == 0 then Err(FileEmpty) else Ok(lines)
  }

  /**
   * The outcome of FastLoadTxtFile: the error of the read, or the lines of
   * the contents read, checked for emptiness. On an error the Go function
   * also returns an empty slice of lines, which the Err value stands for.
   */
  function LoadOutcome(path: string, disk: map<string, seq<byte>>, openFault: Option<IoError>,
                       faults: map<nat, IoError>, arrival: seq<nat>,
                       allowEmptyLines: bool, returnErrorOnEmptyFile: bool): Result<seq<Line>, LoadError>
    requires path in disk ==> IsArrivalOrder(arrival, ThreadCount(|disk[path]|))
  {
    var read := ReadOutcome(path, disk, openFault, faults, arrival);
    if read.Err? then Err(ReadFailed(read.error))
    else EmptyCheck(Lines(read.value, allowEmptyLines), returnErrorOnEmptyFile)
  }

  /** The read of `path` succeeds: the path is well formed, the file exists and opens, and no worker faults on a non-empty part. */
  predicate ReadSucceeds(path: string, disk: map<string, seq<byte>>, openFault: Option<IoError>, faults: map<nat, IoError>)
  {
    SyntaxError(path).None? && path in disk && openFault.None? && NoPartFails(|disk[path]|, faults)
  }

  /**
   * What FastLoadTxtFile promises: ErrFileEmpty exactly when the read
   * succeeds, the caller asks for the check, empty lines are dropped and
   * the file holds nothing but white space; os.ErrNotExist, passed on, for
   * a well-formed path naming no file; otherwise, on success, the lines of
   * the whole file.
   */
  lemma LoadOutcomeCases(path: string, disk: map<string, seq<byte>>, openFault: Option<IoError>,
                         faults: map<nat, IoError>, arrival: seq<nat>,
                         allowEmptyLines: bool, returnErrorOnEmptyFile: bool)
    requires path in disk ==> IsArrivalOrder(arrival, ThreadCount(|disk[path]|))
    ensures var r := LoadOutcome(path, disk, openFault, faults, arrival, allowEmptyLines, returnErrorOnEmptyFile);
      && (r == Err(FileEmpty) <==>
            ReadSucceeds(path, disk, openFault, faults) && returnErrorOnEmptyFile && !allowEmptyLines && AllSpace(disk[path]))
      && (r.Ok? <==>
            ReadSucceeds(path, disk, openFault, faults) && !(returnErrorOnEmptyFile && !allowEmptyLines && AllSpace(disk[path])))
      && (r.Ok? ==> r.value == Lines(disk[path], allowEmptyLines))
      && (SyntaxError(path).None? && path !in disk ==> r == Err(ReadFailed(NotExist)))
  {
    ReadOutcomeCases(path, disk, openFault, faults, arrival);
    if path in disk {
      LinesEmptyIffBlank(disk[path]);
    }
  }

  /** With empty lines allowed, FastLoadTxtFile never reports ErrFileEmpty, not even for an empty file. */
  lemma AllowedEmptyLinesNeverEmpty(path: string, disk: map<string, seq<byte>>, openFault: Option<IoError>,
                                    faults: map<nat, IoError>, arrival: seq<nat>, returnErrorOnEmptyFile: bool)
    requires path in disk ==> IsArrivalOrder(arrival, ThreadCount(|disk[path]|))
    ensures LoadOutcome(path, disk, openFault, faults, arrival, true, returnErrorOnEmptyFile) != Err(FileEmpty)
  {
    LoadOutcomeCases(path, disk, openFault, faults, arrival, true, returnErrorOnEmptyFile);
  }

  /** FastLoadTxtFile: read the file, split it into lines, and report an empty result if asked to. */
  method FastLoadTxtFile(path: string, disk: map<string, seq<byte>>, openFault: Option<IoError>,
                         faults: map<nat, IoError>, arrival: seq<nat>,
                         allowEmptyLines: bool, returnErrorOnEmptyFile: bool)
      returns (r: Result<seq<Line>, LoadError>)
    requires path in disk ==> IsArrivalOrder(arrival, ThreadCount(|disk[path]|))
    ensures r == LoadOutcome(path, disk, openFault, faults, arrival, allowEmptyLines, returnErrorOnEmptyFile)
  {
    var rawData := MultithreadedRead(path, disk, openFault, faults, arrival);
    if rawData.Err? {
      return Err(ReadFailed(rawData.error));
    }
    var lines := SplitToLines(rawData.value, allowEmptyLines);
    if returnErrorOnEmptyFile && |lines| == 0 {
      return Err(FileEmpty);
    }
    return Ok(lines);
  }
}
