# file_rw: parallel chunked reading and line splitting, modelled in Dafny

This project models the read path of the Go package `file_rw`, and the path
handling of its writers.

- **FastLoadTxtFile** works in two steps:
  - it reads a file with **MultithreadedRead**;
  - it splits the bytes into trimmed lines with **splitToLines**.

  If the caller asks for it, a result with no lines becomes `ErrFileEmpty`.
- **MultithreadedRead** runs in six steps:
  1. It checks the path syntax with **validateFilePath**.
  2. It picks 1, 8 or 16 workers from the file size.
  3. It makes a reading plan of equal chunks, where only the last chunk may be shorter.
  4. Each worker reads its chunk with `ReadAt`.
  5. It collects the chunks in whatever order they come back, and remembers every chunk's error message.
  6. If nothing failed, it joins the chunks in plan order and checks the total size.
- **createFileAtPath** splits a path on `/`. When asked, it creates the directory part. It maps the mode `APPEND` or `OVERWRITE` to open flags.

The model is split into these modules:

| Module | What it holds |
|---|---|
| `Results` | Option and Result types |
| `Seqs` | Models of `strings.Split`, `strings.Join`, `bytes.Count`, `HasPrefix` and `HasSuffix` |
| `Text` | Bytes, and ASCII `strings.TrimSpace` |
| `Paths` | `validateFilePath` syntax and `createFileAtPath` |
| `ChunkPlan` | Thread count, the plan, and the plan-making loop |
| `ParallelRead` | The worker, the receive loop and the assembly loop, plus MultithreadedRead |
| `LineSplit` | `splitToLines` |
| `FastLoad` | `FastLoadTxtFile` |

Loops in the Go code are Dafny methods with loop invariants:

| Method | Loop | Proved against |
|---|---|---|
| `MakePlan` | Fills the plan array | Spec function `Plan` |
| `Collect` | The receive loop, which writes the array slot by slot | Spec function `ErrorText`; the filled slots |
| `Assemble` | The assembly loop | Spec function `Assembled` |
| `SplitToLines` | The `ReadString` loop | Spec function `Lines` |

The lemmas about these spec functions carry the properties.

**Parameters instead of the environment:**
- The file system is a map from path to contents.
- The failure of `os.OpenFile` is a parameter.
- Each worker's `ReadAt` failure is a parameter.
- The order in which workers finish is a permutation parameter, `arrival`.
- The outcome of `os.MkdirAll` is a parameter.

**Behaviour of `splitToLines` worth knowing (`file_rw.go:263-279`):**
- With `allowEmptyLines`, a final line feed gives one more, empty line: `"a\n\nb\n"` gives `"a", "", "b", ""`.
- With `allowEmptyLines`, an empty file gives one empty line (`[""]`). So `returnErrorOnEmptyFile` does not report `ErrFileEmpty` for it. `ErrFileEmpty` comes only when empty lines are dropped and the file is all white space.

## Model

| member | source | states |
|---|---|---|
| ChunkPlan.ThreadCount | file_rw.go:153-159 | The worker count is 1, 8 or 16. It is 1 exactly when the file has at most 1048576 bytes, and 16 exactly when it has more than 134217728. |
| ChunkPlan.ThreadCountBoundaries | file_rw.go:153-159 | At the thresholds: 1048576 gives 1, 1048577 gives 8, 134217728 gives 8 and 134217729 gives 16. |
| ChunkPlan.ChunkSizeBounds | file_rw.go:162 | The chunk size is the ceiling of fSize over the worker count. The chunks cover the file with less than one byte per worker to spare, and a non-empty file has non-empty chunks. |
| ChunkPlan.LastChunkBounds | file_rw.go:163 | The last chunk's length is between 0 and the chunk size, so the plan never asks for a negative length. It is 0 only for the empty file. |
| ChunkPlan.PlanParts | file_rw.go:164-186 | There is one part per worker. Part i has number i, starts at i times the chunk size, has a zeroed buffer of its requested length, and has no error. |
| ChunkPlan.Zeros | file_rw.go:171-180 | make([]byte, n) gives n bytes, every one of them zero. |
| ChunkPlan.PartBounds | file_rw.go:165-185 | Part i runs from boundary i to boundary i+1. |
| ChunkPlan.PlanTiles | file_rw.go:162-186 | The plan starts at byte 0. Each part ends where the next starts, every part but the last has the chunk size, and the last ends at fSize and is no longer than a chunk. |
| ChunkPlan.PlanTotal | file_rw.go:162-186 | The requested lengths add up to the file size. |
| ChunkPlan.PlanPartition | file_rw.go:162-186 | Every byte of the file is covered by exactly one part. |
| ChunkPlan.PartsOrdered | file_rw.go:165-185 | Earlier parts end before later parts start, so the parts do not overlap. |
| ChunkPlan.PlanEvenSplit | file_rw.go:162-183 | When the worker count divides the size, every part has the same length, fSize divided by the count. |
| ChunkPlan.PlanOfEmptyFile | file_rw.go:153-186 | An empty file gets one empty part at offset 0, with no division by zero. |
| ChunkPlan.PlanOfOnePart | file_rw.go:153-186 | A file of at most 1 MiB is read as a single part. |
| ChunkPlan.MakePlan | file_rw.go:161-186 | The planning loop returns a fresh array whose contents are the plan. |
| ParallelRead.Available | file_rw.go:195 | ReadAt delivers the whole buffer when the file holds it. Otherwise it delivers exactly the bytes up to the end of the file. |
| ParallelRead.ReadChunk | file_rw.go:192-204 | The worker keeps the part's number, offset and length. Without a fault, it copies the file bytes under the buffer and records their count; a short read (io.EOF) is not an error. A fault becomes the part's error. |
| ParallelRead.ReadAllError | file_rw.go:195-199 | A fault injected into a worker with a non-empty buffer is recorded on its part. |
| ParallelRead.ReadAllErrorsIff | file_rw.go:195-199 | No part carries an error exactly when no worker of a non-empty part faults. |
| ParallelRead.ReadAllNumbers | file_rw.go:168-169 | Each part comes back with its own number, so slot fPart.partNumber is its slot. |
| ParallelRead.ReadPartOfPlan | file_rw.go:195-201 | A part that does not fault comes back holding exactly the file bytes between its two boundaries. |
| ParallelRead.ErrorTextEmptyIff | file_rw.go:213-218 | The collected error message is empty exactly when no part taken off the channel carries an error. |
| ParallelRead.ErrorTextStep | file_rw.go:216-217 | Each received part appends its error text plus "; " to the message, or nothing. |
| ParallelRead.ArrivedErrorsIff | file_rw.go:213-226 | Because every part arrives once, "no arrived part failed" is the same as "no part failed". |
| ParallelRead.ReceivedStep | file_rw.go:220 | Storing the next arrival in its slot keeps every slot received so far and adds one. |
| ParallelRead.EverySlotReceived | file_rw.go:220-225 | After all parts have arrived, every slot holds its part. |
| ParallelRead.Collect | file_rw.go:210-226 | After the receive loop, the array holds every worker's part in its own slot, whatever the arrival order. The message is the error text of the parts in arrival order. |
| ParallelRead.Assemble | file_rw.go:236-240 | The assembly loop returns the parts' buffers joined in slot order. |
| ParallelRead.AssembledPrefix | file_rw.go:238-240 | When no part fails, the first i parts join to the file up to boundary i. |
| ParallelRead.AssembledReadIsFile | file_rw.go:236-247 | When no part fails, the assembled bytes are the file. |
| ParallelRead.AssembledLength | file_rw.go:242-244 | The assembled length always equals the file size, so the size check never fires. |
| ParallelRead.ReadOutcomeCases | file_rw.go:128-248 | The read succeeds exactly when the path is well formed, the file exists and opens, and no non-empty part faults. It then returns the file's contents. A missing file gives os.ErrNotExist, a failure's message is non-empty, and no size mismatch ever occurs. |
| ParallelRead.MultithreadedRead | file_rw.go:128-248 | The method computes exactly that outcome. |
| Seqs.SplitCount | file_rw.go:256 | Splitting at line feeds gives bytes.Count plus one pieces. |
| Seqs.JoinOfSplit | file_rw.go:328-343 | Joining the pieces of a split with the separator gives back the input. |
| Seqs.SplitConcat | file_rw.go:263-279 | Splitting at one separator splits the two sides independently. |
| Text.TrimSpaceSpec | file_rw.go:270 | TrimSpace returns a slice of the input that has only white space before and after it and does not start or end with white space. It is empty exactly when the input is all white space. |
| Text.TrimSpaceOfSlice | file_rw.go:270 | Trimming a slice is the same as trimming that range in place. |
| Text.TrimRangeDropsFinalLF | file_rw.go:264-270 | The line feed that ends a line never survives trimming. |
| LineSplit.ReadStringSpec | file_rw.go:264 | ReadString returns the data from the reader's position up to and including the next line feed, with none before it. At io.EOF it returns the whole rest, which holds no line feed. |
| LineSplit.ReadStep | file_rw.go:263-279 | The line ReadString returns, trimmed and kept or dropped, is the first of the lines of what is left, and the remaining lines start right after it. |
| LineSplit.LoopStep | file_rw.go:263-279 | The loop invariant: lines collected plus lines left is all the lines, and at io.EOF none are left. |
| LineSplit.AppendLine | file_rw.go:270-274 | A trimmed line is appended always when empty lines are allowed, and otherwise only when it is not empty. |
| LineSplit.SplitToLines | file_rw.go:250-282 | The loop returns the pieces of the data between line feeds, each trimmed, with empty ones dropped unless allowed. |
| LineSplit.LinesAllowCount | file_rw.go:255-258 | With empty lines allowed, there are exactly bytes.Count("\n") + 1 lines, so the reserved capacity is exact. |
| LineSplit.TrimmedPieceIsLine | file_rw.go:270 | Trimming a piece without a line feed gives a trimmed line. |
| LineSplit.LinesShape | file_rw.go:270-274 | Every line has no line feed and no white space at either end. No line is empty unless empty lines are allowed. |
| LineSplit.TrimKeepEmptyIff | file_rw.go:270-274 | Without empty lines, nothing is kept exactly when every piece is white space. With them, every piece gives a line. |
| LineSplit.LinesEmptyIffBlank | file_rw.go:270-274 | Without empty lines, there are no lines exactly when the file is all white space. With them, there is always at least one line. |
| LineSplit.LinesOfEmptyFile | file_rw.go:263-279 | An empty file gives [""] with empty lines allowed and no lines otherwise. |
| LineSplit.TrimKeepConcat | file_rw.go:270-274 | Trimming and dropping go piece by piece. |
| LineSplit.LinesAtLF | file_rw.go:263-279 | The lines of x + "\n" + y are the lines of x followed by the lines of y. |
| LineSplit.LinesFinalLF | file_rw.go:263-279 | A final line feed adds one empty line when empty lines are allowed and nothing otherwise. |
| LineSplit.LinesOfByte | file_rw.go:263-279 | A file of one byte that is not white space is that one line. |
| LineSplit.LinesExample | file_rw.go:263-279 | "a\n\nb\n" gives "a", "", "b", "" with empty lines and "a", "b" without, for any non-space bytes a and b. |
| FastLoad.EmptyCheck | file_rw.go:121-123 | The result is ErrFileEmpty exactly when the caller asks for the check and there are no lines. Otherwise the lines pass through unchanged. |
| FastLoad.LoadOutcomeCases | file_rw.go:108-126 | ErrFileEmpty comes exactly when the read succeeds, the caller asks, empty lines are dropped and the file is all white space. Success comes exactly when the read succeeds otherwise, and then the result is the lines of the whole file. A well-formed path that names no file gives os.ErrNotExist. |
| FastLoad.AllowedEmptyLinesNeverEmpty | file_rw.go:115-123 | With empty lines allowed, ErrFileEmpty is never reported, not even for an empty file. |
| FastLoad.FastLoadTxtFile | file_rw.go:108-126 | The method computes exactly that outcome. |
| Paths.SyntaxError | file_rw.go:299-306 | A path ending in "/" is refused first, then the empty path is refused. Every other path passes. |
| Paths.ModeFlags | file_rw.go:353-361 | "APPEND" gives O_APPEND, O_CREATE and O_WRONLY. "OVERWRITE" gives O_RDWR, O_CREATE and O_TRUNC. Any other mode is refused and named in the error. |
| Paths.ComponentsEmpty | file_rw.go:328-333 | Once the leading empty component of an absolute path is dropped, no components are left exactly for the empty path. |
| Paths.ComponentsJoin | file_rw.go:324-333 | The root prefix plus the components joined by "/" is the path. No component holds a "/". |
| Paths.RebuildPathFullPath | file_rw.go:335-347 | The full path passed to os.OpenFile is the input path itself. |
| Paths.RebuildPathDirectory | file_rw.go:335-341 | There is a directory part exactly when a "/" follows the first character. That part is non-empty and is the path up to its last "/". |
| Paths.CreateFileAtPath | file_rw.go:320-363 | The open request has the input path, the flags of the mode and permissions 0644. MkdirAll is called, on the path up to its last "/", exactly when asked and the path has an inner "/". Its failure is reported before the mode is looked at, and the empty path is an error. An unsupported mode, once past those steps, gives the mode error naming the mode. |

## Left out

- The goroutines and the channel are not modelled as concurrency. Each worker is a function. The channel delivers the workers' results in the order given by the `arrival` permutation, and the receive loop runs over that order.
- Calls to the operating system are not made: `os.Stat`, `os.OpenFile`, `f.ReadAt`, `os.MkdirAll` and `f.Close` (including the `defer`). The file system is a map, OpenFile and ReadAt failures are parameters, and createFileAtPath returns the OpenFile call it would make.
- The chunk size `int64(math.Ceil(float64(fSize) / float64(numberOfThreads)))` is modelled as an exact integer ceiling division. Floating-point rounding for sizes above 2^53 bytes is not modelled, and neither is int64 overflow.
- `validateFilePath` with `fileShouldExist`: only the `os.ErrNotExist` result of `os.Stat` is modelled, as a path missing from the map. Other Stat errors are not modelled; on those, the Go code would read the size of a nil result.
- ParallelRead.ReadChunk: on a failed ReadAt, the buffer keeps its zeros and `lengthRead` is 0. The bytes a failing ReadAt may have read before the error are not modelled, because the read's result is dropped in that case anyway.
- The text of Go's error values is not modelled; errors are datatype constructors. The per-part message is the fault's own text, which is modelled.
- On an error, the empty `[]string{}` or `nil` that the Go functions return is the `Err` value.
- Text.TrimSpace: only ASCII white space is trimmed. The Unicode white space of `strings.TrimSpace` (for example U+0085 and U+00A0) is not.
- The `bufio.Reader` error path of splitToLines (`file_rw.go:266-268`) is not modelled. The reader reads from a `bytes.Reader`, which fails only with io.EOF.
- These parts of the package are not part of this model: the buffered writer (`NewBufferedWriter`, `DoBufferedWrite`, `CloseBufferedWrite`), `FilePutContents` and `FileReadContents`. They are thin wrappers over `os` and `bufio` calls.
- The byte-level overwrite and insert mutators are not part of this model. `InsertFromByte`, which `example/main.go` calls, is not defined in `file_rw.go`.
- `example/main.go` is not part of this model.
