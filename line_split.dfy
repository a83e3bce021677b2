/**
 * splitToLines: the file's bytes read line by line with
 * bufio.Reader.ReadString('\n'), each line trimmed with strings.TrimSpace
 * and, unless empty lines are allowed, dropped when empty.
 */
module LineSplit {
  import opened Seqs
  import opened Text

  /** A line of text as the reader returns it. */
  type Line = seq<byte>

  /**
   * bufio.Reader.ReadString('\n') on a reader that has consumed `pos`
   * bytes of `data`: the bytes up to and including the next line feed, or,
   * when none is left, the rest of the data together with io.EOF.
   */
  function ReadString(data: seq<byte>, pos: nat): (r: (Line, bool))
    requires pos <= |data|
    ensures pos + |r.0| <= |data|
    ensures !r.1 ==> |r.0| > 0
  {
    var e := IndexFrom(data, LF, pos);
    if e == |data| then (data[pos..], true) else (data[pos..e + 1], false)
  }

  /**
   * What ReadString returns is the data from `pos` on: up to and including
   * the next line feed, with none before it, or, at io.EOF, all the rest,
   * which holds no line feed.
   */
  lemma ReadStringSpec(data: seq<byte>, pos: nat)
    requires pos <= |data|
    ensures var (line, atEof) := ReadString(data, pos);
      && line == data[pos..pos + |line|]
      && (!atEof ==> line[|line| - 1] == LF && LF !in line[..|line| - 1])
      && (atEof ==> pos + |line| == |data| && LF !in line)
  {
    IndexFromFirst(data, LF, pos);
    var e := IndexFrom(data, LF, pos);
    if e < |data| {
      assert data[pos..e + 1][..e - pos] == data[pos..e];
    }
  }

  /** The line `t` as the loop appends it: always when empty lines are allowed, otherwise only when not empty. */
  function KeepLine(t: Line, allowEmptyLines: bool): seq<Line>
  {
    if allowEmptyLines || t != [] then [t] else []
  }

  /** Each piece trimmed. */
  function TrimAll(pieces: seq<Line>): (r: seq<Line>)
    ensures |r| == |pieces|
  {
    if pieces == [] then [] else [TrimSpace(pieces[0])] + TrimAll(pieces[1..])
  }

  /** The lines without the empty ones. */
  function DropEmpty(lines: seq<Line>): seq<Line>
  {
    if lines == [] then [] else KeepLine(lines[0], false) + DropEmpty(lines[1..])
  }

  /** The pieces trimmed, the empty ones dropped unless empty lines are allowed. */
  function TrimKeep(pieces: seq<Line>, allowEmptyLines: bool): seq<Line>
  {
    if allowEmptyLines then TrimAll(pieces) else DropEmpty(TrimAll(pieces))
  }

  /**
   * What splitToLines returns for the file contents `data`: the pieces of
   * strings.Split(data, "\n"), each trimmed, the empty ones dropped unless
   * empty lines are allowed.
   */
  function Lines(data: seq<byte>, allowEmptyLines: bool): seq<Line>
  {
    TrimKeep(Split(data, LF), allowEmptyLines)
  }

  /** The pieces one at a time: the first trimmed and kept or dropped, then the others. */
  lemma TrimKeepCons(piece: Line, rest: seq<Line>, allowEmptyLines: bool)
    ensures TrimKeep([piece] + rest, allowEmptyLines) == KeepLine(TrimSpace(piece), allowEmptyLines) + TrimKeep(rest, allowEmptyLines)
  {
    assert ([piece] + rest)[1..] == rest;
    assert ([TrimSpace(piece)] + TrimAll(rest))[1..] == TrimAll(rest);
  }

  /** strings.Split from `pos` on, when the next line feed is at `e`: the piece before it, then the pieces after it. */
  lemma SplitAtNext(data: seq<byte>, pos: nat, e: nat, next: nat)
    requires pos <= |data| && e == IndexFrom(data, LF, pos) && e < |data| && next == e + 1
    ensures Split(data[pos..], LF) == [data[pos..e]] + Split(data[next..], LF)
  {
    var x := data[pos..];
    IndexOfDrop(data, LF, pos);
    var i := e - pos;
    SplitAtIndex(x, LF, i);
    assert x[..i] == data[pos..e];
    assert x[i + 1..] == data[next..];
  }

  /** strings.Split from `pos` on, when no line feed is left: the rest is the one piece. */
  lemma SplitAtLast(data: seq<byte>, pos: nat)
    requires pos <= |data| && IndexFrom(data, LF, pos) == |data|
    ensures Split(data[pos..], LF) == [data[pos..]]
  {
    IndexOfDrop(data, LF, pos);
  }

  /** The line ReadString returns, trimmed, is the piece up to the next line feed trimmed. */
  lemma ReadLineTrim(data: seq<byte>, pos: nat, e: nat)
    requires pos <= e < |data| && data[e] == LF
    ensures TrimSpace(data[pos..e + 1]) == TrimSpace(data[pos..e])
  {
    TrimSpaceOfSlice(data, pos, e + 1);
    TrimRangeDropsFinalLF(data, pos, e);
    TrimSpaceOfSlice(data, pos, e);
  }

  /**
   * One call of ReadString yields the first of the lines left, and the
   * remaining lines start right after it; at io.EOF it yields the last one.
   */
  lemma ReadStep(data: seq<byte>, pos: nat, line: Line, atEof: bool, allowEmptyLines: bool)
    requires pos <= |data| && (line, atEof) == ReadString(data, pos)
    ensures !atEof ==> Lines(data[pos..], allowEmptyLines)
                       == KeepLine(TrimSpace(line), allowEmptyLines) + Lines(data[pos + |line|..], allowEmptyLines)
    ensures atEof ==> Lines(data[pos..], allowEmptyLines) == KeepLine(TrimSpace(line), allowEmptyLines)
  {
    var e := IndexFrom(data, LF, pos);
    if e < |data| {
      assert line == data[pos..e + 1];
      ReadStepNext(data, pos, e, pos + |line|, line, allowEmptyLines);
    } else {
      SplitAtLast(data, pos);
      TrimKeepCons(data[pos..], [], allowEmptyLines);
    }
  }

  /** The lines from `pos` when the next line feed is at `e`: the line up to and including it, trimmed, then the lines from `next`. */
  lemma ReadStepNext(data: seq<byte>, pos: nat, e: nat, next: nat, line: Line, allowEmptyLines: bool)
    requires pos <= |data| && e == IndexFrom(data, LF, pos) && e < |data| && next == e + 1 && line == data[pos..next]
    ensures Lines(data[pos..], allowEmptyLines)
            == KeepLine(TrimSpace(line), allowEmptyLines) + Lines(data[next..], allowEmptyLines)
  {
    SplitAtNext(data, pos, e, next);
    ReadLineTrim(data, pos, e);
    TrimKeepCons(data[pos..e], Split(data[next..], LF), allowEmptyLines);
  }

  /**
   * The loop of splitToLines. The bufio.Reader reads from a bytes.Reader,
   * which never fails, so the loop ends only at io.EOF.
   */
  method SplitToLines(data: seq<byte>, allowEmptyLines: bool) returns (fileLines: seq<Line>)
    ensures fileLines == Lines(data, allowEmptyLines)
  {
    fileLines := [];
    var pos := 0;
    assert data[pos..] == data;
    while true
      invariant pos <= |data|
      invariant fileLines + Lines(data[pos..], allowEmptyLines) == Lines(data, allowEmptyLines)
      decreases |data| - pos
    {
      var (line, atEof) := ReadString(data, pos);
      ghost var before := fileLines;
      fileLines := AppendLine(fileLines, line, allowEmptyLines);
      if atEof {
        LoopStep(data, pos, line, atEof, pos, allowEmptyLines, before, fileLines);
        break;
      }
      ghost var previous := pos;
      pos := pos + |line|;
      LoopStep(data, previous, line, atEof, pos, allowEmptyLines, before, fileLines);
    }
  }

  /**
   * The loop's bookkeeping: once the line ReadString returns at `pos` is
   * appended, the lines collected and the lines of the data from `next`,
   * where the reader stands now, make up all the lines; at io.EOF none are
   * left.
   */
  lemma LoopStep(data: seq<byte>, pos: nat, line: Line, atEof: bool, next: nat, allowEmptyLines: bool,
                 before: seq<Line>, now: seq<Line>)
    requires pos <= |data| && (line, atEof) == ReadString(data, pos)
    requires next == if atEof then pos else pos + |line|
    requires before + Lines(data[pos..], allowEmptyLines) == Lines(data, allowEmptyLines)
    requires now == before + KeepLine(TrimSpace(line), allowEmptyLines)
    ensures next <= |data|
    ensures !atEof ==> now + Lines(data[next..], allowEmptyLines) == Lines(data, allowEmptyLines)
    ensures atEof ==> now == Lines(data, allowEmptyLines)
  {
    ReadStep(data, pos, line, atEof, allowEmptyLines);
    var head := KeepLine(TrimSpace(line), allowEmptyLines);
    if atEof {
      Advance(before, head, Lines(data[pos..], allowEmptyLines), [], Lines(data, allowEmptyLines), now);
    } else {
      Advance(before, head, Lines(data[pos..], allowEmptyLines), Lines(data[next..], allowEmptyLines),
              Lines(data, allowEmptyLines), now);
    }
  }

  /** The body of the loop of splitToLines: trims the line and appends it unless it is empty and empty lines are not allowed. */
  method AppendLine(fileLines: seq<Line>, line: Line, allowEmptyLines: bool) returns (newLines: seq<Line>)
    ensures newLines == fileLines + KeepLine(TrimSpace(line), allowEmptyLines)
  {
    var trimmed := TrimSpace(line);
    newLines := fileLines;
    if allowEmptyLines == true || (allowEmptyLines == false && trimmed != []) {
      newLines := newLines + [trimmed];
    }
  }

  /** Once the head of what remains is appended, the rest completes the total. */
  lemma Advance<T>(done: seq<T>, head: seq<T>, remaining: seq<T>, after: seq<T>, total: seq<T>, now: seq<T>)
    requires done + remaining == total && remaining == head + after && now == done + head
    ensures now + after == total
  {
  }

  // ---------------------------------------------------------------------
  // Properties of the lines
  // ---------------------------------------------------------------------

  /**
   * With empty lines allowed there is one line per line feed plus one:
   * the capacity splitToLines reserves from bytes.Count is exact.
   */
  lemma LinesAllowCount(data: seq<byte>)
    ensures |Lines(data, true)| == Count(data, LF) + 1
  {
    SplitCount(data, LF);
  }

  /** A line as splitToLines produces it: no line feed inside, no white space at either end. */
  predicate IsTrimmedLine(t: Line)
  {
    LF !in t && (t != [] ==> !IsSpace(t[0]) && !IsSpace(t[|t| - 1]))
  }

  lemma TrimmedPieceIsLine(piece: Line)
    requires LF !in piece
    ensures IsTrimmedLine(TrimSpace(piece))
  {
    var t := TrimSpace(piece);
    var b := TrimStart(piece);
    TrimSpaceSpec(piece);
    assert forall j :: 0 <= j < |t| ==> t[j] == piece[b + j];
  }

  /** Pieces without line feeds give trimmed lines without line feeds, none empty unless empty lines are allowed. */
  lemma {:induction false} TrimKeepShape(pieces: seq<Line>, allowEmptyLines: bool)
    requires forall k :: 0 <= k < |pieces| ==> LF !in pieces[k]
    ensures forall k :: 0 <= k < |TrimKeep(pieces, allowEmptyLines)| ==>
              IsTrimmedLine(TrimKeep(pieces, allowEmptyLines)[k])
              && (allowEmptyLines || TrimKeep(pieces, allowEmptyLines)[k] != [])
    decreases |pieces|
  {
    if pieces != [] {
      var rest := pieces[1..];
      assert pieces == [pieces[0]] + rest;
      TrimKeepCons(pieces[0], rest, allowEmptyLines);
      TrimmedPieceIsLine(pieces[0]);
      TrimKeepShape(rest, allowEmptyLines);
      var head, tail := KeepLine(TrimSpace(pieces[0]), allowEmptyLines), TrimKeep(rest, allowEmptyLines);
      assert forall k :: |head| <= k < |head + tail| ==> (head + tail)[k] == tail[k - |head|];
    }
  }

  /** Every line is trimmed and free of line feeds, and none is empty unless empty lines are allowed. */
  lemma LinesShape(data: seq<byte>, allowEmptyLines: bool)
    ensures forall k :: 0 <= k < |Lines(data, allowEmptyLines)| ==>
              IsTrimmedLine(Lines(data, allowEmptyLines)[k]) && (allowEmptyLines || Lines(data, allowEmptyLines)[k] != [])
  {
    SplitPiecesLackSeparator(data, LF);
    TrimKeepShape(Split(data, LF), allowEmptyLines);
  }

  lemma AllSpaceConcat(a: seq<byte>, b: seq<byte>)
    ensures AllSpace(a + b) <==> AllSpace(a) && AllSpace(b)
  {
    if AllSpace(a + b) {
      assert forall k :: 0 <= k < |a| ==> a[k] == (a + b)[k];
      assert forall k :: 0 <= k < |b| ==> b[k] == (a + b)[|a| + k];
    }
  }

  /** Pieces joined by line feeds are white space exactly when every piece is. */
  lemma {:induction false} AllSpaceJoin(pieces: seq<Line>)
    ensures AllSpace(Join(pieces, LF)) <==> forall k :: 0 <= k < |pieces| ==> AllSpace(pieces[k])
    decreases |pieces|
  {
    if |pieces| >= 2 {
      var rest := pieces[1..];
      AllSpaceJoin(rest);
      AllSpaceConcat(pieces[0] + [LF], Join(rest, LF));
      AllSpaceConcat(pieces[0], [LF]);
      assert forall k :: 1 <= k < |pieces| ==> pieces[k] == rest[k - 1];
    }
  }

  /** Without empty lines nothing is left exactly when every piece is white space; with them every piece gives a line. */
  lemma {:induction false} TrimKeepEmptyIff(pieces: seq<Line>)
    ensures TrimKeep(pieces, false) == [] <==> forall k :: 0 <= k < |pieces| ==> AllSpace(pieces[k])
    ensures |TrimKeep(pieces, true)| == |pieces|
    decreases |pieces|
  {
    if pieces != [] {
      var rest := pieces[1..];
      assert pieces == [pieces[0]] + rest;
      TrimKeepCons(pieces[0], rest, false);
      TrimSpaceEmptyIff(pieces[0]);
      TrimKeepEmptyIff(rest);
      assert forall k :: 1 <= k < |pieces| ==> pieces[k] == rest[k - 1];
    }
  }

  /**
   * Without empty lines, the result is empty exactly when the file holds
   * nothing but white space (line feeds included); with empty lines
   * allowed it is never empty.
   */
  lemma LinesEmptyIffBlank(data: seq<byte>)
    ensures Lines(data, false) == [] <==> AllSpace(data)
    ensures |Lines(data, true)| >= 1
  {
    TrimKeepEmptyIff(Split(data, LF));
    AllSpaceJoin(Split(data, LF));
    JoinOfSplit(data, LF);
  }

  /** An empty file gives a single empty line when empty lines are allowed, and no line otherwise. */
  lemma LinesOfEmptyFile()
    ensures Lines([], true) == [[]]
    ensures Lines([], false) == []
  {
    var e: seq<byte> := [];
    assert Split(e, LF) == [e];
    assert TrimSpace(e) == e;
    TrimKeepCons(e, [], false);
  }

  /** A non-empty sequence is its first element followed by the rest, also in front of another sequence. */
  lemma ConsParts<T>(a: seq<T>, b: seq<T>)
    requires a != []
    ensures a == [a[0]] + a[1..] && a + b == [a[0]] + (a[1..] + b)
  {
  }

  /** Trimming and dropping go piece by piece, so they distribute over concatenation. */
  lemma {:induction false} TrimKeepConcat(a: seq<Line>, b: seq<Line>, allowEmptyLines: bool)
    ensures TrimKeep(a + b, allowEmptyLines) == TrimKeep(a, allowEmptyLines) + TrimKeep(b, allowEmptyLines)
    decreases |a|
  {
    if a == [] {
      assert a + b == b;
    } else {
      var rest := a[1..];
      ConsParts(a, b);
      TrimKeepCons(a[0], rest + b, allowEmptyLines);
      TrimKeepCons(a[0], rest, allowEmptyLines);
      TrimKeepConcat(rest, b, allowEmptyLines);
      Assoc(KeepLine(TrimSpace(a[0]), allowEmptyLines), TrimKeep(rest, allowEmptyLines), TrimKeep(b, allowEmptyLines));
    }
  }

  /** The lines on either side of any line feed are read independently: the lines before it, then the lines after it. */
  lemma LinesAtLF(x: seq<byte>, y: seq<byte>, allowEmptyLines: bool)
    ensures Lines(x + [LF] + y, allowEmptyLines) == Lines(x, allowEmptyLines) + Lines(y, allowEmptyLines)
  {
    SplitConcat(x, LF, y);
    TrimKeepConcat(Split(x, LF), Split(y, LF), allowEmptyLines);
  }

  /**
   * A file that ends in a line feed has, when empty lines are allowed, one
   * more line than the file without it, an empty one; otherwise the same
   * lines.
   */
  lemma LinesFinalLF(data: seq<byte>, allowEmptyLines: bool)
    ensures Lines(data + [LF], allowEmptyLines) == Lines(data, allowEmptyLines) + (if allowEmptyLines then [[]] else [])
  {
    var e: seq<byte> := [];
    LinesAtLF(data, e, allowEmptyLines);
    assert data + [LF] + e == data + [LF];
    LinesOfEmptyFile();
  }

  /** A line of one byte that is not white space is kept as it is. */
  lemma LinesOfByte(x: byte, allowEmptyLines: bool)
    requires !IsSpace(x)
    ensures Lines([x], allowEmptyLines) == [[x]]
  {
    var t: seq<byte> := [x];
    IndexOfAt(t, LF, 1);
    SplitWhole(t, LF);
    assert TrimSpace(t) == t;
    TrimKeepCons(t, [], allowEmptyLines);
  }

  /**
   * For non-space bytes a and b, "a\n\nb\n" gives "a", "", "b", "" with
   * empty lines allowed, and "a", "b" without.
   */
  lemma LinesExample(a: byte, b: byte, allowEmptyLines: bool)
    requires !IsSpace(a) && !IsSpace(b)
    ensures Lines([a, LF, LF, b, LF], allowEmptyLines)
            == if allowEmptyLines then [[a], [], [b], []] else [[a], [b]]
  {
    var e: seq<byte> := [];
    var last: seq<byte> := [b] + [LF] + e;
    var middle: seq<byte> := e + [LF] + last;
    assert [a] + [LF] + middle == [a, LF, LF, b, LF];
    LinesAtLF([a], middle, allowEmptyLines);
    LinesAtLF(e, last, allowEmptyLines);
    LinesAtLF([b], e, allowEmptyLines);
    LinesOfByte(a, allowEmptyLines);
    LinesOfByte(b, allowEmptyLines);
    LinesOfEmptyFile();
    if allowEmptyLines {
      Four([a], e, [b], e);
    } else {
      Two([a], [b]);
    }
  }

  lemma Four<T>(w: T, x: T, y: T, z: T)
    ensures [w] + ([x] + ([y] + [z])) == [w, x, y, z]
  {
  }

  lemma Two<T>(w: T, y: T)
    ensures [w] + ([] + ([y] + [])) == [w, y]
  {
  }
}
