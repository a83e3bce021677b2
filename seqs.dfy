/**
 * Sequence helpers standing for the parts of Go's `strings` and `bytes`
 * packages that the file reader uses: splitting on a one-element separator,
 * joining, counting, and prefix and suffix tests.
 */
module Seqs {

  /** Index of the first `d` in `s` at or after `from`, or `|s|` when there is none. */
  function IndexFrom<T(==)>(s: seq<T>, d: T, from: nat): (i: nat)
    requires from <= |s|
    ensures from <= i <= |s|
    ensures i < |s| ==> s[i] == d
    decreases |s| - from
  {
    if from == |s| || s[from] == d then from else IndexFrom(s, d, from + 1)
  }

  /** Index of the first `d` in `s`, or `|s|` when `s` holds none. */
  function IndexOf<T(==)>(s: seq<T>, d: T): (i: nat)
    ensures i <= |s|
    ensures i < |s| ==> s[i] == d
  {
    IndexFrom(s, d, 0)
  }

  /** IndexFrom skips no `d`. */
  lemma {:induction false} IndexFromFirst<T>(s: seq<T>, d: T, from: nat)
    requires from <= |s|
    ensures forall k :: from <= k < IndexFrom(s, d, from) ==> s[k] != d
    decreases |s| - from
  {
    if from < |s| && s[from] != d {
      IndexFromFirst(s, d, from + 1);
    }
  }

  /** No `d` comes before IndexOf(s, d). */
  lemma IndexOfFirst<T>(s: seq<T>, d: T)
    ensures forall k :: 0 <= k < IndexOf(s, d) ==> s[k] != d
  {
    IndexFromFirst(s, d, 0);
  }

  /** Searching the suffix from `from` finds the same `d`, counted from `from`. */
  lemma IndexOfDrop<T>(s: seq<T>, d: T, from: nat)
    requires from <= |s|
    ensures IndexOf(s[from..], d) == IndexFrom(s, d, from) - from
  {
    var e := IndexFrom(s, d, from);
    IndexFromFirst(s, d, from);
    var t := s[from..];
    assert forall k :: 0 <= k < e - from ==> t[k] == s[from + k];
    IndexOfAt(t, d, e - from);
  }

  /** IndexFrom finds the first `d` at or after `from`. */
  lemma {:induction false} IndexFromAt<T>(s: seq<T>, d: T, from: nat, i: nat)
    requires from <= i <= |s|
    requires i < |s| ==> s[i] == d
    requires forall k :: from <= k < i ==> s[k] != d
    ensures IndexFrom(s, d, from) == i
    decreases i - from
  {
    if from < i {
      IndexFromAt(s, d, from + 1, i);
    }
  }

  /** Number of occurrences of `d` in `s` (bytes.Count with a one-byte separator). */
  function Count<T(==)>(s: seq<T>, d: T): (c: nat)
    ensures c <= |s|
    ensures c == 0 <==> d !in s
  {
    if s == [] then 0 else (if s[0] == d then 1 else 0) + Count(s[1..], d)
  }

  /** The pieces of `s` between occurrences of `d` (strings.Split with a one-element separator). */
  function Split<T(==)>(s: seq<T>, d: T): (parts: seq<seq<T>>)
    ensures |parts| >= 1
    decreases |s|
  {
    var i := IndexOf(s, d);
    if i == |s| then [s] else [s[..i]] + Split(s[i + 1..], d)
  }

  /** The pieces with `d` between each two of them (strings.Join). */
  function Join<T>(parts: seq<seq<T>>, d: T): seq<T>
  {
    if parts == [] then []
    else if |parts| == 1 then parts[0]
    else parts[0] + [d] + Join(parts[1..], d)
  }

  /** strings.HasPrefix. */
  predicate HasPrefix<T(==)>(s: seq<T>, p: seq<T>)
  {
    |p| <= |s| && s[..|p|] == p
  }

  /** strings.HasSuffix. */
  predicate HasSuffix<T(==)>(s: seq<T>, p: seq<T>)
  {
    |p| <= |s| && s[|s| - |p|..] == p
  }

  /** The first index of `d` is determined by where `d` first occurs. */
  lemma IndexOfAt<T>(s: seq<T>, d: T, i: nat)
    requires i <= |s|
    requires i < |s| ==> s[i] == d
    requires forall k :: 0 <= k < i ==> s[k] != d
    ensures IndexOf(s, d) == i
  {
    IndexFromAt(s, d, 0, i);
  }

  /** Split when the first `d` is at `i`: the piece before it, then the split of what follows it. */
  lemma SplitAtIndex<T>(s: seq<T>, d: T, i: nat)
    requires i == IndexOf(s, d) && i < |s|
    ensures Split(s, d) == [s[..i]] + Split(s[i + 1..], d)
  {
  }

  lemma Assoc<T>(p: seq<T>, q: seq<T>, r: seq<T>)
    ensures p + (q + r) == (p + q) + r
  {
  }

  /** Split when `d` does not occur: the whole sequence is the one piece. */
  lemma SplitWhole<T>(s: seq<T>, d: T)
    requires IndexOf(s, d) == |s|
    ensures Split(s, d) == [s]
  {
  }

  /** Splitting at one occurrence of the separator: the pieces of the part before it, then those of the part after it. */
  lemma {:induction false} SplitConcat<T>(x: seq<T>, d: T, y: seq<T>)
    ensures Split(x + [d] + y, d) == Split(x, d) + Split(y, d)
    decreases |x|
  {
    var i := IndexOf(x, d);
    var t := x + [d] + y;
    IndexOfFirst(x, d);
    assert forall k :: 0 <= k < |x| ==> t[k] == x[k];
    IndexOfAt(t, d, i);
    SplitAtIndex(t, d, i);
    assert t[..i] == x[..i];
    if i == |x| {
      assert t[..i] == x && t[i + 1..] == y;
      SplitWhole(x, d);
    } else {
      SplitAtIndex(x, d, i);
      assert t[i + 1..] == x[i + 1..] + [d] + y;
      SplitConcat(x[i + 1..], d, y);
      Assoc([x[..i]], Split(x[i + 1..], d), Split(y, d));
    }
  }

  /** No piece produced by Split holds the separator. */
  lemma {:induction false} SplitPiecesLackSeparator<T>(s: seq<T>, d: T)
    ensures forall k :: 0 <= k < |Split(s, d)| ==> d !in Split(s, d)[k]
    decreases |s|
  {
    var i := IndexOf(s, d);
    IndexOfFirst(s, d);
    if i < |s| {
      SplitPiecesLackSeparator(s[i + 1..], d);
      var rest := Split(s[i + 1..], d);
      assert Split(s, d) == [s[..i]] + rest;
      forall k | 0 <= k < |Split(s, d)| ensures d !in Split(s, d)[k] {
        if k == 0 {
          assert forall j :: 0 <= j < i ==> s[..i][j] == s[j];
        } else {
          assert Split(s, d)[k] == rest[k - 1];
        }
      }
    } else {
      assert d !in s;
    }
  }

  /** Joining the pieces of a split gives back the original sequence. */
  lemma {:induction false} JoinOfSplit<T>(s: seq<T>, d: T)
    ensures Join(Split(s, d), d) == s
    decreases |s|
  {
    var i := IndexOf(s, d);
    if i < |s| {
      JoinOfSplit(s[i + 1..], d);
      var parts, rest := Split(s, d), Split(s[i + 1..], d);
      assert parts == [s[..i]] + rest;
      assert |parts| >= 2 && parts[0] == s[..i] && parts[1..] == rest;
      calc {
        Join(parts, d);
        parts[0] + [d] + Join(parts[1..], d);
        s[..i] + [d] + s[i + 1..];
        { assert s == s[..i] + [d] + s[i + 1..]; }
        s;
      }
    }
  }

  /** Counting around the first occurrence of `d`, at index `i`. */
  lemma {:induction false} CountAtFirst<T>(s: seq<T>, d: T, i: nat)
    requires i < |s| && s[i] == d
    requires forall k :: 0 <= k < i ==> s[k] != d
    ensures Count(s, d) == 1 + Count(s[i + 1..], d)
    decreases i
  {
    if i > 0 {
      var t := s[1..];
      assert forall k :: 0 <= k < i - 1 ==> t[k] == s[k + 1];
      CountAtFirst(t, d, i - 1);
      assert t[i..] == s[i + 1..];
    }
  }

  /** Split yields one more piece than there are separators. */
  lemma {:induction false} SplitCount<T>(s: seq<T>, d: T)
    ensures |Split(s, d)| == Count(s, d) + 1
    decreases |s|
  {
    var i := IndexOf(s, d);
    IndexOfFirst(s, d);
    if i < |s| {
      SplitCount(s[i + 1..], d);
      CountAtFirst(s, d, i);
    } else {
      assert d !in s;
    }
  }

  /** The last piece of a join of two or more pieces follows the last separator. */
  lemma {:induction false} JoinLast<T>(parts: seq<seq<T>>, d: T)
    requires |parts| >= 2
    ensures Join(parts, d) == Join(parts[..|parts| - 1], d) + [d] + parts[|parts| - 1]
    decreases |parts|
  {
    if |parts| > 2 {
      JoinLast(parts[1..], d);
      assert parts[1..][..|parts| - 2] == parts[..|parts| - 1][1..];
    }
  }
}
