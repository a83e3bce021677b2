/**
 * Bytes and the white-space trimming of Go's strings.TrimSpace, restricted
 * to the ASCII white-space bytes.
 */
module Text {

  /** One byte of a file or of a Go string. */
  newtype byte = x: int | 0 <= x < 256

  /** The line-feed byte '\n'. */
  const LF: byte := 10

  /** ASCII white space as strings.TrimSpace sees it: '\t', '\n', '\v', '\f', '\r' (9 to 13) and ' '. */
  predicate IsSpace(b: byte)
  {
    9 <= b <= 13 || b == 32
  }

  predicate AllSpace(s: seq<byte>)
  {
    forall k :: 0 <= k < |s| ==> IsSpace(s[k])
  }

  /** The first byte in [i, hi) that is not white space, or `hi` when there is none. */
  function Lead(s: seq<byte>, i: nat, hi: nat): (r: nat)
    requires i <= hi <= |s|
    ensures i <= r <= hi
    decreases hi - i
  {
    if i == hi || !IsSpace(s[i]) then i else Lead(s, i + 1, hi)
  }

  /** Just past the last byte before `j` that is not white space, searching down to `lo`. */
  function Trail(s: seq<byte>, lo: nat, j: nat): (r: nat)
    requires lo <= j <= |s|
    ensures lo <= r <= j
    decreases j
  {
    if j == lo || !IsSpace(s[j - 1]) then j else Trail(s, lo, j - 1)
  }

  /** The bytes of s[lo..hi] without the white space at either end, found in place. */
  function TrimRange(s: seq<byte>, lo: nat, hi: nat): seq<byte>
    requires lo <= hi <= |s|
  {
    var b := Lead(s, lo, hi);
    s[b..Trail(s, b, hi)]
  }

  /** strings.TrimSpace: `s` with its leading and trailing white space removed. */
  function TrimSpace(s: seq<byte>): seq<byte>
  {
    TrimRange(s, 0, |s|)
  }

  /** Where the text kept by TrimSpace starts in `s`. */
  function TrimStart(s: seq<byte>): nat
  {
    Lead(s, 0, |s|)
  }

  lemma {:induction false} LeadSpec(s: seq<byte>, i: nat, hi: nat)
    requires i <= hi <= |s|
    ensures forall k :: i <= k < Lead(s, i, hi) ==> IsSpace(s[k])
    ensures Lead(s, i, hi) < hi ==> !IsSpace(s[Lead(s, i, hi)])
    decreases hi - i
  {
    if i < hi && IsSpace(s[i]) {
      LeadSpec(s, i + 1, hi);
    }
  }

  lemma {:induction false} TrailSpec(s: seq<byte>, lo: nat, j: nat)
    requires lo <= j <= |s|
    ensures forall k :: Trail(s, lo, j) <= k < j ==> IsSpace(s[k])
    ensures Trail(s, lo, j) > lo ==> !IsSpace(s[Trail(s, lo, j) - 1])
    decreases j
  {
    if j > lo && IsSpace(s[j - 1]) {
      TrailSpec(s, lo, j - 1);
    }
  }

  /**
   * What TrimSpace keeps: a slice of `s` with only white space before and
   * after it, that neither starts nor ends with white space, and that is
   * empty exactly when `s` is all white space.
   */
  lemma TrimSpaceSpec(s: seq<byte>)
    ensures TrimStart(s) + |TrimSpace(s)| <= |s|
    ensures TrimSpace(s) == s[TrimStart(s)..TrimStart(s) + |TrimSpace(s)|]
    ensures forall j :: 0 <= j < TrimStart(s) ==> IsSpace(s[j])
    ensures forall j :: TrimStart(s) + |TrimSpace(s)| <= j < |s| ==> IsSpace(s[j])
    ensures TrimSpace(s) != [] ==> !IsSpace(TrimSpace(s)[0]) && !IsSpace(TrimSpace(s)[|TrimSpace(s)| - 1])
    ensures TrimSpace(s) == [] <==> AllSpace(s)
  {
    var b := Lead(s, 0, |s|);
    LeadSpec(s, 0, |s|);
    TrailSpec(s, b, |s|);
    var e := Trail(s, b, |s|);
    assert b < |s| ==> e > b;
  }

  /** TrimSpace leaves nothing exactly when there is nothing but white space. */
  lemma TrimSpaceEmptyIff(s: seq<byte>)
    ensures TrimSpace(s) == [] <==> AllSpace(s)
  {
    TrimSpaceSpec(s);
  }

  lemma {:induction false} LeadOfSlice(s: seq<byte>, lo: nat, hi: nat, k: nat)
    requires lo <= hi <= |s| && k <= hi - lo
    ensures Lead(s[lo..hi], k, hi - lo) + lo == Lead(s, lo + k, hi)
    decreases hi - lo - k
  {
    if k < hi - lo {
      assert s[lo..hi][k] == s[lo + k];
      LeadOfSlice(s, lo, hi, k + 1);
    }
  }

  lemma {:induction false} TrailOfSlice(s: seq<byte>, lo: nat, hi: nat, b: nat, j: nat)
    requires lo <= hi <= |s| && b <= j <= hi - lo
    ensures Trail(s[lo..hi], b, j) + lo == Trail(s, b + lo, j + lo)
    decreases j
  {
    if j > b {
      assert s[lo..hi][j - 1] == s[lo + j - 1];
      TrailOfSlice(s, lo, hi, b, j - 1);
    }
  }

  /** Trimming a slice is trimming the same range in place. */
  lemma TrimSpaceOfSlice(s: seq<byte>, lo: nat, hi: nat)
    requires lo <= hi <= |s|
    ensures TrimSpace(s[lo..hi]) == TrimRange(s, lo, hi)
  {
    var t := s[lo..hi];
    var b := Lead(t, 0, |t|);
    LeadOfSlice(s, lo, hi, 0);
    var e := Trail(t, b, |t|);
    TrailOfSlice(s, lo, hi, b, |t|);
    assert |t| + lo == hi;
    forall k | 0 <= k < e - b
      ensures t[b..e][k] == s[b + lo..e + lo][k]
    {
      assert t[b..e][k] == t[b + k] == s[lo + b + k];
    }
    assert t[b..e] == s[b + lo..e + lo];
  }

  lemma {:induction false} LeadPastSpace(s: seq<byte>, i: nat, hi: nat)
    requires i <= hi < |s| && IsSpace(s[hi])
    ensures Lead(s, i, hi + 1) == if Lead(s, i, hi) == hi then hi + 1 else Lead(s, i, hi)
    decreases hi - i
  {
    if i < hi && IsSpace(s[i]) {
      LeadPastSpace(s, i + 1, hi);
    }
  }

  /** A line feed ending the range never survives trimming. */
  lemma TrimRangeDropsFinalLF(s: seq<byte>, lo: nat, hi: nat)
    requires lo <= hi < |s| && s[hi] == LF
    ensures TrimRange(s, lo, hi + 1) == TrimRange(s, lo, hi)
  {
    LeadPastSpace(s, lo, hi);
  }
}
