/**
 * The two functions of Go's `strings` package that the booking app relies on,
 * `strings.TrimSpace` and `strings.Fields`, restricted to ASCII white space.
 */
module GoStrings {

  /**
   * ASCII white space as Go's `unicode.IsSpace` reports it for code points below 0x80:
   * the space and the five control characters tab, line feed, vertical tab, form feed
   * and carriage return, which are the consecutive code points 9 to 13.
   */
  predicate IsSpace(c: char) {
    c == ' ' || '\t' <= c <= '\r'
  }

  /** Every character of `s` is white space (this includes the empty string). */
  predicate AllSpace(s: string) {
    forall i :: 0 <= i < |s| ==> IsSpace(s[i])
  }

  /** No character of `s` is white space. */
  predicate NoSpace(s: string) {
    forall i :: 0 <= i < |s| ==> !IsSpace(s[i])
  }

  /** Number of white-space characters at the front of `s`. */
  function LeadingSpaces(s: string): (k: nat)
    ensures k <= |s|
    ensures forall i :: 0 <= i < k ==> IsSpace(s[i])
    ensures k < |s| ==> !IsSpace(s[k])
  {
    if s == [] || !IsSpace(s[0]) then 0 else 1 + LeadingSpaces(s[1..])
  }

  /** Where the trailing white space of `s` begins (`|s|` when there is none). */
  function ContentEnd(s: string): (k: nat)
    ensures k <= |s|
    ensures forall i :: k <= i < |s| ==> IsSpace(s[i])
    ensures 0 < k ==> !IsSpace(s[k - 1])
  {
    if s == [] || !IsSpace(s[|s| - 1]) then |s| else ContentEnd(s[..|s| - 1])
  }

  /** `s` without its leading white space. */
  function TrimLeft(s: string): string {
    s[LeadingSpaces(s)..]
  }

  /** `strings.TrimSpace`: `s` without the white space at either end. */
  function TrimSpace(s: string): (r: string)
    ensures |r| <= |s|
    ensures r == [] || (!IsSpace(r[0]) && !IsSpace(r[|r| - 1]))
  {
    var t := TrimLeft(s);
    t[..ContentEnd(t)]
  }

  /**
   * TrimSpace keeps the middle of `s` between a white-space prefix and a white-space
   * suffix; the result is empty or starts and ends with a non-space character. The
   * lemma returns where the kept part starts.
   */
  lemma TrimSpaceIsSlice(s: string) returns (i: nat)
    ensures i + |TrimSpace(s)| <= |s|
    ensures TrimSpace(s) == s[i..i + |TrimSpace(s)|]
    ensures forall k :: 0 <= k < i ==> IsSpace(s[k])
    ensures forall k :: i + |TrimSpace(s)| <= k < |s| ==> IsSpace(s[k])
    ensures TrimSpace(s) == [] || (!IsSpace(TrimSpace(s)[0]) && !IsSpace(TrimSpace(s)[|TrimSpace(s)| - 1]))
  {
    i := LeadingSpaces(s);
    var t := s[i..];
    var e := ContentEnd(t);
    assert TrimSpace(s) == t[..e];
    assert t[..e] == s[i..i + e];
    forall k | i + e <= k < |s|
      ensures IsSpace(s[k])
    {
      assert s[k] == t[k - i];
    }
  }

  /** Trimming leaves nothing exactly when the string is all white space. */
  lemma TrimSpaceEmpty(s: string)
    ensures TrimSpace(s) == [] <==> AllSpace(s)
  {
    var i := TrimSpaceIsSlice(s);
  }

  /** A string with no white space at either end is its own trimming. */
  lemma TrimSpaceOfTrimmed(s: string)
    requires s == [] || (!IsSpace(s[0]) && !IsSpace(s[|s| - 1]))
    ensures TrimSpace(s) == s
  {
    assert LeadingSpaces(s) == 0;
    assert TrimLeft(s) == s;
    assert ContentEnd(s) == |s|;
  }

  /** Trimming twice is trimming once. */
  lemma TrimSpaceIdempotent(s: string)
    ensures TrimSpace(TrimSpace(s)) == TrimSpace(s)
  {
    var _ := TrimSpaceIsSlice(s);
    TrimSpaceOfTrimmed(TrimSpace(s));
  }

  /** Length of the run of non-space characters at the front of `s`. */
  function WordLength(s: string): (n: nat)
    ensures n <= |s|
    ensures forall i :: 0 <= i < n ==> !IsSpace(s[i])
    ensures n < |s| ==> IsSpace(s[n])
  {
    if s == [] || IsSpace(s[0]) then 0 else 1 + WordLength(s[1..])
  }

  /** `strings.Fields`: the maximal runs of non-space characters of `s`, in order. */
  function Fields(s: string): (r: seq<string>)
    ensures forall w :: w in r ==> w != [] && NoSpace(w)
    ensures r == [] <==> AllSpace(s)
    decreases |s|
  {
    var t := TrimLeft(s);
    if t == [] then
      []
    else
      var n := WordLength(t);
      assert n == 1 + WordLength(t[1..]);
      [t[..n]] + Fields(t[n..])
  }

  /**
   * The first field of a non-blank string is the run of non-space characters that begins
   * at its first non-space character and stops at the next space or at the end; the lemma
   * returns where that run starts (`i`) and ends (`j`).
   */
  lemma FirstField(s: string) returns (i: nat, j: nat)
    requires !AllSpace(s)
    ensures i < j <= |s|
    ensures forall k :: 0 <= k < i ==> IsSpace(s[k])
    ensures Fields(s)[0] == s[i..j]
    ensures j == |s| || IsSpace(s[j])
  {
    var t := TrimLeft(s);
    var n := WordLength(t);
    i, j := LeadingSpaces(s), LeadingSpaces(s) + n;
    assert t[..n] == s[i..j];
    assert j < |s| ==> s[j] == t[n];
    assert n == 1 + WordLength(t[1..]);
  }
}
