/**
 * The few behaviours of Go's `strings` and `fmt` packages that the handlers and
 * the AI client depend on: `strings.TrimSpace`, `strings.Index`,
 * `strings.SplitN(s, sep, 2)` and the `%d` verb on a non-negative integer.
 * Strings are sequences of Unicode code points.
 */
module Strings {
  import opened Wrappers

  /** Go's `unicode.IsSpace`: the characters with the Unicode White_Space property. */
  predicate IsSpace(c: char) {
    ('\t' <= c <= '\r') || c == ' ' || c == '\U{0085}' || c == '\U{00A0}' || c == '\U{1680}'
    || ('\U{2000}' <= c <= '\U{200A}') || c == '\U{2028}' || c == '\U{2029}'
    || c == '\U{202F}' || c == '\U{205F}' || c == '\U{3000}'
  }

  /** Every character of `s` from `lo` up to `hi` is white space. */
  predicate SpaceBetween(s: string, lo: int, hi: int)
    requires 0 <= lo && hi <= |s|
  {
    forall k :: lo <= k < hi ==> IsSpace(s[k])
  }

  /** The index of the first character at or after `i` that is not white space. */
  function TrimStartFrom(s: string, i: nat): (n: nat)
    requires i <= |s|
    decreases |s| - i
    ensures i <= n <= |s| && SpaceBetween(s, i, n)
    ensures n < |s| ==> !IsSpace(s[n])
  {
    if i < |s| && IsSpace(s[i]) then TrimStartFrom(s, i + 1) else i
  }

  /** The index just past the last character before `j`, and at or after `lo`, that is not white space. */
  function TrimEndFrom(s: string, lo: nat, j: nat): (n: nat)
    requires lo <= j <= |s|
    decreases j
    ensures lo <= n <= j && SpaceBetween(s, n, j)
    ensures lo < n ==> !IsSpace(s[n - 1])
  {
    if lo < j && IsSpace(s[j - 1]) then TrimEndFrom(s, lo, j - 1) else j
  }

  /**
   * `strings.TrimSpace`: the slice `s[i..j]` where `i` is the first non-space
   * character and `j` follows the last one. Everything removed is white space,
   * and the result neither starts nor ends with white space.
   */
  function TrimSpace(s: string): (r: string)
    ensures var i := TrimStartFrom(s, 0);
      i + |r| <= |s| && r == s[i..i + |r|]
      && SpaceBetween(s, 0, i) && SpaceBetween(s, i + |r|, |s|)
    ensures r == [] || (!IsSpace(r[0]) && !IsSpace(r[|r| - 1]))
  {
    var i := TrimStartFrom(s, 0);
    var j := TrimEndFrom(s, i, |s|);
    assert SpaceBetween(s, j, |s|);
    assert i < j ==> !IsSpace(s[i]) && !IsSpace(s[j - 1]);
    s[i..j]
  }

  /** `s` is `core` with white space, possibly none, on either side. */
  predicate PaddedBy(s: string, core: string) {
    exists i :: 0 <= i && i + |core| <= |s| && s[i..i + |core|] == core
      && SpaceBetween(s, 0, i) && SpaceBetween(s, i + |core|, |s|)
  }

  /** What trimming removed is white space only. */
  lemma TrimSpacePadded(s: string)
    ensures PaddedBy(s, TrimSpace(s))
  {
    var i := TrimStartFrom(s, 0);
    assert s[i..i + |TrimSpace(s)|] == TrimSpace(s);
  }

  /** A string that neither starts nor ends with white space is its own trimming. */
  lemma TrimSpaceNoop(s: string)
    requires s == [] || (!IsSpace(s[0]) && !IsSpace(s[|s| - 1]))
    ensures TrimSpace(s) == s
  {
    var i := TrimStartFrom(s, 0);
    assert s != [] ==> i == 0;
    var j := TrimEndFrom(s, i, |s|);
    assert s != [] ==> j == |s|;
  }

  /** Trimming twice is trimming once. */
  lemma TrimSpaceIdempotent(s: string)
    ensures TrimSpace(TrimSpace(s)) == TrimSpace(s)
  {
    TrimSpaceNoop(TrimSpace(s));
  }

  /** `sep` occurs in `s` starting at index `i`. */
  predicate OccursAt(s: string, sep: string, i: int) {
    0 <= i && i + |sep| <= |s| && s[i..i + |sep|] == sep
  }

  /** `i` is the leftmost place where `sep` occurs in `s`. */
  predicate IsFirstOccurrence(s: string, sep: string, i: int) {
    OccursAt(s, sep, i) && forall j :: 0 <= j < i ==> !OccursAt(s, sep, j)
  }

  predicate Contains(s: string, sep: string) {
    exists i :: 0 <= i <= |s| && OccursAt(s, sep, i)
  }

  /** There is only one leftmost occurrence. */
  lemma FirstOccurrenceUnique(s: string, sep: string, i: int)
    requires IsFirstOccurrence(s, sep, i)
    ensures forall j :: IsFirstOccurrence(s, sep, j) ==> j == i
  {
  }

  /** A slice of a string without `sep` has no `sep` either. */
  lemma SliceKeepsAbsence(s: string, sep: string, lo: nat, hi: nat)
    requires lo <= hi <= |s| && !Contains(s, sep)
    ensures !Contains(s[lo..hi], sep)
  {
    var t := s[lo..hi];
    forall j | 0 <= j <= |t| && OccursAt(t, sep, j) ensures false {
      var w := s[lo + j..lo + j + |sep|];
      forall m | 0 <= m < |sep| ensures w[m] == sep[m] {
        assert sep[m] == t[j..j + |sep|][m] == t[j + m] == s[lo + j + m];
      }
      assert w == sep;
      assert OccursAt(s, sep, lo + j);
    }
  }

  /** Trimming cannot create an occurrence of `sep`. */
  lemma TrimKeepsAbsence(s: string, sep: string)
    requires !Contains(s, sep)
    ensures !Contains(TrimSpace(s), sep)
  {
    var i := TrimStartFrom(s, 0);
    SliceKeepsAbsence(s, sep, i, i + |TrimSpace(s)|);
  }

  /** Nothing before the first occurrence of a non-empty `sep` contains `sep`. */
  lemma BeforeFirstOccurrence(s: string, sep: string, i: nat)
    requires sep != [] && IsFirstOccurrence(s, sep, i)
    ensures !Contains(s[..i], sep)
  {
    forall j | 0 <= j <= i && OccursAt(s[..i], sep, j) ensures false {
      assert s[..i][j..j + |sep|] == s[j..j + |sep|];
      assert OccursAt(s, sep, j);
    }
  }

  /** The first occurrence of `sep` at or after `from`, scanning left to right. */
  function IndexFrom(s: string, sep: string, from: nat): (r: Option<nat>)
    decreases |s| - from
    ensures r.Some? ==> from <= r.value && OccursAt(s, sep, r.value)
    ensures r.Some? ==> forall j :: from <= j < r.value ==> !OccursAt(s, sep, j)
    ensures r.None? ==> forall j :: from <= j ==> !OccursAt(s, sep, j)
  {
    if from + |sep| > |s| then None
    else if OccursAt(s, sep, from) then Some(from)
    else IndexFrom(s, sep, from + 1)
  }

  /** `strings.Index`: the leftmost occurrence of `sep` in `s`, `None` for Go's -1. */
  function Index(s: string, sep: string): (r: Option<nat>)
    ensures r.Some? <==> Contains(s, sep)
    ensures r.Some? ==> IsFirstOccurrence(s, sep, r.value)
  {
    var r := IndexFrom(s, sep, 0);
    assert r.Some? ==> OccursAt(s, sep, r.value);
    r
  }

  /**
   * `strings.SplitN(s, sep, 2)` for a non-empty `sep`: two pieces around the
   * first occurrence of `sep`, or `s` alone when it does not occur. Joining the
   * pieces with `sep` gives `s` back, the separator between them is the
   * leftmost one, and so the first piece holds no `sep`.
   */
  function SplitOnce(s: string, sep: string): (parts: seq<string>)
    requires sep != []
    ensures 1 <= |parts| <= 2
    ensures |parts| == 1 <==> !Contains(s, sep)
    ensures |parts| == 1 ==> parts[0] == s
    ensures |parts| == 2 ==> parts[0] + sep + parts[1] == s
    ensures |parts| == 2 ==> IsFirstOccurrence(s, sep, |parts[0]|) && !Contains(parts[0], sep)
  {
    match Index(s, sep)
    case None => [s]
    case Some(i) =>
      var before, after := s[..i], s[i + |sep|..];
      assert before + sep + after == s by {
        assert s == s[..i] + s[i..i + |sep|] + s[i + |sep|..];
      }
      assert !Contains(before, sep) by {
        forall j | OccursAt(before, sep, j) ensures false {
          assert before[j..j + |sep|] == s[j..j + |sep|];
          assert OccursAt(s, sep, j);
        }
      }
      [before, after]
  }

  /** Go's `%d` for a non-negative integer: its shortest decimal numeral. */
  function Decimal(n: nat): (r: string)
    ensures r != [] && forall i :: 0 <= i < |r| ==> '0' <= r[i] <= '9'
    ensures |r| > 1 ==> r[0] != '0'
  {
    if n < 10 then [DigitChar(n)] else Decimal(n / 10) + [DigitChar(n % 10)]
  }

  function DigitChar(d: nat): (c: char)
    requires d < 10
    ensures '0' <= c <= '9'
  {
    '0' + d as char
  }

  /** The value a decimal numeral denotes. */
  function DecimalValue(s: string): nat
    requires forall i :: 0 <= i < |s| ==> '0' <= s[i] <= '9'
  {
    if s == [] then 0 else 10 * DecimalValue(s[..|s| - 1]) + (s[|s| - 1] - '0') as nat
  }

  /** `%d` is read back as the number it formats. */
  lemma {:induction false} DecimalRoundTrip(n: nat)
    ensures DecimalValue(Decimal(n)) == n
  {
    var r := Decimal(n);
    if n >= 10 {
      DecimalRoundTrip(n / 10);
      assert r[..|r| - 1] == Decimal(n / 10);
    }
  }
}
