/**
 * The string operations the message handler relies on: `String.prototype.trim`,
 * `toLowerCase`, `includes`, and the `\d` and `\s` classes of regular expressions,
 * all restricted to ASCII.
 */
module Text {

  /** The ASCII members of JavaScript's whitespace class (`\s`, and what `trim` strips). */
  predicate IsSpace(c: char) {
    c == ' ' || c == '\t' || c == '\n' || c == '\r' || c == '\U{000B}' || c == '\U{000C}'
  }

  /** The regular-expression class `\d`. */
  predicate IsDigit(c: char) {
    '0' <= c <= '9'
  }

  predicate IsUpper(c: char) {
    'A' <= c <= 'Z'
  }

  predicate AllDigits(s: string) {
    forall i :: 0 <= i < |s| ==> IsDigit(s[i])
  }

  // ---------------------------------------------------------------------------
  // trim

  /** Every character of `s` in the index range [lo, hi) is whitespace. */
  predicate SpaceBetween(s: string, lo: int, hi: int) {
    forall k :: lo <= k < hi && 0 <= k < |s| ==> IsSpace(s[k])
  }

  /** Number of whitespace characters at the front of `s`. */
  function LeadingSpace(s: string): (n: nat)
    ensures n <= |s| && SpaceBetween(s, 0, n)
    ensures n < |s| ==> !IsSpace(s[n])
  {
    if s == [] || !IsSpace(s[0]) then 0
    else 1 + LeadingSpace(s[1..])
  }

  /** Index where the whitespace at the back of `s` begins. */
  function TrailingSpaceStart(s: string): (n: nat)
    ensures n <= |s| && SpaceBetween(s, n, |s|)
    ensures 0 < n ==> !IsSpace(s[n - 1])
  {
    if s == [] || !IsSpace(s[|s| - 1]) then |s|
    else TrailingSpaceStart(s[..|s| - 1])
  }

  /**
   * `s[i..j]` is `s` with its leading and trailing whitespace removed: only
   * whitespace outside the slice, and no whitespace at either end of it.
   */
  predicate TrimBounds(s: string, i: int, j: int) {
    0 <= i <= j <= |s| && SpaceBetween(s, 0, i) && SpaceBetween(s, j, |s|)
      && (i < j ==> !IsSpace(s[i]) && !IsSpace(s[j - 1]))
  }

  /** `r` is the trimmed form of `s`. */
  ghost predicate IsTrimOf(r: string, s: string) {
    exists i, j :: TrimBounds(s, i, j) && r == s[i..j]
  }

  /** `String.prototype.trim`. */
  function Trim(s: string): (r: string)
    ensures IsTrimOf(r, s)
  {
    var i, j := LeadingSpace(s), TrailingSpaceStart(s);
    if j <= i then
      // every character is whitespace
      assert TrimBounds(s, |s|, |s|) && s[|s|..|s|] == [];
      []
    else
      assert TrimBounds(s, i, j);
      s[i..j]
  }

  /** The trimmed form of a string is unique. */
  lemma TrimUnique(r1: string, r2: string, s: string)
    requires IsTrimOf(r1, s) && IsTrimOf(r2, s)
    ensures r1 == r2
  {
    var i1, j1 :| TrimBounds(s, i1, j1) && r1 == s[i1..j1];
    var i2, j2 :| TrimBounds(s, i2, j2) && r2 == s[i2..j2];
    assert i1 < j1 && i2 < j2 ==> i1 == i2 && j1 == j2;
  }

  /** Whitespace appended to a string does not change its trimmed form. */
  lemma TrimIgnoresTrailingSpace(s: string, w: string)
    requires SpaceBetween(w, 0, |w|)
    ensures Trim(s + w) == Trim(s)
  {
    var r, t := Trim(s), s + w;
    var i, j :| TrimBounds(s, i, j) && r == s[i..j];
    assert TrimBounds(t, i, j) by {
      forall k | j <= k < |t| ensures IsSpace(t[k]) {
        if k >= |s| { assert t[k] == w[k - |s|]; }
      }
    }
    assert t[i..j] == r;
    TrimUnique(Trim(t), r, t);
  }

  // ---------------------------------------------------------------------------
  // toLowerCase

  function LowerChar(c: char): (d: char)
    ensures !IsUpper(d)
    ensures !IsUpper(c) ==> d == c
    ensures IsUpper(c) ==> d as int == c as int + 32
  {
    if IsUpper(c) then (c as int + 32) as char else c
  }

  /** `String.prototype.toLowerCase` on ASCII letters; every other character is kept. */
  function ToLower(s: string): (r: string)
    ensures |r| == |s|
    ensures forall i :: 0 <= i < |s| ==> r[i] == LowerChar(s[i])
  {
    seq(|s|, i requires 0 <= i < |s| => LowerChar(s[i]))
  }

  /** Lowercasing leaves no ASCII capital behind, so doing it twice changes nothing. */
  lemma ToLowerIdempotent(s: string)
    ensures forall i :: 0 <= i < |s| ==> !IsUpper(ToLower(s)[i])
    ensures ToLower(ToLower(s)) == ToLower(s)
  {
  }

  // ---------------------------------------------------------------------------
  // includes

  /** `pat` occurs in `s` starting at index `i`. */
  predicate OccursAt(s: string, pat: string, i: nat) {
    i + |pat| <= |s| && s[i..i + |pat|] == pat
  }

  /** `String.prototype.includes`. */
  function Contains(s: string, pat: string): (b: bool)
    ensures b <==> exists i: nat :: OccursAt(s, pat, i)
    decreases |s|
  {
    if |s| < |pat| then
      false
    else if s[..|pat|] == pat then
      assert OccursAt(s, pat, 0);
      true
    else
      var b := Contains(s[1..], pat);
      if b then
        var i: nat :| OccursAt(s[1..], pat, i);
        assert s[i + 1..i + 1 + |pat|] == s[1..][i..i + |pat|];
        assert OccursAt(s, pat, i + 1);
        b
      else
        forall i: nat | OccursAt(s, pat, i) ensures false {
          assert i != 0;
          assert s[1..][i - 1..i - 1 + |pat|] == s[i..i + |pat|];
          assert OccursAt(s[1..], pat, i - 1);
        }
        b
  }
}
