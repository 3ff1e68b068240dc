/**
 * Character classes and the few `str` methods the status-query script uses
 * (`strip`, `lower`), restricted to ASCII.
 */
module Text {

  /**
   * The ASCII characters that Python counts as whitespace, both for
   * `str.strip()` and for the regular-expression class `\s`:
   * tab, line feed, vertical tab, form feed, carriage return,
   * the four separators 0x1C to 0x1F, and the space.
   */
  predicate IsSpace(c: char) {
    ('\t' <= c <= '\r') || ('\U{1C}' <= c <= '\U{1F}') || c == ' '
  }

  /** The ASCII decimal digits, the complement of the regular-expression class `\D`. */
  predicate IsDigit(c: char) {
    '0' <= c <= '9'
  }

  predicate AllSpace(s: string) {
    forall i :: 0 <= i < |s| ==> IsSpace(s[i])
  }

  predicate AllDigits(s: string) {
    forall i :: 0 <= i < |s| ==> IsDigit(s[i])
  }

  /** `part` occurs in `whole` starting at index `i`. */
  predicate OccursAt(part: string, whole: string, i: int) {
    0 <= i && i + |part| <= |whole| && whole[i..i + |part|] == part
  }

  /** `a` can be obtained from `b` by deleting elements. */
  predicate IsSubsequence<T(==)>(a: seq<T>, b: seq<T>)
    decreases |b|
  {
    if a == [] then true
    else if b == [] then false
    else (a[0] == b[0] && IsSubsequence(a[1..], b[1..])) || IsSubsequence(a, b[1..])
  }

  /** Neither end of `s` is whitespace. */
  predicate Trimmed(s: string) {
    s == [] || (!IsSpace(s[0]) && !IsSpace(s[|s| - 1]))
  }

  /** Python's `str.lstrip()`: the suffix left after the leading whitespace run. */
  function TrimStart(s: string): (r: string)
    ensures |r| <= |s| && r == s[|s| - |r|..]
    ensures r == [] || !IsSpace(r[0])
    ensures forall i :: 0 <= i < |s| - |r| ==> IsSpace(s[i])
  {
    if s != [] && IsSpace(s[0]) then TrimStart(s[1..]) else s
  }

  /** Python's `str.rstrip()`: the prefix left before the trailing whitespace run. */
  function TrimEnd(s: string): (r: string)
    ensures |r| <= |s| && r == s[..|r|]
    ensures r == [] || !IsSpace(r[|r| - 1])
    ensures forall i :: |r| <= i < |s| ==> IsSpace(s[i])
  {
    if s != [] && IsSpace(s[|s| - 1]) then TrimEnd(s[..|s| - 1]) else s
  }

  /**
   * Python's `str.strip()`: the slice `s[i..j]` that remains once the leading
   * and trailing whitespace runs are removed.
   */
  function Strip(s: string): (r: string)
    ensures Trimmed(r)
    ensures exists i :: 0 <= i <= |s| - |r| && OccursAt(r, s, i)
                        && AllSpace(s[..i]) && AllSpace(s[i + |r|..])
  {
    var t := TrimStart(s);
    var r := TrimEnd(t);
    PaddedSlice(s, t, r, |s| - |t|);
    r
  }

  /** `r` sits in `s` at `i` with whitespace around it, given how the two trims cut. */
  lemma PaddedSlice(s: string, t: string, r: string, i: nat)
    requires i <= |s| && t == s[i..] && |r| <= |t| && r == t[..|r|]
    requires forall k :: 0 <= k < i ==> IsSpace(s[k])
    requires forall k :: |r| <= k < |t| ==> IsSpace(t[k])
    ensures 0 <= i <= |s| - |r| && OccursAt(r, s, i) && AllSpace(s[..i]) && AllSpace(s[i + |r|..])
  {
    assert s[i..i + |r|] == t[..|r|];
    forall k | i + |r| <= k < |s| ensures IsSpace(s[k]) {
      assert s[k] == t[k - i];
    }
  }

  /** How `Strip` cuts `s`: all-whitespace padding around the result. */
  lemma StripSplit(s: string) returns (lead: string, trail: string)
    ensures s == lead + Strip(s) + trail
    ensures AllSpace(lead) && AllSpace(trail)
  {
    var t := TrimStart(s);
    var r := TrimEnd(t);
    var i := |s| - |t|;
    SplitAround(s, t, r, i);
    assert s[i + |r|..] == t[|r|..] by {
      SuffixOfSuffix(s, t, i, |r|);
    }
    lead, trail := s[..i], t[|r|..];
  }

  lemma SplitAround(c: string, t: string, r: string, i: nat)
    requires i <= |c| && t == c[i..] && |r| <= |t| && r == t[..|r|]
    ensures c == c[..i] + r + t[|r|..]
  {
  }

  lemma SuffixOfSuffix(c: string, t: string, i: nat, k: nat)
    requires i <= |c| && t == c[i..] && k <= |t|
    ensures c[i + k..] == t[k..]
  {
  }

  /** Stripping whitespace padding gives back the padded text. */
  lemma StripPadded(lead: string, x: string, trail: string)
    requires AllSpace(lead) && AllSpace(trail) && Trimmed(x)
    ensures Strip(lead + x + trail) == x
  {
    if x == [] {
      assert lead + x + trail == (lead + trail) + [];
      StripNoLead(lead + trail, []);
    } else {
      assert lead + x + trail == lead + (x + trail);
      StripNoLead(lead, x + trail);
      StripNoTrail(x, trail);
    }
  }

  lemma {:induction false} StripNoLead(lead: string, y: string)
    requires AllSpace(lead) && (y == [] || !IsSpace(y[0]))
    ensures TrimStart(lead + y) == y
  {
    if lead != [] {
      assert (lead + y)[1..] == lead[1..] + y;
      StripNoLead(lead[1..], y);
    }
  }

  lemma {:induction false} StripNoTrail(x: string, trail: string)
    requires AllSpace(trail) && (x == [] || !IsSpace(x[|x| - 1]))
    ensures TrimEnd(x + trail) == x
  {
    if trail != [] {
      var t' := trail[..|trail| - 1];
      assert (x + trail)[..|x + trail| - 1] == x + t';
      StripNoTrail(x, t');
    } else {
      assert x + trail == x;
    }
  }

  /** A string with no whitespace at either end is its own strip. */
  lemma StripTrimmed(t: string)
    requires Trimmed(t)
    ensures Strip(t) == t
  {
    StripPadded([], t, []);
    assert [] + t + [] == t;
  }

  /** ASCII `str.lower()` on one character. */
  function LowerChar(c: char): (d: char)
    ensures !('A' <= d <= 'Z')
    ensures 'A' <= c <= 'Z' ==> d as int == c as int + 32
    ensures !('A' <= c <= 'Z') ==> d == c
  {
    if 'A' <= c <= 'Z' then (c as int + 32) as char else c
  }

  /** ASCII `str.lower()`. */
  function Lower(s: string): (r: string)
    ensures |r| == |s|
    ensures forall i :: 0 <= i < |s| ==> r[i] == LowerChar(s[i])
  {
    seq(|s|, i requires 0 <= i < |s| => LowerChar(s[i]))
  }
}
