/**
 * The console preview of the raw reply:
 * `resposta[:2000] + ("...\n[truncado]" if len(resposta) > 2000 else "")`.
 */
module Preview {
  /** Number of characters of the reply that are shown. */
  const PreviewLimit: nat := 2000

  /** Appended when the reply was cut. */
  const TruncationMarker: string := "...\n[truncado]"

  /** Python's `s[:n]` for `n >= 0`: the whole string when it is shorter. */
  function Take(s: string, n: nat): (r: string)
    ensures |r| == if |s| <= n then |s| else n
    ensures r == s[..|r|]
  {
    if |s| <= n then s else s[..n]
  }

  /** The text printed for the reply `resposta`. */
  function ResponsePreview(resposta: string): (p: string)
    ensures |resposta| <= PreviewLimit ==> p == resposta
    ensures |resposta| > PreviewLimit ==>
              p == resposta[..PreviewLimit] + TruncationMarker
  {
    Take(resposta, PreviewLimit) + (if |resposta| > PreviewLimit then TruncationMarker else "")
  }

  /**
   * The preview starts with the reply's first characters, never exceeds the
   * limit plus the marker, and is never longer than the reply plus the marker.
   */
  lemma PreviewBounds(resposta: string)
    ensures var n := if |resposta| <= PreviewLimit then |resposta| else PreviewLimit;
            |ResponsePreview(resposta)| >= n && ResponsePreview(resposta)[..n] == resposta[..n]
    ensures |ResponsePreview(resposta)| <= PreviewLimit + |TruncationMarker|
    ensures |ResponsePreview(resposta)| <= |resposta| + |TruncationMarker|
  {
  }

  /** A reply that was cut is shown with the marker at the end. */
  lemma PreviewMarksTruncation(resposta: string)
    requires |resposta| > PreviewLimit
    ensures |ResponsePreview(resposta)| == PreviewLimit + |TruncationMarker|
    ensures ResponsePreview(resposta)[PreviewLimit..] == TruncationMarker
  {
  }
}
