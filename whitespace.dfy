/**
 * The whitespace normalisation applied to the serialized query before it is
 * put in the SOAP body: `re.sub(r"\s+", " ", xml_str).strip()`.
 */
module Whitespace {
  import opened Text

  /** Every whitespace character is a plain space and no two are adjacent. */
  predicate SingleSpaced(s: string) {
    && (forall i :: 0 <= i < |s| && IsSpace(s[i]) ==> s[i] == ' ')
    && (forall i, j :: 0 <= i < |s| && 0 <= j < |s| && j == i + 1 ==> !(IsSpace(s[i]) && IsSpace(s[j])))
  }

  /** What a normalised string looks like. */
  predicate Canonical(s: string) {
    Trimmed(s) && SingleSpaced(s)
  }

  /** The non-whitespace characters of `s`, in order. */
  function NonSpace(s: string): (r: string)
    ensures forall i :: 0 <= i < |r| ==> !IsSpace(r[i])
  {
    if s == [] then [] else (if IsSpace(s[0]) then [] else [s[0]]) + NonSpace(s[1..])
  }

  /**
   * `re.sub(r"\s+", " ", s)`: each maximal run of whitespace becomes one
   * space; every other character is kept.
   */
  function CollapseRuns(s: string): (r: string)
    ensures |r| <= |s|
    ensures r == [] <==> s == []
    ensures s != [] ==> r[0] == if IsSpace(s[0]) then ' ' else s[0]
    decreases |s|
  {
    if s == [] then []
    else if IsSpace(s[0]) then " " + CollapseRuns(TrimStart(s[1..]))
    else [s[0]] + CollapseRuns(s[1..])
  }

  /** After collapsing, whitespace only occurs as single spaces. */
  lemma {:induction false} CollapseIsSingleSpaced(s: string)
    ensures SingleSpaced(CollapseRuns(s))
    decreases |s|
  {
    if s != [] {
      var rest := if IsSpace(s[0]) then TrimStart(s[1..]) else s[1..];
      CollapseIsSingleSpaced(rest);
      var x := CollapseRuns(rest);
      var c := if IsSpace(s[0]) then ' ' else s[0];
      assert CollapseRuns(s) == [c] + x;
      PrependSingleSpaced(c, x);
    }
  }

  lemma PrependSingleSpaced(c: char, x: string)
    requires SingleSpaced(x)
    requires IsSpace(c) ==> c == ' ' && (x == [] || !IsSpace(x[0]))
    ensures SingleSpaced([c] + x)
  {
    var y := [c] + x;
    forall i | 0 <= i < |y| && IsSpace(y[i]) ensures y[i] == ' ' {
      if i > 0 { assert y[i] == x[i - 1]; }
    }
    forall i, j | 0 <= i < |y| && 0 <= j < |y| && j == i + 1
      ensures !(IsSpace(y[i]) && IsSpace(y[j]))
    {
      if i > 0 { assert y[i] == x[i - 1] && y[j] == x[j - 1]; }
    }
  }

  /** Collapsing keeps every non-whitespace character, in order. */
  lemma {:induction false} CollapseKeepsNonSpace(s: string)
    ensures NonSpace(CollapseRuns(s)) == NonSpace(s)
    decreases |s|
  {
    if s != [] {
      if IsSpace(s[0]) {
        var rest := TrimStart(s[1..]);
        CollapseKeepsNonSpace(rest);
        NonSpaceTrimStart(s[1..]);
        var x := CollapseRuns(rest);
        assert (" " + x)[1..] == x;
      } else {
        CollapseKeepsNonSpace(s[1..]);
        var x := CollapseRuns(s[1..]);
        assert ([s[0]] + x)[1..] == x;
      }
    }
  }

  /** `main_status.py` line 147: collapse whitespace runs, then strip both ends. */
  function Normalize(s: string): (r: string)
    ensures Canonical(r)
    ensures NonSpace(r) == NonSpace(s)
  {
    var c := CollapseRuns(s);
    CollapseIsSingleSpaced(s);
    CollapseKeepsNonSpace(s);
    StripSingleSpaced(c);
    Strip(c)
  }

  /** Stripping keeps a string single-spaced and removes only whitespace. */
  lemma StripSingleSpaced(c: string)
    requires SingleSpaced(c)
    ensures Canonical(Strip(c))
    ensures NonSpace(Strip(c)) == NonSpace(c)
  {
    var lead, trail := StripSplit(c);
    PaddedSingleSpaced(c, lead, Strip(c), trail);
  }

  /** The text between two whitespace pads of a single-spaced string. */
  lemma PaddedSingleSpaced(c: string, lead: string, r: string, trail: string)
    requires c == lead + r + trail && SingleSpaced(c) && AllSpace(lead) && AllSpace(trail)
    ensures SingleSpaced(r)
    ensures NonSpace(r) == NonSpace(c)
  {
    SliceOfSplit(c, lead, r, trail);
    SingleSpacedSlice(c, |lead|, |lead| + |r|);
    NonSpaceConcat(lead, r);
    NonSpaceConcat(lead + r, trail);
    NonSpaceAllSpace(lead);
    NonSpaceAllSpace(trail);
  }

  lemma {:induction false} NonSpaceConcat(a: string, b: string)
    ensures NonSpace(a + b) == NonSpace(a) + NonSpace(b)
  {
    if a == [] {
      assert a + b == b;
    } else {
      assert (a + b)[1..] == a[1..] + b;
      NonSpaceConcat(a[1..], b);
    }
  }

  lemma {:induction false} NonSpaceAllSpace(s: string)
    requires AllSpace(s)
    ensures NonSpace(s) == []
  {
    if s != [] {
      NonSpaceAllSpace(s[1..]);
    }
  }

  lemma NonSpaceTrimStart(s: string)
    ensures NonSpace(TrimStart(s)) == NonSpace(s)
  {
    var t := TrimStart(s);
    var k := |s| - |t|;
    var lead := s[..k];
    assert s == lead + t by {
      assert t == s[k..];
    }
    assert AllSpace(lead);
    NonSpaceConcat(lead, t);
    NonSpaceAllSpace(lead);
  }

  lemma SliceOfSplit(c: string, lead: string, r: string, trail: string)
    requires c == lead + r + trail
    ensures c[|lead|..|lead| + |r|] == r
  {
  }

  lemma SingleSpacedSlice(s: string, i: int, j: int)
    requires SingleSpaced(s) && 0 <= i <= j <= |s|
    ensures SingleSpaced(s[i..j])
  {
    var t := s[i..j];
    forall k, l | 0 <= k < l < |t| && l == k + 1 ensures !(IsSpace(t[k]) && IsSpace(t[l])) {
      assert t[k] == s[i + k] && t[l] == s[i + l];
    }
  }

  /** A single-spaced string has no run to collapse. */
  lemma {:induction false} CollapseSingleSpaced(s: string)
    requires SingleSpaced(s)
    ensures CollapseRuns(s) == s
    decreases |s|
  {
    if s != [] {
      SingleSpacedSlice(s, 1, |s|);
      CollapseSingleSpaced(s[1..]);
      if IsSpace(s[0]) {
        assert s[1..] == [] || !IsSpace(s[1..][0]);
        assert TrimStart(s[1..]) == s[1..];
        assert s == " " + s[1..];
      } else {
        assert s == [s[0]] + s[1..];
      }
    }
  }

  /** A canonical string is its own normal form. */
  lemma NormalizeCanonical(s: string)
    requires Canonical(s)
    ensures Normalize(s) == s
  {
    CollapseSingleSpaced(s);
    StripPadded([], s, []);
    assert [] + s + [] == s;
  }

  /** Normalising twice is normalising once. */
  lemma NormalizeIdempotent(s: string)
    ensures Normalize(Normalize(s)) == Normalize(s)
  {
    NormalizeCanonical(Normalize(s));
  }

  // An independent reference: Python's `" ".join(s.split())`.

  /** The longest prefix of `t` without whitespace. */
  function TakeWord(t: string): (w: string)
    ensures |w| <= |t| && w == t[..|w|]
    ensures forall i :: 0 <= i < |w| ==> !IsSpace(w[i])
    ensures |w| == |t| || IsSpace(t[|w|])
    ensures t != [] && !IsSpace(t[0]) ==> |w| > 0
  {
    if t == [] || IsSpace(t[0]) then [] else [t[0]] + TakeWord(t[1..])
  }

  /** Python's `s.split()`: the maximal runs of non-whitespace characters. */
  function Words(s: string): (ws: seq<string>)
    ensures forall k :: 0 <= k < |ws| ==> IsWord(ws[k])
    decreases |s|
  {
    var t := TrimStart(s);
    if t == [] then []
    else
      var w := TakeWord(t);
      var rest := Words(t[|w|..]);
      WordsCons(w, rest);
      [w] + rest
  }

  lemma WordsCons(w: string, ws: seq<string>)
    requires IsWord(w) && forall k :: 0 <= k < |ws| ==> IsWord(ws[k])
    ensures forall k :: 0 <= k < |[w] + ws| ==> IsWord(([w] + ws)[k])
  {
  }

  /** A non-empty string without whitespace. */
  predicate IsWord(w: string) {
    w != [] && forall i :: 0 <= i < |w| ==> !IsSpace(w[i])
  }

  /** Python's `" ".join(ws)`. */
  function Join(ws: seq<string>): string {
    if |ws| == 0 then "" else if |ws| == 1 then ws[0] else ws[0] + " " + Join(ws[1..])
  }

  lemma {:induction false} CollapseAfterWord(w: string, rest: string)
    requires forall i :: 0 <= i < |w| ==> !IsSpace(w[i])
    ensures CollapseRuns(w + rest) == w + CollapseRuns(rest)
  {
    if w == [] {
      assert w + rest == rest;
    } else {
      assert (w + rest)[1..] == w[1..] + rest;
      CollapseAfterWord(w[1..], rest);
      assert w == [w[0]] + w[1..];
    }
  }

  lemma TrimStartNoLead(s: string)
    requires s == [] || !IsSpace(s[0])
    ensures TrimStart(s) == s
  {
  }

  lemma {:induction false} TrimEndAfter(a: string, x: string)
    requires TrimEnd(x) != []
    ensures TrimEnd(a + x) == a + TrimEnd(x)
    decreases |x|
  {
    if IsSpace(x[|x| - 1]) {
      var x' := x[..|x| - 1];
      assert (a + x)[..|a + x| - 1] == a + x';
      TrimEndAfter(a, x');
    }
  }

  lemma TrimStartCollapse(s: string)
    ensures TrimStart(CollapseRuns(s)) == CollapseRuns(TrimStart(s))
  {
    if s != [] && IsSpace(s[0]) {
      var x := CollapseRuns(TrimStart(s[1..]));
      assert CollapseRuns(s) == " " + x;
      assert (" " + x)[1..] == x;
      TrimStartNoLead(x);
    }
  }

  lemma WordStep(t: string)
    requires t != [] && !IsSpace(t[0])
    ensures Words(t) == [TakeWord(t)] + Words(t[|TakeWord(t)|..])
    ensures CollapseRuns(t) == TakeWord(t) + CollapseRuns(t[|TakeWord(t)|..])
  {
    TrimStartNoLead(t);
    var w := TakeWord(t);
    var rest := t[|w|..];
    assert t == w + rest;
    CollapseAfterWord(w, rest);
  }

  lemma GapStep(rest: string)
    requires rest != [] && IsSpace(rest[0])
    ensures TrimStart(rest) == [] || !IsSpace(TrimStart(rest)[0])
    ensures Words(rest) == Words(TrimStart(rest))
    ensures CollapseRuns(rest) == " " + CollapseRuns(TrimStart(rest))
  {
    var u := TrimStart(rest);
    assert TrimStart(rest[1..]) == u;
    TrimStartNoLead(u);
  }

  lemma JoinCons(w: string, ws: seq<string>)
    requires ws != []
    ensures Join([w] + ws) == w + " " + Join(ws)
  {
    assert ([w] + ws)[1..] == ws;
  }

  lemma ConsWord(w: string, x: string, ws: seq<string>)
    requires x != [] && !IsSpace(x[0]) && ws != []
    requires TrimEnd(x) == Join(ws)
    ensures TrimEnd(w + (" " + x)) == Join([w] + ws)
  {
    assert IsSpace(x[0]) || TrimEnd(x) != [];
    assert w + (" " + x) == (w + " ") + x;
    TrimEndAfter(w + " ", x);
    JoinCons(w, ws);
  }

  /** The remainder of `t` after its first word and the whitespace that follows. */
  function AfterWord(t: string): (u: string)
    ensures |u| <= |t|
    ensures t != [] && !IsSpace(t[0]) ==> |u| < |t|
  {
    TrimStart(t[|TakeWord(t)|..])
  }

  lemma CollapseStep(t: string)
    requires t != [] && !IsSpace(t[0])
    requires AfterWord(t) != [] ==>
               TrimEnd(CollapseRuns(AfterWord(t))) == Join(Words(AfterWord(t)))
    ensures TrimEnd(CollapseRuns(t)) == Join(Words(t))
  {
    var rest := t[|TakeWord(t)|..];
    if rest == [] {
      CollapseLastWord(t);
    } else if TrimStart(rest) == [] {
      CollapseLastWordGap(t);
    } else {
      CollapseNextWord(t);
    }
  }

  lemma CollapseLastWord(t: string)
    requires t != [] && !IsSpace(t[0]) && t[|TakeWord(t)|..] == []
    ensures TrimEnd(CollapseRuns(t)) == Join(Words(t))
  {
    WordStep(t);
    LastWord(TakeWord(t), CollapseRuns(t), Words(t), "");
  }

  lemma CollapseLastWordGap(t: string)
    requires t != [] && !IsSpace(t[0])
    requires t[|TakeWord(t)|..] != [] && TrimStart(t[|TakeWord(t)|..]) == []
    ensures TrimEnd(CollapseRuns(t)) == Join(Words(t))
  {
    WordStep(t);
    var w := TakeWord(t);
    var rest := t[|w|..];
    GapStep(rest);
    var empty: string := [];
    assert TrimStart(rest) == empty;
    assert CollapseRuns(empty) == [] && Words(empty) == [];
    assert CollapseRuns(rest) == " " + [] == " ";
    assert Words(t) == [w] + [];
    LastWord(w, CollapseRuns(t), Words(t), " ");
  }

  lemma CollapseNextWord(t: string)
    requires t != [] && !IsSpace(t[0])
    requires t[|TakeWord(t)|..] != [] && AfterWord(t) != []
    requires TrimEnd(CollapseRuns(AfterWord(t))) == Join(Words(AfterWord(t)))
    ensures TrimEnd(CollapseRuns(t)) == Join(Words(t))
  {
    WordStep(t);
    var w := TakeWord(t);
    var rest := t[|w|..];
    GapStep(rest);
    var u := TrimStart(rest);
    TrimStartNoLead(u);
    assert Words(u) != [];
    ConsWord(w, CollapseRuns(u), Words(u));
  }

  lemma LastWord(w: string, c: string, ws: seq<string>, gap: string)
    requires w != [] && !IsSpace(w[|w| - 1]) && AllSpace(gap)
    requires c == w + gap && ws == [w]
    ensures TrimEnd(c) == Join(ws)
  {
    StripNoTrail(w, gap);
  }

  lemma {:induction false} TrimEndCollapse(t: string)
    requires t == [] || !IsSpace(t[0])
    ensures TrimEnd(CollapseRuns(t)) == Join(Words(t))
    decreases |t|
  {
    if t != [] {
      var u := AfterWord(t);
      if u != [] {
        TrimEndCollapse(u);
      }
      CollapseStep(t);
    }
  }

  /** The normalisation is Python's `" ".join(s.split())`. */
  lemma NormalizeIsJoinOfWords(s: string)
    ensures Normalize(s) == Join(Words(s))
  {
    TrimStartCollapse(s);
    TrimEndCollapse(TrimStart(s));
    TrimStartNoLead(TrimStart(s));
  }

  /** The single space `re.sub(r"\s+", " ", s)` leaves for a leading run of whitespace. */
  function LeadingGap(s: string): string {
    if s != [] && IsSpace(s[0]) then " " else ""
  }

  /** The single space `re.sub(r"\s+", " ", s)` leaves for a trailing run of whitespace. */
  function TrailingGap(s: string): string {
    if s != [] && IsSpace(s[|s| - 1]) then " " else ""
  }

  /**
   * The value of `re.sub(r"\s+", " ", s)` in closed form: the words joined
   * by single spaces, with one space kept for a leading and one for a
   * trailing run of whitespace (a string of whitespace only becomes " ").
   */
  lemma {:induction false} CollapseRunsClosedForm(s: string)
    ensures Words(s) == [] ==> CollapseRuns(s) == LeadingGap(s)
    ensures Words(s) != [] ==> CollapseRuns(s) == LeadingGap(s) + Join(Words(s)) + TrailingGap(s)
  {
    if s == [] {
      assert Words(s) == [] && CollapseRuns(s) == "";
    } else if IsSpace(s[0]) {
      ClosedFormAfterGap(s);
    } else {
      ClosedFormFromWord(s);
    }
  }

  /** The closed form when `s` starts with a word. */
  lemma {:induction false} ClosedFormFromWord(s: string)
    requires s != [] && !IsSpace(s[0])
    ensures Words(s) != [] && LeadingGap(s) == ""
    ensures CollapseRuns(s) == LeadingGap(s) + Join(Words(s)) + TrailingGap(s)
  {
    CollapseFromWord(s);
    WordsOfWord(s);
    Regroup(CollapseRuns(s), "", CollapseRuns(s), Join(Words(s)), TrailingGap(s));
  }

  /** The closed form when `s` starts with whitespace. */
  lemma {:induction false} ClosedFormAfterGap(s: string)
    requires s != [] && IsSpace(s[0])
    ensures LeadingGap(s) == " "
    ensures Words(s) == [] ==> CollapseRuns(s) == " "
    ensures Words(s) != [] ==> CollapseRuns(s) == " " + Join(Words(s)) + TrailingGap(s)
  {
    var u := TrimStart(s);
    GapStep(s);
    if u == [] {
      AllSpaceCollapse(s, u);
    } else {
      CollapseFromWord(u);
      WordsOfWord(u);
      TrailingGapTrimStart(s);
      Regroup(CollapseRuns(s), " ", CollapseRuns(u), Join(Words(s)), TrailingGap(s));
    }
  }

  /** A string of whitespace only has no words and collapses to one space. */
  lemma AllSpaceCollapse(s: string, u: string)
    requires s != [] && IsSpace(s[0]) && u == TrimStart(s) && u == []
    requires Words(s) == Words(u) && CollapseRuns(s) == " " + CollapseRuns(u)
    ensures Words(s) == [] && CollapseRuns(s) == " "
  {
  }

  /** A non-empty suffix ends like the whole string. */
  lemma TrailingGapSuffix(s: string, u: string)
    requires u != [] && |u| <= |s| && u == s[|s| - |u|..]
    ensures TrailingGap(u) == TrailingGap(s)
  {
    assert u[|u| - 1] == s[|s| - 1];
  }

  /** Dropping a proper prefix keeps the last character. */
  lemma TrailingGapDrop(s: string, k: nat)
    requires k < |s|
    ensures TrailingGap(s[k..]) == TrailingGap(s)
  {
    assert s[k..][|s| - k - 1] == s[|s| - 1];
  }

  /** Removing leading whitespace that leaves something keeps the last character. */
  lemma TrailingGapTrimStart(s: string)
    requires TrimStart(s) != []
    ensures TrailingGap(TrimStart(s)) == TrailingGap(s)
  {
    TrailingGapSuffix(s, TrimStart(s));
  }

  /** Reassociation of a three-part concatenation. */
  lemma Regroup(c: string, lead: string, x: string, j: string, tail: string)
    requires c == lead + x && x == j + tail
    ensures c == lead + j + tail
  {
  }

  /** A string that starts with a word has at least one word. */
  lemma WordsOfWord(t: string)
    requires t != [] && !IsSpace(t[0])
    ensures Words(t) != []
  {
    TrimStartNoLead(t);
  }

  /** `CollapseRuns` of a string that starts with a word. */
  lemma {:induction false} CollapseFromWord(t: string)
    requires t != [] && !IsSpace(t[0])
    ensures CollapseRuns(t) == Join(Words(t)) + TrailingGap(t)
    decreases |t|
  {
    var u := AfterWord(t);
    if u != [] {
      CollapseFromWord(u);
    }
    FromWordStep(t);
  }

  /** One step of `CollapseFromWord`: the first word, then what follows it. */
  lemma {:induction false} FromWordStep(t: string)
    requires t != [] && !IsSpace(t[0])
    requires AfterWord(t) != [] ==>
               CollapseRuns(AfterWord(t)) == Join(Words(AfterWord(t))) + TrailingGap(AfterWord(t))
    ensures CollapseRuns(t) == Join(Words(t)) + TrailingGap(t)
  {
    WordStep(t);
    var w := TakeWord(t);
    var rest := t[|w|..];
    if rest == [] {
      OneWord(t, w);
    } else {
      GapStep(rest);
      TrailingGapDrop(t, |w|);
      var u := TrimStart(rest);
      if u == [] {
        AllSpaceCollapse(rest, u);
        WordThenGap(t, w, rest);
      } else {
        WordsOfWord(u);
        JoinCons(w, Words(u));
        TrailingGapTrimStart(rest);
        ConsGap(CollapseRuns(t), w, CollapseRuns(rest), CollapseRuns(u), Join(Words(t)), Join(Words(u)), TrailingGap(t));
      }
    }
  }

  /** `CollapseFromWord` when `t` is a single word. */
  lemma OneWord(t: string, w: string)
    requires t != [] && w == TakeWord(t) && t[|w|..] == [] && !IsSpace(t[0])
    requires Words(t) == [w] + Words(t[|w|..]) && CollapseRuns(t) == w + CollapseRuns(t[|w|..])
    ensures CollapseRuns(t) == Join(Words(t)) + TrailingGap(t)
  {
    var empty: string := [];
    assert CollapseRuns(empty) == [] && Words(empty) == [];
    assert t == w;
  }

  /** `CollapseFromWord` when `t` is a word followed by whitespace only. */
  lemma WordThenGap(t: string, w: string, rest: string)
    requires |w| <= |t| && rest == t[|w|..] && rest != [] && IsSpace(rest[0])
    requires Words(t) == [w] + Words(rest) && CollapseRuns(t) == w + CollapseRuns(rest)
    requires Words(rest) == [] && CollapseRuns(rest) == " " && TrailingGap(t) == TrailingGap(rest)
    requires TrimStart(rest) == []
    ensures CollapseRuns(t) == Join(Words(t)) + TrailingGap(t)
  {
    assert IsSpace(rest[|rest| - 1]);
  }

  /** A word, a gap, then the rest: the concatenations line up. */
  lemma ConsGap(c: string, w: string, cr: string, cu: string, j: string, ju: string, tail: string)
    requires c == w + cr && cr == " " + cu && cu == ju + tail && j == w + " " + ju
    ensures c == j + tail
  {
  }
}
