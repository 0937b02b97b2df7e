/**
 * The string handling of `WebTool` (interpreter/tools/web.py): the default
 * URL scheme and `_clean_content`, which collapses blank-line runs and
 * strips the result.  Whitespace is `str.isspace`, which is also what `\s`
 * matches in a `str` pattern and what `strip()` removes.
 */
module Web {

  import opened Base
  import opened Text

  predicate HasScheme(url: string)
  {
    StartsWith(url, "http://") || StartsWith(url, "https://")
  }

  /**
   * `https://` is put in front of a URL without an http or https scheme.
   * The result always has one of the two schemes, ends with the given URL,
   * equals it exactly when it already had a scheme, and is otherwise the
   * URL behind `https://`.
   */
  function NormalizeUrl(url: string): (r: string)
    ensures HasScheme(r)
    ensures |url| <= |r| && r[|r| - |url|..] == url
    ensures r == url <==> HasScheme(url)
    ensures !HasScheme(url) ==> r == "https://" + url
  {
    if HasScheme(url) then url
    else
      var r := "https://" + url;
      assert r[..8] == "https://";
      assert r[|r| - |url|..] == url;
      r
  }

  /** Normalising twice is normalising once. */
  lemma NormalizeUrlIdempotent(url: string)
    ensures NormalizeUrl(NormalizeUrl(url)) == NormalizeUrl(url)
  {
  }

  // ---------------------------------------------------------------------------
  // Building blocks

  /** Every character of `w` is whitespace. */
  predicate AllSpace(w: string)
  {
    forall i :: 0 <= i < |w| ==> IsSpace(w[i])
  }

  /** No character of `w` is a newline. */
  predicate NoNewline(w: string)
  {
    forall i :: 0 <= i < |w| ==> w[i] != '\n'
  }

  lemma AllSpaceSlice(w: string, i: int, j: int)
    requires AllSpace(w) && 0 <= i <= j <= |w|
    ensures AllSpace(w[i..j])
  {
    assert forall k :: 0 <= k < j - i ==> w[i..j][k] == w[i + k];
  }

  lemma NoNewlineSlice(w: string, i: int, j: int)
    requires NoNewline(w) && 0 <= i <= j <= |w|
    ensures NoNewline(w[i..j])
  {
    assert forall k :: 0 <= k < j - i ==> w[i..j][k] == w[i + k];
  }

  /** The length of the longest all-whitespace prefix of `s`. */
  function SpaceRun(s: string): (n: nat)
    ensures n <= |s| && AllSpace(s[..n])
    ensures n == |s| || !IsSpace(s[n])
  {
    if |s| == 0 || !IsSpace(s[0]) then 0
    else
      var n := 1 + SpaceRun(s[1..]);
      assert forall i :: 1 <= i < n ==> s[..n][i] == s[1..][..n - 1][i - 1];
      n
  }

  /** The length of the longest all-whitespace suffix of `s`. */
  function TrailingSpaceRun(s: string): (n: nat)
    ensures n <= |s| && AllSpace(s[|s| - n..])
    ensures n == |s| || !IsSpace(s[|s| - n - 1])
  {
    if |s| == 0 || !IsSpace(s[|s| - 1]) then 0
    else
      var n := 1 + TrailingSpaceRun(s[..|s| - 1]);
      assert s[|s| - n..] == s[..|s| - 1][|s| - n..] + [s[|s| - 1]];
      n
  }

  /** A whitespace stretch ended by the end of the text or a non-whitespace character is the whole run. */
  lemma {:induction false} SpaceRunOver(w: string, t: string)
    requires AllSpace(w)
    requires t == [] || !IsSpace(t[0])
    ensures SpaceRun(w + t) == |w|
    decreases |w|
  {
    if |w| != 0 {
      assert (w + t)[1..] == w[1..] + t;
      AllSpaceSlice(w, 1, |w|);
      SpaceRunOver(w[1..], t);
    } else {
      assert w + t == t;
    }
  }

  /** The index of the last newline of `w`. */
  function LastNewline(w: string): (r: Option<nat>)
    ensures r.Some? ==> r.value < |w| && w[r.value] == '\n' && forall i :: r.value < i < |w| ==> w[i] != '\n'
    ensures r.None? <==> NoNewline(w)
  {
    if |w| == 0 then None
    else if w[|w| - 1] == '\n' then Some(|w| - 1)
    else LastNewline(w[..|w| - 1])
  }

  /** The characterisation of `LastNewline` determines it. */
  lemma LastNewlineIs(w: string, k: nat)
    requires k < |w| && w[k] == '\n'
    requires forall i :: k < i < |w| ==> w[i] != '\n'
    ensures LastNewline(w) == Some(k)
  {
  }

  /** The index of the first newline of `w`. */
  function FirstNewline(w: string): (r: Option<nat>)
    ensures r.Some? ==> r.value < |w| && w[r.value] == '\n' && forall i :: 0 <= i < r.value ==> w[i] != '\n'
    ensures r.None? <==> NoNewline(w)
  {
    if |w| == 0 then None
    else if w[0] == '\n' then Some(0)
    else match FirstNewline(w[1..])
      case None => None
      case Some(k) => Some(k + 1)
  }

  /** The characters of `s` that are not whitespace, in order. */
  function NonSpace(s: string): string
  {
    if |s| == 0 then "" else (if IsSpace(s[0]) then "" else [s[0]]) + NonSpace(s[1..])
  }

  lemma {:induction false} NonSpaceConcat(a: string, b: string)
    ensures NonSpace(a + b) == NonSpace(a) + NonSpace(b)
    decreases |a|
  {
    if |a| != 0 {
      var ab := a + b;
      assert ab[0] == a[0] && ab[1..] == a[1..] + b;
      NonSpaceConcat(a[1..], b);
      var h := if IsSpace(a[0]) then "" else [a[0]];
      assert NonSpace(ab) == h + NonSpace(ab[1..]);
      assert NonSpace(a) == h + NonSpace(a[1..]);
      ConcatAssoc(h, NonSpace(a[1..]), NonSpace(b));
    } else {
      assert a + b == b;
    }
  }

  lemma NonSpaceDropSpaceHead(x: string, y: string)
    requires AllSpace(x)
    ensures NonSpace(x + y) == NonSpace(y)
  {
    NonSpaceConcat(x, y);
    NonSpaceOfSpace(x);
  }

  lemma {:induction false} NonSpaceSplit(s: string, k: nat)
    requires k <= |s|
    ensures NonSpace(s) == NonSpace(s[..k]) + NonSpace(s[k..])
    decreases k
  {
    if k == 0 {
      assert s[..k] == [] && s[k..] == s;
    } else {
      var t, u, v := s[..k], s[1..], s[k..];
      NonSpaceSplit(u, k - 1);
      assert t[1..] == u[..k - 1] && u[k - 1..] == v;
      var h := if IsSpace(s[0]) then "" else [s[0]];
      assert NonSpace(t) == h + NonSpace(t[1..]);
      assert NonSpace(s) == h + NonSpace(u);
      ConcatAssoc(h, NonSpace(t[1..]), NonSpace(v));
    }
  }

  lemma {:induction false} NonSpaceOfSpace(w: string)
    requires AllSpace(w)
    ensures NonSpace(w) == ""
    decreases |w|
  {
    if |w| != 0 {
      AllSpaceSlice(w, 1, |w|);
      NonSpaceOfSpace(w[1..]);
    }
  }

  // ---------------------------------------------------------------------------
  // `re.sub(r'\n\s*\n', '\n\n', content)`

  /**
   * The substitution as the regular-expression engine performs it, left
   * to right: at a newline, `\s*` first takes the whole whitespace run that
   * follows and gives back until a newline can end the match, so the match
   * runs to the last newline of that run; without one there is no match
   * there.  Scanning resumes after each replacement.
   */
  function CollapseBlankLines(s: string): string
    decreases |s|
  {
    if |s| == 0 then ""
    else if s[0] == '\n' then
      var e := 1 + SpaceRun(s[1..]);
      match LastNewline(s[1..e])
      case Some(k) => "\n\n" + CollapseBlankLines(s[k + 2..])
      case None => "\n" + CollapseBlankLines(s[1..])
    else [s[0]] + CollapseBlankLines(s[1..])
  }

  /** Newlines at `i` and `j` with only whitespace between them: what the pattern matches. */
  predicate BlankLineAt(s: string, i: int, j: int)
  {
    0 <= i < j < |s| && s[i] == '\n' && s[j] == '\n' && forall k :: i < k < j ==> IsSpace(s[k])
  }

  ghost predicate HasBlankLine(s: string)
  {
    exists i, j :: BlankLineAt(s, i, j)
  }

  /** The replaced part of a match is whitespace only. */
  lemma MatchedSpace(s: string, k: nat)
    requires |s| > 0 && s[0] == '\n'
    requires LastNewline(s[1..1 + SpaceRun(s[1..])]) == Some(k)
    ensures k + 2 <= |s| && AllSpace(s[1..k + 2])
  {
    var e := 1 + SpaceRun(s[1..]);
    var w, m := s[1..][..e - 1], s[1..k + 2];
    forall i | 0 <= i < |m|
      ensures IsSpace(m[i])
    {
      assert m[i] == w[i];
    }
  }

  /** Dropping a newline and the whitespace after it keeps the non-whitespace characters. */
  lemma DropSpacePrefix(s: string, k: nat)
    requires |s| > 0 && s[0] == '\n' && k + 2 <= |s|
    requires AllSpace(s[1..k + 2])
    ensures NonSpace(s) == NonSpace(s[k + 2..])
  {
    var m, t := s[1..k + 2], s[k + 2..];
    assert s[1..] == m + t;
    DropSpaceAfterNewline(s, m, t);
  }

  lemma DropSpaceAfterNewline(s: string, m: string, t: string)
    requires |s| > 0 && s[0] == '\n' && s[1..] == m + t && AllSpace(m)
    ensures NonSpace(s) == NonSpace(t)
  {
    NonSpaceDropSpaceHead(m, t);
    NonSpaceNewline(s);
  }

  lemma NonSpaceNewline(s: string)
    requires |s| > 0 && s[0] == '\n'
    ensures NonSpace(s) == NonSpace(s[1..])
  {
    assert IsSpace('\n');
  }

  /** The substitution only ever replaces whitespace by whitespace. */
  lemma {:induction false} CollapseKeepsNonSpace(s: string)
    ensures NonSpace(CollapseBlankLines(s)) == NonSpace(s)
    decreases |s|
  {
    if |s| != 0 {
      if s[0] == '\n' {
        var e := 1 + SpaceRun(s[1..]);
        match LastNewline(s[1..e])
        case Some(k) =>
          var t := s[k + 2..];
          CollapseKeepsNonSpace(t);
          MatchedSpace(s, k);
          DropSpacePrefix(s, k);
          assert CollapseBlankLines(s) == "\n\n" + CollapseBlankLines(t);
          NonSpaceConcat("\n\n", CollapseBlankLines(t));
          assert NonSpace("\n\n") == "";
        case None =>
          var t := s[1..];
          CollapseKeepsNonSpace(t);
          assert CollapseBlankLines(s) == "\n" + CollapseBlankLines(t);
          NonSpaceConcat("\n", CollapseBlankLines(t));
          assert NonSpace("\n") == "";
          NonSpaceNewline(s);
      } else {
        var t := s[1..];
        CollapseKeepsNonSpace(t);
        assert CollapseBlankLines(s) == [s[0]] + CollapseBlankLines(t);
        NonSpaceConcat([s[0]], CollapseBlankLines(t));
      }
    }
  }

  /** One whitespace stretch as the substitution leaves it: first to last newline become two newlines. */
  function CollapseStretch(w: string): string
  {
    match (FirstNewline(w), LastNewline(w))
    case (Some(f), Some(l)) => if f < l then w[..f] + "\n\n" + w[l + 1..] else w
    case _ => w
  }

  /**
   * Reference definition of the substitution: every maximal whitespace
   * stretch collapsed on its own, everything else copied.
   */
  function CollapseStretches(s: string): string
    decreases |s|
  {
    if |s| == 0 then ""
    else if !IsSpace(s[0]) then [s[0]] + CollapseStretches(s[1..])
    else
      var n := SpaceRun(s);
      CollapseStretch(s[..n]) + CollapseStretches(s[n..])
  }

  /** A stretch without newlines is kept as it is. */
  lemma CollapseStretchNoNewline(w: string)
    requires NoNewline(w)
    ensures CollapseStretch(w) == w
  {
    assert FirstNewline(w).None?;
  }

  /** A leading non-newline character of a stretch is copied in front of the rest's collapse. */
  lemma CollapseStretchCons(w: string)
    requires |w| > 0 && w[0] != '\n'
    ensures CollapseStretch(w) == [w[0]] + CollapseStretch(w[1..])
  {
    if LastNewline(w[1..]).None? {
      CollapseStretchConsPlain(w);
    } else {
      CollapseStretchConsSplice(w, FirstNewline(w[1..]).value, LastNewline(w[1..]).value);
    }
  }

  lemma CollapseStretchConsPlain(w: string)
    requires |w| > 0 && w[0] != '\n'
    requires NoNewline(w[1..])
    ensures CollapseStretch(w) == [w[0]] + CollapseStretch(w[1..])
  {
    assert NoNewline(w) by {
      assert forall i :: 0 < i < |w| ==> w[i] == w[1..][i - 1];
    }
    CollapseStretchNoNewline(w);
    CollapseStretchNoNewline(w[1..]);
    assert w == [w[0]] + w[1..];
  }

  lemma CollapseStretchConsSplice(w: string, f: nat, l: nat)
    requires |w| > 0 && w[0] != '\n'
    requires FirstNewline(w[1..]) == Some(f) && LastNewline(w[1..]) == Some(l)
    ensures CollapseStretch(w) == [w[0]] + CollapseStretch(w[1..])
  {
    FirstNewlineCons(w, f);
    LastNewlineCons(w, l);
    CollapseStretchIs(w, f + 1, l + 1);
    CollapseStretchIs(w[1..], f, l);
    if f < l {
      SpliceCons(w, f, l);
    } else {
      assert w == [w[0]] + w[1..];
    }
  }

  lemma CollapseStretchIs(w: string, f: nat, l: nat)
    requires FirstNewline(w) == Some(f) && LastNewline(w) == Some(l)
    ensures CollapseStretch(w) == if f < l then w[..f] + "\n\n" + w[l + 1..] else w
  {
  }

  lemma FirstNewlineCons(w: string, f: nat)
    requires |w| > 0 && w[0] != '\n'
    requires FirstNewline(w[1..]) == Some(f)
    ensures FirstNewline(w) == Some(f + 1)
  {
  }

  lemma LastNewlineCons(w: string, l: nat)
    requires |w| > 0
    requires LastNewline(w[1..]) == Some(l)
    ensures LastNewline(w) == Some(l + 1)
  {
    var u := w[1..];
    assert w[l + 1] == u[l];
    forall i | l + 1 < i < |w|
      ensures w[i] != '\n'
    {
      assert w[i] == u[i - 1];
    }
    LastNewlineIs(w, l + 1);
  }

  lemma SpliceCons(w: string, f: nat, l: nat)
    requires f < l < |w| - 1
    ensures w[..f + 1] + "\n\n" + w[l + 2..] == [w[0]] + (w[1..][..f] + "\n\n" + w[1..][l + 1..])
  {
    assert w[..f + 1] == [w[0]] + w[1..][..f];
    assert w[l + 2..] == w[1..][l + 1..];
  }

  /** The substitution at a newline opening a stretch whose other newlines end at `k + 1`. */
  lemma CollapseStretchAtNewline(w: string, k: nat)
    requires |w| > 0 && w[0] == '\n'
    requires LastNewline(w[1..]) == Some(k)
    ensures CollapseStretch(w) == "\n\n" + w[k + 2..]
    ensures NoNewline(w[k + 2..])
  {
    assert FirstNewline(w) == Some(0);
    LastNewlineCons(w, k);
    assert w[..0] + "\n\n" + w[k + 2..] == "\n\n" + w[k + 2..];
    AfterLastNewline(w[1..], k);
    assert w[1..][k + 1..] == w[k + 2..];
  }

  /** Nothing after the last newline is a newline. */
  lemma AfterLastNewline(w: string, k: nat)
    requires LastNewline(w) == Some(k)
    ensures NoNewline(w[k + 1..])
  {
    var u := w[k + 1..];
    forall i | 0 <= i < |u|
      ensures u[i] != '\n'
    {
      assert u[i] == w[k + 1 + i];
    }
  }

  /** A stretch holding a single newline, at its start, is kept as it is. */
  lemma CollapseStretchSingleNewline(w: string)
    requires |w| > 0 && w[0] == '\n'
    requires NoNewline(w[1..])
    ensures CollapseStretch(w) == w
  {
    assert FirstNewline(w) == Some(0);
    assert forall i :: 0 < i < |w| ==> w[i] == w[1..][i - 1];
    LastNewlineIs(w, 0);
  }

  /** The substitution over a whitespace stretch followed by a non-whitespace character or the end. */
  lemma {:induction false} CollapseOverStretch(w: string, t: string)
    requires AllSpace(w)
    requires t == [] || !IsSpace(t[0])
    ensures CollapseBlankLines(w + t) == CollapseStretch(w) + CollapseBlankLines(t)
    decreases |w|
  {
    if |w| == 0 {
      assert w + t == t;
    } else {
      AllSpaceSlice(w, 1, |w|);
      if w[0] != '\n' {
        CollapseOverStretch(w[1..], t);
        OverStretchPlain(w, t);
      } else if LastNewline(w[1..]).None? {
        CollapseOverStretch(w[1..], t);
        OverStretchSingleNewline(w, t);
      } else {
        var k := LastNewline(w[1..]).value;
        AllSpaceSlice(w, k + 2, |w|);
        CollapseOverStretch(w[k + 2..], t);
        OverStretchMatch(w, t, k);
      }
    }
  }

  lemma ConcatAssoc(p: string, x: string, y: string)
    ensures p + (x + y) == (p + x) + y
  {
  }

  /** The substitution passes over a space that is not a newline. */
  lemma UnfoldPlain(w: string, t: string)
    requires |w| > 0 && w[0] != '\n'
    ensures CollapseBlankLines(w + t) == [w[0]] + CollapseBlankLines(w[1..] + t)
  {
    assert (w + t)[1..] == w[1..] + t;
  }

  /** The pattern does not match at the only newline of a stretch. */
  lemma UnfoldSingleNewline(w: string, t: string)
    requires |w| > 0 && AllSpace(w[1..]) && (t == [] || !IsSpace(t[0]))
    requires w[0] == '\n' && LastNewline(w[1..]).None?
    ensures CollapseBlankLines(w + t) == "\n" + CollapseBlankLines(w[1..] + t)
  {
    RunAfterNewline(w, t);
  }

  /** After the newline opening a stretch, the whitespace run is the rest of the stretch. */
  lemma RunAfterNewline(w: string, t: string)
    requires |w| > 0 && AllSpace(w[1..]) && (t == [] || !IsSpace(t[0]))
    ensures (w + t)[1..] == w[1..] + t
    ensures (w + t)[1..1 + SpaceRun((w + t)[1..])] == w[1..]
  {
    assert (w + t)[1..] == w[1..] + t;
    SpaceRunOver(w[1..], t);
  }

  /** The pattern matches from the newline opening a stretch to position `k + 1`. */
  lemma UnfoldMatch(w: string, t: string, k: nat)
    requires |w| > 0 && AllSpace(w[1..]) && (t == [] || !IsSpace(t[0]))
    requires w[0] == '\n' && LastNewline(w[1..]) == Some(k)
    ensures CollapseBlankLines(w + t) == "\n\n" + CollapseBlankLines(w[k + 2..] + t)
  {
    RunAfterNewline(w, t);
    assert (w + t)[k + 2..] == w[k + 2..] + t;
  }

  /** The step of `CollapseOverStretch` at a space that is not a newline. */
  lemma OverStretchPlain(w: string, t: string)
    requires |w| > 0 && w[0] != '\n'
    requires CollapseBlankLines(w[1..] + t) == CollapseStretch(w[1..]) + CollapseBlankLines(t)
    ensures CollapseBlankLines(w + t) == CollapseStretch(w) + CollapseBlankLines(t)
  {
    UnfoldPlain(w, t);
    CollapseStretchCons(w);
    ConcatAssoc([w[0]], CollapseStretch(w[1..]), CollapseBlankLines(t));
  }

  /** The step of `CollapseOverStretch` at the only newline of a stretch. */
  lemma OverStretchSingleNewline(w: string, t: string)
    requires |w| > 0 && AllSpace(w[1..]) && (t == [] || !IsSpace(t[0]))
    requires w[0] == '\n' && LastNewline(w[1..]).None?
    requires CollapseBlankLines(w[1..] + t) == CollapseStretch(w[1..]) + CollapseBlankLines(t)
    ensures CollapseBlankLines(w + t) == CollapseStretch(w) + CollapseBlankLines(t)
  {
    UnfoldSingleNewline(w, t);
    CollapseStretchNoNewline(w[1..]);
    CollapseStretchSingleNewline(w);
    ConsNewline(w);
    ConcatAssoc("\n", w[1..], CollapseBlankLines(t));
  }

  lemma ConsNewline(w: string)
    requires |w| > 0 && w[0] == '\n'
    ensures "\n" + w[1..] == w
  {
  }

  /** The step of `CollapseOverStretch` at a newline the pattern matches from, up to `k + 1`. */
  lemma OverStretchMatch(w: string, t: string, k: nat)
    requires |w| > 0 && AllSpace(w[1..]) && (t == [] || !IsSpace(t[0]))
    requires w[0] == '\n' && LastNewline(w[1..]) == Some(k)
    requires CollapseBlankLines(w[k + 2..] + t) == CollapseStretch(w[k + 2..]) + CollapseBlankLines(t)
    ensures CollapseBlankLines(w + t) == CollapseStretch(w) + CollapseBlankLines(t)
  {
    UnfoldMatch(w, t, k);
    CollapseStretchAtNewline(w, k);
    CollapseStretchNoNewline(w[k + 2..]);
    ConcatAssoc("\n\n", w[k + 2..], CollapseBlankLines(t));
  }

  /**
   * Within each maximal whitespace stretch, the span from its first newline
   * to its last is replaced by exactly two newlines when the stretch holds
   * two or more; all other characters are kept in place.
   */
  lemma {:induction false} CollapseByStretches(s: string)
    ensures CollapseBlankLines(s) == CollapseStretches(s)
    decreases |s|
  {
    if |s| != 0 {
      if !IsSpace(s[0]) {
        CollapseByStretches(s[1..]);
      } else {
        var n := SpaceRun(s);
        assert s == s[..n] + s[n..];
        CollapseOverStretch(s[..n], s[n..]);
        CollapseByStretches(s[n..]);
      }
    }
  }

  lemma ShiftBlankLine(s: string)
    requires |s| > 0
    ensures HasBlankLine(s[1..]) ==> HasBlankLine(s)
  {
    if HasBlankLine(s[1..]) {
      var i, j :| BlankLineAt(s[1..], i, j);
      assert BlankLineAt(s, i + 1, j + 1);
    }
  }

  /** Text without two newlines separated only by whitespace comes through the substitution unchanged. */
  lemma {:induction false} CollapseWithoutBlankLine(s: string)
    ensures !HasBlankLine(s) ==> CollapseBlankLines(s) == s
    decreases |s|
  {
    if |s| != 0 {
      CollapseWithoutBlankLine(s[1..]);
      ShiftBlankLine(s);
      HeadTail(s);
      if s[0] == '\n' {
        var e := 1 + SpaceRun(s[1..]);
        match LastNewline(s[1..e])
        case Some(k) =>
          MatchIsBlankLine(s, k);
        case None =>
      }
    }
  }

  lemma HeadTail(s: string)
    requires |s| > 0
    ensures [s[0]] + s[1..] == s
  {
  }

  /** Where the pattern matches, the text has a blank line. */
  lemma MatchIsBlankLine(s: string, k: nat)
    requires |s| > 0 && s[0] == '\n'
    requires LastNewline(s[1..1 + SpaceRun(s[1..])]) == Some(k)
    ensures HasBlankLine(s)
  {
    var e := 1 + SpaceRun(s[1..]);
    MatchedSpace(s, k);
    var m := s[1..k + 2];
    assert s[k + 1] == s[1..e][k];
    forall i | 0 < i < k + 1
      ensures IsSpace(s[i])
    {
      assert s[i] == m[i - 1];
    }
    assert BlankLineAt(s, 0, k + 1);
  }

  // ---------------------------------------------------------------------------
  // `strip()` and `_clean_content`

  /** `s.strip()`: `s` with its leading and trailing whitespace removed. */
  function Strip(s: string): (r: string)
    ensures r == [] || (!IsSpace(r[0]) && !IsSpace(r[|r| - 1]))
    ensures NonSpace(r) == NonSpace(s)
    ensures exists i, j :: 0 <= i <= j <= |s| && r == s[i..j] && AllSpace(s[..i]) && AllSpace(s[j..])
  {
    var n := SpaceRun(s);
    var a := s[n..];
    LeadingSpaceKeepsNonSpace(s);
    TrailingSpaceKeepsNonSpace(a);
    var t := TrailingSpaceRun(a);
    SuffixSlices(s, n, t);
    assert AllSpace(s[..n]) && AllSpace(s[|s| - t..]);
    a[..|a| - t]
  }

  /** Slicing a suffix of `s` is slicing `s` itself. */
  lemma SuffixSlices(s: string, n: nat, t: nat)
    requires n <= |s| && t <= |s| - n
    ensures s[n..][..|s| - n - t] == s[n..|s| - t]
    ensures s[n..][|s| - n - t..] == s[|s| - t..]
  {
  }

  lemma LeadingSpaceKeepsNonSpace(s: string)
    ensures NonSpace(s[SpaceRun(s)..]) == NonSpace(s)
  {
    var n := SpaceRun(s);
    NonSpaceSplit(s, n);
    NonSpaceOfSpace(s[..n]);
  }

  lemma TrailingSpaceKeepsNonSpace(a: string)
    ensures NonSpace(a[..|a| - TrailingSpaceRun(a)]) == NonSpace(a)
  {
    var k := |a| - TrailingSpaceRun(a);
    NonSpaceSplit(a, k);
    NonSpaceOfSpace(a[k..]);
  }

  /**
   * `_clean_content`: the result has no leading or trailing whitespace, and
   * its non-whitespace characters are exactly those of the page, in order.
   */
  function CleanContent(content: string): (r: string)
    ensures r == [] || (!IsSpace(r[0]) && !IsSpace(r[|r| - 1]))
    ensures NonSpace(r) == NonSpace(content)
  {
    CollapseKeepsNonSpace(content);
    Strip(CollapseBlankLines(content))
  }

  /** Content without blank-line runs is only stripped. */
  lemma CleanContentOnlyStrips(content: string)
    ensures !HasBlankLine(content) ==> CleanContent(content) == Strip(content)
  {
    CollapseWithoutBlankLine(content);
  }

  // ---------------------------------------------------------------------------
  // `WebTool.__call__`

  /** What the browser session made of a page: its text, or the exception it raised. */
  datatype PageOutcome = PageText(text: string) | PageFailure(message: string)

  /**
   * `WebTool.__call__`, with the Playwright session as `visit`.  The page
   * visited is the normalised URL; its text comes back cleaned, and a
   * failure comes back naming that URL.
   */
  function Call(url: string, visit: string -> PageOutcome): (r: ToolResult)
    ensures r.Output? <==> visit(NormalizeUrl(url)).PageText?
    ensures r.Output? ==> r.text == CleanContent(visit(NormalizeUrl(url)).text)
    ensures r.Failure? ==> r.message == "Error accessing " + NormalizeUrl(url) + ": " + visit(NormalizeUrl(url)).message
  {
    var target := NormalizeUrl(url);
    match visit(target)
    case PageText(text) => Output(CleanContent(text))
    case PageFailure(message) => Failure("Error accessing " + target + ": " + message)
  }

}
