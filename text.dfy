/**
 * String primitives of Python that the pipeline relies on: whitespace as `str.isspace` and the
 * regular-expression class `\s` see it, `strip`, `split('\n')`, `re.sub(r'\s+', ' ', s)`, and an
 * ASCII reading of `isupper`, `lower` and `\d`.
 */
module Text {
  import opened Collections

  /** `c.isspace()`; also the characters matched by `\s` in a `str` pattern. */
  predicate IsSpace(c: char)
  {
    ('\t' <= c <= '\r') || ('\U{1C}' <= c <= '\U{1F}') || c == ' ' || c == '\U{85}' || c == '\U{A0}'
    || c == '\U{1680}' || ('\U{2000}' <= c <= '\U{200A}') || c == '\U{2028}' || c == '\U{2029}'
    || c == '\U{202F}' || c == '\U{205F}' || c == '\U{3000}'
  }

  predicate IsDigit(c: char) { '0' <= c <= '9' }
  predicate IsUpper(c: char) { 'A' <= c <= 'Z' }
  predicate IsLower(c: char) { 'a' <= c <= 'z' }

  /** Some character of `s` is an upper-case letter (`any(c.isupper() for c in s)`). */
  predicate HasUpper(s: string) { exists i :: 0 <= i < |s| && IsUpper(s[i]) }

  /** `s.isupper()`: at least one cased character, and no lower-case one. */
  predicate IsUpperLine(s: string)
  {
    HasUpper(s) && forall i :: 0 <= i < |s| ==> !IsLower(s[i])
  }

  function ToLower(c: char): char
  {
    if IsUpper(c) then (c as int + 32) as char else c
  }

  /** `s.lower()`. */
  function Lower(s: string): (r: string)
    ensures |r| == |s|
  {
    seq(|s|, i requires 0 <= i < |s| => ToLower(s[i]))
  }

  /** `s.startswith(prefix)`. */
  predicate StartsWith(s: string, prefix: string)
  {
    prefix == [] || (s != [] && s[0] == prefix[0] && StartsWith(s[1..], prefix[1..]))
  }

  /** `s.endswith(suffix)`. */
  predicate EndsWith(s: string, suffix: string)
  {
    |suffix| <= |s| && s[|s| - |suffix|..] == suffix
  }

  /** `needle in hay` for strings. */
  predicate Contains(hay: string, needle: string)
    decreases |hay|
  {
    StartsWith(hay, needle) || (hay != [] && Contains(hay[1..], needle))
  }

  /** The characters of `s` that are not whitespace, in order. */
  function NonSpace(s: string): string
  {
    if s == [] then [] else (if IsSpace(s[0]) then [] else [s[0]]) + NonSpace(s[1..])
  }

  lemma {:induction false} NonSpaceConcat(a: string, b: string)
    ensures NonSpace(a + b) == NonSpace(a) + NonSpace(b)
  {
    if a == [] {
      assert a + b == b;
    } else {
      assert (a + b)[1..] == a[1..] + b;
      NonSpaceConcat(a[1..], b);
    }
  }

  lemma {:induction false} NonSpaceOfBlank(s: string)
    requires forall i :: 0 <= i < |s| ==> IsSpace(s[i])
    ensures NonSpace(s) == []
  {
    if s != [] {
      NonSpaceOfBlank(s[1..]);
    }
  }

  /** Neither end of `s` is whitespace. */
  predicate IsStripped(s: string)
  {
    s == [] || (!IsSpace(s[0]) && !IsSpace(s[|s| - 1]))
  }

  /** `s.lstrip()`: drops the leading whitespace and nothing else. */
  function LStrip(s: string): (r: string)
    ensures |r| <= |s| && r == s[|s| - |r|..]
    ensures forall i :: 0 <= i < |s| - |r| ==> IsSpace(s[i])
    ensures r == [] || !IsSpace(r[0])
  {
    if s != [] && IsSpace(s[0]) then LStrip(s[1..]) else s
  }

  lemma {:induction false} LStripKeepsNonSpace(s: string)
    ensures NonSpace(LStrip(s)) == NonSpace(s)
  {
    if s != [] && IsSpace(s[0]) {
      LStripKeepsNonSpace(s[1..]);
    }
  }

  /** `s.rstrip()`: drops the trailing whitespace and nothing else. */
  function RStrip(s: string): (r: string)
    ensures |r| <= |s| && r == s[..|r|]
    ensures forall i :: |r| <= i < |s| ==> IsSpace(s[i])
    ensures r == [] || !IsSpace(r[|r| - 1])
  {
    if s != [] && IsSpace(s[|s| - 1]) then RStrip(s[..|s| - 1]) else s
  }

  /** `s.strip()`: drops the whitespace at both ends; the result is empty exactly when `s` is blank. */
  function Strip(s: string): (r: string)
    ensures IsStripped(r)
    ensures r == [] <==> forall k :: 0 <= k < |s| ==> IsSpace(s[k])
  {
    var t := LStrip(s);
    var r := RStrip(t);
    assert t != [] ==> !IsSpace(t[0]) && |r| > 0;
    r
  }

  /** `s` is whitespace before index `i`, then `r`, then whitespace to its end. */
  predicate IsPaddedBySpace(s: string, i: nat, r: string)
  {
    && i + |r| <= |s| && (forall k :: 0 <= k < |r| ==> r[k] == s[i + k])
    && (forall k :: 0 <= k < i ==> IsSpace(s[k]))
    && (forall k :: i + |r| <= k < |s| ==> IsSpace(s[k]))
  }

  /**
   * Only whitespace is removed: the result is the infix of `s` after its leading whitespace, and
   * everything after it is whitespace too.
   */
  lemma StripRemovesOnlyWhitespace(s: string)
    ensures IsPaddedBySpace(s, |s| - |LStrip(s)|, Strip(s))
  {
    var t := LStrip(s);
    var r := Strip(s);
    assert r == RStrip(t);
    StripInfix(s, t, r);
  }

  /** Stripping keeps every non-whitespace character, in order. */
  lemma StripKeepsNonSpace(s: string)
    ensures NonSpace(Strip(s)) == NonSpace(s)
  {
    var t := LStrip(s);
    assert Strip(s) == RStrip(t);
    LStripKeepsNonSpace(s);
    RStripKeepsNonSpace(t);
  }

  lemma StripInfix(s: string, t: string, r: string)
    requires |r| <= |t| <= |s| && t == s[|s| - |t|..] && r == t[..|r|]
    requires forall k :: 0 <= k < |s| - |t| ==> IsSpace(s[k])
    requires forall k :: |r| <= k < |t| ==> IsSpace(t[k])
    ensures IsPaddedBySpace(s, |s| - |t|, r)
  {
    var i := |s| - |t|;
    forall k | 0 <= k < |r| ensures r[k] == s[i + k] {
      assert r[k] == t[k];
    }
    forall k | i + |r| <= k < |s| ensures IsSpace(s[k]) {
      assert s[k] == t[k - i];
    }
  }

  lemma RStripKeepsNonSpace(t: string)
    ensures NonSpace(RStrip(t)) == NonSpace(t)
  {
    var r := RStrip(t);
    assert t == r + t[|r|..];
    NonSpaceConcat(r, t[|r|..]);
    NonSpaceOfBlank(t[|r|..]);
  }

  /** `s.split('\n')`: the pieces between newlines; joining them back with newlines gives `s`. */
  function SplitLines(s: string): (r: seq<string>)
    ensures |r| >= 1
    ensures forall i :: 0 <= i < |r| ==> '\n' !in r[i]
    ensures Join("\n", r) == s
  {
    if s == [] then [""]
    else
      var rest := SplitLines(s[1..]);
      if s[0] == '\n' then
        assert ([""] + rest)[1..] == rest;
        [""] + rest
      else
        var r := [[s[0]] + rest[0]] + rest[1..];
        assert r[1..] == rest[1..];
        assert s == [s[0]] + s[1..];
        r
  }

  /**
   * `re.sub(r'\s+', ' ', s)`: every maximal run of whitespace becomes one space, written where the
   * run ends.
   */
  function CollapseWhitespace(s: string): string
  {
    if s == [] then []
    else if !IsSpace(s[0]) then [s[0]] + CollapseWhitespace(s[1..])
    else if |s| > 1 && IsSpace(s[1]) then CollapseWhitespace(s[1..])
    else " " + CollapseWhitespace(s[1..])
  }

  /** The maximal prefix of `s` without whitespace. */
  function Word(s: string): (w: string)
    ensures |w| <= |s| && w == s[..|w|]
    ensures forall i :: 0 <= i < |w| ==> !IsSpace(w[i])
    ensures |w| < |s| ==> IsSpace(s[|w|])
  {
    if s == [] || IsSpace(s[0]) then [] else [s[0]] + Word(s[1..])
  }

  lemma {:induction false} NonSpaceOfWord(w: string)
    requires forall i :: 0 <= i < |w| ==> !IsSpace(w[i])
    ensures NonSpace(w) == w
  {
    if w != [] {
      NonSpaceOfWord(w[1..]);
    }
  }

  /**
   * `re.sub(r'\s+', ' ', s).strip()`: the non-whitespace characters of `s`, in order, separated by
   * single spaces where `s` had whitespace, with nothing at either end.
   */
  function Normalize(s: string): (r: string)
    ensures IsStripped(r)
    ensures forall i :: 0 <= i < |r| && IsSpace(r[i]) ==> r[i] == ' '
    ensures forall i :: 0 <= i < |r| - 1 ==> !(IsSpace(r[i]) && IsSpace(r[i + 1]))
    ensures NonSpace(r) == NonSpace(s)
    ensures r == [] <==> NonSpace(s) == []
    decreases |s|
  {
    var t := LStrip(s);
    LStripKeepsNonSpace(s);
    if t == [] then []
    else
      var w := Word(t);
      var rest := Normalize(t[|w|..]);
      var r := if rest == [] then w else w + " " + rest;
      NormalizeStep(s, t, w, rest, r);
      r
  }

  /** One word followed by the normalised remainder is normalised, and keeps the non-whitespace text. */
  lemma NormalizeStep(s: string, t: string, w: string, rest: string, r: string)
    requires t == LStrip(s) && t != [] && w == Word(t)
    requires IsStripped(rest)
    requires forall i :: 0 <= i < |rest| && IsSpace(rest[i]) ==> rest[i] == ' '
    requires forall i :: 0 <= i < |rest| - 1 ==> !(IsSpace(rest[i]) && IsSpace(rest[i + 1]))
    requires NonSpace(rest) == NonSpace(t[|w|..])
    requires r == if rest == [] then w else w + " " + rest
    ensures IsStripped(r)
    ensures forall i :: 0 <= i < |r| && IsSpace(r[i]) ==> r[i] == ' '
    ensures forall i :: 0 <= i < |r| - 1 ==> !(IsSpace(r[i]) && IsSpace(r[i + 1]))
    ensures NonSpace(r) == NonSpace(s)
    ensures r != []
  {
    assert w != [];
    GlueShape(w, rest, r);
    GlueNonSpace(t, w, rest, r);
    LStripKeepsNonSpace(s);
  }

  lemma GlueShape(w: string, rest: string, r: string)
    requires w != [] && forall i :: 0 <= i < |w| ==> !IsSpace(w[i])
    requires IsStripped(rest)
    requires forall i :: 0 <= i < |rest| && IsSpace(rest[i]) ==> rest[i] == ' '
    requires forall i :: 0 <= i < |rest| - 1 ==> !(IsSpace(rest[i]) && IsSpace(rest[i + 1]))
    requires r == if rest == [] then w else w + " " + rest
    ensures IsStripped(r)
    ensures forall i :: 0 <= i < |r| && IsSpace(r[i]) ==> r[i] == ' '
    ensures forall i :: 0 <= i < |r| - 1 ==> !(IsSpace(r[i]) && IsSpace(r[i + 1]))
  {
    if rest != [] {
      assert forall i :: 0 <= i < |w| ==> r[i] == w[i];
      assert r[|w|] == ' ';
      assert forall i :: |w| < i < |r| ==> r[i] == rest[i - |w| - 1];
    }
  }

  lemma GlueNonSpace(t: string, w: string, rest: string, r: string)
    requires w != [] && w == Word(t)
    requires NonSpace(rest) == NonSpace(t[|w|..])
    requires r == if rest == [] then w else w + " " + rest
    ensures NonSpace(r) == NonSpace(t)
  {
    var u := t[|w|..];
    assert NonSpace(t) == w + NonSpace(u) by {
      NonSpaceOfWord(w);
      SplitAt(t, |w|);
      NonSpaceConcat(w, u);
    }
    if rest != [] {
      assert NonSpace(" " + rest) == NonSpace(rest) by {
        assert (" " + rest)[1..] == rest;
      }
      assert NonSpace(r) == w + NonSpace(" " + rest) by {
        assert r == w + (" " + rest);
        NonSpaceOfWord(w);
        NonSpaceConcat(w, " " + rest);
      }
    } else {
      NonSpaceOfWord(w);
      assert NonSpace(u) == [] by {
        assert NonSpace(rest) == [];
      }
    }
  }


  // ---------------------------------------------------------------------------------------------
  // `Normalize` agrees with the regular-expression substitution followed by `strip()`.

  /** `Normalize` is `re.sub(r'\s+', ' ', s).strip()`, computed word by word. */
  lemma {:induction false} NormalizeIsCollapseThenStrip(s: string)
    ensures Normalize(s) == Strip(CollapseWhitespace(s))
    decreases |s|
  {
    var t := LStrip(s);
    if t == [] {
      CollapseLeadingBlank(s);
      assert CollapseWhitespace(t) == [];
    } else {
      var w := Word(t);
      var u := t[|w|..];
      NormalizeIsCollapseThenStrip(u);
      NormalizeUnfold(s, w, Normalize(u));
      CollapseFirstWord(s);
    }
  }

  /** The inductive step: the first word of `s` followed by the collapse of what comes after it. */
  lemma CollapseFirstWord(s: string)
    requires LStrip(s) != []
    ensures var t := LStrip(s); var w := Word(t); var rest := Strip(CollapseWhitespace(t[|w|..]));
      Strip(CollapseWhitespace(s)) == if rest == [] then w else w + " " + rest
  {
    var t := LStrip(s);
    var w := Word(t);
    var u := t[|w|..];
    var p: string := if s != [] && IsSpace(s[0]) then " " else [];
    CollapseLeadingWord(s, t, w, u, p);
    StripLeadingBlank(p, w, CollapseWhitespace(u));
    GlueCollapsed(w, u);
  }

  /** The collapse of `s` is at most one space, the first word, and the collapse of the rest. */
  lemma CollapseLeadingWord(s: string, t: string, w: string, u: string, p: string)
    requires t == LStrip(s) && t != [] && w == Word(t) && u == t[|w|..]
    requires p == if s != [] && IsSpace(s[0]) then " " else []
    ensures CollapseWhitespace(s) == p + (w + CollapseWhitespace(u))
    ensures u == [] || IsSpace(u[0])
  {
    var cu := CollapseWhitespace(u);
    assert CollapseWhitespace(t) == w + cu by {
      SplitAt(t, |w|);
      CollapseWord(w, u);
    }
    CollapseLeadingBlank(s);
  }

  lemma StripLeadingBlank(p: string, w: string, c: string)
    requires p == " " || p == []
    requires w != [] && !IsSpace(w[0])
    ensures Strip(p + (w + c)) == RStrip(w + c)
  {
    assert forall i :: 0 <= i < |p| ==> IsSpace(p[i]);
    LStripSkip(p, w + c);
    LStripOfNonSpace(w + c);
  }

  lemma NormalizeUnfold(s: string, w: string, rest: string)
    requires LStrip(s) != [] && w == Word(LStrip(s)) && rest == Normalize(LStrip(s)[|w|..])
    ensures Normalize(s) == if rest == [] then w else w + " " + rest
  {
  }

  /** The stripped collapse of a word followed by text that is empty or starts with whitespace. */
  lemma GlueCollapsed(w: string, u: string)
    requires w != [] && forall i :: 0 <= i < |w| ==> !IsSpace(w[i])
    requires u == [] || IsSpace(u[0])
    ensures var rest := Strip(CollapseWhitespace(u));
      RStrip(w + CollapseWhitespace(u)) == if rest == [] then w else w + " " + rest
  {
    var c := CollapseWhitespace(u);
    assert RStrip(w) == w by {
      RStripOfNonSpace(w);
    }
    if u == [] {
      assert w + c == w;
    } else {
      var d := CollapseWhitespace(LStrip(u));
      assert c == [' '] + d by {
        CollapseLeadingBlank(u);
      }
      assert d == [] || !IsSpace(d[0]) by {
        CollapseHead(LStrip(u));
      }
      assert Strip(c) == RStrip(d) by {
        LStripSkip([' '], d);
        LStripOfNonSpace(d);
      }
      if d == [] {
        assert RStrip(w + c) == RStrip(w) by {
          assert w + c == w + [' '];
          assert (w + [' '])[..|w|] == w;
        }
      } else {
        RStripNonBlank(d);
        ConcatAssoc(w, " ", d);
        RStripAppend(w + " ", d);
      }
    }
  }

  /** The collapse of text that does not start with whitespace does not either. */
  lemma CollapseHead(v: string)
    requires v == [] || !IsSpace(v[0])
    ensures var d := CollapseWhitespace(v); d == [] || !IsSpace(d[0])
  {
    if v != [] {
      assert v == [v[0]] + v[1..];
      CollapseCons(v[0], v[1..]);
    }
  }

  lemma ConcatAssoc(a: string, b: string, c: string)
    ensures a + (b + c) == (a + b) + c
  {
  }

  lemma SplitAt(s: string, k: nat)
    requires k <= |s|
    ensures s == s[..k] + s[k..]
  {
  }

  lemma LStripOfNonSpace(s: string)
    requires s == [] || !IsSpace(s[0])
    ensures LStrip(s) == s
  {
  }

  lemma RStripNonBlank(s: string)
    requires s != [] && !IsSpace(s[0])
    ensures RStrip(s) != []
  {
  }

  lemma RStripOfNonSpace(s: string)
    requires s == [] || !IsSpace(s[|s| - 1])
    ensures RStrip(s) == s
  {
  }

  /** Leading whitespace in front of `x` does not change `x.lstrip()`. */
  lemma {:induction false} LStripSkip(p: string, x: string)
    requires forall i :: 0 <= i < |p| ==> IsSpace(p[i])
    ensures LStrip(p + x) == LStrip(x)
  {
    if p != [] {
      assert (p + x)[1..] == p[1..] + x;
      LStripSkip(p[1..], x);
    } else {
      assert p + x == x;
    }
  }

  /** Trailing whitespace of `b` is all `rstrip()` removes from `a + b` when `b` is not blank. */
  lemma {:induction false} RStripAppend(a: string, b: string)
    requires RStrip(b) != []
    ensures RStrip(a + b) == a + RStrip(b)
  {
    if IsSpace(b[|b| - 1]) {
      assert (a + b)[..|a + b| - 1] == a + b[..|b| - 1];
      RStripAppend(a, b[..|b| - 1]);
    }
  }

  /** A word is copied unchanged by the whitespace collapse. */
  lemma {:induction false} CollapseWord(w: string, u: string)
    requires forall i :: 0 <= i < |w| ==> !IsSpace(w[i])
    ensures CollapseWhitespace(w + u) == w + CollapseWhitespace(u)
  {
    if w != [] {
      var c := CollapseWhitespace(u);
      assert CollapseWhitespace(w[1..] + u) == w[1..] + c by {
        CollapseWord(w[1..], u);
      }
      assert w + u == [w[0]] + (w[1..] + u);
      CollapseCons(w[0], w[1..] + u);
      assert [w[0]] + (w[1..] + c) == w + c by {
        assert w == [w[0]] + w[1..];
      }
    } else {
      assert w + u == u;
    }
  }

  /** Leading whitespace of `s` collapses to one space in front of the collapse of the rest. */
  lemma CollapseLeadingBlank(s: string)
    ensures CollapseWhitespace(s) == (if s != [] && IsSpace(s[0]) then " " else []) + CollapseWhitespace(LStrip(s))
  {
    var t := LStrip(s);
    var k := |s| - |t|;
    if k == 0 {
      assert s == t;
    } else {
      CollapseBlankRun(s, k);
    }
  }

  /** A run of `k` whitespace characters at the start of `s`, up to the first other character, collapses to one space. */
  lemma {:induction false} CollapseBlankRun(s: string, k: nat)
    requires 0 < k <= |s| && forall i :: 0 <= i < k ==> IsSpace(s[i])
    requires k == |s| || !IsSpace(s[k])
    ensures CollapseWhitespace(s) == " " + CollapseWhitespace(s[k..])
  {
    if k > 1 {
      CollapseBlankRun(s[1..], k - 1);
      assert s[1..][k - 1..] == s[k..];
    }
  }

  lemma CollapseCons(x: char, rest: string)
    requires !IsSpace(x)
    ensures CollapseWhitespace([x] + rest) == [x] + CollapseWhitespace(rest)
  {
    assert ([x] + rest)[1..] == rest;
  }
}
