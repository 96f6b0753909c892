/**
 * The two functions of Go's `strings` package that handleCommand
 * (core/editor.go:125, 131) relies on: Fields, which splits at runs of
 * white space, and ToLower.
 */
module Tokens {

  /** Go's unicode.IsSpace: the Latin-1 spaces '\t', '\n', '\v', '\f', '\r',
      ' ', U+0085 and U+00A0, and the other code points with the Unicode
      White_Space property. */
  predicate IsSpace(c: char): (r: bool)
    ensures c == ' ' ==> r
    ensures '!' <= c <= '~' ==> !r
  {
    || c == '\t' || c == '\n' || c == '\U{000B}' || c == '\U{000C}' || c == '\r' || c == ' '
    || c == '\U{0085}' || c == '\U{00A0}' || c == '\U{1680}'
    || ('\U{2000}' <= c <= '\U{200A}')
    || c == '\U{2028}' || c == '\U{2029}' || c == '\U{202F}' || c == '\U{205F}' || c == '\U{3000}'
  }

  predicate Blank(s: string) {
    forall i :: 0 <= i < |s| ==> IsSpace(s[i])
  }

  /** A field: a non-empty run without white space. */
  predicate IsField(w: string) {
    |w| > 0 && forall i :: 0 <= i < |w| ==> !IsSpace(w[i])
  }

  /** The length of the run of non-space characters that starts `s`. */
  function RunLength(s: string): (n: nat)
    ensures n <= |s|
    ensures forall i :: 0 <= i < n ==> !IsSpace(s[i])
    ensures n < |s| ==> IsSpace(s[n])
  {
    if |s| == 0 || IsSpace(s[0]) then 0 else 1 + RunLength(s[1..])
  }

  /** strings.Fields: the maximal runs of non-space characters, in order. */
  function Fields(s: string): (fs: seq<string>)
    ensures forall i :: 0 <= i < |fs| ==> IsField(fs[i])
    decreases |s|
  {
    if |s| == 0 then []
    else if IsSpace(s[0]) then Fields(s[1..])
    else
      var n := RunLength(s);
      [s[..n]] + Fields(s[n..])
  }

  /** Fields finds nothing exactly when the input is all white space. */
  lemma {:induction false} FieldsEmptyIffBlank(s: string)
    ensures Fields(s) == [] <==> Blank(s)
    decreases |s|
  {
    if |s| == 0 {
    } else if IsSpace(s[0]) {
      FieldsEmptyIffBlank(s[1..]);
      if Blank(s[1..]) {
        assert forall i :: 1 <= i < |s| ==> s[i] == s[1..][i - 1];
      } else {
        var i :| 0 <= i < |s[1..]| && !IsSpace(s[1..][i]);
        assert !IsSpace(s[i + 1]);
      }
    } else {
      assert !Blank(s);
    }
  }

  /** The words separated by single spaces. */
  function Join(words: seq<string>): string {
    if |words| == 0 then ""
    else if |words| == 1 then words[0]
    else words[0] + " " + Join(words[1..])
  }

  lemma FieldsOfWord(w: string, rest: string)
    requires IsField(w)
    requires |rest| == 0 || IsSpace(rest[0])
    ensures Fields(w + rest) == [w] + Fields(rest)
  {
    var s := w + rest;
    assert s[..|w|] == w && s[|w|..] == rest;
    RunLengthOfWord(w, rest);
  }

  lemma {:induction false} RunLengthOfWord(w: string, rest: string)
    requires forall i :: 0 <= i < |w| ==> !IsSpace(w[i])
    requires |rest| == 0 || IsSpace(rest[0])
    ensures RunLength(w + rest) == |w|
    decreases |w|
  {
    if |w| > 0 {
      assert (w + rest)[1..] == w[1..] + rest;
      RunLengthOfWord(w[1..], rest);
    }
  }

  /** Joining fields with spaces and splitting again gives the fields back. */
  lemma {:induction false} FieldsOfJoin(words: seq<string>)
    requires forall i :: 0 <= i < |words| ==> IsField(words[i])
    ensures Fields(Join(words)) == words
    decreases |words|
  {
    if |words| == 0 {
    } else if |words| == 1 {
      FieldsOfWord(words[0], "");
      assert words[0] + "" == words[0];
    } else {
      var rest := " " + Join(words[1..]);
      FieldsOfWord(words[0], rest);
      assert words[0] + " " + Join(words[1..]) == words[0] + rest;
      assert rest[1..] == Join(words[1..]);
      FieldsOfJoin(words[1..]);
      assert Fields(rest) == Fields(Join(words[1..]));
      assert [words[0]] + words[1..] == words;
    }
  }

  /** The line made of the fields `fs` with the white space `gaps` around
      and between them: gaps[0] + fs[0] + gaps[1] + ... + fs[n-1] + gaps[n]. */
  function Weave(gaps: seq<string>, fs: seq<string>): string
    requires |gaps| == |fs| + 1
    decreases |fs|
  {
    if |fs| == 0 then gaps[0] else gaps[0] + fs[0] + Weave(gaps[1..], fs[1..])
  }

  /** `gaps` can separate `n` fields: all white space, and every gap between
      two fields non-empty. */
  predicate Separating(gaps: seq<string>, n: nat) {
    && |gaps| == n + 1
    && (forall i :: 0 <= i < |gaps| ==> Blank(gaps[i]))
    && (forall i :: 0 < i < n ==> |gaps[i]| > 0)
  }

  /** Leading white space does not change the fields. */
  lemma {:induction false} FieldsSkipBlank(g: string, s: string)
    requires Blank(g)
    ensures Fields(g + s) == Fields(s)
    decreases |g|
  {
    if |g| > 0 {
      var t := g + s;
      assert t[0] == g[0] && IsSpace(t[0]);
      assert Fields(t) == Fields(t[1..]);
      assert t[1..] == g[1..] + s;
      assert Blank(g[1..]) by {
        assert forall i :: 0 <= i < |g| - 1 ==> g[1..][i] == g[i + 1];
      }
      FieldsSkipBlank(g[1..], s);
    } else {
      assert g + s == s;
    }
  }

  /** Fields undoes any weaving: however white space surrounds and separates
      the words of a line, the fields are those words, in order. */
  lemma {:induction false} FieldsOfWeave(gaps: seq<string>, fs: seq<string>)
    requires Separating(gaps, |fs|)
    requires forall i :: 0 <= i < |fs| ==> IsField(fs[i])
    ensures Fields(Weave(gaps, fs)) == fs
    decreases |fs|
  {
    if |fs| == 0 {
      FieldsEmptyIffBlank(gaps[0]);
    } else {
      var rest := Weave(gaps[1..], fs[1..]);
      assert Weave(gaps, fs) == gaps[0] + (fs[0] + rest);
      FieldsSkipBlank(gaps[0], fs[0] + rest);
      if |gaps[1]| > 0 {
        assert rest[0] == gaps[1][0];
      } else {
        assert rest == gaps[1];
      }
      FieldsOfWord(fs[0], rest);
      assert Separating(gaps[1..], |fs| - 1) by {
        forall i | 0 < i < |fs| - 1 ensures |gaps[1..][i]| > 0 {
          assert gaps[1..][i] == gaps[i + 1];
        }
      }
      FieldsOfWeave(gaps[1..], fs[1..]);
      assert [fs[0]] + fs[1..] == fs;
    }
  }

  /** The white space around and between the fields of `s`. */
  function Gaps(s: string): (gs: seq<string>)
    ensures |gs| == |Fields(s)| + 1
    ensures |s| > 0 && IsSpace(s[0]) ==> |gs[0]| > 0
    decreases |s|
  {
    if |s| == 0 then [""]
    else if IsSpace(s[0]) then
      var g := Gaps(s[1..]);
      [[s[0]] + g[0]] + g[1..]
    else
      [""] + Gaps(s[RunLength(s)..])
  }

  /** Every line is its fields woven with white space, so by FieldsOfWeave
      the fields are exactly the maximal runs of non-space characters. */
  lemma {:induction false} FieldsRebuild(s: string)
    ensures Separating(Gaps(s), |Fields(s)|)
    ensures Weave(Gaps(s), Fields(s)) == s
    decreases |s|
  {
    if |s| == 0 {
    } else if IsSpace(s[0]) {
      FieldsRebuild(s[1..]);
      RebuildAfterSpace(s);
    } else {
      FieldsRebuild(s[RunLength(s)..]);
      RebuildAfterWord(s);
    }
  }

  /** strings.Fields characterised: `fs` are the fields of `s` exactly when
      `s` is `fs`, each a run without white space, woven with white space
      that is non-empty between any two of them, so the runs are maximal. */
  lemma FieldsCharacterised(s: string, fs: seq<string>)
    ensures Fields(s) == fs <==>
      && (forall i :: 0 <= i < |fs| ==> IsField(fs[i]))
      && exists gaps :: Separating(gaps, |fs|) && Weave(gaps, fs) == s
  {
    if Fields(s) == fs {
      FieldsRebuild(s);
      assert Separating(Gaps(s), |fs|) && Weave(Gaps(s), fs) == s;
    }
    if (forall i :: 0 <= i < |fs| ==> IsField(fs[i]))
       && exists gaps :: Separating(gaps, |fs|) && Weave(gaps, fs) == s {
      var gaps :| Separating(gaps, |fs|) && Weave(gaps, fs) == s;
      FieldsOfWeave(gaps, fs);
    }
  }

  /** The step of FieldsRebuild over a leading white-space character. */
  lemma RebuildAfterSpace(s: string)
    requires |s| > 0 && IsSpace(s[0])
    requires Separating(Gaps(s[1..]), |Fields(s[1..])|)
    requires Weave(Gaps(s[1..]), Fields(s[1..])) == s[1..]
    ensures Separating(Gaps(s), |Fields(s)|)
    ensures Weave(Gaps(s), Fields(s)) == s
  {
    var g, fs := Gaps(s[1..]), Fields(s[1..]);
    assert Gaps(s) == [[s[0]] + g[0]] + g[1..];
    assert Fields(s) == fs;
    WeaveConsGap(s[0], g, fs);
    assert [s[0]] + s[1..] == s;
    SeparatingConsGap(s[0], g, |fs|);
  }

  /** A white-space character put in front of the first gap keeps the gaps
      separating. */
  lemma SeparatingConsGap(c: char, g: seq<string>, n: nat)
    requires IsSpace(c) && Separating(g, n)
    ensures Separating([[c] + g[0]] + g[1..], n)
  {
    var gs := [[c] + g[0]] + g[1..];
    assert Blank(gs[0]) by {
      assert forall i :: 1 <= i < |gs[0]| ==> gs[0][i] == g[0][i - 1];
    }
    assert forall i :: 0 < i < |gs| ==> gs[i] == g[i];
  }

  /** A character put in front of the first gap goes in front of the line. */
  lemma WeaveConsGap(c: char, g: seq<string>, fs: seq<string>)
    requires |g| == |fs| + 1
    ensures Weave([[c] + g[0]] + g[1..], fs) == [c] + Weave(g, fs)
  {
    var gs := [[c] + g[0]] + g[1..];
    if |fs| > 0 {
      assert gs[1..] == g[1..];
    }
  }

  /** The step of FieldsRebuild over a leading field. */
  lemma RebuildAfterWord(s: string)
    requires |s| > 0 && !IsSpace(s[0])
    requires Separating(Gaps(s[RunLength(s)..]), |Fields(s[RunLength(s)..])|)
    requires Weave(Gaps(s[RunLength(s)..]), Fields(s[RunLength(s)..])) == s[RunLength(s)..]
    ensures Separating(Gaps(s), |Fields(s)|)
    ensures Weave(Gaps(s), Fields(s)) == s
  {
    var n := RunLength(s);
    var g, fs := Gaps(s[n..]), Fields(s[n..]);
    assert Gaps(s) == [""] + g;
    assert Fields(s) == [s[..n]] + fs;
    WeaveConsField(s[..n], g, fs);
    assert s[..n] + s[n..] == s;
    if |fs| > 0 {
      assert |s[n..]| > 0 && IsSpace(s[n..][0]);
    }
    SeparatingConsField(g, |fs|);
  }

  /** A field put in front of the line goes between an empty first gap and
      the old first gap. */
  lemma WeaveConsField(w: string, g: seq<string>, fs: seq<string>)
    requires |g| == |fs| + 1
    ensures Weave([""] + g, [w] + fs) == w + Weave(g, fs)
  {
    var gs, ws := [""] + g, [w] + fs;
    assert gs[0] == "" && ws[0] == w && gs[1..] == g && ws[1..] == fs;
    assert Weave(gs, ws) == gs[0] + ws[0] + Weave(g, fs);
    assert "" + w == w;
  }

  /** An empty gap in front keeps the gaps separating, provided the old
      first gap, now between two fields, is not empty. */
  lemma SeparatingConsField(g: seq<string>, n: nat)
    requires Separating(g, n)
    requires n > 0 ==> |g[0]| > 0
    ensures Separating([""] + g, n + 1)
  {
    var gs := [""] + g;
    assert forall i :: 0 < i < |gs| ==> gs[i] == g[i - 1];
  }

  /** unicode.ToLower on the ASCII letters. */
  function LowerChar(c: char): (l: char)
    ensures 'A' <= c <= 'Z' ==> l as int == c as int + 32
    ensures !('A' <= c <= 'Z') ==> l == c
  {
    if 'A' <= c <= 'Z' then (c as int + 32) as char else c
  }

  /** strings.ToLower, with ASCII case mapping. */
  function ToLower(s: string): (l: string)
    ensures |l| == |s|
    ensures forall i :: 0 <= i < |s| ==> l[i] == LowerChar(s[i])
  {
    if |s| == 0 then [] else [LowerChar(s[0])] + ToLower(s[1..])
  }

  predicate HasUpper(s: string) {
    exists i :: 0 <= i < |s| && 'A' <= s[i] <= 'Z'
  }

  /** Lower-casing leaves no upper-case letter, keeps every other
      character, and is idempotent. */
  lemma ToLowerNormalises(s: string)
    ensures !HasUpper(ToLower(s))
    ensures !HasUpper(s) ==> ToLower(s) == s
    ensures ToLower(ToLower(s)) == ToLower(s)
  {
  }

  /** Lower-casing a field gives a field. */
  lemma ToLowerKeepsField(w: string)
    requires IsField(w)
    ensures IsField(ToLower(w))
  {
    forall i | 0 <= i < |w|
      ensures !IsSpace(ToLower(w)[i])
    {
      if 'A' <= w[i] <= 'Z' {
        assert 'a' <= ToLower(w)[i] <= 'z';
      }
    }
  }
}
