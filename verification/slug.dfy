/** The slug expression used by the admin routes and by the pre-save hooks of
    the section and checklist documents:
      `s.toLowerCase().replace(/[^a-z0-9]+/g, '-').replace(/(^-|-$)/g, '')`.
    Lower-casing is modelled for ASCII letters only. */
module Slug {
  import opened Strings

  predicate IsSlugChar(c: char) {
    'a' <= c <= 'z' || '0' <= c <= '9'
  }

  /** Every character is in [a-z0-9] or is a hyphen. */
  predicate SlugChars(s: string) {
    forall i :: 0 <= i < |s| ==> IsSlugChar(s[i]) || s[i] == '-'
  }

  /** No two neighbouring hyphens. */
  predicate NoDoubleHyphen(s: string) {
    forall i :: 0 <= i < |s| - 1 ==> !(s[i] == '-' && s[i + 1] == '-')
  }

  /** What the derivation promises: only a-z, 0-9 and '-', no "--", and no
      hyphen at either end. */
  predicate IsSlug(s: string) {
    && SlugChars(s)
    && NoDoubleHyphen(s)
    && (s != [] ==> s[0] != '-' && s[|s| - 1] != '-')
  }

  /** Drops the run of characters outside [a-z0-9] at the front of `s`. */
  function DropRun(s: string): (r: string)
    ensures |r| <= |s| && r == s[|s| - |r|..]
    ensures r == [] || IsSlugChar(r[0])
    ensures forall k {:trigger IsSlugChar(s[k])} :: 0 <= k < |s| - |r| ==> !IsSlugChar(s[k])
  {
    if s != [] && !IsSlugChar(s[0]) then
      var r := DropRun(s[1..]);
      assert forall k :: 1 <= k < |s| - |r| ==> s[k] == s[1..][k - 1];
      r
    else s
  }

  /** `replace(/[^a-z0-9]+/g, '-')`: every maximal run of characters outside
      [a-z0-9] becomes one hyphen. */
  function CollapseRuns(s: string): (r: string)
    ensures |r| <= |s|
    ensures SlugChars(r)
    ensures NoDoubleHyphen(r)
    ensures s != [] && IsSlugChar(s[0]) ==> r != [] && r[0] == s[0]
    ensures s != [] ==> r != []
    decreases |s|
  {
    if s == [] then []
    else if IsSlugChar(s[0]) then
      var rest := CollapseRuns(s[1..]);
      PrependKeepsSlugChars(s[0], rest);
      [s[0]] + rest
    else
      var rest := CollapseRuns(DropRun(s[1..]));
      PrependKeepsSlugChars('-', rest);
      "-" + rest
  }

  /** Putting a slug character, or a hyphen before a non-hyphen, in front of
      a hyphen-collapsed string keeps it collapsed. */
  lemma {:induction false} PrependKeepsSlugChars(c: char, rest: string)
    requires IsSlugChar(c) || (c == '-' && (rest == [] || IsSlugChar(rest[0])))
    requires SlugChars(rest) && NoDoubleHyphen(rest)
    ensures SlugChars([c] + rest) && NoDoubleHyphen([c] + rest)
  {
    var r := [c] + rest;
    forall i | 1 <= i < |r| ensures r[i] == rest[i - 1] { }
  }

  /** `replace(/(^-|-$)/g, '')`: one hyphen is removed at the front and one
      at the end. */
  function TrimHyphens(s: string): (r: string)
    requires NoDoubleHyphen(s)
    ensures r == [] || (r[0] != '-' && r[|r| - 1] != '-')
    ensures NoDoubleHyphen(r)
    ensures SlugChars(s) ==> SlugChars(r)
  {
    var a := if s != [] && s[0] == '-' then s[1..] else s;
    var d := |s| - |a|;
    assert forall k :: 0 <= k < |a| ==> a[k] == s[k + d];
    if a != [] && a[|a| - 1] == '-' then a[..|a| - 1] else a
  }

  function Slugify(s: string): (r: string)
    ensures IsSlug(r)
  {
    TrimHyphens(CollapseRuns(Lower(s)))
  }

  // ------------------------------------------------ the words of a string

  /** A word: a non-empty run of characters in [a-z0-9]. */
  predicate IsWord(w: string) {
    w != [] && forall k :: 0 <= k < |w| ==> IsSlugChar(w[k])
  }

  /** The longest prefix of `s` made of characters in [a-z0-9]. */
  function TakeWord(s: string): (w: string)
    ensures |w| <= |s| && w == s[..|w|]
    ensures forall k :: 0 <= k < |w| ==> IsSlugChar(w[k])
    ensures |w| < |s| ==> !IsSlugChar(s[|w|])
    ensures s != [] && IsSlugChar(s[0]) ==> w != []
  {
    if s != [] && IsSlugChar(s[0]) then [s[0]] + TakeWord(s[1..]) else []
  }

  /** The maximal runs of characters in [a-z0-9] of `s`, in order: the
      reference the slug derivation is measured against. */
  function Words(s: string): seq<string>
    decreases |s|
  {
    var t := DropRun(s);
    if t == [] then []
    else
      var w := TakeWord(t);
      assert w != [];
      [w] + Words(t[|w|..])
  }

  /** Every entry of `Words(s)` is a word. */
  lemma {:induction false} WordsAreWords(s: string)
    ensures forall k :: 0 <= k < |Words(s)| ==> IsWord(Words(s)[k])
    decreases |s|
  {
    var t := DropRun(s);
    if t != [] {
      var w := TakeWord(t);
      var ws, rest := Words(s), Words(t[|w|..]);
      assert ws == [w] + rest;
      WordsAreWords(t[|w|..]);
      forall k | 0 <= k < |ws| ensures IsWord(ws[k]) {
        if k > 0 {
          assert ws[k] == rest[k - 1];
        }
      }
    }
  }

  /** The hyphen a collapsed string ends with when `x` ends outside
      [a-z0-9]. */
  function EndMark(x: string): string
    requires x != []
  {
    if IsSlugChar(x[|x| - 1]) then "" else "-"
  }

  /** Collapsing a string that starts with a word keeps that word in front. */
  lemma {:induction false} CollapseWord(x: string)
    requires x != [] && IsSlugChar(x[0])
    ensures CollapseRuns(x) == TakeWord(x) + CollapseRuns(x[|TakeWord(x)|..])
    decreases |x|
  {
    var c, t := x[0], x[1..];
    if t != [] && IsSlugChar(t[0]) {
      var w := TakeWord(t);
      calc {
        CollapseRuns(x);
        [c] + CollapseRuns(t);
        { CollapseWord(t); }
        [c] + (w + CollapseRuns(t[|w|..]));
        ([c] + w) + CollapseRuns(t[|w|..]);
        { assert t[|w|..] == x[|w| + 1..]; }
        TakeWord(x) + CollapseRuns(x[|TakeWord(x)|..]);
      }
    } else {
      assert TakeWord(x) == [c] by {
        assert TakeWord(t) == [];
      }
      assert x[1..] == t;
    }
  }

  /** A string that starts outside [a-z0-9] collapses to one hyphen in
      front of what follows the run. */
  lemma {:induction false} CollapseRunsOfRun(s: string)
    requires s != [] && !IsSlugChar(s[0])
    ensures CollapseRuns(s) == "-" + CollapseRuns(DropRun(s))
  {
    assert DropRun(s) == DropRun(s[1..]);
  }

  /** A leading run outside [a-z0-9] holds no word. */
  lemma {:induction false} WordsSkipRun(s: string)
    ensures Words(s) == Words(DropRun(s))
  {
    var t := DropRun(s);
    assert DropRun(t) == t;
  }

  /** A non-empty suffix ends with the last character of the string. */
  lemma {:induction false} LastOfSuffix(s: string, t: string)
    requires t != [] && |t| <= |s| && t == s[|s| - |t|..]
    ensures t[|t| - 1] == s[|s| - 1]
  {
  }

  /** Joining one more word in front adds it and a hyphen. */
  lemma {:induction false} JoinCons(w: string, ws: seq<string>)
    requires ws != []
    ensures Join([w] + ws, '-') == w + "-" + Join(ws, '-')
  {
    assert ([w] + ws)[1..] == ws;
  }

  /** The words of a string that starts with a word: that word, then the
      words of the rest. */
  lemma {:induction false} WordsOfWordStart(x: string)
    requires x != [] && IsSlugChar(x[0])
    ensures Words(x) == [TakeWord(x)] + Words(x[|TakeWord(x)|..])
  {
    assert DropRun(x) == x;
  }

  /** Where the first word of a string ends: the rest is empty or starts
      outside [a-z0-9], and the whole ends as the rest does. */
  lemma {:induction false} WordStart(x: string)
    requires x != [] && IsSlugChar(x[0])
    ensures var w := TakeWord(x); var rest := x[|w|..];
      && w != [] && w[0] == x[0] && w[|w| - 1] != '-'
      && (rest == [] || !IsSlugChar(rest[0]))
      && (rest == [] ==> EndMark(x) == "" && CollapseRuns(rest) == "")
      && (rest != [] ==> EndMark(x) == EndMark(rest))
  {
    var w := TakeWord(x);
    var rest := x[|w|..];
    if rest != [] {
      assert rest[|rest| - 1] == x[|x| - 1];
    } else {
      assert w[|w| - 1] == x[|x| - 1];
    }
  }

  /** Collapsing a string that starts with a word gives its words joined by
      single hyphens, plus one hyphen when it ends outside [a-z0-9]. */
  lemma {:induction false} CollapseWords(x: string)
    requires x != [] && IsSlugChar(x[0])
    ensures Words(x) != []
    ensures var j := Join(Words(x), '-');
      && j != [] && j[0] == x[0] && j[|j| - 1] != '-'
      && CollapseRuns(x) == j + EndMark(x)
    decreases |x|, 1
  {
    var rest := x[|TakeWord(x)|..];
    CollapseWord(x);
    WordsOfWordStart(x);
    WordStart(x);
    CollapseTail(rest);
    if Words(rest) == [] {
      OneWordStep(x);
    } else {
      MoreWordsStep(x);
    }
  }

  /** `CollapseWords` when the first word is the only one. */
  lemma {:induction false} OneWordStep(x: string)
    requires x != [] && IsSlugChar(x[0])
    requires var w := TakeWord(x); var rest := x[|w|..];
      && w != [] && w[0] == x[0] && w[|w| - 1] != '-'
      && CollapseRuns(x) == w + CollapseRuns(rest)
      && Words(x) == [w] + Words(rest)
      && Words(rest) == []
      && CollapseRuns(rest) == EndMark(x)
    ensures Words(x) != []
    ensures var j := Join(Words(x), '-');
      && j != [] && j[0] == x[0] && j[|j| - 1] != '-'
      && CollapseRuns(x) == j + EndMark(x)
  {
    var w := TakeWord(x);
    assert Words(x) == [w];
  }

  /** `CollapseWords` when more words follow the first. */
  lemma {:induction false} MoreWordsStep(x: string)
    requires x != [] && IsSlugChar(x[0])
    requires var w := TakeWord(x); var rest := x[|w|..];
      && w != [] && w[0] == x[0] && w[|w| - 1] != '-'
      && CollapseRuns(x) == w + CollapseRuns(rest)
      && Words(x) == [w] + Words(rest)
      && rest != [] && EndMark(x) == EndMark(rest)
      && Words(rest) != []
      && var jr := Join(Words(rest), '-');
        jr != [] && jr[|jr| - 1] != '-' && CollapseRuns(rest) == "-" + jr + EndMark(rest)
    ensures Words(x) != []
    ensures var j := Join(Words(x), '-');
      && j != [] && j[0] == x[0] && j[|j| - 1] != '-'
      && CollapseRuns(x) == j + EndMark(x)
  {
    var w := TakeWord(x);
    var rest := x[|w|..];
    JoinCons(w, Words(rest));
    CollapseGlue(CollapseRuns(x), CollapseRuns(rest), w, Join(Words(rest), '-'),
                 Join(Words(x), '-'), EndMark(x), EndMark(rest));
  }

  /** What follows a word collapses to a hyphen and the remaining words
      joined by single hyphens, plus one hyphen when it ends outside
      [a-z0-9]; a tail with no word collapses to at most one hyphen. */
  lemma {:induction false} CollapseTail(t: string)
    requires t == [] || !IsSlugChar(t[0])
    ensures Words(t) == [] ==> CollapseRuns(t) == (if t == [] then "" else "-")
    ensures Words(t) == [] && t != [] ==> !IsSlugChar(t[|t| - 1])
    ensures Words(t) != [] ==> var j := Join(Words(t), '-');
      && t != [] && j != [] && j[0] != '-' && j[|j| - 1] != '-'
      && CollapseRuns(t) == "-" + j + EndMark(t)
    decreases |t|, 0
  {
    if t != [] {
      var z := DropRun(t);
      CollapseRunsOfRun(t);
      WordsSkipRun(t);
      if z == [] {
        assert Words(z) == [] && CollapseRuns(z) == [];
      } else {
        CollapseWords(z);
        LastOfSuffix(t, z);
        HyphenGlue(CollapseRuns(t), CollapseRuns(z), Join(Words(z), '-'), EndMark(t), EndMark(z));
      }
    }
  }

  /** The string algebra of a hyphen in front of a collapsed tail. */
  lemma {:induction false} HyphenGlue(ct: string, cz: string, j: string, emt: string, emz: string)
    requires ct == "-" + cz && cz == j + emz && emt == emz
    ensures ct == "-" + j + emt
  {
  }

  /** The string algebra of one induction step of `CollapseWords`. */
  lemma {:induction false} CollapseGlue(cx: string, crest: string, w: string, jr: string, jx: string,
                     emx: string, emr: string)
    requires cx == w + crest && crest == "-" + jr + emr
    requires jx == w + "-" + jr && emx == emr
    requires w != [] && jr != [] && jr[|jr| - 1] != '-'
    ensures cx == jx + emx && jx != [] && jx[0] == w[0] && jx[|jx| - 1] != '-'
  {
  }

  /** Removing the hyphen the collapse may leave after the joined words. */
  lemma {:induction false} TrimHyphensAfter(c: string, j: string, t: string)
    requires t == "" || t == "-"
    requires j != [] && j[0] != '-' && j[|j| - 1] != '-'
    requires c == j + t && NoDoubleHyphen(c)
    ensures TrimHyphens(c) == j
  {
  }

  /** Removing the hyphens the collapse leaves around the joined words. */
  lemma {:induction false} TrimHyphensAround(c: string, j: string, t: string)
    requires t == "" || t == "-"
    requires j != [] && j[0] != '-' && j[|j| - 1] != '-'
    requires c == "-" + j + t && NoDoubleHyphen(c)
    ensures TrimHyphens(c) == j
  {
    assert c[1..] == j + t;
  }

  /** Trimming the hyphens off the collapse of a string that starts with a
      word leaves its words joined by single hyphens. */
  lemma {:induction false} TrimCollapsedWords(x: string)
    requires x != [] && IsSlugChar(x[0])
    ensures Words(x) != [] && TrimHyphens(CollapseRuns(x)) == Join(Words(x), '-')
  {
    CollapseWords(x);
    assert x[0] != '-';
    TrimHyphensAfter(CollapseRuns(x), Join(Words(x), '-'), EndMark(x));
  }

  /** Trimming the hyphens off the collapse of a string that is empty or
      starts outside [a-z0-9] leaves its words joined by single hyphens, or
      nothing when it has none. */
  lemma {:induction false} TrimCollapsedTail(x: string)
    requires x == [] || !IsSlugChar(x[0])
    ensures Words(x) == [] ==> TrimHyphens(CollapseRuns(x)) == ""
    ensures Words(x) != [] ==> TrimHyphens(CollapseRuns(x)) == Join(Words(x), '-')
  {
    if Words(x) == [] {
      assert CollapseRuns(x) == "" || CollapseRuns(x) == "-" by {
        CollapseTail(x);
      }
      TrimHyphensShort(CollapseRuns(x));
    } else {
      TrimCollapsedTailWords(x);
    }
  }

  /** `TrimCollapsedTail` when the string holds a word. */
  lemma {:induction false} TrimCollapsedTailWords(x: string)
    requires x == [] || !IsSlugChar(x[0])
    requires Words(x) != []
    ensures TrimHyphens(CollapseRuns(x)) == Join(Words(x), '-')
  {
    var c, j := CollapseRuns(x), Join(Words(x), '-');
    assert x != [] && j != [] && j[0] != '-' && j[|j| - 1] != '-' by {
      CollapseTail(x);
    }
    var e := EndMark(x);
    assert c == "-" + j + e by {
      CollapseTail(x);
    }
    TrimHyphensAround(c, j, e);
  }

  /** Nothing is left of a collapse that is at most one hyphen. */
  lemma {:induction false} TrimHyphensShort(c: string)
    requires c == "" || c == "-"
    ensures NoDoubleHyphen(c) && TrimHyphens(c) == ""
  {
  }

  /** The derived slug is the words of the lower-cased input joined by single
      hyphens (or empty when it has none). */
  lemma {:induction false} SlugifyJoinsWords(s: string)
    ensures Words(Lower(s)) == [] ==> Slugify(s) == ""
    ensures Words(Lower(s)) != [] ==> Slugify(s) == Join(Words(Lower(s)), '-')
  {
    var x := Lower(s);
    if x != [] && IsSlugChar(x[0]) {
      TrimCollapsedWords(x);
    } else {
      TrimCollapsedTail(x);
    }
  }

  /** A slug contains no upper-case letter and no white space, so the
      `lowercase` and `trim` setters of the slug fields leave it unchanged. */
  lemma {:induction false} SlugIsLower(s: string)
    requires SlugChars(s)
    ensures Lower(s) == s
  {
    forall i | 0 <= i < |s| ensures Lower(s)[i] == s[i] {
      assert IsSlugChar(s[i]) || s[i] == '-';
    }
  }

  lemma {:induction false} SlugIsTrimmed(s: string)
    requires SlugChars(s)
    ensures Trim(s) == s
  {
    if s != [] {
      SlugCharIsNotSpace(s[0]);
      SlugCharIsNotSpace(s[|s| - 1]);
    }
  }

  lemma {:induction false} SlugCharIsNotSpace(c: char)
    requires IsSlugChar(c) || c == '-'
    ensures !IsSpace(c)
  {
  }

  /** The tail of a collapsed string is collapsed. */
  lemma {:induction false} TailKeepsSlugChars(s: string)
    requires s != [] && SlugChars(s) && NoDoubleHyphen(s)
    ensures SlugChars(s[1..]) && NoDoubleHyphen(s[1..])
  {
    var t := s[1..];
    forall i | 0 <= i < |t| ensures t[i] == s[i + 1] { }
  }

  lemma {:induction false} CollapseRunsOfSlug(s: string)
    requires SlugChars(s)
    requires NoDoubleHyphen(s)
    ensures CollapseRuns(s) == s
    decreases |s|
  {
    if s != [] {
      var t := s[1..];
      TailKeepsSlugChars(s);
      CollapseRunsOfSlug(t);
      if IsSlugChar(s[0]) {
        assert CollapseRuns(s) == [s[0]] + CollapseRuns(t);
      } else {
        assert t == [] || IsSlugChar(t[0]) by {
          if t != [] {
            assert t[0] == s[1] && !(s[0] == '-' && s[1] == '-');
          }
        }
        assert DropRun(t) == t;
        assert CollapseRuns(s) == "-" + CollapseRuns(t);
        assert s[0] == '-';
      }
      assert s == [s[0]] + t;
    }
  }

  /** Without a hyphen at either end there is nothing to trim. */
  lemma {:induction false} TrimHyphensOfTrimmed(s: string)
    requires NoDoubleHyphen(s)
    requires s == [] || (s[0] != '-' && s[|s| - 1] != '-')
    ensures TrimHyphens(s) == s
  {
  }

  /** A slug is a fixed point of the derivation. */
  lemma {:induction false} SlugifyOfSlug(s: string)
    requires IsSlug(s)
    ensures Slugify(s) == s
  {
    SlugIsLower(s);
    CollapseRunsOfSlug(s);
    TrimHyphensOfTrimmed(s);
  }

  /** Deriving the slug of a slug gives it back. */
  lemma {:induction false} SlugifyIdempotent(s: string)
    ensures Slugify(Slugify(s)) == Slugify(s)
  {
    SlugifyOfSlug(Slugify(s));
  }
}
