/** The JavaScript string operations the handlers rely on: `trim`,
    `toLowerCase` (ASCII only), `split` on one character, and the
    case-insensitive substring test that a `$regex` with option `i` performs
    on plain text. */
module Strings {

  /** The characters `String.prototype.trim` removes: ECMAScript WhiteSpace
      (tab, vertical tab, form feed, space, no-break space, byte order mark
      and the Unicode space separators) and LineTerminator. */
  predicate IsSpace(c: char) {
    || c == ' ' || c == '\t' || c == '\n' || c == '\r'
    || c == '\U{000B}' || c == '\U{000C}' || c == '\U{00A0}' || c == '\U{FEFF}'
    || c == '\U{1680}' || ('\U{2000}' <= c <= '\U{200A}')
    || c == '\U{2028}' || c == '\U{2029}' || c == '\U{202F}' || c == '\U{205F}'
    || c == '\U{3000}'
  }

  function TrimStart(s: string): (r: string)
    ensures |r| <= |s| && r == s[|s| - |r|..]
    ensures r == [] || !IsSpace(r[0])
    ensures forall i :: 0 <= i < |s| - |r| ==> IsSpace(s[i])
  {
    if s != [] && IsSpace(s[0]) then TrimStart(s[1..]) else s
  }

  function TrimEnd(s: string): (r: string)
    ensures |r| <= |s| && r == s[..|r|]
    ensures r == [] || !IsSpace(r[|r| - 1])
    ensures forall i :: |r| <= i < |s| ==> IsSpace(s[i])
  {
    if s != [] && IsSpace(s[|s| - 1]) then TrimEnd(s[..|s| - 1]) else s
  }

  /** `r` is `s` with only white space removed: it sits in `s` at offset
      `i`, and every character before and after it is white space. */
  predicate TrimmedAt(s: string, r: string, i: int) {
    && 0 <= i && i + |r| <= |s| && s[i..i + |r|] == r
    && (forall k :: 0 <= k < i ==> IsSpace(s[k]))
    && (forall k :: i + |r| <= k < |s| ==> IsSpace(s[k]))
  }

  /** `s.trim()`: `s` with its leading and trailing white space removed,
      leaving an infix that neither starts nor ends with white space. */
  function Trim(s: string): (r: string)
    ensures r == [] || (!IsSpace(r[0]) && !IsSpace(r[|r| - 1]))
    ensures exists i :: OccursAt(s, r, i)
  {
    var a := TrimStart(s);
    var r := TrimEnd(a);
    assert OccursAt(s, r, |s| - |a|);
    r
  }

  /** `trim()` removes white space only, and only at the two ends. */
  lemma {:induction false} TrimRemovesOnlyEnds(s: string)
    ensures exists i :: TrimmedAt(s, Trim(s), i)
  {
    var a := TrimStart(s);
    var r := TrimEnd(a);
    assert Trim(s) == r;
    assert TrimmedAt(s, a, |s| - |a|);
    assert a[0..|r|] == r;
    TrimmedAtCompose(s, a, r, |s| - |a|, 0);
  }

  /** Removing white space around `a` in `s`, then around `r` in `a`,
      removes only white space around `r` in `s`. */
  lemma TrimmedAtCompose(s: string, a: string, r: string, i: int, j: int)
    requires TrimmedAt(s, a, i) && TrimmedAt(a, r, j)
    ensures TrimmedAt(s, r, i + j)
  {
    forall k | 0 <= k < |a| ensures s[i + k] == a[k] {
      assert s[i..i + |a|][k] == a[k];
    }
    forall k | 0 <= k < |r| ensures s[i + j + k] == r[k] {
      assert a[j..j + |r|][k] == r[k];
    }
    assert s[i + j..i + j + |r|] == r;
  }

  /** Where the trimmed string sits in `s`: every character of it is the
      character of `s` at offset `i`. */
  lemma TrimOffset(s: string) returns (i: nat)
    ensures i + |Trim(s)| <= |s|
    ensures forall k :: 0 <= k < |Trim(s)| ==> Trim(s)[k] == s[i + k]
  {
    var a := TrimStart(s);
    var r := TrimEnd(a);
    i := |s| - |a|;
    forall k | 0 <= k < |r| ensures r[k] == s[i + k] {
      assert r[k] == a[k];
    }
  }

  /** A string is blank when it is empty or holds only white space. */
  predicate IsBlank(s: string) {
    forall i :: 0 <= i < |s| ==> IsSpace(s[i])
  }

  /** `!s.trim()` holds exactly for the blank strings. */
  lemma TrimEmptyIffBlank(s: string)
    ensures Trim(s) == [] <==> IsBlank(s)
  {
    var a := TrimStart(s);
    if a != [] {
      assert a[0] == s[|s| - |a|];
      assert TrimEnd(a) != [];
    }
  }

  /** Trimming is idempotent. */
  lemma TrimIdempotent(s: string)
    ensures Trim(Trim(s)) == Trim(s)
  {
  }

  /** `toLowerCase` restricted to ASCII: A-Z become a-z, everything else is
      kept. */
  function LowerChar(c: char): (r: char)
    ensures 'A' <= c <= 'Z' ==> 'a' <= r <= 'z'
    ensures !('A' <= c <= 'Z') ==> r == c
  {
    if 'A' <= c <= 'Z' then (c as int - 'A' as int + 'a' as int) as char else c
  }

  function Lower(s: string): (r: string)
    ensures |r| == |s|
    ensures forall i :: 0 <= i < |s| ==> r[i] == LowerChar(s[i])
  {
    if s == [] then [] else [LowerChar(s[0])] + Lower(s[1..])
  }

  /** `pat` occurs in `text` starting at index `i`. */
  predicate OccursAt(text: string, pat: string, i: int) {
    0 <= i <= |text| - |pat| && text[i..i + |pat|] == pat
  }

  lemma OccursAtTail(text: string, pat: string, i: int)
    requires text != [] && i != 0
    ensures OccursAt(text, pat, i) <==> OccursAt(text[1..], pat, i - 1)
  {
    if 1 <= i <= |text| - |pat| {
      var a, b := text[i..i + |pat|], text[1..][i - 1..i - 1 + |pat|];
      assert |a| == |b|;
      forall k | 0 <= k < |a| ensures a[k] == b[k] { }
      assert a == b;
    }
  }

  lemma OccursInTail(text: string, pat: string)
    requires text != [] && !IsPrefix(pat, text)
    ensures (exists i :: OccursAt(text, pat, i)) <==> (exists j :: OccursAt(text[1..], pat, j))
  {
    if j :| OccursAt(text[1..], pat, j) {
      OccursAtTail(text, pat, j + 1);
    }
    if i :| OccursAt(text, pat, i) {
      assert i != 0;
      OccursAtTail(text, pat, i);
    }
  }

  predicate IsPrefix(p: string, s: string) {
    |p| <= |s| && s[..|p|] == p
  }

  /** `pat` occurs in `text` at some position. */
  function Contains(text: string, pat: string): (r: bool)
    ensures r <==> exists i :: OccursAt(text, pat, i)
  {
    if IsPrefix(pat, text) then
      assert OccursAt(text, pat, 0);
      true
    else if text == [] then false
    else
      var r := Contains(text[1..], pat);
      OccursInTail(text, pat);
      r
  }

  /** The case-insensitive search a `$regex` with option `i` performs for a
      pattern without metacharacters. */
  predicate ContainsIgnoringCase(text: string, pat: string) {
    Contains(Lower(text), Lower(pat))
  }

  /** `s.split(sep)` for a one-character separator: the maximal pieces between
      occurrences of `sep`, including empty ones. */
  function Split(s: string, sep: char): (r: seq<string>)
    ensures |r| >= 1
    ensures forall k :: 0 <= k < |r| ==> sep !in r[k]
  {
    if s == [] then [""]
    else
      var rest := Split(s[1..], sep);
      if s[0] == sep then [""] + rest
      else [[s[0]] + rest[0]] + rest[1..]
  }

  function Join(pieces: seq<string>, sep: char): string
    requires |pieces| >= 1
  {
    if |pieces| == 1 then pieces[0] else pieces[0] + [sep] + Join(pieces[1..], sep)
  }

  /** Splitting loses nothing: joining the pieces with the separator gives the
      input back. */
  lemma {:induction false} SplitJoin(s: string, sep: char)
    ensures Join(Split(s, sep), sep) == s
  {
    if s != [] {
      var rest := Split(s[1..], sep);
      SplitJoin(s[1..], sep);
      if s[0] != sep {
        if |rest| == 1 {
          assert Split(s, sep) == [[s[0]] + rest[0]];
        } else {
          var r := Split(s, sep);
          assert r[1..] == rest[1..];
          assert Join(rest, sep) == rest[0] + [sep] + Join(rest[1..], sep);
        }
      }
    }
  }
}
