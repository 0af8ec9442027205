/** The logo upload's file filter: the file's extension (lower-cased) and its
    declared MIME type must each mention an image format. */
module UploadFilter {
  import opened Strings

  /** The alternatives of the filter's unanchored pattern. */
  const ImageFormats: seq<string> := ["jpeg", "jpg", "png", "gif", "svg", "webp"]

  /** The pattern's `test`: some alternative occurs anywhere in `s`. */
  predicate MentionsImage(s: string) {
    exists k :: 0 <= k < |ImageFormats| && Contains(s, ImageFormats[k])
  }

  /** The index of the last `c` in `s`, or -1. */
  function LastIndexOf(s: string, c: char): (i: int)
    ensures -1 <= i < |s|
    ensures i >= 0 ==> s[i] == c
    ensures forall k :: i < k < |s| ==> s[k] != c
  {
    LastIndexBelow(s, c, |s|)
  }

  /** The index of the last `c` among the first `n` characters of `s`, or -1. */
  function LastIndexBelow(s: string, c: char, n: nat): (i: int)
    requires n <= |s|
    ensures -1 <= i < n
    ensures i >= 0 ==> s[i] == c
    ensures forall k :: i < k < n ==> s[k] != c
  {
    if n == 0 then -1
    else if s[n - 1] == c then n - 1
    else LastIndexBelow(s, c, n - 1)
  }

  /** `path.extname` of a file name without trailing separators: from the
      last '.' of the last path segment to the end; '' when that segment has
      no '.', starts with its only counted '.', or is `..`. The last '.' of
      the whole name lies in the last segment exactly when it follows the
      last '/'. */
  function ExtName(name: string): string {
    var slash := LastIndexOf(name, '/');
    var dot := LastIndexOf(name, '.');
    if dot <= slash + 1 || (dot == slash + 2 && dot == |name| - 1 && name[slash + 1] == '.') then ""
    else name[dot..]
  }

  /** The extension is empty or a '.' followed by neither '.' nor '/', and
      it is a suffix of the name. */
  lemma ExtNameShape(name: string)
    ensures var ext := ExtName(name);
      && (ext == [] || (ext[0] == '.' && '.' !in ext[1..] && '/' !in ext))
      && |ext| <= |name| && ext == name[|name| - |ext|..]
  {
    var slash := LastIndexOf(name, '/');
    var dot := LastIndexOf(name, '.');
    if dot > slash + 1 {
      ExtensionIsClean(name, dot);
    }
  }

  /** A suffix starting at a '.' with no later '.' or '/' is an extension. */
  lemma ExtensionIsClean(name: string, start: int)
    requires 0 <= start < |name| && name[start] == '.'
    requires forall k :: start < k < |name| ==> name[k] != '.' && name[k] != '/'
    ensures var ext := name[start..]; ext[0] == '.' && '.' !in ext[1..] && '/' !in ext
  {
    var ext := name[start..];
    forall j | 0 <= j < |ext| - 1 ensures ext[1..][j] != '.' {
      assert ext[1..][j] == name[start + 1 + j];
    }
    forall j | 0 <= j < |ext| ensures ext[j] != '/' {
      assert ext[j] == name[start + j];
    }
  }

  datatype UploadVerdict = Accepted | Rejected(error: string)

  /** `fileFilter`: accepts exactly when both the lower-cased extension and
      the MIME type (as sent, case-sensitive) mention an image format. */
  function FileFilter(originalName: string, mimeType: string): (v: UploadVerdict)
    ensures v.Accepted? <==> MentionsImage(Lower(ExtName(originalName))) && MentionsImage(mimeType)
    ensures v.Rejected? ==> v.error == "Only image files are allowed"
  {
    if MentionsImage(Lower(ExtName(originalName))) && MentionsImage(mimeType) then Accepted
    else Rejected("Only image files are allowed")
  }

  /** A name whose last segment has no extension is refused, whatever its
      MIME type says. */
  lemma NoExtensionRefused(originalName: string, mimeType: string)
    requires '.' !in originalName
    ensures FileFilter(originalName, mimeType).Rejected?
  {
    assert ExtName(originalName) == [];
    forall k | 0 <= k < |ImageFormats| ensures !Contains([], ImageFormats[k]) {
      assert !OccursAt([], ImageFormats[k], 0);
    }
  }

  /** A word starting with a lower-case letter does not occur in a text
      without lower-case letters. */
  lemma NoLowerCaseNoOccurrence(text: string, w: string)
    requires w != [] && 'a' <= w[0] <= 'z'
    requires forall i :: 0 <= i < |text| ==> !('a' <= text[i] <= 'z')
    ensures !Contains(text, w)
  {
    forall i ensures !OccursAt(text, w, i) {
      if 0 <= i && i + |w| <= |text| {
        assert text[i..i + |w|][0] == text[i];
      }
    }
  }

  /** The MIME check is case-sensitive: a MIME type without lower-case
      letters (`IMAGE/PNG`) is refused whatever the extension. */
  lemma UpperCaseMimeTypeRefused(originalName: string, mimeType: string)
    requires forall i :: 0 <= i < |mimeType| ==> !('a' <= mimeType[i] <= 'z')
    ensures FileFilter(originalName, mimeType).Rejected?
  {
    NoLowerCaseMentionsNoImage(mimeType);
  }

  lemma NoLowerCaseMentionsNoImage(text: string)
    requires forall i :: 0 <= i < |text| ==> !('a' <= text[i] <= 'z')
    ensures !MentionsImage(text)
  {
    forall k | 0 <= k < |ImageFormats| ensures !Contains(text, ImageFormats[k]) {
      var w := ImageFormats[k];
      assert w[0] in "jgpsw";
      NoLowerCaseNoOccurrence(text, w);
    }
  }
}
