/**
 Validation of uploaded icon file names.

 A file name is accepted when it contains a dot and the text after the LAST
 dot, lower-cased, is one of the allowed image extensions.
 */
module Upload {

  /** The allow-list of icon extensions, lower case and without the dot. */
  const AllowedExtensions: set<string> := {"png", "jpg", "jpeg", "gif"}

  /** Lower-cases one character; only the ASCII letters A-Z are folded. */
  function LowerChar(c: char): (d: char)
    ensures 'A' <= c <= 'Z' ==> 'a' <= d <= 'z'
    ensures !('A' <= c <= 'Z') ==> d == c
  {
    if 'A' <= c <= 'Z' then (c as int - 'A' as int + 'a' as int) as char else c
  }

  /** Lower-cases a string character by character. */
  function Lower(s: string): (r: string)
    ensures |r| == |s|
    ensures forall i :: 0 <= i < |s| ==> r[i] == LowerChar(s[i])
  {
    if |s| == 0 then [] else Lower(s[..|s| - 1]) + [LowerChar(s[|s| - 1])]
  }

  /** Lower-casing leaves a dot where it was and creates no new dot. */
  lemma LowerKeepsDots(s: string)
    ensures '.' in Lower(s) <==> '.' in s
  {
    if '.' in s {
      var i :| 0 <= i < |s| && s[i] == '.';
      assert Lower(s)[i] == '.';
    }
    if '.' in Lower(s) {
      var i :| 0 <= i < |Lower(s)| && Lower(s)[i] == '.';
      assert s[i] == '.';
    }
  }

  /**
   Python's `s.rsplit(sep, 1)`: one piece when `sep` does not occur, otherwise
   the text before and after the last occurrence of `sep`.
   */
  function RSplitOnce(s: string, sep: char): (r: seq<string>)
    ensures sep !in s ==> r == [s]
    ensures sep in s ==> |r| == 2 && r[0] + [sep] + r[1] == s && sep !in r[1]
  {
    if |s| == 0 then [s]
    else if s[|s| - 1] == sep then [s[..|s| - 1], []]
    else
      var init := RSplitOnce(s[..|s| - 1], sep);
      assert s == s[..|s| - 1] + [s[|s| - 1]];
      if |init| == 1 then [s] else [init[0], init[1] + [s[|s| - 1]]]
  }

  /**
   The upload check: a dot is present and the lower-cased last suffix is
   allowed. Every allowed extension has at least three letters, so an
   accepted name is at least four characters long.
   */
  predicate AllowedFile(filename: string): (ok: bool)
    ensures ok ==> '.' in filename && |filename| >= 4
  {
    '.' in filename && Lower(RSplitOnce(filename, '.')[1]) in AllowedExtensions
  }

  /** `i` is the position of the last dot in `s`. */
  ghost predicate IsLastDot(s: string, i: int) {
    0 <= i < |s| && s[i] == '.' && '.' !in s[i + 1..]
  }

  /** A string has at most one last dot. */
  lemma LastDotUnique(s: string, i: int, j: int)
    requires IsLastDot(s, i) && IsLastDot(s, j)
    ensures i == j
  {
  }

  /** The text after the last dot is the second piece of `RSplitOnce`. */
  lemma RSplitAtLastDot(s: string, i: int)
    requires IsLastDot(s, i)
    ensures RSplitOnce(s, '.')[1] == s[i + 1..]
  {
    var r := RSplitOnce(s, '.');
    var k := |r[0]|;
    assert s[..k] + [s[k]] + s[k + 1..] == s;
    assert s[k] == '.' by { assert (r[0] + ['.'] + r[1])[k] == '.'; }
    assert s[k + 1..] == r[1] by {
      assert r[0] + ['.'] + r[1] == s;
      assert (r[0] + ['.']) + r[1] == s;
      assert |r[0] + ['.']| == k + 1;
    }
    LastDotUnique(s, i, k);
  }

  /**
   The accepted names, stated through the last dot rather than through
   `rsplit`: some position holds a dot, no dot follows it, and the lower-cased
   rest is an allowed extension.
   */
  lemma AllowedFileCharacterization(f: string)
    ensures AllowedFile(f) <==>
      exists i :: IsLastDot(f, i) && Lower(f[i + 1..]) in AllowedExtensions
  {
    if '.' in f {
      var r := RSplitOnce(f, '.');
      var k := |r[0]|;
      assert (r[0] + ['.']) + r[1] == f;
      assert f[k] == '.' by { assert (r[0] + ['.'] + r[1])[k] == '.'; }
      assert f[k + 1..] == r[1];
      assert IsLastDot(f, k);
      forall i | IsLastDot(f, i)
        ensures i == k
      {
        LastDotUnique(f, i, k);
      }
    } else {
      forall i | 0 <= i < |f|
        ensures f[i] != '.'
      {
      }
    }
  }

  /** `f` ends in a dot followed by `e`, compared case-insensitively. */
  ghost predicate EndsWithExtension(f: string, e: string) {
    |e| < |f| && f[|f| - |e| - 1] == '.' && Lower(f[|f| - |e|..]) == e
  }

  /** Accepted names end in a dot and an allowed extension. */
  lemma AllowedFileHasSuffix(f: string)
    requires AllowedFile(f)
    ensures exists e :: e in AllowedExtensions && EndsWithExtension(f, e)
  {
    AllowedFileCharacterization(f);
    var i :| IsLastDot(f, i) && Lower(f[i + 1..]) in AllowedExtensions;
    var e := Lower(f[i + 1..]);
    assert f[|f| - |e|..] == f[i + 1..];
    assert EndsWithExtension(f, e);
  }

  /** A name ending in a dot and an allowed extension is accepted. */
  lemma SuffixMakesAllowedFile(f: string, e: string)
    requires e in AllowedExtensions && EndsWithExtension(f, e)
    ensures AllowedFile(f)
  {
    var i := |f| - |e| - 1;
    assert f[i + 1..] == f[|f| - |e|..];
    assert '.' !in e;
    LowerKeepsDots(f[i + 1..]);
    assert IsLastDot(f, i);
    AllowedFileCharacterization(f);
  }

  /**
   An equivalent reading of the check: the name ends, case-insensitively,
   in a dot followed by one of the allowed extensions.
   */
  lemma AllowedFileBySuffix(f: string)
    ensures AllowedFile(f) <==>
      exists e :: e in AllowedExtensions && EndsWithExtension(f, e)
  {
    if AllowedFile(f) {
      AllowedFileHasSuffix(f);
    }
    if exists e :: e in AllowedExtensions && EndsWithExtension(f, e) {
      var e :| e in AllowedExtensions && EndsWithExtension(f, e);
      SuffixMakesAllowedFile(f, e);
    }
  }

  /** Upper-case extensions are accepted. */
  lemma UpperCaseExtensionAccepted()
    ensures AllowedFile("a.PNG")
  {
    assert RSplitOnce("a.PNG", '.')[1] == "PNG" by {
      RSplitAtLastDot("a.PNG", 1);
    }
    assert Lower("PNG") == "png";
  }

  /** A bare extension without a dot is rejected. */
  lemma NoDotRejected()
    ensures !AllowedFile("png")
  {
  }

  /** Only the last suffix counts: a trailing non-image extension is rejected. */
  lemma DoubleExtensionRejected()
    ensures !AllowedFile("x.png.exe")
  {
    RSplitAtLastDot("x.png.exe", 5);
    assert Lower("exe") == "exe";
  }

  /** A name that is nothing but a dot and an extension is accepted. */
  lemma DotOnlyNameAccepted()
    ensures AllowedFile(".gif")
  {
    RSplitAtLastDot(".gif", 0);
    assert Lower("gif") == "gif";
  }
}
