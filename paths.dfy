/**
 * The parts of a file path that the viewer inspects: the file name (what
 * QFileInfo::fileName returns) and its suffix (QFileInfo::suffix), and the
 * ASCII lower-casing applied to the suffix before it is compared.
 */
module Paths {
  import opened Wrappers

  /** Position of the last occurrence of `c` in `s`, if any. */
  function LastIndexOf(s: string, c: char): Option<nat>
  {
    if |s| == 0 then None
    else if s[|s| - 1] == c then Some(|s| - 1)
    else LastIndexOf(s[..|s| - 1], c)
  }

  /** LastIndexOf finds an occurrence of `c` with none after it, or reports that there is none. */
  lemma {:induction false} LastIndexOfSpec(s: string, c: char)
    ensures var r := LastIndexOf(s, c);
      (r.Some? ==> r.value < |s| && s[r.value] == c && c !in s[r.value + 1..]) &&
      (r.None? ==> c !in s)
  {
    if |s| > 0 && s[|s| - 1] != c {
      LastIndexOfSpec(s[..|s| - 1], c);
      assert s == s[..|s| - 1] + [s[|s| - 1]];
    }
  }

  /** The name of the file: everything after the last '/'. */
  function FileName(path: string): string
  {
    match LastIndexOf(path, '/')
    case None => path
    case Some(k) => if k < |path| then path[k + 1..] else path
  }

  /** The file name is the part of the path after its last '/', and holds no '/'. */
  lemma FileNameSpec(path: string)
    ensures var r := FileName(path);
      '/' !in r && |r| <= |path| && r == path[|path| - |r|..] &&
      (|r| < |path| ==> path[|path| - |r| - 1] == '/') &&
      ('/' !in path ==> r == path)
  {
    LastIndexOfSpec(path, '/');
  }

  /** The suffix: everything in the file name after its last '.', or "" without a '.'. */
  function Suffix(path: string): string
  {
    var f := FileName(path);
    match LastIndexOf(f, '.')
    case None => ""
    case Some(k) => if k < |f| then f[k + 1..] else ""
  }

  predicate SuffixOf(s: string, r: string)
  {
    |r| <= |s| && r == s[|s| - |r|..]
  }

  /** `r` is a proper suffix of `s` right after a `c`. */
  predicate Preceded(s: string, r: string, c: char)
  {
    |r| < |s| && s[|s| - |r| - 1] == c
  }

  /** The tail after an occurrence of `c` that has no `c` after it. */
  lemma TailAfter(s: string, k: nat, c: char)
    requires k < |s| && s[k] == c && c !in s[k + 1..]
    ensures var r := s[k + 1..];
      c !in r && SuffixOf(s, r) && Preceded(s, r, c) && forall x :: x in r ==> x in s
  {
    var r := s[k + 1..];
    assert |s| - |r| == k + 1;
    forall x | x in r
      ensures x in s
    {
      var i :| 0 <= i < |r| && r[i] == x;
      assert s[k + 1 + i] == x;
    }
  }

  /**
   * The suffix is the end of the file name after its last '.', holds neither
   * '.' nor '/', and is empty when the file name has no '.'.
   */
  lemma SuffixSpec(path: string)
    ensures var f, r := FileName(path), Suffix(path);
      '.' !in r && '/' !in r && SuffixOf(f, r) &&
      ('.' in f ==> Preceded(f, r, '.')) &&
      ('.' !in f ==> r == "")
  {
    var f := FileName(path);
    assert '/' !in f by {
      FileNameSpec(path);
    }
    LastIndexOfSpec(f, '.');
    match LastIndexOf(f, '.')
    case None =>
      assert Suffix(path) == "";
    case Some(k) =>
      assert Suffix(path) == f[k + 1..];
      TailAfter(f, k, '.');
  }

  function LowerChar(c: char): char
  {
    if 'A' <= c <= 'Z' then (c as int + 32) as char else c
  }

  /**
   * ASCII lower-casing: no upper-case letter is left, an upper-case letter
   * becomes the letter at the same place in 'a'..'z', and every other
   * character is kept.
   */
  function Lower(s: string): (r: string)
    ensures |r| == |s|
    ensures forall i :: 0 <= i < |r| ==> !('A' <= r[i] <= 'Z')
    ensures forall i :: 0 <= i < |s| && 'A' <= s[i] <= 'Z' ==> r[i] as int - 'a' as int == s[i] as int - 'A' as int
    ensures forall i :: 0 <= i < |s| && !('A' <= s[i] <= 'Z') ==> r[i] == s[i]
  {
    seq(|s|, i requires 0 <= i < |s| => LowerChar(s[i]))
  }

  /** Lower-casing twice is lower-casing once. */
  lemma LowerIdempotent(s: string)
    ensures Lower(Lower(s)) == Lower(s)
  {
  }

  /** The suffix test for vector images: a string lower-cases to "svg" exactly when it spells svg in any mix of cases. */
  lemma LowerIsSvg(s: string)
    ensures Lower(s) == "svg" <==>
      |s| == 3 && (s[0] == 's' || s[0] == 'S') && (s[1] == 'v' || s[1] == 'V') && (s[2] == 'g' || s[2] == 'G')
  {
    if Lower(s) == "svg" {
      assert Lower(s)[0] == 's' && Lower(s)[1] == 'v' && Lower(s)[2] == 'g';
    }
    if |s| == 3 && (s[0] == 's' || s[0] == 'S') && (s[1] == 'v' || s[1] == 'V') && (s[2] == 'g' || s[2] == 'G') {
      assert Lower(s) == [Lower(s)[0], Lower(s)[1], Lower(s)[2]];
    }
  }
}
