/** Stripping the extension from a song's file name, the expression
    `name.left(name.lastIndexOf('.'))` used when a file is opened, when the
    music folder is listed and when a song is clicked (mainwindow.cpp). */
module FileNames {

  /** QString::lastIndexOf(c): the position of the last c, or -1 if none. */
  function LastIndexOf(s: string, c: char): (i: int)
    ensures -1 <= i < |s|
    ensures i == -1 <==> c !in s
    ensures 0 <= i ==> s[i] == c && c !in s[i + 1..]
  {
    if s == [] then -1
    else if s[|s| - 1] == c then |s| - 1
    else LastIndexOf(s[..|s| - 1], c)
  }

  /** QString::left(n): the first n characters; the whole string when n is
      negative or not smaller than the length. */
  function Left(s: string, n: int): (r: string)
    ensures |r| <= |s| && r == s[..|r|]
    ensures 0 <= n < |s| ==> |r| == n
    ensures |r| == |s| <==> n < 0 || n >= |s|
  {
    if n < 0 || n >= |s| then s else s[..n]
  }

  /** The name without its extension: everything before the last '.', or the
      name itself when it has no '.'. */
  function StripExt(name: string): (r: string)
    ensures '.' !in name ==> r == name
    ensures '.' in name ==> |r| < |name| && r == name[..|r|]
    ensures '.' in name ==> name[|r|] == '.' && '.' !in name[|r| + 1..]
  {
    Left(name, LastIndexOf(name, '.'))
  }

  /** Adding an extension and stripping it gives the base name back, whatever
      dots the base name itself contains. */
  lemma StripExtRoundTrip(base: string, ext: string)
    requires '.' !in ext
    ensures StripExt(base + "." + ext) == base
  {
    var s := base + "." + ext;
    assert s[|base|] == '.';
    var r := StripExt(s);
    assert |r| == |base|;
    assert s[..|base|] == base;
  }

  /** Stripping twice is not stripping once: when the base name of a file
      still has a '.', the second strip removes another piece of it. */
  lemma StripExtNotIdempotent(base: string, ext: string)
    requires '.' !in ext && '.' in base
    ensures StripExt(StripExt(base + "." + ext)) == StripExt(base)
    ensures StripExt(base) != base
  {
    StripExtRoundTrip(base, ext);
  }
}
