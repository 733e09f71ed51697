/// System.IO.Path on Windows paths, as far as the file listings use it.
module Paths {
  /** The characters that end the search for an extension's dot. */
  predicate IsSeparator(c: char) { c == '\\' || c == '/' || c == ':' }

  /** Path.GetExtension on the first n characters: from the last dot after the last separator, or "". */
  function ExtensionIn(path: string, n: nat): (e: string)
    requires n <= |path|
    ensures e == [] || (2 <= |e| <= n && e[0] == '.' && e == path[n - |e|..n])
    ensures e != [] ==> forall k :: 1 <= k < |e| ==> e[k] != '.' && !IsSeparator(e[k])
    ensures e == [] ==> (n > 0 && path[n - 1] == '.')
                        || forall k :: 0 <= k < n && path[k] == '.' ==> exists j :: k < j < n && IsSeparator(path[j])
    decreases n
  {
    if n == 0 then []
    else if path[n - 1] == '.' then []
    else if IsSeparator(path[n - 1]) then []
    else LastDotFrom(path, n - 1, n)
  }

  /** The extension ending at n when the characters from i + 1 to n hold no dot and no separator. */
  function LastDotFrom(path: string, i: nat, n: nat): (e: string)
    requires i < n <= |path| && path[n - 1] != '.'
    requires forall k :: i < k < n ==> path[k] != '.' && !IsSeparator(path[k])
    ensures e == [] || (2 <= |e| <= n && e[0] == '.' && e == path[n - |e|..n])
    ensures e != [] ==> forall k :: 1 <= k < |e| ==> e[k] != '.' && !IsSeparator(e[k])
    ensures e == [] ==> forall k :: 0 <= k < n && path[k] == '.' ==> exists j :: k < j < n && IsSeparator(path[j])
    decreases i
  {
    if path[i] == '.' then path[i..n]
    else if IsSeparator(path[i]) then []
    else if i == 0 then []
    else LastDotFrom(path, i - 1, n)
  }

  /** Path.GetExtension. */
  function Extension(path: string): (e: string)
  {
    ExtensionIn(path, |path|)
  }

  /** Path.GetDirectoryName: everything before the last separator, or "" without one. */
  function DirectoryName(path: string): (d: string)
    ensures |d| < |path| || d == []
    ensures d == [] || (path[..|d|] == d && (path[|d|] == '\\' || path[|d|] == '/'))
    ensures forall k :: |d| < k < |path| ==> path[k] != '\\' && path[k] != '/'
    decreases |path|
  {
    if path == [] then []
    else if path[|path| - 1] == '\\' || path[|path| - 1] == '/' then path[..|path| - 1]
    else DirectoryName(path[..|path| - 1])
  }

  /** Path.IsPathRooted: a leading separator or a drive letter. */
  predicate IsRooted(path: string)
  {
    (|path| >= 1 && (path[0] == '\\' || path[0] == '/')) || (|path| >= 2 && path[1] == ':')
  }

  /** Path.Combine of two parts. */
  function Combine(a: string, b: string): (c: string)
    ensures IsRooted(b) || a == [] ==> c == b
    ensures !IsRooted(b) && a != [] ==> |a| <= |c| && c[..|a|] == a && EndsWith(c, b)
  {
    if b == [] then a
    else if IsRooted(b) || a == [] then b
    else if IsSeparator(a[|a| - 1]) then a + b
    else a + "\\" + b
  }

  predicate EndsWith(s: string, suffix: string)
  {
    |suffix| <= |s| && s[|s| - |suffix|..] == suffix
  }
}
