/**
 * `System.IO.Path.Combine` for two and three segments, as .NET (Core) implements it on Windows,
 * the platform the program is written for: `\` is the directory separator and `/` the
 * alternative one; a segment that is rooted (starts with a separator, or with a drive letter
 * and `:`) discards everything before it; empty segments are skipped; a separator is inserted
 * between two segments only when neither side already has one at the seam.
 */
module DotNetPath {

  const DirectorySeparatorChar: char := '\\'
  const AltDirectorySeparatorChar: char := '/'
  const VolumeSeparatorChar: char := ':'

  predicate IsDirectorySeparator(c: char) {
    c == DirectorySeparatorChar || c == AltDirectorySeparatorChar
  }

  predicate IsValidDriveChar(c: char) {
    'A' <= c <= 'Z' || 'a' <= c <= 'z'
  }

  /** `Path.IsPathRooted`: `\x`, `/x` or `C:x`. */
  predicate IsPathRooted(p: string) {
    || (|p| >= 1 && IsDirectorySeparator(p[0]))
    || (|p| >= 2 && IsValidDriveChar(p[0]) && p[1] == VolumeSeparatorChar)
  }

  /** The separator needed between `first` and `second`: none if the seam already has one. */
  function Seam(first: string, second: string): string
    requires first != [] && second != []
  {
    if IsDirectorySeparator(first[|first| - 1]) || IsDirectorySeparator(second[0]) then []
    else [DirectorySeparatorChar]
  }

  /** `Path.Combine(first, second)`. */
  function Combine2(first: string, second: string): string {
    if first == [] then second
    else if second == [] then first
    else if IsPathRooted(second) then second
    else first + Seam(first, second) + second
  }

  /** `Path.Combine(first, second, third)`. */
  function Combine3(first: string, second: string, third: string): string {
    if first == [] then Combine2(second, third)
    else if second == [] then Combine2(first, third)
    else if third == [] then Combine2(first, second)
    else if IsPathRooted(third) then third
    else if IsPathRooted(second) then Combine2(second, third)
    else first + Seam(first, second) + second + Seam(second, third) + third
  }

  /**
   * Reference definition of "join the segments in order": an empty segment contributes nothing,
   * and two non-empty pieces are glued with one separator unless the seam already has one.
   */
  function Append(path: string, segment: string): string {
    if segment == [] then path
    else if path == [] then segment
    else path + Seam(path, segment) + segment
  }

  function JoinSegments(segments: seq<string>): string
  {
    if segments == [] then []
    else Append(JoinSegments(segments[..|segments| - 1]), segments[|segments| - 1])
  }

  /**
   * With no rooted segment after the first, `Path.Combine` is the plain join of the three
   * segments in order, empty segments contributing nothing.
   */
  lemma CombineIsJoinWhenUnrooted(root: string, relative: string, name: string)
    requires !IsPathRooted(relative) && !IsPathRooted(name)
    ensures Combine3(root, relative, name) == JoinSegments([root, relative, name])
  {
    assert [root, relative, name][..2] == [root, relative];
    assert [root, relative][..1] == [root];
    assert [root][..0] == [];
    var twoJoined := Append(root, relative);
    assert JoinSegments([root]) == root;
    assert JoinSegments([root, relative]) == twoJoined;
    assert JoinSegments([root, relative, name]) == Append(twoJoined, name);
    if root != [] && relative != [] && name != [] {
      assert twoJoined[|twoJoined| - 1] == relative[|relative| - 1];
      assert Seam(twoJoined, name) == Seam(relative, name);
    }
  }

  predicate EndsWith(s: string, suffix: string) {
    |suffix| <= |s| && s[|s| - |suffix|..] == suffix
  }

  /** The last non-empty segment always ends the combined path. */
  lemma CombineEndsWithName(root: string, relative: string, name: string)
    requires name != []
    ensures EndsWith(Combine3(root, relative, name), name)
  {
    var r := Combine3(root, relative, name);
    if root != [] && relative != [] && !IsPathRooted(name) && !IsPathRooted(relative) {
      var prefix := root + Seam(root, relative) + relative + Seam(relative, name);
      assert r == prefix + name;
      assert r[|prefix|..] == name;
    } else if root == [] || relative == [] || IsPathRooted(relative) {
      var first := if root == [] || IsPathRooted(relative) then relative else root;
      if first != [] && !IsPathRooted(name) {
        assert r == first + Seam(first, name) + name;
        assert r[|first + Seam(first, name)|..] == name;
      }
    }
  }

  /** A rooted last segment replaces the whole path. */
  lemma CombineRootedName(root: string, relative: string, name: string)
    requires IsPathRooted(name)
    ensures Combine3(root, relative, name) == name
  {
  }

  /**
   * A rooted middle segment discards the first one: `Combine3(root, relative, name)` does not
   * depend on `root` at all. digiKam stores album paths relative to their root with a leading
   * `/`, which `IsPathRooted` accepts.
   */
  lemma CombineRootedMiddleDropsRoot(root: string, relative: string, name: string)
    requires IsPathRooted(relative) && !IsPathRooted(name)
    ensures Combine3(root, relative, name) == Combine2(relative, name)
  {
  }

  /** Worked example: an album path with a leading `/` loses the album root. */
  lemma CombineExample()
    ensures Combine3("D:\\Photos", "2024\\Trip", "a.jpg") == "D:\\Photos\\2024\\Trip\\a.jpg"
    ensures Combine3("D:\\Photos", "/2024/Trip", "a.jpg") == "/2024/Trip\\a.jpg"
    ensures Combine3("", "", "a.jpg") == "a.jpg"
  {
    assert IsPathRooted("/2024/Trip");
    assert !IsPathRooted("2024\\Trip") && !IsPathRooted("a.jpg");
  }
}
