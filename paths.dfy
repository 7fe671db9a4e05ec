/** The string manipulation `Grouping.setPath` uses to derive a grouping's name from its path. */
module Paths {

  /** Java's `String.lastIndexOf(char)`: the index of the last occurrence of `c` in `s`, or -1. */
  function LastIndexOf(s: string, c: char): (r: int)
    ensures -1 <= r < |s|
    ensures r == -1 <==> c !in s
    ensures 0 <= r ==> s[r] == c && c !in s[r + 1..]
    decreases |s|
  {
    if s == [] then -1
    else if s[|s| - 1] == c then |s| - 1
    else LastIndexOf(s[..|s| - 1], c)
  }

  /**
   * The name of the grouping at `path`: the text after the last ':' of the path,
   * or the whole path when it has no ':'. The result is the longest suffix of
   * `path` free of ':'.
   */
  function LastSegment(path: string): (name: string)
    ensures ':' !in name
    ensures |name| <= |path| && path[|path| - |name|..] == name
    ensures name == path || path[|path| - |name| - 1] == ':'
  {
    var index := LastIndexOf(path, ':');
    if index == -1 then path else path[index + 1..]
  }

  /** The three properties in LastSegment's contract determine its result: any suffix that has them is it. */
  lemma LastSegmentUnique(path: string, name: string)
    requires ':' !in name
    requires |name| <= |path| && path[|path| - |name|..] == name
    requires name == path || path[|path| - |name| - 1] == ':'
    ensures name == LastSegment(path)
  {
    var seg := LastSegment(path);
    // neither suffix can be longer: the ':' before the shorter one would lie inside the longer
    assert |name| == |seg|;
    assert path[|path| - |name|..] == path[|path| - |seg|..];
  }

  /** A qualified path `prefix:seg` names the grouping `seg`, whatever the prefix holds. */
  lemma LastSegmentOfQualified(prefix: string, seg: string)
    requires ':' !in seg
    ensures LastSegment(prefix + [':'] + seg) == seg
  {
    var path := prefix + [':'] + seg;
    assert path[|path| - |seg|..] == seg;
    assert path[|path| - |seg| - 1] == ':';
    LastSegmentUnique(path, seg);
  }

  /** A path without ':' is its own name, and only such a path is. */
  lemma LastSegmentWhole(path: string)
    ensures LastSegment(path) == path <==> ':' !in path
  {
  }
}
