/** The path splitter of src/Application.cpp: a model file's path is cut
    at its last '/' or '\' into the directory and the file name.

    `std::string::find_last_of` answers `npos`, the largest `size_t`, when
    no separator occurs; `npos + 1` then wraps to 0, so both outputs are the
    whole path. */
module Applications {
  /** `std::string::npos`: the largest 64-bit `size_t`. */
  const NPOS: nat := 0xFFFF_FFFF_FFFF_FFFF

  /** The two path separators the splitter looks for. */
  const SEPARATORS: seq<char> := ['/', '\\']

  /** `find_last_of` on the first n characters of s: the index of the last
      character that is one of `chars`, or `npos` when there is none (a
      string is always shorter than `npos`). */
  function FindLastOf(s: seq<char>, chars: seq<char>, n: nat): (r: nat)
    requires n <= |s| < NPOS
    ensures r == NPOS || r < n
    ensures r == NPOS ==> forall j :: 0 <= j < n ==> s[j] !in chars
    ensures r < n ==> s[r] in chars && forall j :: r < j < n ==> s[j] !in chars
  {
    if n == 0 then NPOS
    else if s[n - 1] in chars then n - 1
    else FindLastOf(s, chars, n - 1)
  }

  /** `std::string::substr(pos, count)`: the characters from pos on, at
      most count of them; pos may be the length (an empty result). */
  function Substr(s: seq<char>, pos: nat, count: nat): (r: seq<char>)
    requires pos <= |s|
    ensures |r| == if count < |s| - pos then count else |s| - pos
    ensures forall j :: 0 <= j < |r| ==> r[j] == s[pos + j]
  {
    if count < |s| - pos then s[pos..pos + count] else s[pos..]
  }

  /** `_splitPathToFilenameAndDirectory`: the directory is everything before
      the last separator and the file name everything after it. The
      position after `found` is computed in `size_t`, so `npos + 1` is 0. */
  function SplitPathToFilenameAndDirectory(path: seq<char>): (r: (seq<char>, seq<char>))
    requires |path| < NPOS
  {
    var found := FindLastOf(path, SEPARATORS, |path|);
    var directoryPath := Substr(path, 0, found);
    var fileName := Substr(path, (found + 1) % (NPOS + 1), NPOS);
    (directoryPath, fileName)
  }

  /** With a separator at the last separator index k, the directory is the
      path before k and the file name the path after k, so the directory,
      the separator and the file name put together give the path back. */
  lemma SplitAtLastSeparator(path: seq<char>, k: nat)
    requires |path| < NPOS && k < |path| && path[k] in SEPARATORS
    requires forall j :: k < j < |path| ==> path[j] !in SEPARATORS
    ensures SplitPathToFilenameAndDirectory(path).0 == path[..k]
    ensures SplitPathToFilenameAndDirectory(path).1 == path[k + 1..]
    ensures SplitPathToFilenameAndDirectory(path).0 + [path[k]] + SplitPathToFilenameAndDirectory(path).1 == path
  {
    var found := FindLastOf(path, SEPARATORS, |path|);
    assert found == k;
    assert Substr(path, 0, found) == path[..k];
    assert Substr(path, k + 1, NPOS) == path[k + 1..];
    assert path[..k] + [path[k]] + path[k + 1..] == path;
  }

  /** The file name never holds a separator. */
  lemma FileNameHasNoSeparator(path: seq<char>)
    requires |path| < NPOS
    ensures forall c :: c in SplitPathToFilenameAndDirectory(path).1 ==> c !in SEPARATORS
  {
    var found := FindLastOf(path, SEPARATORS, |path|);
    var fileName := SplitPathToFilenameAndDirectory(path).1;
    forall c | c in fileName
      ensures c !in SEPARATORS
    {
      var j :| 0 <= j < |fileName| && fileName[j] == c;
      if found == NPOS {
        assert fileName[j] == path[j];
      } else {
        assert fileName[j] == path[found + 1 + j];
      }
    }
  }

  /** Without a separator, both the directory and the file name are the
      whole path. */
  lemma NoSeparatorGivesWholePath(path: seq<char>)
    requires |path| < NPOS && forall j :: 0 <= j < |path| ==> path[j] !in SEPARATORS
    ensures SplitPathToFilenameAndDirectory(path) == (path, path)
  {
    var found := FindLastOf(path, SEPARATORS, |path|);
    assert found == NPOS;
    assert Substr(path, 0, found) == path;
    assert Substr(path, 0, NPOS) == path;
  }
}
