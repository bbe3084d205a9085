/** Node's `path.basename` on POSIX paths, as the upload handlers use it to
    drop the directory part of the path where multer stored a file. */
module NodePath {
  import opened JsText

  /** `p` without its trailing slashes. */
  function StripTrailingSlashes(p: string): (r: string)
    ensures |r| <= |p| && p[..|r|] == r
    ensures r == [] || r[|r| - 1] != '/'
    ensures forall i :: |r| <= i < |p| ==> p[i] == '/'
    decreases |p|
  {
    if p != [] && p[|p| - 1] == '/' then StripTrailingSlashes(p[..|p| - 1]) else p
  }

  /** `path.basename(p)`: the last non-empty segment of `p`, or "" when `p`
      is empty or made of slashes only. */
  function Basename(p: string): (r: string)
    ensures Free(r, {'/'})
    ensures |r| <= |p|
  {
    LastSegment(StripTrailingSlashes(p), {'/'})
  }

  /** A file name placed in a directory is what `basename` gives back. */
  lemma BasenameOfJoin(dir: string, name: string)
    requires name != [] && Free(name, {'/'})
    ensures Basename(dir + "/" + name) == name
  {
    var p := dir + "/" + name;
    assert p[|p| - 1] == name[|name| - 1];
    assert StripTrailingSlashes(p) == p;
    LastSegmentAfter(dir, '/', name, {'/'});
    assert dir + ['/'] + name == p;
  }

  /** A bare file name is its own basename. */
  lemma BasenameOfName(name: string)
    requires name != [] && Free(name, {'/'})
    ensures Basename(name) == name
  {
    assert name[|name| - 1] != '/';
    LastSegmentOfFree(name, {'/'});
  }
}
