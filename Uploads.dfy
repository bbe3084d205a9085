/** The attachment handling of `backend/server.js`: multer's file-name rule
    and the `toPublicPath` closures that turn the path where a file was
    stored into the reference kept on a medicine record. */
module Uploads {
  import opened Wrappers
  import opened JsText
  import opened NodePath

  /** The public route under which uploaded files are served. */
  const UploadsPrefix := "/uploads/"

  /** multer's `filename` callback: `Date.now() + "-" + file.originalname`. */
  function StoredFilename(nowMs: nat, originalname: string): string {
    DecimalString(nowMs) + "-" + originalname
  }

  /** The path multer reports for a file it wrote into `dir`. */
  function StoredPath(dir: string, filename: string): string {
    dir + "/" + filename
  }

  /** A reference as the handlers store it: `/uploads/` followed by one
      path segment. */
  predicate IsPublicPath(s: string) {
    StartsWith(s, UploadsPrefix) && Free(s[|UploadsPrefix|..], {'/'})
  }

  /** Both `toPublicPath` closures (create's returns `null`, update's
      `undefined` for a falsy path; both are None here): a falsy path gives
      no reference, any other path gives `/uploads/` + its basename. */
  function ToPublicPath(p: Option<string>): (r: Option<string>)
    ensures r.Some? <==> Truthy(p)
    ensures r.Some? ==> IsPublicPath(r.value) && r.value[|UploadsPrefix|..] == Basename(p.value)
  {
    if !Truthy(p) then None
    else
      var r := UploadsPrefix + Basename(p.value);
      assert r[|UploadsPrefix|..] == Basename(p.value);
      Some(r)
  }

  /** Two uploads get the same stored name only when they have the same
      timestamp and the same original name. */
  lemma StoredFilenameInjective(t1: nat, n1: string, t2: nat, n2: string)
    requires StoredFilename(t1, n1) == StoredFilename(t2, n2)
    ensures t1 == t2 && n1 == n2
  {
    var d1, d2 := DecimalString(t1), DecimalString(t2);
    var s1, s2 := StoredFilename(t1, n1), StoredFilename(t2, n2);
    assert |d1| == |d2| by {
      assert forall i :: 0 <= i < |d1| ==> s1[i] == d1[i];
      assert forall i :: 0 <= i < |d2| ==> s2[i] == d2[i];
      assert s1[|d1|] == '-' && s2[|d2|] == '-';
    }
    assert d1 == s1[..|d1|] && d2 == s2[..|d2|];
    DecimalStringInjective(t1, t2);
    assert n1 == s1[|d1| + 1..] && n2 == s2[|d2| + 1..];
  }

  /** A stored name has no slash when the original name has none (multer
      receives names already stripped of directories). */
  lemma StoredFilenameIsSegment(nowMs: nat, originalname: string)
    requires Free(originalname, {'/'})
    ensures var f := StoredFilename(nowMs, originalname); f != [] && Free(f, {'/'})
  {
    var d := DecimalString(nowMs);
    var f := StoredFilename(nowMs, originalname);
    forall i | 0 <= i < |f| ensures f[i] != '/' {
      if i < |d| { assert f[i] == d[i]; }
      else if i > |d| { assert f[i] == originalname[i - |d| - 1]; }
    }
  }

  /** The stored reference of an upload is `/uploads/<now>-<originalname>`,
      whatever directory the file was written to. */
  lemma PublicPathOfUpload(dir: string, nowMs: nat, originalname: string)
    requires Free(originalname, {'/'})
    ensures ToPublicPath(Some(StoredPath(dir, StoredFilename(nowMs, originalname))))
            == Some(UploadsPrefix + StoredFilename(nowMs, originalname))
  {
    StoredFilenameIsSegment(nowMs, originalname);
    BasenameOfJoin(dir, StoredFilename(nowMs, originalname));
  }
}
