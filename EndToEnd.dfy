/** The client and the server together: what the server receives from the
    body `handleSubmit` builds, which row an edit targets, and the URL the
    client shows for an attachment the server stored. */
module EndToEnd {
  import opened Wrappers
  import opened JsText
  import opened Uploads
  import opened Server
  import opened MedicineApp

  // ---------------------------------------------------------------------
  // multipart parsing, as far as the handlers see it
  // ---------------------------------------------------------------------

  /** The value of the first text entry called `name`, as `req.body[name]`. */
  function FirstField(parts: seq<Part>, name: string): (r: Option<string>)
    ensures r.Some? ==> Field(name, r.value) in parts
    ensures r.None? ==> forall v :: Field(name, v) !in parts
    decreases |parts|
  {
    if parts == [] then None
    else if parts[0].Field? && parts[0].name == name then Some(parts[0].value)
    else FirstField(parts[1..], name)
  }

  /** The first file entry called `name`, as `req.files[name]?.[0]`. */
  function FirstFile(parts: seq<Part>, name: string): (r: Option<FileRef>)
    ensures r.Some? ==> Attachment(name, r.value) in parts
    ensures r.None? ==> forall f :: Attachment(name, f) !in parts
    decreases |parts|
  {
    if parts == [] then None
    else if parts[0].Attachment? && parts[0].name == name then Some(parts[0].file)
    else FirstFile(parts[1..], name)
  }

  /** `req.body` of a multipart request, for the five fields read. */
  function ReceivedFields(parts: seq<Part>): MedicineFields {
    MedicineFields(FirstField(parts, "userName"), FirstField(parts, "age"), FirstField(parts, "contact"),
                   FirstField(parts, "drugName"), FirstField(parts, "medicineType"))
  }

  /** Where multer wrote a file received at `nowMs` into `dir`; the name the
      client picked is taken as multer's `originalname` (no character
      encoding is modelled). */
  function StoredAt(f: Option<FileRef>, dir: string, nowMs: nat): Option<string> {
    if f.Some? then Some(StoredPath(dir, StoredFilename(nowMs, f.value.name))) else None
  }

  /** The paths of the two upload fields of a multipart request; multer
      reads the clock once per file, at `imageMs` and at `proofMs`. */
  function ReceivedPaths(parts: seq<Part>, dir: string, imageMs: nat, proofMs: nat): UploadedPaths {
    UploadedPaths(StoredAt(FirstFile(parts, "profileImage"), dir, imageMs),
                  StoredAt(FirstFile(parts, "documentProof"), dir, proofMs))
  }

  /** The first text entry called `name` is the one at `k` when none
      before it has that name. */
  lemma {:induction false} FirstFieldAt(parts: seq<Part>, name: string, k: nat)
    requires k < |parts| && parts[k].Field? && parts[k].name == name
    requires forall j :: 0 <= j < k ==> parts[j].name != name
    ensures FirstField(parts, name) == Some(parts[k].value)
    decreases k
  {
    if k > 0 {
      FirstFieldAt(parts[1..], name, k - 1);
    }
  }

  /** Whatever the form holds, the server reads each of its five values back
      as the string the client appended. */
  lemma ReceivedFormFields(form: Form, file: Files)
    ensures ReceivedFields(FormDataParts(form, file)) ==
              MedicineFields(Some(FormString(form.userName)), Some(FormString(form.age)),
                             Some(FormString(form.contact)), Some(FormString(form.drugName)),
                             Some(FormString(form.medicineType)))
  {
    var parts := FormDataParts(form, file);
    var fp := FieldParts(Entries(form));
    assert |fp| == 5 && parts == fp + FileParts(file);
    assert parts[0] == Field("userName", FormString(form.userName));
    assert parts[1] == Field("age", FormString(form.age));
    assert parts[2] == Field("contact", FormString(form.contact));
    assert parts[3] == Field("drugName", FormString(form.drugName));
    assert parts[4] == Field("medicineType", FormString(form.medicineType));
    FirstFieldAt(parts, "userName", 0);
    FirstFieldAt(parts, "age", 1);
    FirstFieldAt(parts, "contact", 2);
    FirstFieldAt(parts, "drugName", 3);
    FirstFieldAt(parts, "medicineType", 4);
  }

  /** The server sees an upload for a field exactly when the user picked a
      file for it, stored under the name multer gives it. */
  lemma ReceivedFormFiles(form: Form, file: Files, dir: string, imageMs: nat, proofMs: nat)
    ensures ReceivedPaths(FormDataParts(form, file), dir, imageMs, proofMs) ==
              UploadedPaths(StoredAt(file.profileImage, dir, imageMs), StoredAt(file.documentProof, dir, proofMs))
  {
    FormDataContents(form, file);
  }

  // ---------------------------------------------------------------------
  // editing
  // ---------------------------------------------------------------------

  /** A row as the client receives it in JSON (`NaN` is written as `null`). */
  function ClientItem(m: MedicineItem): (i: Item)
    ensures i.id == m.id && i.userName == Some(m.userName)
    ensures i.contact == Some(m.contact) && i.drugName == Some(m.drugName)
    ensures i.medicineType == Some(m.medicineType)
    ensures i.age.Some? <==> m.age.Int?
    ensures m.age.Int? ==> i.age == Some(m.age.value)
    ensures i.profileImage == m.profileImage && i.documentProof == m.documentProof
  {
    Item(m.id, Some(m.userName), if m.age.Int? then Some(m.age.value) else None, Some(m.contact),
         Some(m.drugName), Some(m.medicineType), m.profileImage, m.documentProof)
  }

  /** While editing, the submit goes to `/medicine/<text>` where `<text>` is
      the route parameter the server parses back to the edited id. */
  lemma {:induction false} EditTargetsItem(form: Form, file: Files, id: int)
    requires id != 0
    ensures var req := SubmitRequest(form, file, Some(id));
            req.Put? && StartsWith(req.path, "/medicine/") && ParseInt(req.path[|"/medicine/"|..]) == Int(id)
  {
    var req := SubmitRequest(form, file, Some(id));
    assert req.path[|"/medicine/"|..] == IntString(id);
    ParseIntOfIntString(id);
  }

  /** Saving an edit without picking a new file keeps both stored
      attachments, whatever the text fields say. */
  lemma EditWithoutNewFileKeepsAttachments(m: MedicineItem, form: Form, dir: string, imageMs: nat, proofMs: nat)
    ensures var parts := FormDataParts(form, NoFiles);
            var r := Patch(m, ReceivedFields(parts), ReceivedPaths(parts, dir, imageMs, proofMs));
            r.profileImage == m.profileImage && r.documentProof == m.documentProof
  {
    ReceivedFormFiles(form, NoFiles, dir, imageMs, proofMs);
  }

  /** `parseInt("null")` is `NaN`. */
  lemma ParseIntOfNull()
    ensures ParseInt("null") == NaN
  {
    assert forall i :: 0 <= i < |"null"| ==> !IsDigit("null"[i]);
  }

  /** Opening a row for editing and saving it unchanged, without a new
      file, writes back exactly the row that was there. */
  lemma EditRoundTrip(m: MedicineItem, dir: string, imageMs: nat, proofMs: nat)
    ensures var parts := FormDataParts(FormOf(ClientItem(m)), NoFiles);
            Patch(m, ReceivedFields(parts), ReceivedPaths(parts, dir, imageMs, proofMs)) == m
  {
    var form := FormOf(ClientItem(m));
    var parts := FormDataParts(form, NoFiles);
    ReceivedFormFields(form, NoFiles);
    ReceivedFormFiles(form, NoFiles, dir, imageMs, proofMs);
    var fields := ReceivedFields(parts);
    assert ReceivedPaths(parts, dir, imageMs, proofMs) == NoUploads;
    assert fields.userName == Some(m.userName) && fields.contact == Some(m.contact);
    assert fields.drugName == Some(m.drugName) && fields.medicineType == Some(m.medicineType);
    assert ParseField(fields.age) == m.age by {
      if m.age.Int? {
        ParseIntOfIntString(m.age.value);
      } else {
        ParseIntOfNull();
      }
    }
  }

  // ---------------------------------------------------------------------
  // attachment URLs
  // ---------------------------------------------------------------------

  /** A reference as the server stores it, `/uploads/<f>`, is shown at
      `http://localhost:4000/uploads/<f>`, which the server serves. */
  lemma StoredReferenceUrl(ref: string)
    requires IsPublicPath(ref)
    ensures ResolveImageUrl(Some(ref)) == Some(ApiOrigin + ref)
  {
    var f := ref[|UploadsPrefix|..];
    assert ref == UploadsPrefix + f;
    ResolveUploadsReference(f);
  }

  /** A file uploaded at `nowMs` as `originalname` is shown at
      `http://localhost:4000/uploads/<nowMs>-<originalname>`. */
  lemma UploadedFileUrl(dir: string, nowMs: nat, originalname: string)
    requires Free(originalname, {'/'})
    ensures ResolveImageUrl(ToPublicPath(Some(StoredPath(dir, StoredFilename(nowMs, originalname)))))
            == Some(ApiOrigin + "/uploads/" + StoredFilename(nowMs, originalname))
  {
    PublicPathOfUpload(dir, nowMs, originalname);
    ResolveUploadsReference(StoredFilename(nowMs, originalname));
  }

  /** A row created from the client's form holds, for each picked file, the
      reference `/uploads/<ms>-<name>` of the file multer stored at `ms`,
      and no reference for a field without a file. */
  lemma CreatedRowReferences(id: int, form: Form, file: Files, dir: string, imageMs: nat, proofMs: nat)
    requires file.profileImage.Some? ==> Free(file.profileImage.value.name, {'/'})
    requires file.documentProof.Some? ==> Free(file.documentProof.value.name, {'/'})
    ensures var parts := FormDataParts(form, file);
            var r := NewItem(id, ReceivedFields(parts), ReceivedPaths(parts, dir, imageMs, proofMs));
            r.Some? &&
            r.value.profileImage ==
              (if file.profileImage.Some? then Some(UploadsPrefix + StoredFilename(imageMs, file.profileImage.value.name)) else None) &&
            r.value.documentProof ==
              (if file.documentProof.Some? then Some(UploadsPrefix + StoredFilename(proofMs, file.documentProof.value.name)) else None)
  {
    ReceivedFormFields(form, file);
    ReceivedFormFiles(form, file, dir, imageMs, proofMs);
    if file.profileImage.Some? {
      PublicPathOfUpload(dir, imageMs, file.profileImage.value.name);
    }
    if file.documentProof.Some? {
      PublicPathOfUpload(dir, proofMs, file.documentProof.value.name);
    }
  }

  /** Every attachment of a row the server keeps is shown at the API
      origin followed by its stored reference. */
  lemma RowAttachmentUrls(m: MedicineItem)
    requires PublicAttachments(m)
    ensures var i := ClientItem(m);
            (m.profileImage.Some? ==> ResolveImageUrl(i.profileImage) == Some(ApiOrigin + m.profileImage.value)) &&
            (m.documentProof.Some? ==> ResolveImageUrl(i.documentProof) == Some(ApiOrigin + m.documentProof.value)) &&
            (m.profileImage.None? ==> ResolveImageUrl(i.profileImage).None?) &&
            (m.documentProof.None? ==> ResolveImageUrl(i.documentProof).None?)
  {
    if m.profileImage.Some? { StoredReferenceUrl(m.profileImage.value); }
    if m.documentProof.Some? { StoredReferenceUrl(m.documentProof.value); }
  }
}
