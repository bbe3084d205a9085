/** The inventory page of the client (`frontend/src/MedicineApp.jsx`): the
    in-memory search filter, the rewriting of attachment references into
    URLs, and the component state that the submit, edit and cancel handlers
    update. */
module MedicineApp {
  import opened Wrappers
  import opened JsText

  /** The API server the client talks to. */
  const ApiOrigin := "http://localhost:4000"

  /** A medicine as the client receives it from `GET /api/medicine`; a
      field that is `null` or missing is None. */
  datatype Item = Item(
    id: int,
    userName: Option<string>,
    age: Option<int>,
    contact: Option<string>,
    drugName: Option<string>,
    medicineType: Option<string>,
    profileImage: Option<string>,
    documentProof: Option<string>)

  // ---------------------------------------------------------------------
  // search
  // ---------------------------------------------------------------------

  /** The four fields the search looks at. */
  function SearchFields(i: Item): seq<Option<string>> {
    [i.userName, i.contact, i.drugName, i.medicineType]
  }

  /** `.filter(Boolean)`: the present, non-empty strings, in order. */
  function Present(fs: seq<Option<string>>): (r: seq<string>)
    ensures forall x :: x in r <==> Some(x) in fs && x != ""
    decreases |fs|
  {
    if fs == [] then []
    else (if Truthy(fs[0]) then [fs[0].value] else []) + Present(fs[1..])
  }

  /** `.some(f => f.toLowerCase().includes(q))`. */
  function AnyIncludes(fs: seq<string>, q: string): (r: bool)
    ensures r <==> exists f :: f in fs && Includes(ToLower(f), q)
    decreases |fs|
  {
    if fs == [] then false
    else Includes(ToLower(fs[0]), q) || AnyIncludes(fs[1..], q)
  }

  /** The predicate `filtered` applies to each item. */
  predicate Matches(i: Item, search: string) {
    AnyIncludes(Present(SearchFields(i)), ToLower(search))
  }

  /** An item is shown exactly when one of its four fields is non-empty and
      holds the search text, both folded to lower case. */
  lemma MatchesIff(i: Item, search: string)
    ensures Matches(i, search) <==>
              exists f :: Some(f) in SearchFields(i) && f != "" && Includes(ToLower(f), ToLower(search))
  {
  }

  /** An empty search shows the items with at least one non-empty field
      among the four, and hides the others. */
  lemma EmptySearchMatches(i: Item)
    ensures Matches(i, "") <==> exists f :: Some(f) in SearchFields(i) && f != ""
  {
    assert ToLower("") == "";
    forall f ensures Includes(ToLower(f), "") {
      IncludesEmpty(ToLower(f));
    }
  }

  /** The case of the search text does not matter. */
  lemma MatchesIgnoresCase(i: Item, search: string)
    ensures Matches(i, search) == Matches(i, ToLower(search))
  {
    ToLowerIdempotent(search);
  }

  /** `items.filter(...)`: the items that match, in their order. */
  function Filter(items: seq<Item>, search: string): (r: seq<Item>)
    ensures |r| <= |items|
    ensures forall x :: x in r <==> x in items && Matches(x, search)
    decreases |items|
  {
    if items == [] then []
    else (if Matches(items[0], search) then [items[0]] else []) + Filter(items[1..], search)
  }

  /** `idx` lists, in increasing order, positions of `items` whose elements
      make up `r`. */
  ghost predicate Embedding(r: seq<Item>, items: seq<Item>, idx: seq<int>) {
    && |idx| == |r|
    && (forall k :: 0 <= k < |idx| ==> 0 <= idx[k] < |items| && items[idx[k]] == r[k])
    && (forall k, l :: 0 <= k < l < |idx| ==> idx[k] < idx[l])
  }

  /** Moving an embedding into `items[1..]` one place right gives an
      embedding into `items` that avoids position 0. */
  lemma ShiftEmbedding(r: seq<Item>, items: seq<Item>, rest: seq<int>) returns (shifted: seq<int>)
    requires |items| >= 1
    requires Embedding(r, items[1..], rest)
    ensures Embedding(r, items, shifted)
    ensures forall k :: 0 <= k < |shifted| ==> shifted[k] >= 1
    ensures forall j :: 1 <= j < |items| ==> (j in shifted <==> j - 1 in rest)
  {
    shifted := seq(|rest|, k requires 0 <= k < |rest| => rest[k] + 1);
    forall j | 1 <= j < |items| ensures j in shifted <==> j - 1 in rest {
      if j - 1 in rest {
        var k :| 0 <= k < |rest| && rest[k] == j - 1;
        assert shifted[k] == j;
      }
    }
  }

  /** An element put in front of an embedding at position 0. */
  lemma ConsEmbedding(x: Item, r: seq<Item>, items: seq<Item>, shifted: seq<int>)
    requires |items| >= 1 && items[0] == x
    requires Embedding(r, items, shifted)
    requires forall k :: 0 <= k < |shifted| ==> shifted[k] >= 1
    ensures Embedding([x] + r, items, [0] + shifted)
  {
  }

  /** The filtered list is the subsequence of `items` at exactly the
      matching positions, so "Showing X of Y" never has X above Y. */
  lemma {:induction false} FilterIsSubsequence(items: seq<Item>, search: string) returns (idx: seq<int>)
    ensures Embedding(Filter(items, search), items, idx)
    ensures forall j :: 0 <= j < |items| ==> (j in idx <==> Matches(items[j], search))
    decreases |items|
  {
    if items == [] {
      idx := [];
    } else {
      var tail := Filter(items[1..], search);
      var rest := FilterIsSubsequence(items[1..], search);
      var shifted := ShiftEmbedding(tail, items, rest);
      assert 0 !in shifted;
      if Matches(items[0], search) {
        idx := [0] + shifted;
        assert Filter(items, search) == [items[0]] + tail;
        ConsEmbedding(items[0], tail, items, shifted);
      } else {
        idx := shifted;
        assert Filter(items, search) == tail;
      }
      forall j | 1 <= j < |items| ensures j in idx <==> Matches(items[j], search) {
        assert j in idx <==> j in shifted;
        assert items[1..][j - 1] == items[j];
      }
    }
  }

  // ---------------------------------------------------------------------
  // attachment URLs
  // ---------------------------------------------------------------------

  /** `resolveImageUrl`: a falsy path gives null; a path starting with
      "http" is kept; a path starting with "/" is put on the API origin; any
      other path keeps its last segment (after `/` or `\`) under
      `/uploads/` on the API origin. */
  function ResolveImageUrl(path: Option<string>): (r: Option<string>)
    ensures r.None? <==> !Truthy(path)
    ensures r.Some? ==> StartsWith(r.value, "http")
    ensures r.Some? && !StartsWith(path.value, "http") ==> StartsWith(r.value, ApiOrigin + "/")
    ensures Truthy(path) && StartsWith(path.value, "http") ==> r == path
    ensures Truthy(path) && !StartsWith(path.value, "http") && StartsWith(path.value, "/") ==>
              r == Some(ApiOrigin + path.value)
    ensures Truthy(path) && !StartsWith(path.value, "http") && !StartsWith(path.value, "/") ==>
              r == Some(ApiOrigin + "/uploads/" + LastSegment(path.value, {'/', '\\'}))
  {
    if !Truthy(path) then None
    else if StartsWith(path.value, "http") then path
    else if StartsWith(path.value, "/") then
      assert (ApiOrigin + path.value)[..|ApiOrigin| + 1] == ApiOrigin + path.value[..1];
      Some(ApiOrigin + path.value)
    else
      var name := LastSegment(path.value, {'/', '\\'});
      assert (ApiOrigin + "/uploads/" + name)[..|ApiOrigin| + 1] == ApiOrigin + "/";
      Some(ApiOrigin + "/uploads/" + name)
  }

  /** A resolved URL resolves to itself. */
  lemma ResolveIdempotent(path: Option<string>)
    ensures ResolveImageUrl(ResolveImageUrl(path)) == ResolveImageUrl(path)
  {
  }

  /** A reference `/uploads/<f>` as the server stores it becomes
      `http://localhost:4000/uploads/<f>`. */
  lemma ResolveUploadsReference(f: string)
    ensures ResolveImageUrl(Some("/uploads/" + f)) == Some(ApiOrigin + "/uploads/" + f)
  {
    assert !StartsWith("/uploads/" + f, "http") by {
      assert ("/uploads/" + f)[0] == '/';
    }
    assert StartsWith("/uploads/" + f, "/");
    assert ApiOrigin + ("/uploads/" + f) == ApiOrigin + "/uploads/" + f;
  }

  /** Any other relative path, POSIX or Windows style, is reduced to its
      file name under `/uploads/`. */
  lemma ResolveRelativePath(dir: string, sep: char, name: string)
    requires sep == '/' || sep == '\\'
    requires Free(name, {'/', '\\'})
    requires dir != [] && dir[0] != '/' && !StartsWith(dir, "http")
    ensures ResolveImageUrl(Some(dir + [sep] + name)) == Some(ApiOrigin + "/uploads/" + name)
  {
    var p := dir + [sep] + name;
    assert p[0] == dir[0];
    if |dir| >= 4 {
      assert p[..4] == dir[..4];
    } else {
      assert p[|dir|] == sep && "http"[|dir|] != sep;
    }
    LastSegmentAfter(dir, sep, name, {'/', '\\'});
  }

  // ---------------------------------------------------------------------
  // the form and the request it sends
  // ---------------------------------------------------------------------

  /** A form value: what the inputs hold (text), or what `handleEdit`
      copied from an item (a number, or null). */
  datatype FormValue = Text(s: string) | Number(n: int) | Null

  datatype Form = Form(
    userName: FormValue,
    age: FormValue,
    contact: FormValue,
    drugName: FormValue,
    medicineType: FormValue)

  const EmptyForm := Form(Text(""), Text(""), Text(""), Text(""), Text(""))

  /** A file the user picked. */
  datatype FileRef = FileRef(name: string)

  datatype Files = Files(profileImage: Option<FileRef>, documentProof: Option<FileRef>)

  const NoFiles := Files(None, None)

  datatype Previews = Previews(profileImage: Option<string>, documentProof: Option<string>)

  const NoPreviews := Previews(None, None)

  /** One entry of a `FormData`. */
  datatype Part = Field(name: string, value: string) | Attachment(name: string, file: FileRef)

  /** The call `handleSubmit` makes, relative to `http://localhost:4000/api`. */
  datatype Request = Post(path: string, parts: seq<Part>) | Put(path: string, parts: seq<Part>)

  /** The string `FormData.append` stores for a value. */
  function FormString(v: FormValue): string {
    match v
    case Text(s) => s
    case Number(n) => IntString(n)
    case Null => "null"
  }

  /** `Object.entries(form)`, in the order the keys were written. */
  function Entries(form: Form): seq<(string, FormValue)> {
    [("userName", form.userName), ("age", form.age), ("contact", form.contact),
     ("drugName", form.drugName), ("medicineType", form.medicineType)]
  }

  function FieldParts(entries: seq<(string, FormValue)>): seq<Part> {
    seq(|entries|, k requires 0 <= k < |entries| => Field(entries[k].0, FormString(entries[k].1)))
  }

  /** The file entries: one per picked file, the image first. */
  function FileParts(file: Files): seq<Part> {
    (if file.profileImage.Some? then [Attachment("profileImage", file.profileImage.value)] else [])
    + (if file.documentProof.Some? then [Attachment("documentProof", file.documentProof.value)] else [])
  }

  /** The body `handleSubmit` builds: the five fields, then the picked files. */
  function FormDataParts(form: Form, file: Files): seq<Part> {
    FieldParts(Entries(form)) + FileParts(file)
  }

  /** The body carries all five fields with their values, and a file entry
      for a field exactly when a file was picked for it. */
  lemma FormDataContents(form: Form, file: Files)
    ensures var parts := FormDataParts(form, file);
            |parts| >= 5 && parts[5..] == FileParts(file) &&
            (forall k :: 5 <= k < |parts| ==> parts[k].Attachment?) &&
            (forall k :: 0 <= k < 5 ==> parts[k] == Field(Entries(form)[k].0, FormString(Entries(form)[k].1))) &&
            (forall f :: Attachment("profileImage", f) in parts <==> file.profileImage == Some(f)) &&
            (forall f :: Attachment("documentProof", f) in parts <==> file.documentProof == Some(f))
  {
    var parts := FormDataParts(form, file);
    forall f ensures Attachment("profileImage", f) in parts <==> file.profileImage == Some(f) {
      assert Attachment("profileImage", f) !in FieldParts(Entries(form));
    }
    forall f ensures Attachment("documentProof", f) in parts <==> file.documentProof == Some(f) {
      assert Attachment("documentProof", f) !in FieldParts(Entries(form));
    }
  }

  /** The `new FormData()` / `forEach(append)` loop of `handleSubmit`. */
  method BuildFormData(form: Form, file: Files) returns (parts: seq<Part>)
    ensures parts == FormDataParts(form, file)
  {
    var entries := Entries(form);
    parts := [];
    var i := 0;
    while i < |entries|
      invariant 0 <= i <= |entries|
      invariant parts == FieldParts(entries[..i])
    {
      parts := parts + [Field(entries[i].0, FormString(entries[i].1))];
      i := i + 1;
    }
    assert entries[..i] == entries;
    if file.profileImage.Some? {
      parts := parts + [Attachment("profileImage", file.profileImage.value)];
    }
    if file.documentProof.Some? {
      parts := parts + [Attachment("documentProof", file.documentProof.value)];
    }
  }

  /** `editId` is truthy: set, and not 0. */
  predicate Editing(editId: Option<int>) {
    editId.Some? && editId.value != 0
  }

  /** The request of a submit: a PUT to `/medicine/<editId>` while editing,
      a POST to `/medicine` otherwise, with the form body either way. */
  function SubmitRequest(form: Form, file: Files, editId: Option<int>): (r: Request)
    ensures r.Put? <==> Editing(editId)
    ensures r.parts == FormDataParts(form, file)
  {
    if Editing(editId) then Put("/medicine/" + IntString(editId.value), FormDataParts(form, file))
    else Post("/medicine", FormDataParts(form, file))
  }

  function TextOf(v: Option<string>): FormValue {
    if v.Some? then Text(v.value) else Null
  }

  function NumberOf(v: Option<int>): FormValue {
    if v.Some? then Number(v.value) else Null
  }

  /** The form `handleEdit` fills from an item: its five scalar fields. */
  function FormOf(item: Item): (f: Form)
    ensures FormString(f.userName) == if item.userName.Some? then item.userName.value else "null"
    ensures FormString(f.age) == if item.age.Some? then IntString(item.age.value) else "null"
    ensures FormString(f.contact) == if item.contact.Some? then item.contact.value else "null"
    ensures FormString(f.drugName) == if item.drugName.Some? then item.drugName.value else "null"
    ensures FormString(f.medicineType) == if item.medicineType.Some? then item.medicineType.value else "null"
  {
    Form(TextOf(item.userName), NumberOf(item.age), TextOf(item.contact),
         TextOf(item.drugName), TextOf(item.medicineType))
  }

  // ---------------------------------------------------------------------
  // the component state
  // ---------------------------------------------------------------------

  class MedicinePage {
    var form: Form
    var file: Files
    var preview: Previews
    var items: seq<Item>
    var search: string
    var editId: Option<int>
    var showForm: bool
    var loading: bool

    /** The state a save and a cancel both return to. */
    ghost predicate Cleared()
      reads this
    {
      form == EmptyForm && file == NoFiles && preview == NoPreviews && editId.None? && !showForm
    }

    constructor ()
      ensures Cleared() && items == [] && search == "" && !loading
    {
      form := EmptyForm;
      file := NoFiles;
      preview := NoPreviews;
      items := [];
      search := "";
      editId := None;
      showForm := false;
      loading := false;
    }

    /** `filtered`: what the table shows. */
    function Shown(): (r: seq<Item>)
      reads this
      ensures |r| <= |items|
      ensures forall x :: x in r <==> x in items && Matches(x, search)
    {
      Filter(items, search)
    }

    /** `load`: the items fetched replace the list; a failed fetch leaves it. */
    method Load(fetched: Option<seq<Item>>)
      modifies this
      ensures items == if fetched.Some? then fetched.value else old(items)
      ensures form == old(form) && file == old(file) && preview == old(preview) && search == old(search)
      ensures editId == old(editId) && showForm == old(showForm) && loading == old(loading)
    {
      if fetched.Some? {
        items := fetched.value;
      }
    }

    /** The five resets shared by a successful save and `handleCancel`. */
    method Reset()
      modifies this
      ensures Cleared()
      ensures items == old(items) && search == old(search) && loading == old(loading)
    {
      form := EmptyForm;
      file := NoFiles;
      preview := NoPreviews;
      editId := None;
      showForm := false;
    }

    /** `handleEdit`: the form takes the item's five scalar fields, the
        item's id becomes `editId` and the form opens; the picked files and
        their previews are left as they were. */
    method HandleEdit(item: Item)
      modifies this
      ensures form == FormOf(item) && editId == Some(item.id) && showForm
      ensures file == old(file) && preview == old(preview)
      ensures items == old(items) && search == old(search) && loading == old(loading)
    {
      form := FormOf(item);
      editId := Some(item.id);
      showForm := true;
    }

    /** `handleCancel`. */
    method HandleCancel()
      modifies this
      ensures Cleared()
      ensures items == old(items) && search == old(search) && loading == old(loading)
    {
      Reset();
    }

    /** `handleSubmit`: sends the form body as a PUT while editing and as a
        POST otherwise; when the call succeeds (`saved`) the state is
        cleared, when it fails the state is kept for another try; either
        way `loading` ends false. Reloading the list afterwards is `Load`. */
    method HandleSubmit(saved: bool) returns (req: Request)
      modifies this
      ensures req == SubmitRequest(old(form), old(file), old(editId))
      ensures req.Put? ==> req.path == "/medicine/" + IntString(old(editId).value)
      ensures req.Post? ==> req.path == "/medicine"
      ensures !loading
      ensures saved ==> Cleared()
      ensures !saved ==> form == old(form) && file == old(file) && preview == old(preview) &&
                         editId == old(editId) && showForm == old(showForm)
      ensures items == old(items) && search == old(search)
    {
      loading := true;
      var parts := BuildFormData(form, file);
      if Editing(editId) {
        req := Put("/medicine/" + IntString(editId.value), parts);
      } else {
        req := Post("/medicine", parts);
      }
      if saved {
        Reset();
      }
      loading := false;
    }
  }
}
