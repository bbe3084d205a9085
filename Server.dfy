/** The handlers of `backend/server.js` over an in-memory store: a user
    table keyed by username, a medicine table keyed by integer id, each with
    an auto-increment counter. The clock, bcrypt's salt and the store's own
    failures are parameters. */
module Server {
  import opened Wrappers
  import opened JsText
  import opened NodePath
  import opened Crypto
  import opened Gate
  import opened Uploads

  // ---------------------------------------------------------------------
  // records, requests, responses
  // ---------------------------------------------------------------------

  /** A user row; `password` holds the bcrypt hash. */
  datatype User = User(id: int, username: string, password: string)

  /** A medicine row; `age` is whatever `parseInt` gave. */
  datatype MedicineItem = MedicineItem(
    id: int,
    userName: string,
    age: Number,
    contact: string,
    drugName: string,
    medicineType: string,
    profileImage: Option<string>,
    documentProof: Option<string>)

  /** The text fields of a multipart body (`req.body`); a field the client
      did not send is None. */
  datatype MedicineFields = MedicineFields(
    userName: Option<string>,
    age: Option<string>,
    contact: Option<string>,
    drugName: Option<string>,
    medicineType: Option<string>)

  /** `req.files[name]?.[0]?.path` for the two upload fields. */
  datatype UploadedPaths = UploadedPaths(profileImage: Option<string>, documentProof: Option<string>)

  const NoUploads := UploadedPaths(None, None)

  datatype Body =
    | UserCreated(user: User)           // { success: true, user }
    | TokenIssued(token: string)        // { success: true, token }
    | ItemSaved(item: MedicineItem)     // { success: true, item }
    | ItemList(items: seq<MedicineItem>)
    | Deleted                           // { success: true }
    | Refused(error: string)            // { success: false, error }
    | Denied(error: string)             // the gate's { error }
    | Thrown                            // { success: false, error: err.message }

  datatype Response = Response(status: nat, body: Body)

  const InvalidCredentials := Response(401, Refused("Invalid credentials"))
  const ServerError := Response(500, Thrown)

  /** The response of a request the gate turned away. */
  function GateResponse(d: Decision): Response
    requires d.Reject?
  {
    Response(401, Denied(d.error))
  }

  /** `parseInt` of a body field; an absent one is `parseInt(undefined)`,
      that is `parseInt("undefined")`. */
  function ParseField(v: Option<string>): Number {
    ParseInt(v.GetOr("undefined"))
  }

  // ---------------------------------------------------------------------
  // the record rules of create and update
  // ---------------------------------------------------------------------

  /** Both attachment references are None or a public `/uploads/` path. */
  predicate PublicAttachments(item: MedicineItem) {
    (item.profileImage.Some? ==> IsPublicPath(item.profileImage.value)) &&
    (item.documentProof.Some? ==> IsPublicPath(item.documentProof.value))
  }

  /** The row `POST /api/medicine` asks the store to create: None when a
      required text field is missing (the store refuses it); otherwise the
      fields as sent, `age` parsed, and each attachment the public path of
      its upload, or None without one. */
  function NewItem(id: int, fields: MedicineFields, paths: UploadedPaths): (r: Option<MedicineItem>)
    ensures r.Some? <==>
              fields.userName.Some? && fields.contact.Some? &&
              fields.drugName.Some? && fields.medicineType.Some?
    ensures r.Some? ==>
              r.value.id == id && r.value.age == ParseField(fields.age) &&
              r.value.userName == fields.userName.value && r.value.contact == fields.contact.value &&
              r.value.drugName == fields.drugName.value && r.value.medicineType == fields.medicineType.value
    ensures r.Some? ==> PublicAttachments(r.value)
    ensures r.Some? ==> r.value.profileImage == ToPublicPath(paths.profileImage) &&
                        r.value.documentProof == ToPublicPath(paths.documentProof)
    ensures r.Some? ==> (r.value.profileImage.None? <==> !Truthy(paths.profileImage))
    ensures r.Some? ==> (r.value.documentProof.None? <==> !Truthy(paths.documentProof))
  {
    if fields.userName.None? || fields.contact.None? || fields.drugName.None? || fields.medicineType.None? then None
    else
      Some(MedicineItem(id, fields.userName.value, ParseField(fields.age), fields.contact.value,
                        fields.drugName.value, fields.medicineType.value,
                        ToPublicPath(paths.profileImage), ToPublicPath(paths.documentProof)))
  }

  /** The row after `PUT /api/medicine/:id`: each text field sent replaces
      the stored one (an absent field is `undefined`, which the store leaves
      alone), `age` is always rewritten, and an attachment changes only when
      a file came with the request. */
  function Patch(item: MedicineItem, fields: MedicineFields, paths: UploadedPaths): (r: MedicineItem)
    ensures r.id == item.id && r.age == ParseField(fields.age)
    ensures r.userName == fields.userName.GetOr(item.userName)
    ensures r.contact == fields.contact.GetOr(item.contact)
    ensures r.drugName == fields.drugName.GetOr(item.drugName)
    ensures r.medicineType == fields.medicineType.GetOr(item.medicineType)
    ensures !Truthy(paths.profileImage) ==> r.profileImage == item.profileImage
    ensures !Truthy(paths.documentProof) ==> r.documentProof == item.documentProof
    ensures Truthy(paths.profileImage) ==> r.profileImage.Some? && IsPublicPath(r.profileImage.value)
    ensures Truthy(paths.documentProof) ==> r.documentProof.Some? && IsPublicPath(r.documentProof.value)
    ensures Truthy(paths.profileImage) ==> r.profileImage == ToPublicPath(paths.profileImage)
    ensures Truthy(paths.documentProof) ==> r.documentProof == ToPublicPath(paths.documentProof)
  {
    var profileImage := ToPublicPath(paths.profileImage);
    var documentProof := ToPublicPath(paths.documentProof);
    item.(userName := fields.userName.GetOr(item.userName),
          age := ParseField(fields.age),
          contact := fields.contact.GetOr(item.contact),
          drugName := fields.drugName.GetOr(item.drugName),
          medicineType := fields.medicineType.GetOr(item.medicineType),
          profileImage := if profileImage.Some? then profileImage else item.profileImage,
          documentProof := if documentProof.Some? then documentProof else item.documentProof)
  }

  /** An update that brings no file leaves both attachment references as
      they were. */
  lemma PatchWithoutFilesKeepsAttachments(item: MedicineItem, fields: MedicineFields)
    ensures Patch(item, fields, NoUploads).profileImage == item.profileImage
    ensures Patch(item, fields, NoUploads).documentProof == item.documentProof
  {
  }

  /** Applying the same update twice is applying it once. */
  lemma PatchIdempotent(item: MedicineItem, fields: MedicineFields, paths: UploadedPaths)
    ensures Patch(Patch(item, fields, paths), fields, paths) == Patch(item, fields, paths)
  {
  }

  /** Update keeps every reference public. */
  lemma PatchKeepsPublicAttachments(item: MedicineItem, fields: MedicineFields, paths: UploadedPaths)
    requires PublicAttachments(item)
    ensures PublicAttachments(Patch(item, fields, paths))
  {
  }

  /** An update that sends every field and both files gives the row a
      create with the same request would have made. */
  lemma FullPatchIsCreate(item: MedicineItem, fields: MedicineFields, paths: UploadedPaths)
    requires fields.userName.Some? && fields.contact.Some? && fields.drugName.Some? && fields.medicineType.Some?
    requires Truthy(paths.profileImage) && Truthy(paths.documentProof)
    ensures NewItem(item.id, fields, paths) == Some(Patch(item, fields, paths))
  {
  }

  // ---------------------------------------------------------------------
  // listing
  // ---------------------------------------------------------------------

  /** The rows whose ids lie in [lo, hi), in ascending id order (the store's
      row order, ids being handed out in increasing order). */
  function Rows(m: map<int, MedicineItem>, lo: int, hi: int): seq<MedicineItem>
    decreases hi - lo
  {
    if lo >= hi then []
    else (if lo in m then [m[lo]] else []) + Rows(m, lo + 1, hi)
  }

  /** The rows of [lo, hi) are exactly the table's rows with ids in that
      range, each as stored, in strictly ascending id order. */
  lemma {:induction false} RowsExact(m: map<int, MedicineItem>, lo: int, hi: int)
    requires forall k :: k in m ==> m[k].id == k
    ensures forall i :: 0 <= i < |Rows(m, lo, hi)| ==>
              Rows(m, lo, hi)[i].id in m && m[Rows(m, lo, hi)[i].id] == Rows(m, lo, hi)[i] &&
              lo <= Rows(m, lo, hi)[i].id < hi
    ensures forall i, j :: 0 <= i < j < |Rows(m, lo, hi)| ==> Rows(m, lo, hi)[i].id < Rows(m, lo, hi)[j].id
    ensures forall k :: k in m && lo <= k < hi ==> m[k] in Rows(m, lo, hi)
    decreases hi - lo
  {
    if lo < hi {
      RowsExact(m, lo + 1, hi);
      var rest := Rows(m, lo + 1, hi);
      var head := if lo in m then [m[lo]] else [];
      var r := head + rest;
      assert Rows(m, lo, hi) == r;
      assert forall i :: 0 <= i < |head| ==> r[i] == m[lo] && m[lo].id == lo;
      assert forall i :: |head| <= i < |r| ==> r[i] == rest[i - |head|];
      assert forall k :: k in m && lo + 1 <= k < hi ==> m[k] in rest;
    }
  }

  /** A row added under a fresh, largest id shows up last. */
  lemma {:induction false} RowsAppend(m: map<int, MedicineItem>, item: MedicineItem, lo: int, n: int)
    requires forall k :: k in m ==> m[k].id == k && k < n
    requires item.id == n && lo <= n
    ensures Rows(m[n := item], lo, n + 1) == Rows(m, lo, n) + [item]
    decreases n - lo
  {
    if lo < n {
      RowsAppend(m, item, lo + 1, n);
    }
  }

  // ---------------------------------------------------------------------
  // the server
  // ---------------------------------------------------------------------

  class Server {
    const bcrypt: Bcrypt
    const jwt: Jwt

    /** The user table, keyed by username. */
    var users: map<string, User>
    var nextUserId: int
    /** The medicine table, keyed by id. */
    var medicines: map<int, MedicineItem>
    var nextMedicineId: int

    /** Every key matches its row; ids are positive, below their counter and
        distinct; every attachment reference is a public path. */
    ghost predicate Valid()
      reads this
    {
      && 1 <= nextUserId && 1 <= nextMedicineId
      && (forall u :: u in users ==> users[u].username == u && 1 <= users[u].id < nextUserId)
      && (forall u, v :: u in users && v in users && u != v ==> users[u].id != users[v].id)
      && (forall k :: k in medicines ==> medicines[k].id == k && 1 <= k < nextMedicineId)
      && (forall k :: k in medicines ==> PublicAttachments(medicines[k]))
    }

    constructor (bcrypt: Bcrypt, jwt: Jwt)
      ensures Valid()
      ensures this.bcrypt == bcrypt && this.jwt == jwt
      ensures users == map[] && medicines == map[]
      ensures nextUserId == 1 && nextMedicineId == 1
    {
      this.bcrypt := bcrypt;
      this.jwt := jwt;
      users := map[];
      nextUserId := 1;
      medicines := map[];
      nextMedicineId := 1;
    }

    /** `POST /api/register`: stores the bcrypt hash of the password under
        the username. A missing username or password, a username already
        taken, or any other store failure is a 500 and adds nobody. */
    method Register(username: Option<string>, password: Option<string>, salt: nat, storeFails: bool)
      returns (resp: Response)
      requires Valid()
      modifies this
      ensures Valid()
      ensures medicines == old(medicines) && nextMedicineId == old(nextMedicineId)
      ensures var created := username.Some? && password.Some? && username.value !in old(users) && !storeFails;
              if created then
                var user := User(old(nextUserId), username.value, bcrypt.hash(password.value, SaltRounds, salt));
                && users == old(users)[username.value := user]
                && nextUserId == old(nextUserId) + 1
                && resp == Response(200, UserCreated(user))
              else
                users == old(users) && nextUserId == old(nextUserId) && resp == ServerError
    {
      if password.None? {
        resp := ServerError;   // bcrypt.hash(undefined, 10) throws
        return;
      }
      var hashed := bcrypt.hash(password.value, SaltRounds, salt);
      if username.None? || username.value in users || storeFails {
        resp := ServerError;   // the store rejects the row
        return;
      }
      var user := User(nextUserId, username.value, hashed);
      users := users[username.value := user];
      nextUserId := nextUserId + 1;
      resp := Response(200, UserCreated(user));
    }

    /** `POST /api/login`: a token over the user's id when the password
        matches the stored hash; the same 401 for an unknown username and for
        a wrong password. An absent username or password makes a library
        call throw: 500. */
    function Login(username: Option<string>, password: Option<string>, nowMs: nat): (r: Response)
      reads this
      ensures r.status == 200 <==>
                username.Some? && username.value in users && password.Some? &&
                bcrypt.compare(password.value, users[username.value].password)
      ensures r.status == 200 ==> r.body == TokenIssued(IssueToken(jwt, users[username.value].id, nowMs))
      ensures username.Some? && username.value !in users ==> r == InvalidCredentials
      ensures (username.Some? && username.value in users && password.Some? &&
               !bcrypt.compare(password.value, users[username.value].password)) ==> r == InvalidCredentials
      ensures r.status != 200 ==> r == InvalidCredentials || r == ServerError
    {
      if username.None? then ServerError
      else if username.value !in users then InvalidCredentials
      else if password.None? then ServerError
      else if !bcrypt.compare(password.value, users[username.value].password) then InvalidCredentials
      else Response(200, TokenIssued(IssueToken(jwt, users[username.value].id, nowMs)))
    }

    /** `GET /api/medicine`: every row, in id order, to any admitted caller;
        the caller's identity is not consulted. */
    function List(authorization: Option<string>, nowMs: nat): (r: Response)
      reads this
      requires Valid()
      ensures Authorize(jwt, authorization, nowMs).Reject? ==> r == GateResponse(Authorize(jwt, authorization, nowMs))
      ensures Authorize(jwt, authorization, nowMs).Admit? ==>
                r.status == 200 && r.body.ItemList? &&
                (forall i :: 0 <= i < |r.body.items| ==>
                   r.body.items[i].id in medicines && medicines[r.body.items[i].id] == r.body.items[i]) &&
                (forall k :: k in medicines ==> medicines[k] in r.body.items) &&
                (forall i, j :: 0 <= i < j < |r.body.items| ==> r.body.items[i].id < r.body.items[j].id)
    {
      var d := Authorize(jwt, authorization, nowMs);
      if d.Reject? then GateResponse(d)
      else
        RowsExact(medicines, 1, nextMedicineId);
        Response(200, ItemList(Rows(medicines, 1, nextMedicineId)))
    }

    /** `POST /api/medicine`: behind the gate, adds the row `NewItem` builds
        under the next id. A request without multipart files, a missing
        required field or a store failure is a 500 and adds nothing. */
    method Create(authorization: Option<string>, nowMs: nat, fields: MedicineFields,
                  files: Option<UploadedPaths>, storeFails: bool)
      returns (resp: Response)
      requires Valid()
      modifies this
      ensures Valid()
      ensures users == old(users) && nextUserId == old(nextUserId)
      ensures var d := Authorize(jwt, authorization, nowMs);
              var item := if files.Some? then NewItem(old(nextMedicineId), fields, files.value) else None;
              if d.Admit? && item.Some? && !storeFails then
                && medicines == old(medicines)[old(nextMedicineId) := item.value]
                && nextMedicineId == old(nextMedicineId) + 1
                && resp == Response(200, ItemSaved(item.value))
              else
                && medicines == old(medicines) && nextMedicineId == old(nextMedicineId)
                && resp == if d.Reject? then GateResponse(d) else ServerError
    {
      var d := Authorize(jwt, authorization, nowMs);
      if d.Reject? {
        resp := GateResponse(d);
        return;
      }
      if files.None? {
        resp := ServerError;   // req.files is undefined: TypeError
        return;
      }
      var item := NewItem(nextMedicineId, fields, files.value);
      if item.None? || storeFails {
        resp := ServerError;
        return;
      }
      medicines := medicines[nextMedicineId := item.value];
      nextMedicineId := nextMedicineId + 1;
      resp := Response(200, ItemSaved(item.value));
    }

    /** `PUT /api/medicine/:id`: behind the gate, replaces the row with
        `Patch` of it. An id that does not parse or names no row, a request
        without multipart files, or a store failure is a 500 and changes
        nothing. */
    method Update(authorization: Option<string>, nowMs: nat, idParam: string, fields: MedicineFields,
                  files: Option<UploadedPaths>, storeFails: bool)
      returns (resp: Response)
      requires Valid()
      modifies this
      ensures Valid()
      ensures users == old(users) && nextUserId == old(nextUserId) && nextMedicineId == old(nextMedicineId)
      ensures var d := Authorize(jwt, authorization, nowMs);
              var id := ParseInt(idParam);
              if d.Admit? && files.Some? && id.Int? && id.value in old(medicines) && !storeFails then
                var item := Patch(old(medicines)[id.value], fields, files.value);
                medicines == old(medicines)[id.value := item] && resp == Response(200, ItemSaved(item))
              else
                medicines == old(medicines) && resp == if d.Reject? then GateResponse(d) else ServerError
    {
      var d := Authorize(jwt, authorization, nowMs);
      if d.Reject? {
        resp := GateResponse(d);
        return;
      }
      if files.None? {
        resp := ServerError;
        return;
      }
      var id := ParseInt(idParam);
      if id.NaN? || id.value !in medicines || storeFails {
        resp := ServerError;   // the store finds no such row
        return;
      }
      var item := Patch(medicines[id.value], fields, files.value);
      medicines := medicines[id.value := item];
      resp := Response(200, ItemSaved(item));
    }

    /** `DELETE /api/medicine/:id`: behind the gate, removes exactly that
        row; an id that does not parse or names no row, or a store failure,
        is a 500 and removes nothing. */
    method Delete(authorization: Option<string>, nowMs: nat, idParam: string, storeFails: bool)
      returns (resp: Response)
      requires Valid()
      modifies this
      ensures Valid()
      ensures users == old(users) && nextUserId == old(nextUserId) && nextMedicineId == old(nextMedicineId)
      ensures var d := Authorize(jwt, authorization, nowMs);
              var id := ParseInt(idParam);
              if d.Admit? && id.Int? && id.value in old(medicines) && !storeFails then
                medicines == old(medicines) - {id.value} && resp == Response(200, Deleted)
              else
                medicines == old(medicines) && resp == if d.Reject? then GateResponse(d) else ServerError
    {
      var d := Authorize(jwt, authorization, nowMs);
      if d.Reject? {
        resp := GateResponse(d);
        return;
      }
      var id := ParseInt(idParam);
      if id.NaN? || id.value !in medicines || storeFails {
        resp := ServerError;
        return;
      }
      medicines := medicines - {id.value};
      resp := Response(200, Deleted);
    }
  }

  // ---------------------------------------------------------------------
  // properties across requests
  // ---------------------------------------------------------------------

  /** An unknown username and a wrong password are indistinguishable to the
      client. */
  lemma LoginFailuresAlike(s: Server, unknown: string, known: string, p1: string, p2: string, t1: nat, t2: nat)
    requires unknown !in s.users && known in s.users
    requires !s.bcrypt.compare(p2, s.users[known].password)
    ensures s.Login(Some(unknown), Some(p1), t1) == s.Login(Some(known), Some(p2), t2)
  {
  }

  /** The password a user registered with logs them in, and the token they
      get passes the gate as that user's id until it expires. */
  lemma {:induction false} RegisteredUserLogsIn(s: Server, username: string, password: string, salt: nat,
                                                loginMs: nat, laterMs: nat)
    requires BcryptSound(s.bcrypt) && JwtSound(s.jwt)
    requires username in s.users
    requires s.users[username].password == s.bcrypt.hash(password, SaltRounds, salt)
    requires loginMs <= laterMs < (loginMs / 1000 + TokenLifetime) * 1000
    ensures var r := s.Login(Some(username), Some(password), loginMs);
            r.status == 200 && r.body.TokenIssued? &&
            var d := Authorize(s.jwt, Some("Bearer " + r.body.token), laterMs);
            d.Admit? && d.user.userId == s.users[username].id
  {
    TokenLifetimeAtGate(s.jwt, s.users[username].id, loginMs, laterMs);
  }

  /** The list does not depend on who asks: any two admitted callers see
      the same rows. */
  lemma ListIgnoresCaller(s: Server, h1: Option<string>, h2: Option<string>, nowMs: nat)
    requires s.Valid()
    requires Authorize(s.jwt, h1, nowMs).Admit? && Authorize(s.jwt, h2, nowMs).Admit?
    ensures s.List(h1, nowMs) == s.List(h2, nowMs)
  {
  }

  /** After a create, the list is the previous list with the new row at
      its end. */
  lemma ListAfterCreate(m: map<int, MedicineItem>, next: int, item: MedicineItem)
    requires 1 <= next && item.id == next
    requires forall k :: k in m ==> m[k].id == k && 1 <= k < next
    ensures Rows(m[next := item], 1, next + 1) == Rows(m, 1, next) + [item]
  {
    RowsAppend(m, item, 1, next);
  }

  /** `rows` without the row of id `id`, in the same order. */
  function WithoutId(rows: seq<MedicineItem>, id: int): seq<MedicineItem>
    decreases |rows|
  {
    if rows == [] then [] else (if rows[0].id == id then [] else [rows[0]]) + WithoutId(rows[1..], id)
  }

  lemma {:induction false} WithoutIdAppend(a: seq<MedicineItem>, b: seq<MedicineItem>, id: int)
    ensures WithoutId(a + b, id) == WithoutId(a, id) + WithoutId(b, id)
    decreases |a|
  {
    if a != [] {
      assert (a + b)[1..] == a[1..] + b;
      WithoutIdAppend(a[1..], b, id);
    } else {
      assert a + b == b;
    }
  }

  /** Deleting a row removes it from the list and keeps the order of the
      others. */
  lemma {:induction false} ListAfterDelete(m: map<int, MedicineItem>, id: int, lo: int, hi: int)
    requires forall k :: k in m ==> m[k].id == k
    ensures Rows(m - {id}, lo, hi) == WithoutId(Rows(m, lo, hi), id)
    decreases hi - lo
  {
    if lo < hi {
      var m' := m - {id};
      ListAfterDelete(m, id, lo + 1, hi);
      var rest := Rows(m, lo + 1, hi);
      var head := if lo in m then [m[lo]] else [];
      var head' := if lo in m' then [m'[lo]] else [];
      WithoutIdAppend(head, rest, id);
      assert WithoutId(head, id) == head' by {
        if lo in m {
          WithoutIdSingle(m[lo], id);
        }
      }
      RowsUnfold(m, lo, hi);
      RowsUnfold(m', lo, hi);
    }
  }

  lemma RowsUnfold(m: map<int, MedicineItem>, lo: int, hi: int)
    requires lo < hi
    ensures Rows(m, lo, hi) == (if lo in m then [m[lo]] else []) + Rows(m, lo + 1, hi)
  {
  }

  lemma WithoutIdSingle(x: MedicineItem, id: int)
    ensures WithoutId([x], id) == if x.id == id then [] else [x]
  {
    assert [x][1..] == [];
  }

  /** `rows` with the row of id `item.id` replaced by `item`. */
  function WithRow(rows: seq<MedicineItem>, item: MedicineItem): seq<MedicineItem>
    decreases |rows|
  {
    if rows == [] then [] else [if rows[0].id == item.id then item else rows[0]] + WithRow(rows[1..], item)
  }

  lemma {:induction false} WithRowAppend(a: seq<MedicineItem>, b: seq<MedicineItem>, item: MedicineItem)
    ensures WithRow(a + b, item) == WithRow(a, item) + WithRow(b, item)
    decreases |a|
  {
    if a != [] {
      assert (a + b)[1..] == a[1..] + b;
      WithRowAppend(a[1..], b, item);
    } else {
      assert a + b == b;
    }
  }

  /** Updating a row changes it where it stands in the list; the list keeps
      its length and its order. */
  lemma {:induction false} ListAfterUpdate(m: map<int, MedicineItem>, item: MedicineItem, lo: int, hi: int)
    requires forall k :: k in m ==> m[k].id == k
    requires item.id in m
    ensures Rows(m[item.id := item], lo, hi) == WithRow(Rows(m, lo, hi), item)
    decreases hi - lo
  {
    if lo < hi {
      var m' := m[item.id := item];
      ListAfterUpdate(m, item, lo + 1, hi);
      var head := if lo in m then [m[lo]] else [];
      var head' := if lo in m' then [m'[lo]] else [];
      assert Rows(m, lo, hi) == head + Rows(m, lo + 1, hi);
      assert Rows(m', lo, hi) == head' + Rows(m', lo + 1, hi);
      WithRowAppend(head, Rows(m, lo + 1, hi), item);
      assert WithRow(head, item) == head' by {
        if lo in m {
          assert WithRow(head, item) == [if m[lo].id == item.id then item else m[lo]] + WithRow([], item);
        }
      }
    }
  }
}
