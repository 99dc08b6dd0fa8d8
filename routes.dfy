/** The router: the method+path table, the schema the create body is checked
    against before `create` runs (every violation reported, not only the
    first), and the request handling that ties these to the controller. */
module Routes {
  import opened Wrappers
  import opened Seqs
  import opened JsText
  import opened PointsController

  // ------------------------------------------------------------ validation

  /** One key of the body schema: a required, non-empty string, optionally an
      email address, optionally with a maximum length. */
  datatype Rule = Rule(key: string, email: bool, max: Option<nat>)

  /** The schema of `POST /points`, in declaration order. */
  const CreateSchema: seq<Rule> := [
    Rule("name", false, None),
    Rule("email", true, None),
    Rule("whatsapp", false, None),
    Rule("latitude", false, None),
    Rule("longitude", false, None),
    Rule("city", false, None),
    Rule("uf", false, Some(2)),
    Rule("items", false, None)
  ]

  function SchemaKeys(schema: seq<Rule>): (keys: set<string>)
    ensures forall k :: 0 <= k < |schema| ==> schema[k].key in keys
    ensures forall key :: key in keys ==> exists k :: 0 <= k < |schema| && schema[k].key == key
  {
    set k | 0 <= k < |schema| :: schema[k].key
  }

  /** A violation, naming the key it is about. */
  datatype FieldError =
    | Required(field: string)              // the key is absent
    | Empty(field: string)                 // the value is the empty string
    | InvalidEmail(field: string)          // the value is not an email address
    | TooLong(field: string, limit: nat)   // the value is longer than the maximum
    | NotAllowed(field: string)            // the key is not in the schema

  /** The checks of one key, in the order the validator applies them; the
      first failing check is that key's error. */
  function Check(body: map<string, string>, rule: Rule, isEmail: string -> bool): (e: Option<FieldError>)
    ensures e.Some? ==> e.value.field == rule.key
    ensures e.None? <==> rule.key in body && body[rule.key] != ""
                         && (rule.email ==> isEmail(body[rule.key]))
                         && (rule.max.Some? ==> Utf16Length(body[rule.key]) <= rule.max.value)
  {
    if rule.key !in body then Some(Required(rule.key))
    else if body[rule.key] == "" then Some(Empty(rule.key))
    else if rule.email && !isEmail(body[rule.key]) then Some(InvalidEmail(rule.key))
    else if rule.max.Some? && Utf16Length(body[rule.key]) > rule.max.value then Some(TooLong(rule.key, rule.max.value))
    else None
  }

  /** No key is declared twice. */
  predicate DistinctKeys(schema: seq<Rule>)
  {
    forall i, j :: 0 <= i < j < |schema| ==> schema[i].key != schema[j].key
  }

  /** The errors of every key of the schema, in schema order. */
  function SchemaErrors(body: map<string, string>, schema: seq<Rule>, isEmail: string -> bool): (errors: seq<FieldError>)
    ensures |errors| <= |schema|
    ensures DistinctKeys(schema) ==> NoDup(errors)
    ensures forall k :: 0 <= k < |schema| && Check(body, schema[k], isEmail).Some?
                        ==> Check(body, schema[k], isEmail).value in errors
    ensures forall e :: e in errors ==> exists k :: 0 <= k < |schema| && Check(body, schema[k], isEmail) == Some(e)
  {
    if |schema| == 0 then []
    else
      var rest := SchemaErrors(body, schema[1..], isEmail);
      assert forall k :: 1 <= k < |schema| ==> schema[k] == schema[1..][k - 1];
      assert DistinctKeys(schema) ==> DistinctKeys(schema[1..]);
      match Check(body, schema[0], isEmail)
      case Some(e) =>
        assert DistinctKeys(schema) ==> forall x :: x in rest ==> x.field != schema[0].key;
        [e] + rest
      case None => rest
  }

  /** The outcome of validation: the per-key errors, and the keys the schema does not allow. */
  datatype Validation = Validation(errors: seq<FieldError>, unknown: set<string>) {
    predicate Accepted() { errors == [] && unknown == {} }
  }

  /** The body carries every key `create` reads. */
  predicate HasAllFields(body: map<string, string>)
  {
    "name" in body && "email" in body && "whatsapp" in body && "latitude" in body
    && "longitude" in body && "city" in body && "uf" in body && "items" in body
  }

  /** The validator with all violations collected (it does not stop at the first). */
  function Validate(body: map<string, string>, isEmail: string -> bool): (v: Validation)
    ensures forall k :: 0 <= k < |CreateSchema| && Check(body, CreateSchema[k], isEmail).Some?
                        ==> Check(body, CreateSchema[k], isEmail).value in v.errors
    ensures forall e :: e in v.errors ==> exists k :: 0 <= k < |CreateSchema| && Check(body, CreateSchema[k], isEmail) == Some(e)
    ensures NoDup(v.errors)
    ensures v.unknown == body.Keys - SchemaKeys(CreateSchema)
    ensures v.errors == [] ==> HasAllFields(body)
  {
    assert DistinctKeys(CreateSchema);
    var errors := SchemaErrors(body, CreateSchema, isEmail);
    if errors == [] then
      NoErrorsHasAllFields(body, isEmail);
      Validation(errors, body.Keys - SchemaKeys(CreateSchema))
    else
      Validation(errors, body.Keys - SchemaKeys(CreateSchema))
  }

  lemma NoErrorsHasAllFields(body: map<string, string>, isEmail: string -> bool)
    requires SchemaErrors(body, CreateSchema, isEmail) == []
    ensures HasAllFields(body)
  {
    assert forall k :: 0 <= k < |CreateSchema| ==> Check(body, CreateSchema[k], isEmail).None?;
    assert Check(body, CreateSchema[0], isEmail).None? && Check(body, CreateSchema[1], isEmail).None?;
    assert Check(body, CreateSchema[2], isEmail).None? && Check(body, CreateSchema[3], isEmail).None?;
    assert Check(body, CreateSchema[4], isEmail).None? && Check(body, CreateSchema[5], isEmail).None?;
    assert Check(body, CreateSchema[6], isEmail).None? && Check(body, CreateSchema[7], isEmail).None?;
  }

  /** A body missing one of the eight keys is rejected with an error naming that key. */
  lemma MissingFieldReported(body: map<string, string>, isEmail: string -> bool, key: string)
    requires key in SchemaKeys(CreateSchema) && key !in body
    ensures Required(key) in Validate(body, isEmail).errors
    ensures !Validate(body, isEmail).Accepted()
  {
    var k :| 0 <= k < |CreateSchema| && CreateSchema[k].key == key;
    assert Check(body, CreateSchema[k], isEmail) == Some(Required(key));
  }

  /** A `uf` longer than two UTF-16 code units is rejected. */
  lemma LongUfReported(body: map<string, string>, isEmail: string -> bool)
    requires "uf" in body && Utf16Length(body["uf"]) > 2
    ensures TooLong("uf", 2) in Validate(body, isEmail).errors
  {
    assert CreateSchema[6] == Rule("uf", false, Some(2));
    assert Check(body, CreateSchema[6], isEmail) == Some(TooLong("uf", 2));
  }

  /** Length is counted in UTF-16 code units: two characters outside the Basic
      Multilingual Plane are four units, too long for `uf`. */
  lemma AstralUfRejected(body: map<string, string>, isEmail: string -> bool)
    requires "uf" in body && |body["uf"]| == 2 && body["uf"][0] as int > 0xFFFF
    ensures TooLong("uf", 2) in Validate(body, isEmail).errors
  {
    var u := body["uf"];
    assert Utf16Length(u) == Utf16Length(u[..1]) + (if u[1] as int > 0xFFFF then 2 else 1);
    assert u[..1][..0] == [];
    assert Utf16Length(u[..1]) == 2;
    LongUfReported(body, isEmail);
  }

  /** A non-empty `email` that the email predicate refuses is rejected. */
  lemma BadEmailReported(body: map<string, string>, isEmail: string -> bool)
    requires "email" in body && body["email"] != "" && !isEmail(body["email"])
    ensures InvalidEmail("email") in Validate(body, isEmail).errors
  {
    assert CreateSchema[1] == Rule("email", true, None);
    assert Check(body, CreateSchema[1], isEmail) == Some(InvalidEmail("email"));
  }

  /** Every key is present and non-empty, `email` is an email address and `uf`
      has at most two UTF-16 code units. */
  predicate Passes(body: map<string, string>, isEmail: string -> bool)
  {
    && HasAllFields(body)
    && body["name"] != "" && body["email"] != "" && body["whatsapp"] != ""
    && body["latitude"] != "" && body["longitude"] != "" && body["city"] != ""
    && body["uf"] != "" && body["items"] != ""
    && isEmail(body["email"]) && Utf16Length(body["uf"]) <= 2
  }

  lemma AllChecksPassIff(body: map<string, string>, isEmail: string -> bool)
    ensures (forall k :: 0 <= k < |CreateSchema| ==> Check(body, CreateSchema[k], isEmail).None?)
            <==> Passes(body, isEmail)
  {
    assert CreateSchema[0] == Rule("name", false, None);
    assert CreateSchema[1] == Rule("email", true, None);
    assert CreateSchema[2] == Rule("whatsapp", false, None);
    assert CreateSchema[3] == Rule("latitude", false, None);
    assert CreateSchema[4] == Rule("longitude", false, None);
    assert CreateSchema[5] == Rule("city", false, None);
    assert CreateSchema[6] == Rule("uf", false, Some(2));
    assert CreateSchema[7] == Rule("items", false, None);
    if Passes(body, isEmail) {
      forall k | 0 <= k < |CreateSchema| ensures Check(body, CreateSchema[k], isEmail).None? {
        assert k == 0 || k == 1 || k == 2 || k == 3 || k == 4 || k == 5 || k == 6 || k == 7;
      }
    }
    if forall k :: 0 <= k < |CreateSchema| ==> Check(body, CreateSchema[k], isEmail).None? {
      assert Check(body, CreateSchema[0], isEmail).None? && Check(body, CreateSchema[1], isEmail).None?;
      assert Check(body, CreateSchema[2], isEmail).None? && Check(body, CreateSchema[3], isEmail).None?;
      assert Check(body, CreateSchema[4], isEmail).None? && Check(body, CreateSchema[5], isEmail).None?;
      assert Check(body, CreateSchema[6], isEmail).None? && Check(body, CreateSchema[7], isEmail).None?;
    }
  }

  lemma NoErrorsIff(body: map<string, string>, isEmail: string -> bool)
    ensures SchemaErrors(body, CreateSchema, isEmail) == []
            <==> forall k :: 0 <= k < |CreateSchema| ==> Check(body, CreateSchema[k], isEmail).None?
  {
    var errors := SchemaErrors(body, CreateSchema, isEmail);
    if errors != [] {
      assert errors[0] in errors;
    }
  }

  lemma NoUnknownIff(body: map<string, string>)
    ensures body.Keys - SchemaKeys(CreateSchema) == {} <==> body.Keys <= SchemaKeys(CreateSchema)
  {
    if body.Keys - SchemaKeys(CreateSchema) == {} {
      forall x | x in body.Keys ensures x in SchemaKeys(CreateSchema) {
        assert x !in body.Keys - SchemaKeys(CreateSchema);
      }
    }
  }

  /** The body passes exactly when every key is present and non-empty, `email`
      is an email address, `uf` has at most two UTF-16 code units, and no other key occurs. */
  lemma AcceptedIff(body: map<string, string>, isEmail: string -> bool)
    ensures Validate(body, isEmail).Accepted() <==>
      Passes(body, isEmail) && body.Keys <= SchemaKeys(CreateSchema)
  {
    NoErrorsIff(body, isEmail);
    AllChecksPassIff(body, isEmail);
    NoUnknownIff(body);
  }

  /** The record `create` destructures from a body that passed validation. */
  function BodyOf(body: map<string, string>): (b: CreateBody)
    requires HasAllFields(body)
    ensures b.name == body["name"] && b.email == body["email"] && b.whatsapp == body["whatsapp"]
    ensures b.latitude == body["latitude"] && b.longitude == body["longitude"]
    ensures b.city == body["city"] && b.uf == body["uf"] && b.items == body["items"]
  {
    CreateBody(body["name"], body["email"], body["whatsapp"], body["latitude"], body["longitude"],
               body["city"], body["uf"], body["items"])
  }

  // ------------------------------------------------------------ dispatch

  datatype HttpMethod = GET | HEAD | POST | PUT | PATCH | DELETE | OPTIONS

  /** The handler a request reaches. */
  datatype Route =
    | ItemsIndex               // GET /items (the items controller)
    | PointsIndex              // GET /points
    | PointsShow(id: string)   // GET /points/:id
    | PointsCreate             // POST /points: upload, validation, then create
    | Uploads(file: string)    // the static files under /uploads
    | Options(allowed: seq<HttpMethod>)   // the router's own answer to OPTIONS on a routed path
    | NoRoute                  // the framework's 404

  function LowerAscii(c: char): char
  {
    if 'A' <= c <= 'Z' then (c as int + 32) as char else c
  }

  /** Route paths match without regard to ASCII letter case. */
  predicate SameText(a: string, lit: string)
  {
    |a| == |lit| && forall k :: 0 <= k < |a| ==> LowerAscii(a[k]) == LowerAscii(lit[k])
  }

  /** The `/`-separated segments of a path; one trailing slash is ignored. */
  function PathSegments(path: string): (segs: seq<string>)
    ensures |segs| >= 1
  {
    var segs := Split(path, '/');
    if |segs| > 2 && segs[|segs| - 1] == "" then segs[..|segs| - 1] else segs
  }

  predicate AnswersGet(m: HttpMethod) { m == GET || m == HEAD }

  /** The route table, tried in registration order. */
  function Dispatch(m: HttpMethod, path: string): (r: Route)
    ensures r.PointsCreate? ==> m == POST
    ensures r.PointsShow? ==> AnswersGet(m) && r.id != "" && '/' !in r.id
    ensures r.ItemsIndex? || r.PointsIndex? || r.Uploads? ==> AnswersGet(m)
    ensures r.Options? <==> m == OPTIONS && r != NoRoute
    ensures r.Options? ==> GET in r.allowed && HEAD in r.allowed && OPTIONS !in r.allowed
  {
    var segs := PathSegments(path);
    var top := |segs| == 2 && segs[0] == "";
    if top && SameText(segs[1], "items") && AnswersGet(m) then ItemsIndex
    else if top && SameText(segs[1], "points") && AnswersGet(m) then PointsIndex
    else if |segs| == 3 && segs[0] == "" && SameText(segs[1], "points") && segs[2] != "" && AnswersGet(m)
    then PointsShow(segs[2])
    else if top && SameText(segs[1], "points") && m == POST then PointsCreate
    else if |path| >= 8 && SameText(path[..8], "/uploads") && (|path| == 8 || path[8] == '/') && AnswersGet(m)
    then Uploads(path[8..])
    else if m == OPTIONS && top && SameText(segs[1], "items") then Options([GET, HEAD])
    else if m == OPTIONS && top && SameText(segs[1], "points") then Options([GET, HEAD, POST])
    else if m == OPTIONS && |segs| == 3 && segs[0] == "" && SameText(segs[1], "points") && segs[2] != ""
    then Options([GET, HEAD])
    else NoRoute
  }

  /** `"/" + a` has the segments `""` and `a`. */
  lemma TwoSegments(a: string)
    requires '/' !in a && a != ""
    ensures PathSegments("/" + a) == ["", a]
  {
    SplitNoSep(a, '/');
    assert "/" + a == "" + ['/'] + a;
    SplitAfterPiece("", '/', a);
  }

  /** `"/" + a + "/" + b` has the segments `""`, `a` and `b`. */
  lemma ThreeSegments(a: string, b: string)
    requires '/' !in a && '/' !in b && b != ""
    ensures PathSegments("/" + a + "/" + b) == ["", a, b]
  {
    SplitNoSep(b, '/');
    SplitAfterPiece(a, '/', b);
    assert "/" + a + "/" + b == "" + ['/'] + (a + ['/'] + b);
    SplitAfterPiece("", '/', a + ['/'] + b);
  }

  lemma PointsPath()
    ensures PathSegments("/points") == ["", "points"]
  {
    var p := "points";
    assert forall k :: 0 <= k < |p| ==> p[k] != '/';
    TwoSegments(p);
  }

  lemma PointPath(id: string)
    requires id != "" && '/' !in id
    ensures PathSegments("/points/" + id) == ["", "points", id]
  {
    var p := "points";
    assert forall k :: 0 <= k < |p| ==> p[k] != '/';
    ThreeSegments(p, id);
    assert "/" + p + "/" + id == "/points/" + id;
  }

  /** `GET /points` lists and `POST /points` creates. */
  lemma PointsRoutes()
    ensures Dispatch(GET, "/points") == PointsIndex
    ensures Dispatch(POST, "/points") == PointsCreate
  {
    PointsPath();
    assert SameText("points", "points");
    assert !SameText("points", "items");
  }

  /** `GET /points/:id` shows the point named by the path segment. */
  lemma ShowRoute(id: string)
    requires id != "" && '/' !in id
    ensures Dispatch(GET, "/points/" + id) == PointsShow(id)
  {
    PointPath(id);
    assert SameText("points", "points");
  }

  /** `OPTIONS /points` is answered by the router with the methods the path has. */
  lemma PointsOptions()
    ensures Dispatch(OPTIONS, "/points") == Options([GET, HEAD, POST])
  {
    PointsPath();
    assert SameText("points", "points");
    assert !SameText("points", "items");
  }

  /** The router answers `OPTIONS` exactly on the paths that have a `GET` route of their own;
      the static `/uploads` middleware adds no route. */
  lemma OptionsExactlyOnRoutedPaths(path: string)
    ensures Dispatch(OPTIONS, path).Options? <==>
            (Dispatch(GET, path).ItemsIndex? || Dispatch(GET, path).PointsIndex? || Dispatch(GET, path).PointsShow?)
  {
  }


  // ------------------------------------------------------------ handling

  /** What the router hands the handlers: method, path, query, multipart text
      fields and the stored upload, if any. */
  datatype Request = Request(verb: HttpMethod, path: string, query: IndexQuery,
                             body: map<string, string>, file: Option<UploadedFile>)

  datatype Response =
    | PointList(points: seq<SerializedPoint>)
    | PointShown(show: ShowResponse)
    | PointCreated(outcome: CreateOutcome)
    | BadRequest(validation: Validation)   // every violation, passed on to the error handler (400)
    | Delegated(route: Route)              // handled by code outside this model
    | Allowed(methods: seq<HttpMethod>)    // status 200, the methods in the `Allow` header and the body
    | NotFound                             // status 404

  /** `POST /points` after the upload: validate, and run `create` only when the body passes. */
  method PostPoints(store: Store, body: map<string, string>, file: Option<UploadedFile>, isEmail: string -> bool)
    returns (resp: Response)
    requires store.Valid()
    modifies store
    ensures store.Valid() && store.items == old(store.items)
    ensures !Validate(body, isEmail).Accepted() ==>
      resp == BadRequest(Validate(body, isEmail))
      && store.points == old(store.points) && store.pointItems == old(store.pointItems)
    ensures Validate(body, isEmail).Accepted() ==> resp.PointCreated? && HasAllFields(body)
    ensures Validate(body, isEmail).Accepted() && file.None? ==>
      resp == PointCreated(MissingUpload)
      && store.points == old(store.points) && store.pointItems == old(store.pointItems)
    ensures Validate(body, isEmail).Accepted() && file.Some? ==>
      var id := NextId(old(store.points));
      && resp == PointCreated(Created(NewPointRow(id, BodyOf(body), file.value)))
      && store.points == old(store.points) + [NewPointRow(id, BodyOf(body), file.value)]
      && store.pointItems == old(store.pointItems) + PointItemsFor(id, ParseItemIds(body["items"]))
  {
    var v := Validate(body, isEmail);
    if !v.Accepted() {
      return BadRequest(v);
    }
    var outcome := store.Create(BodyOf(body), file);
    resp := PointCreated(outcome);
  }

  /** One request through the router and the handler it reaches. */
  method Handle(store: Store, req: Request, isEmail: string -> bool) returns (resp: Response)
    requires store.Valid()
    modifies store
    ensures store.Valid() && store.items == old(store.items)
    ensures Dispatch(req.verb, req.path) != PointsCreate ==>
      store.points == old(store.points) && store.pointItems == old(store.pointItems)
    ensures Dispatch(req.verb, req.path) == PointsIndex ==>
      resp == PointList(Index(store.points, store.pointItems, req.query))
    ensures Dispatch(req.verb, req.path).PointsShow? ==>
      resp == PointShown(Show(store.points, store.pointItems, store.items, Dispatch(req.verb, req.path).id))
    ensures Dispatch(req.verb, req.path) == PointsCreate && !Validate(req.body, isEmail).Accepted() ==>
      resp == BadRequest(Validate(req.body, isEmail))
    ensures Dispatch(req.verb, req.path) == PointsCreate && Validate(req.body, isEmail).Accepted() ==>
      HasAllFields(req.body)
    ensures Dispatch(req.verb, req.path) == PointsCreate && Validate(req.body, isEmail).Accepted()
            && req.file.None? ==>
      resp == PointCreated(MissingUpload)
      && store.points == old(store.points) && store.pointItems == old(store.pointItems)
    ensures Dispatch(req.verb, req.path) == PointsCreate && Validate(req.body, isEmail).Accepted()
            && req.file.Some? ==>
      var id := NextId(old(store.points));
      && resp == PointCreated(Created(NewPointRow(id, BodyOf(req.body), req.file.value)))
      && store.points == old(store.points) + [NewPointRow(id, BodyOf(req.body), req.file.value)]
      && store.pointItems == old(store.pointItems) + PointItemsFor(id, ParseItemIds(req.body["items"]))
    ensures Dispatch(req.verb, req.path).Options? ==> resp == Allowed(Dispatch(req.verb, req.path).allowed)
    ensures Dispatch(req.verb, req.path) == ItemsIndex || Dispatch(req.verb, req.path).Uploads? ==>
      resp == Delegated(Dispatch(req.verb, req.path))
    ensures Dispatch(req.verb, req.path) == NoRoute ==> resp == NotFound
  {
    var route := Dispatch(req.verb, req.path);
    match route {
      case PointsIndex =>
        resp := PointList(Index(store.points, store.pointItems, req.query));
      case PointsShow(id) =>
        resp := PointShown(Show(store.points, store.pointItems, store.items, id));
      case PointsCreate =>
        resp := PostPoints(store, req.body, req.file, isEmail);
      case ItemsIndex =>
        resp := Delegated(route);
      case Uploads(_) =>
        resp := Delegated(route);
      case Options(methods) =>
        resp := Allowed(methods);
      case NoRoute =>
        resp := NotFound;
    }
  }
}
