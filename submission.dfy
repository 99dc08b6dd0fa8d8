/** The client's submission as the server receives it: the multipart text
    parts become the request body the validator checks and `create` reads,
    and the ids the client joined with commas come back out of the server's
    parser unchanged. */
module Submission {
  import opened Wrappers
  import opened Seqs
  import opened JsText
  import opened PointsController
  import opened Routes
  import opened CreatePoint

  /** The text parts of a multipart body as the upload middleware puts them in
      `request.body`; file parts are not part of the body. */
  function RequestBody(parts: seq<Entry>): (body: map<string, string>)
    ensures forall k :: k in body ==> exists i :: 0 <= i < |parts| && parts[i].name == k && parts[i].value.Text?
  {
    if |parts| == 0 then map[]
    else
      var body := RequestBody(parts[..|parts| - 1]);
      var last := parts[|parts| - 1];
      assert forall i :: 0 <= i < |parts| - 1 ==> parts[..|parts| - 1][i] == parts[i];
      match last.value
      case Text(t) => body[last.name := t]
      case Blob(_) => body
  }

  /** The upload the middleware stores for an `image` file part, under the
      name its storage picks (`storedName`). */
  function RequestFile(parts: seq<Entry>, storedName: string): (f: Option<UploadedFile>)
    ensures f.Some? <==> exists i :: 0 <= i < |parts| && parts[i].name == "image" && parts[i].value.Blob?
  {
    if exists i :: 0 <= i < |parts| && parts[i].name == "image" && parts[i].value.Blob?
    then Some(UploadedFile(storedName)) else None
  }

  /** What the single-file upload middleware makes of the parts: the stored
      upload, if any, or its `Unexpected field` failure. */
  datatype UploadOutcome = Stored(file: Option<UploadedFile>) | UnexpectedField

  /** Part `i` is a file the middleware refuses: it is not named `image`, or
      an `image` file came before it. */
  predicate UnexpectedFilePart(parts: seq<Entry>, i: int)
    requires 0 <= i < |parts|
  {
    parts[i].value.Blob?
    && (parts[i].name != "image" || exists j :: 0 <= j < i && parts[j].name == "image" && parts[j].value.Blob?)
  }

  /** The upload middleware accepting one file under `image`, reading the parts
      in order: the first file part under another name, or a second `image`
      file, fails the whole request. */
  function Upload(parts: seq<Entry>, storedName: string): (r: UploadOutcome)
    ensures r == UnexpectedField <==> exists i :: 0 <= i < |parts| && UnexpectedFilePart(parts, i)
    ensures r.Stored? ==> r.file == RequestFile(parts, storedName)
  {
    if |parts| == 0 then Stored(None)
    else
      var init := parts[..|parts| - 1];
      var prior := Upload(init, storedName);
      var last := parts[|parts| - 1];
      assert forall i :: 0 <= i < |init| ==> init[i] == parts[i];
      assert forall i :: 0 <= i < |init| ==> (UnexpectedFilePart(init, i) <==> UnexpectedFilePart(parts, i));
      if prior.UnexpectedField? then UnexpectedField
      else if last.value.Text? then prior
      else if last.name == "image" && prior.file.None? then Stored(Some(UploadedFile(storedName)))
      else
        assert UnexpectedFilePart(parts, |parts| - 1);
        UnexpectedField
  }

  /** A second `image` file fails the request. */
  lemma SecondImageRejected(f: FileRef, g: FileRef, storedName: string)
    ensures Upload([Entry("image", Blob(f)), Entry("image", Blob(g))], storedName) == UnexpectedField
  {
    var parts := [Entry("image", Blob(f)), Entry("image", Blob(g))];
    assert parts[0].name == "image" && parts[0].value.Blob?;
    assert UnexpectedFilePart(parts, 1);
  }

  /** The page's submission never trips the middleware: it is stored as `RequestFile` says. */
  lemma PayloadUploadStored(st: PageState, storedName: string)
    requires HasFormFields(st.formData)
    ensures Upload(SubmitPayload(st), storedName) == Stored(RequestFile(SubmitPayload(st), storedName))
  {
    var p := SubmitPayload(st);
    PayloadImageIff(st);
    forall i | 0 <= i < |p| && p[i].value.Blob?
      ensures !UnexpectedFilePart(p, i)
    {
      assert i == 8;
    }
  }

  /** Every id as the number the server sees. */
  function Nums(ids: seq<int>): (r: seq<JsNum>)
    ensures |r| == |ids| && forall k :: 0 <= k < |ids| ==> r[k] == Num(ids[k])
  {
    seq(|ids|, k requires 0 <= k < |ids| => Num(ids[k]))
  }

  /** Joining the ids with commas on the client, then splitting, trimming and
      converting each piece on the server, gives back every id in order, for any non-empty list. */
  lemma ItemIdsRoundTrip(ids: seq<int>)
    requires |ids| > 0
    ensures ParseItemIds(Join(IdStrings(ids), ',')) == Nums(ids)
  {
    var parts := IdStrings(ids);
    forall k | 0 <= k < |parts| ensures ',' !in parts[k] && ToNumber(Trim(parts[k])) == Num(ids[k]) {
      ToNumberOfIntToString(ids[k]);
    }
    SplitJoin(parts, ',');
  }

  /** An empty selection joins to the empty string. */
  lemma JoinEmptyIff(ids: seq<int>)
    ensures Join(IdStrings(ids), ',') == "" <==> ids == []
  {
    if |ids| > 0 {
      var parts := IdStrings(ids);
      if |parts| > 1 {
        assert |Join(parts, ',')| >= |parts[0]| + 1;
      } else {
        assert Join(parts, ',') == IntToString(ids[0]);
        assert |NatToString(if ids[0] < 0 then -ids[0] else ids[0])| > 0;
      }
    }
  }

  function SchemaKeyText(): set<string>
  {
    {"name", "email", "whatsapp", "latitude", "longitude", "city", "uf", "items"}
  }

  lemma SchemaKeysSpelled()
    ensures SchemaKeys(CreateSchema) == SchemaKeyText()
  {
    var keys := SchemaKeys(CreateSchema);
    assert CreateSchema[0].key == "name" && CreateSchema[1].key == "email";
    assert CreateSchema[2].key == "whatsapp" && CreateSchema[3].key == "latitude";
    assert CreateSchema[4].key == "longitude" && CreateSchema[5].key == "city";
    assert CreateSchema[6].key == "uf" && CreateSchema[7].key == "items";
    forall key | key in keys ensures key in SchemaKeyText() {
      var k :| 0 <= k < |CreateSchema| && CreateSchema[k].key == key;
      assert k == 0 || k == 1 || k == 2 || k == 3 || k == 4 || k == 5 || k == 6 || k == 7;
    }
  }

  lemma RequestBodyStep(parts: seq<Entry>, n: nat)
    requires n < |parts| && parts[n].value.Text?
    ensures RequestBody(parts[..n + 1]) == RequestBody(parts[..n])[parts[n].name := parts[n].value.text]
  {
    assert parts[..n + 1][..n] == parts[..n];
  }

  /** The body after the first four parts. */
  lemma PayloadBodyFirstFour(st: PageState)
    requires HasFormFields(st.formData)
    ensures RequestBody(SubmitPayload(st)[..4])
            == map["name" := st.formData["name"], "email" := st.formData["email"],
                   "whatsapp" := st.formData["whatsapp"], "uf" := st.selectedUf]
  {
    var p := SubmitPayload(st);
    FourTextParts(p);
  }

  /** Four leading text parts give the body of their names and texts, later ones winning. */
  lemma FourTextParts(p: seq<Entry>)
    requires |p| >= 4 && p[0].value.Text? && p[1].value.Text? && p[2].value.Text? && p[3].value.Text?
    ensures RequestBody(p[..4]) == map[p[0].name := p[0].value.text, p[1].name := p[1].value.text,
                                       p[2].name := p[2].value.text, p[3].name := p[3].value.text]
  {
    assert p[..0] == [];
    RequestBodyStep(p, 0);
    RequestBodyStep(p, 1);
    RequestBodyStep(p, 2);
    RequestBodyStep(p, 3);
  }

  /** The body after all eight text parts. */
  lemma PayloadBodyText(st: PageState)
    requires HasFormFields(st.formData)
    ensures RequestBody(SubmitPayload(st)[..8])
            == map["name" := st.formData["name"], "email" := st.formData["email"],
                   "whatsapp" := st.formData["whatsapp"], "uf" := st.selectedUf,
                   "city" := st.selectedCity, "latitude" := st.selectedPosition.lat,
                   "longitude" := st.selectedPosition.lng,
                   "items" := Join(IdStrings(st.selectedItems), ',')]
  {
    var p := SubmitPayload(st);
    PayloadBodyFirstFour(st);
    RequestBodyStep(p, 4);
    RequestBodyStep(p, 5);
    RequestBodyStep(p, 6);
    RequestBodyStep(p, 7);
  }

  /** The request body of a submission: the eight schema keys with the form's
      values; the image part adds nothing to it. */
  lemma PayloadBody(st: PageState)
    requires HasFormFields(st.formData)
    ensures RequestBody(SubmitPayload(st))
            == map["name" := st.formData["name"], "email" := st.formData["email"],
                   "whatsapp" := st.formData["whatsapp"], "uf" := st.selectedUf,
                   "city" := st.selectedCity, "latitude" := st.selectedPosition.lat,
                   "longitude" := st.selectedPosition.lng,
                   "items" := Join(IdStrings(st.selectedItems), ',')]
  {
    var p := SubmitPayload(st);
    PayloadBodyText(st);
    if st.selectedFile.Some? {
      assert p[..9] == p;
      assert p[..9][..8] == p[..8];
    } else {
      assert p[..8] == p;
    }
  }

  lemma PayloadBodyKeys(st: PageState)
    requires HasFormFields(st.formData)
    ensures RequestBody(SubmitPayload(st)).Keys == SchemaKeys(CreateSchema)
  {
    PayloadBody(st);
    SchemaKeysSpelled();
  }

  /** The server receives exactly the ids the user selected, in selection order. */
  lemma SubmittedItemsRoundTrip(st: PageState)
    requires HasFormFields(st.formData) && |st.selectedItems| > 0
    ensures var body := RequestBody(SubmitPayload(st));
      "items" in body && ParseItemIds(body["items"]) == Nums(st.selectedItems)
  {
    PayloadBody(st);
    ItemIdsRoundTrip(st.selectedItems);
  }

  /** Submitting with no item selected sends an empty `items` text, which the validator rejects. */
  lemma EmptySelectionRejected(st: PageState, isEmail: string -> bool)
    requires HasFormFields(st.formData) && st.selectedItems == []
    ensures Empty("items") in Validate(RequestBody(SubmitPayload(st)), isEmail).errors
  {
    PayloadBody(st);
    JoinEmptyIff(st.selectedItems);
    assert CreateSchema[7] == Rule("items", false, None);
    assert Check(RequestBody(SubmitPayload(st)), CreateSchema[7], isEmail) == Some(Empty("items"));
  }

  /** A submission passes validation exactly when the text fields, the state,
      the city and the coordinates are non-empty, the email is an address, the
      state code has at most two UTF-16 code units and at least one item is selected. */
  lemma SubmissionAcceptedIff(st: PageState, isEmail: string -> bool)
    requires HasFormFields(st.formData)
    ensures Validate(RequestBody(SubmitPayload(st)), isEmail).Accepted() <==>
      (&& st.formData["name"] != "" && st.formData["email"] != "" && st.formData["whatsapp"] != ""
       && st.selectedUf != "" && st.selectedCity != ""
       && st.selectedPosition.lat != "" && st.selectedPosition.lng != ""
       && isEmail(st.formData["email"]) && Utf16Length(st.selectedUf) <= 2
       && st.selectedItems != [])
  {
    var body := RequestBody(SubmitPayload(st));
    PayloadBody(st);
    PayloadBodyKeys(st);
    JoinEmptyIff(st.selectedItems);
    AcceptedIff(body, isEmail);
    PayloadPassesIff(st, isEmail);
  }

  lemma PayloadPassesIff(st: PageState, isEmail: string -> bool)
    requires HasFormFields(st.formData)
    ensures Passes(RequestBody(SubmitPayload(st)), isEmail) <==>
      (&& st.formData["name"] != "" && st.formData["email"] != "" && st.formData["whatsapp"] != ""
       && st.selectedUf != "" && st.selectedCity != ""
       && st.selectedPosition.lat != "" && st.selectedPosition.lng != ""
       && isEmail(st.formData["email"]) && Utf16Length(st.selectedUf) <= 2
       && Join(IdStrings(st.selectedItems), ',') != "")
  {
    PayloadBody(st);
    FieldsOfBody(RequestBody(SubmitPayload(st)), st.formData["name"], st.formData["email"],
      st.formData["whatsapp"], st.selectedUf, st.selectedCity, st.selectedPosition.lat,
      st.selectedPosition.lng, Join(IdStrings(st.selectedItems), ','));
  }

  lemma FieldsOfBody(b: map<string, string>, name: string, email: string, whatsapp: string,
                     uf: string, city: string, lat: string, lng: string, items: string)
    requires b == map["name" := name, "email" := email, "whatsapp" := whatsapp, "uf" := uf,
                      "city" := city, "latitude" := lat, "longitude" := lng, "items" := items]
    ensures HasAllFields(b)
    ensures b["name"] == name && b["email"] == email && b["whatsapp"] == whatsapp
    ensures b["uf"] == uf && b["city"] == city && b["latitude"] == lat
    ensures b["longitude"] == lng && b["items"] == items
  {
  }

  /** The sentinel `'0'` of an unselected state and city passes the server's rules. */
  lemma SentinelsAccepted(st: PageState, isEmail: string -> bool)
    requires HasFormFields(st.formData) && st.selectedUf == "0" && st.selectedCity == "0"
    ensures Check(RequestBody(SubmitPayload(st)), CreateSchema[5], isEmail).None?
    ensures Check(RequestBody(SubmitPayload(st)), CreateSchema[6], isEmail).None?
  {
    PayloadBody(st);
    OneCharPlacePasses(RequestBody(SubmitPayload(st)), st.formData["name"], st.formData["email"],
      st.formData["whatsapp"], st.selectedUf, st.selectedCity, st.selectedPosition.lat,
      st.selectedPosition.lng, Join(IdStrings(st.selectedItems), ','), isEmail);
  }

  /** A body whose state and city are one character each passes the rules for both. */
  lemma OneCharPlacePasses(b: map<string, string>, name: string, email: string, whatsapp: string,
                           uf: string, city: string, lat: string, lng: string, items: string,
                           isEmail: string -> bool)
    requires b == map["name" := name, "email" := email, "whatsapp" := whatsapp, "uf" := uf,
                      "city" := city, "latitude" := lat, "longitude" := lng, "items" := items]
    requires |uf| == 1 && |city| == 1
    ensures Check(b, CreateSchema[5], isEmail).None?
    ensures Check(b, CreateSchema[6], isEmail).None?
  {
    FieldsOfBody(b, name, email, whatsapp, uf, city, lat, lng, items);
    assert CreateSchema[5] == Rule("city", false, None);
    assert CreateSchema[6] == Rule("uf", false, Some(2));
    OneCharPasses(b, CreateSchema[5], isEmail);
    OneCharPasses(b, CreateSchema[6], isEmail);
  }

  /** A one-character value passes a rule that is not an email rule and allows two units. */
  lemma OneCharPasses(body: map<string, string>, rule: Rule, isEmail: string -> bool)
    requires rule.key in body && |body[rule.key]| == 1 && !rule.email
    requires rule.max.Some? ==> rule.max.value >= 2
    ensures Check(body, rule, isEmail).None?
  {
  }

  /** The server gets an upload exactly when the user chose a file. */
  lemma SubmittedFileIff(st: PageState, storedName: string)
    requires HasFormFields(st.formData)
    ensures RequestFile(SubmitPayload(st), storedName).Some? <==> st.selectedFile.Some?
  {
    var p := SubmitPayload(st);
    PayloadImageIff(st);
    if st.selectedFile.Some? {
      assert p[8].name == "image" && p[8].value.Blob?;
    }
  }
}
