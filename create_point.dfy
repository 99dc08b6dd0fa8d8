/** The registration form of the web client: the item-selection toggle, the
    text-field update, the select and map handlers that replace one piece of
    component state each, and the multipart payload built on submit. */
module CreatePoint {
  import opened Wrappers
  import opened Seqs
  import opened JsText

  // ------------------------------------------------------------ item selection

  /** The selection with every occurrence of `id` dropped and the other ids kept in order. */
  function RemoveAll(s: seq<int>, id: int): (r: seq<int>)
    ensures |r| <= |s|
    ensures id !in r
    ensures forall x :: x != id ==> (x in r <==> x in s)
  {
    if |s| == 0 then [] else (if s[0] == id then [] else [s[0]]) + RemoveAll(s[1..], id)
  }

  /** Removal works piece by piece, so the remaining ids keep their order. */
  lemma {:induction false} RemoveAllAppend(a: seq<int>, b: seq<int>, id: int)
    ensures RemoveAll(a + b, id) == RemoveAll(a, id) + RemoveAll(b, id)
  {
    if |a| == 0 {
      assert a + b == b;
    } else {
      assert (a + b)[1..] == a[1..] + b;
      RemoveAllAppend(a[1..], b, id);
    }
  }

  /** Removing an id that does not occur changes nothing. */
  lemma {:induction false} RemoveAllAbsent(s: seq<int>, id: int)
    requires id !in s
    ensures RemoveAll(s, id) == s
  {
    if |s| > 0 {
      RemoveAllAbsent(s[1..], id);
    }
  }

  lemma {:induction false} RemoveAllNoDup(s: seq<int>, id: int)
    requires NoDup(s)
    ensures NoDup(RemoveAll(s, id))
  {
    if |s| > 0 {
      assert NoDup(s[1..]);
      RemoveAllNoDup(s[1..], id);
      assert s[0] !in s[1..];
    }
  }

  /** Clicking an item card: drop every occurrence of a selected id, or append
      an unselected one at the end. */
  function Toggle(selected: seq<int>, id: int): (r: seq<int>)
    ensures id in r <==> id !in selected
    ensures forall x :: x != id ==> (x in r <==> x in selected)
    ensures id !in selected ==> |r| == |selected| + 1 && r[..|selected|] == selected && r[|selected|] == id
    ensures id in selected ==> r == RemoveAll(selected, id)
  {
    if id in selected then RemoveAll(selected, id) else selected + [id]
  }

  /** A duplicate-free selection stays duplicate-free. */
  lemma ToggleKeepsNoDup(selected: seq<int>, id: int)
    requires NoDup(selected)
    ensures NoDup(Toggle(selected, id))
  {
    if id in selected {
      RemoveAllNoDup(selected, id);
    }
  }

  /** Selecting and then deselecting an id restores the selection. */
  lemma ToggleTwice(selected: seq<int>, id: int)
    requires id !in selected
    ensures Toggle(Toggle(selected, id), id) == selected
  {
    RemoveAllAppend(selected, [id], id);
    RemoveAllAbsent(selected, id);
  }

  /** Deselecting and reselecting a selected id moves it to the end. */
  lemma ToggleTwiceSelected(selected: seq<int>, id: int)
    requires id in selected
    ensures Toggle(Toggle(selected, id), id) == RemoveAll(selected, id) + [id]
  {
  }

  /** The selection after a series of clicks. */
  function ToggleAll(selected: seq<int>, clicks: seq<int>): (r: seq<int>)
    ensures forall x :: x in r ==> x in selected || x in clicks
    decreases |clicks|
  {
    if |clicks| == 0 then selected else ToggleAll(Toggle(selected, clicks[0]), clicks[1..])
  }

  lemma {:induction false} ToggleAllKeepsNoDup(selected: seq<int>, clicks: seq<int>)
    requires NoDup(selected)
    ensures NoDup(ToggleAll(selected, clicks))
    decreases |clicks|
  {
    if |clicks| > 0 {
      ToggleKeepsNoDup(selected, clicks[0]);
      ToggleAllKeepsNoDup(Toggle(selected, clicks[0]), clicks[1..]);
    }
  }

  // ------------------------------------------------------------ text fields

  /** The fields the form state starts with. */
  const InitialForm: map<string, string> := map["name" := "", "email" := "", "whatsapp" := ""]

  predicate HasFormFields(form: map<string, string>)
  {
    "name" in form && "email" in form && "whatsapp" in form
  }

  /** The form state with the field `name` set to `value` and every other field kept. */
  function InputChange(form: map<string, string>, name: string, value: string): (r: map<string, string>)
    ensures r.Keys == form.Keys + {name}
    ensures name in r && r[name] == value
    ensures forall k :: k in form && k != name ==> k in r && r[k] == form[k]
  {
    form[name := value]
  }

  /** Edits of two different fields do not interfere. */
  lemma InputChangesCommute(form: map<string, string>, a: string, va: string, b: string, vb: string)
    requires a != b
    ensures InputChange(InputChange(form, a, va), b, vb) == InputChange(InputChange(form, b, vb), a, va)
  {
  }

  /** The last edit of a field wins. */
  lemma InputChangeLastWins(form: map<string, string>, a: string, v1: string, v2: string)
    ensures InputChange(InputChange(form, a, v1), a, v2) == InputChange(form, a, v2)
  {
  }

  // ------------------------------------------------------------ the page

  /** A category card as `GET /items` delivers it. */
  datatype Card = Card(id: int, title: string, image_url: string)

  /** A browser `File` chosen in the drop zone. */
  datatype FileRef = FileRef(name: string)

  /** A map position as `String(number)` renders its two coordinates. */
  datatype Position = Position(lat: string, lng: string)

  /** All component state at one moment. */
  datatype PageState = PageState(
    items: seq<Card>, ufs: seq<string>, citys: seq<string>,
    initialPosition: Position, selectedPosition: Position,
    selectedUf: string, selectedItems: seq<int>, selectedCity: string,
    formData: map<string, string>, selectedFile: Option<FileRef>)

  /** A part of a multipart body. */
  datatype FormValue = Text(text: string) | Blob(file: FileRef)
  datatype Entry = Entry(name: string, value: FormValue)

  /** The decimal text of every selected id. */
  function IdStrings(ids: seq<int>): (r: seq<string>)
    ensures |r| == |ids|
    ensures forall k :: 0 <= k < |ids| ==> r[k] == IntToString(ids[k])
  {
    seq(|ids|, k requires 0 <= k < |ids| => IntToString(ids[k]))
  }

  /** The parts `handleSubmit` appends, in order: the text fields, the ids
      joined with commas, and the image only when one was chosen. */
  function SubmitPayload(st: PageState): (r: seq<Entry>)
    requires HasFormFields(st.formData)
    ensures |r| == (if st.selectedFile.Some? then 9 else 8)
    ensures forall k :: 0 <= k < 8 ==> r[k].value.Text?
    ensures st.selectedFile.Some? ==> r[8].value.Blob?
  {
    var text := TextParts(st);
    assert forall k :: 0 <= k < |text| ==> text[k].value.Text?;
    text + ImageParts(st.selectedFile)
  }

  /** The eight text parts of a submission, in the order they are appended. */
  function TextParts(st: PageState): seq<Entry>
    requires HasFormFields(st.formData)
  {
    [Entry("name", Text(st.formData["name"])),
     Entry("email", Text(st.formData["email"])),
     Entry("whatsapp", Text(st.formData["whatsapp"])),
     Entry("uf", Text(st.selectedUf)),
     Entry("city", Text(st.selectedCity)),
     Entry("latitude", Text(st.selectedPosition.lat)),
     Entry("longitude", Text(st.selectedPosition.lng)),
     Entry("items", Text(Join(IdStrings(st.selectedItems), ',')))]
  }

  /** The `image` part, present only when a file was chosen. */
  function ImageParts(file: Option<FileRef>): seq<Entry>
  {
    match file
    case Some(f) => [Entry("image", Blob(f))]
    case None => []
  }

  /** The payload has an `image` part exactly when a file was chosen, and then it is that file. */
  lemma PayloadImageIff(st: PageState)
    requires HasFormFields(st.formData)
    ensures (exists k :: 0 <= k < |SubmitPayload(st)| && SubmitPayload(st)[k].name == "image")
            <==> st.selectedFile.Some?
    ensures st.selectedFile.Some? ==> Entry("image", Blob(st.selectedFile.value)) in SubmitPayload(st)
  {
    var p := SubmitPayload(st);
    if st.selectedFile.Some? {
      assert p[8].name == "image";
    } else {
      assert |p| == 8;
      assert forall k :: 0 <= k < |p| ==> p[k].name != "image";
    }
  }

  /** The builder of a multipart body, which starts empty and appends one named part at a time. */
  class MultipartForm {
    var entries: seq<Entry>

    constructor ()
      ensures entries == []
    {
      entries := [];
    }

    method Append(name: string, value: FormValue)
      modifies this
      ensures entries == old(entries) + [Entry(name, value)]
    {
      entries := entries + [Entry(name, value)];
    }
  }

  /** A new multipart body holding the eight text parts of a submission, appended in order. */
  method TextForm(name: string, email: string, whatsapp: string, uf: string, city: string,
                  latitude: string, longitude: string, items: string) returns (data: MultipartForm)
    ensures fresh(data)
    ensures data.entries == [Entry("name", Text(name)), Entry("email", Text(email)),
                             Entry("whatsapp", Text(whatsapp)), Entry("uf", Text(uf)),
                             Entry("city", Text(city)), Entry("latitude", Text(latitude)),
                             Entry("longitude", Text(longitude)), Entry("items", Text(items))]
  {
    data := new MultipartForm();
    data.Append("name", Text(name));
    data.Append("email", Text(email));
    data.Append("whatsapp", Text(whatsapp));
    data.Append("uf", Text(uf));
    data.Append("city", Text(city));
    data.Append("latitude", Text(latitude));
    data.Append("longitude", Text(longitude));
    data.Append("items", Text(items));
  }

  /** The component: its hook state as fields, each handler replacing one of them. */
  class CreatePointPage {
    var items: seq<Card>
    var ufs: seq<string>
    var citys: seq<string>
    var initialPosition: Position
    var selectedPosition: Position
    var selectedUf: string
    var selectedItems: seq<int>
    var selectedCity: string
    var formData: map<string, string>
    var selectedFile: Option<FileRef>

    function State(): PageState
      reads this
    {
      PageState(items, ufs, citys, initialPosition, selectedPosition, selectedUf,
                selectedItems, selectedCity, formData, selectedFile)
    }

    /** The selection holds no id twice, and the three text fields always exist. */
    ghost predicate Valid()
      reads this
    {
      NoDup(selectedItems) && HasFormFields(formData)
    }

    /** The initial `useState` values: empty lists, position (0, 0), the
        sentinel `'0'` for state and city, empty text fields, no file. */
    constructor ()
      ensures Valid()
      ensures State() == PageState([], [], [], Position("0", "0"), Position("0", "0"), "0", [], "0", InitialForm, None)
    {
      items, ufs, citys := [], [], [];
      initialPosition, selectedPosition := Position("0", "0"), Position("0", "0");
      selectedUf, selectedItems, selectedCity := "0", [], "0";
      formData, selectedFile := InitialForm, None;
    }

    /** `handleSelectUf`. */
    method HandleSelectUf(uf: string)
      requires Valid()
      modifies this
      ensures Valid() && State() == old(State()).(selectedUf := uf)
    {
      selectedUf := uf;
    }

    /** `handleSelectCity`. */
    method HandleSelectCity(city: string)
      requires Valid()
      modifies this
      ensures Valid() && State() == old(State()).(selectedCity := city)
    {
      selectedCity := city;
    }

    /** `handleMapClick`. */
    method HandleMapClick(clicked: Position)
      requires Valid()
      modifies this
      ensures Valid() && State() == old(State()).(selectedPosition := clicked)
    {
      selectedPosition := clicked;
    }

    /** `handleInputChange`: only the field named by the event changes. */
    method HandleInputChange(name: string, value: string)
      requires Valid()
      modifies this
      ensures Valid() && State() == old(State()).(formData := InputChange(old(formData), name, value))
    {
      formData := InputChange(formData, name, value);
    }

    /** `handleSelectItem`. */
    method HandleSelectItem(id: int)
      requires Valid()
      modifies this
      ensures Valid() && State() == old(State()).(selectedItems := Toggle(old(selectedItems), id))
    {
      ToggleKeepsNoDup(selectedItems, id);
      selectedItems := Toggle(selectedItems, id);
    }

    /** The drop zone's `onFileUploaded`. */
    method SetSelectedFile(file: FileRef)
      requires Valid()
      modifies this
      ensures Valid() && State() == old(State()).(selectedFile := Some(file))
    {
      selectedFile := Some(file);
    }

    /** The answer of the geolocation request. */
    method SetInitialPosition(position: Position)
      requires Valid()
      modifies this
      ensures Valid() && State() == old(State()).(initialPosition := position)
    {
      initialPosition := position;
    }

    /** The answer of `GET /items`. */
    method SetItems(cards: seq<Card>)
      requires Valid()
      modifies this
      ensures Valid() && State() == old(State()).(items := cards)
    {
      items := cards;
    }

    /** The answer of the state-list request. */
    method SetUfs(initials: seq<string>)
      requires Valid()
      modifies this
      ensures Valid() && State() == old(State()).(ufs := initials)
    {
      ufs := initials;
    }

    /** The answer of the city-list request for the selected state. */
    method SetCitys(names: seq<string>)
      requires Valid()
      modifies this
      ensures Valid() && State() == old(State()).(citys := names)
    {
      citys := names;
    }

    /** `handleSubmit` up to the POST: the multipart body, built part by part. */
    method HandleSubmit() returns (data: MultipartForm)
      requires Valid()
      ensures fresh(data)
      ensures data.entries == SubmitPayload(State())
    {
      ghost var st := State();
      var name, email, whatsapp := formData["name"], formData["email"], formData["whatsapp"];
      var uf := selectedUf;
      var city := selectedCity;
      var latitude, longitude := selectedPosition.lat, selectedPosition.lng;
      var ids := selectedItems;
      data := TextForm(name, email, whatsapp, uf, city, latitude, longitude, Join(IdStrings(ids), ','));
      if selectedFile.Some? {
        data.Append("image", Blob(selectedFile.value));
      }
      assert data.entries == TextParts(st) + ImageParts(st.selectedFile);
    }
  }
}
