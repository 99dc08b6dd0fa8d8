/** The collection-point controller: the three tables as sequences of rows, the
    `index` query (join, item filter, city/uf filter, DISTINCT), the `show`
    lookup with its not-found answer, the image-URL serialisation, and `create`
    as a method of the store that appends one point row and its association rows. */
module PointsController {
  import opened Wrappers
  import opened Seqs
  import opened JsText

  /** A row of `points`; the coordinates are kept as the text that was submitted. */
  datatype Point = Point(id: int, image: string, name: string, email: string, whatsapp: string,
                         latitude: string, longitude: string, city: string, uf: string)

  /** A row of `point_items`; `item_id` holds whatever `Number` produced. */
  datatype PointItem = PointItem(point_id: int, item_id: JsNum)

  /** A row of `items`, the static list of waste categories. */
  datatype Item = Item(id: int, title: string, image: string)

  /** A point as the API returns it: every stored column plus `image_url`. */
  datatype SerializedPoint = SerializedPoint(id: int, image: string, name: string, email: string,
                                             whatsapp: string, latitude: string, longitude: string,
                                             city: string, uf: string, image_url: string)

  /** Where uploaded images are served from; the stored filename is appended. */
  const UploadsUrl: string := "http://192.168.100.16:3333/uploads/"

  // ------------------------------------------------------------ serialisation

  /** The stored columns of a serialised point. */
  function Stored(r: SerializedPoint): Point
  {
    Point(r.id, r.image, r.name, r.email, r.whatsapp, r.latitude, r.longitude, r.city, r.uf)
  }

  /** The point with every column kept and an `image_url` made of the upload prefix and the stored file name. */
  function Serialize(p: Point): (r: SerializedPoint)
    ensures Stored(r) == p
    ensures r.image_url == UploadsUrl + p.image
    ensures |r.image_url| == |UploadsUrl| + |p.image| && r.image_url[|UploadsUrl|..] == p.image
  {
    SerializedPoint(p.id, p.image, p.name, p.email, p.whatsapp, p.latitude, p.longitude,
                    p.city, p.uf, UploadsUrl + p.image)
  }

  /** Serialisation forgets nothing: two points with the same serialisation are equal. */
  lemma SerializeInjective(p: Point, q: Point)
    requires Serialize(p) == Serialize(q)
    ensures p == q
  {
    assert p == Stored(Serialize(p));
  }

  function SerializeAll(ps: seq<Point>): (r: seq<SerializedPoint>)
    ensures |r| == |ps|
    ensures forall k :: 0 <= k < |ps| ==> r[k] == Serialize(ps[k])
  {
    seq(|ps|, k requires 0 <= k < |ps| => Serialize(ps[k]))
  }

  lemma {:induction false} SerializeAllNoDup(ps: seq<Point>)
    requires NoDup(ps)
    ensures NoDup(SerializeAll(ps))
  {
    var r := SerializeAll(ps);
    forall i, j | 0 <= i < j < |r| ensures r[i] != r[j] {
      assert Stored(r[i]) == ps[i] && Stored(r[j]) == ps[j];
    }
  }

  // ------------------------------------------------------------ the id list

  /** The item ids of a query or a body: the text is cut at every comma and each
      trimmed segment is converted to a number. */
  function ParseItemIds(s: string): (r: seq<JsNum>)
    ensures |r| == Count(s, ',') + 1
    ensures forall k :: 0 <= k < |r| ==> r[k] == ToNumber(Trim(Split(s, ',')[k]))
  {
    var segments := Split(s, ',');
    seq(|segments|, k requires 0 <= k < |segments| => ToNumber(Trim(segments[k])))
  }

  /** A segment that is empty or blank after trimming, as the middle one of
      `"1,,2"`, yields 0 and not NaN. */
  lemma BlankSegmentIsZero(s: string, k: nat)
    requires k < |Split(s, ',')|
    requires forall c :: c in Split(s, ',')[k] ==> IsJsWhitespace(c)
    ensures ParseItemIds(s)[k] == Num(0)
  {
    var seg := Split(s, ',')[k];
    assert |TrimStart(seg)| == 0;
    BlankIsZero(Trim(seg));
  }

  /** A list whose only segment is a word that is not a numeral yields `[NaN]`. */
  lemma WordIsNaN(s: string)
    requires ',' !in s && |s| > 0
    requires !IsJsWhitespace(s[0]) && !IsJsWhitespace(s[|s| - 1])
    requires !IsDigit(s[0]) && s[0] != '-' && s[0] != '+'
    ensures ParseItemIds(s) == [NaN]
  {
    SplitNoSep(s, ',');
    TrimNoop(s);
    assert !IsDigits(s);
    assert IntLiteral(s) == None;
    assert ToNumber(Trim(s)) == NaN;
    var r := ParseItemIds(s);
    assert |r| == 1 && r[0] == ToNumber(Trim(s));
  }

  /** A query parameter coerced to text: a missing query parameter
      becomes the text "undefined". */
  function JsString(v: Option<string>): (r: string)
    ensures v.Some? ==> r == v.value
    ensures v.None? ==> r == "undefined"
  {
    match v
    case Some(s) => s
    case None => "undefined"
  }

  /** SQL `IN`: a number that is NaN equals nothing (it reaches the database as NULL). */
  predicate SqlIn(v: JsNum, list: seq<JsNum>): (b: bool)
    ensures b ==> v in list
    ensures v.NaN? ==> !b
    ensures v.Num? && v in list ==> b
  {
    v.Num? && v in list
  }

  /** The association rows built for the ids of `create`, in order, all with the new point id. */
  function PointItemsFor(pointId: int, ids: seq<JsNum>): (r: seq<PointItem>)
    ensures |r| == |ids|
    ensures forall k :: 0 <= k < |r| ==> r[k].point_id == pointId && r[k].item_id == ids[k]
  {
    seq(|ids|, k requires 0 <= k < |ids| => PointItem(pointId, ids[k]))
  }

  // ------------------------------------------------------------ index

  /** The query string of `GET /points`. */
  datatype IndexQuery = IndexQuery(city: Option<string>, uf: Option<string>, items: Option<string>)

  /** A row of `points JOIN point_items ON points.id = point_items.point_id`. */
  datatype JoinedRow = JoinedRow(point: Point, link: PointItem)

  function JoinLinks(p: Point, links: seq<PointItem>): (r: seq<JoinedRow>)
    ensures forall row :: row in r <==> row.point == p && row.link in links && row.link.point_id == p.id
  {
    if |links| == 0 then []
    else
      var rest := JoinLinks(p, links[..|links| - 1]);
      var l := links[|links| - 1];
      assert links == links[..|links| - 1] + [l];
      if l.point_id == p.id then rest + [JoinedRow(p, l)] else rest
  }

  /** The inner join of the two tables, in nested-loop order. */
  function JoinPoints(points: seq<Point>, links: seq<PointItem>): (r: seq<JoinedRow>)
    ensures forall row :: row in r <==> row.point in points && row.link in links && row.link.point_id == row.point.id
  {
    if |points| == 0 then []
    else
      assert points == points[..|points| - 1] + [points[|points| - 1]];
      JoinPoints(points[..|points| - 1], links) + JoinLinks(points[|points| - 1], links)
  }

  /** The three filters of `index` on one joined row: a requested item, the city and the state. */
  predicate RowMatches(row: JoinedRow, ids: seq<JsNum>, city: string, uf: string)
  {
    SqlIn(row.link.item_id, ids) && row.point.city == city && row.point.uf == uf
  }

  /** The point columns of each joined row, in row order. */
  function SelectPoints(rows: seq<JoinedRow>): (r: seq<Point>)
    ensures forall p :: p in r <==> exists row :: row in rows && row.point == p
  {
    if |rows| == 0 then []
    else
      assert rows == rows[..|rows| - 1] + [rows[|rows| - 1]];
      SelectPoints(rows[..|rows| - 1]) + [rows[|rows| - 1].point]
  }

  /** The point has an association row whose item is among the requested ones. */
  predicate HasRequestedItem(p: Point, links: seq<PointItem>, ids: seq<JsNum>)
  {
    exists l :: l in links && l.point_id == p.id && SqlIn(l.item_id, ids)
  }

  /** A point of the table that satisfies the three filters of `index`. */
  predicate PointMatches(p: Point, links: seq<PointItem>, ids: seq<JsNum>, city: string, uf: string)
  {
    p.city == city && p.uf == uf && HasRequestedItem(p, links, ids)
  }

  /** The rows of `points` that `index` selects, DISTINCT. */
  function IndexRows(points: seq<Point>, links: seq<PointItem>, ids: seq<JsNum>, city: string, uf: string)
    : (r: seq<Point>)
    ensures NoDup(r)
    ensures forall p :: p in r <==> p in points && PointMatches(p, links, ids, city, uf)
  {
    var joined := JoinPoints(points, links);
    var filtered := Filter(joined, row => RowMatches(row, ids, city, uf));
    var selected := SelectPoints(filtered);
    var r := Dedup(selected);
    assert forall p :: p in points && PointMatches(p, links, ids, city, uf) ==> p in r by {
      forall p | p in points && PointMatches(p, links, ids, city, uf) ensures p in r {
        var l :| l in links && l.point_id == p.id && SqlIn(l.item_id, ids);
        assert JoinedRow(p, l) in joined;
        assert JoinedRow(p, l) in filtered;
      }
    }
    r
  }

  /** `GET /points?city&uf&items`: the matching points, each once, serialised. */
  function Index(points: seq<Point>, links: seq<PointItem>, q: IndexQuery): (r: seq<SerializedPoint>)
    ensures NoDup(r)
    ensures forall k :: 0 <= k < |r| ==>
      Stored(r[k]) in points && r[k].city == JsString(q.city) && r[k].uf == JsString(q.uf)
      && HasRequestedItem(Stored(r[k]), links, ParseItemIds(JsString(q.items)))
      && r[k].image_url == UploadsUrl + r[k].image
    ensures forall p :: (p in points && PointMatches(p, links, ParseItemIds(JsString(q.items)), JsString(q.city), JsString(q.uf)))
                        ==> Serialize(p) in r
  {
    var ids := ParseItemIds(JsString(q.items));
    var rows := IndexRows(points, links, ids, JsString(q.city), JsString(q.uf));
    SerializeAllNoDup(rows);
    SerializeAllMembers(rows);
    SerializeAll(rows)
  }

  /** The serialised list holds exactly the serialisations of the input points. */
  lemma SerializeAllMembers(ps: seq<Point>)
    ensures forall k :: 0 <= k < |SerializeAll(ps)| ==> Stored(SerializeAll(ps)[k]) in ps
    ensures forall p :: p in ps ==> Serialize(p) in SerializeAll(ps)
  {
    var r := SerializeAll(ps);
    assert forall k :: 0 <= k < |r| ==> Stored(r[k]) == ps[k];
    forall p | p in ps ensures Serialize(p) in r {
      var k :| 0 <= k < |ps| && ps[k] == p;
      assert r[k] == Serialize(p);
    }
  }

  /** A missing `items` parameter reads as the text "undefined", whose only segment is NaN. */
  lemma UndefinedIsNaN()
    ensures ParseItemIds(JsString(None)) == [NaN]
  {
    var u := JsString(None);
    assert u[0] == 'u' && u[|u| - 1] == 'd';
    assert forall k :: 0 <= k < |u| ==> u[k] != ',';
    WordIsNaN(u);
  }

  /** Without an `items` parameter nothing matches, so `index` answers an empty list. */
  lemma IndexWithoutItemsIsEmpty(points: seq<Point>, links: seq<PointItem>, city: Option<string>, uf: Option<string>)
    ensures Index(points, links, IndexQuery(city, uf, None)) == []
  {
    UndefinedIsNaN();
    OnlyNaNIsEmpty(points, links, IndexQuery(city, uf, None));
  }

  /** An id list that parses to NaN alone selects no point, since NaN equals no item. */
  lemma OnlyNaNIsEmpty(points: seq<Point>, links: seq<PointItem>, q: IndexQuery)
    requires ParseItemIds(JsString(q.items)) == [NaN]
    ensures Index(points, links, q) == []
  {
    var r := Index(points, links, q);
    if |r| > 0 {
      assert false;
    }
  }

  // ------------------------------------------------------------ show

  /** Comparing an integer id column with a text parameter: SQLite converts a text that is an
      integer literal to that integer; any other text equals no integer. */
  predicate IdEquals(id: int, text: string)
  {
    IntLiteral(text) == Some(id)
  }

  /** The text `String(id)` of an id selects that id. */
  lemma IdEqualsOwnRendering(id: int)
    ensures IdEquals(id, IntToString(id))
  {
    IntLiteralOfIntToString(id);
  }

  /** An id text selects at most one id. */
  lemma IdEqualsFunctional(a: int, b: int, text: string)
    requires IdEquals(a, text) && IdEquals(b, text)
    ensures a == b
  {
  }

  /** The first point whose id equals the requested id text. */
  function FirstWithId(points: seq<Point>, text: string): (r: Option<Point>)
    ensures r.None? <==> forall p :: p in points ==> !IdEquals(p.id, text)
    ensures r.Some? ==> r.value in points && IdEquals(r.value.id, text)
  {
    if |points| == 0 then None
    else if IdEquals(points[0].id, text) then Some(points[0])
    else FirstWithId(points[1..], text)
  }

  /** A row of `items JOIN point_items ON point_items.item_id = items.id`. */
  datatype ItemLink = ItemLink(item: Item, link: PointItem)

  function LinksOfItem(i: Item, links: seq<PointItem>, text: string): (r: seq<ItemLink>)
    ensures forall x :: x in r <==> x.item == i && x.link in links && x.link.item_id == Num(i.id) && IdEquals(x.link.point_id, text)
  {
    if |links| == 0 then []
    else
      var rest := LinksOfItem(i, links[..|links| - 1], text);
      var l := links[|links| - 1];
      assert links == links[..|links| - 1] + [l];
      if l.item_id == Num(i.id) && IdEquals(l.point_id, text) then rest + [ItemLink(i, l)] else rest
  }

  /** The items query of `show`: the join restricted to `point_items.point_id = id`. */
  function ItemsOfPoint(items: seq<Item>, links: seq<PointItem>, text: string): (r: seq<ItemLink>)
    ensures forall x :: x in r <==> x.item in items && x.link in links && x.link.item_id == Num(x.item.id) && IdEquals(x.link.point_id, text)
  {
    if |items| == 0 then []
    else
      assert items == items[..|items| - 1] + [items[|items| - 1]];
      ItemsOfPoint(items[..|items| - 1], links, text) + LinksOfItem(items[|items| - 1], links, text)
  }

  datatype ShowBody = ErrorMessage(message: string) | PointDetail(point: SerializedPoint, items: seq<ItemLink>)
  datatype ShowResponse = ShowResponse(status: int, body: ShowBody)

  /** `GET /points/:id`. */
  function Show(points: seq<Point>, links: seq<PointItem>, items: seq<Item>, text: string): (r: ShowResponse)
    ensures (r.status == 400 && r.body == ErrorMessage("Point not found"))
      <==> forall p :: p in points ==> !IdEquals(p.id, text)
    ensures r.status == 400 || r.status == 200
    ensures r.status == 200 <==> exists p :: p in points && IdEquals(p.id, text)
    ensures r.status == 400 ==> r.body == ErrorMessage("Point not found")
    ensures r.status == 200 ==>
              && r.body.PointDetail?
              && Stored(r.body.point) in points && IdEquals(r.body.point.id, text)
              && r.body.point.image_url == UploadsUrl + r.body.point.image
              && (forall x :: x in r.body.items <==>
                    x.item in items && x.link in links && x.link.item_id == Num(x.item.id) && x.link.point_id == r.body.point.id)
  {
    match FirstWithId(points, text)
    case None => ShowResponse(400, ErrorMessage("Point not found"))
    case Some(p) =>
      var detail := ItemsOfPoint(items, links, text);
      assert forall x: ItemLink :: IdEquals(x.link.point_id, text) <==> x.link.point_id == p.id;
      ShowResponse(200, PointDetail(Serialize(p), detail))
  }

  // ------------------------------------------------------------ create

  /** The validated body of `POST /points`. */
  datatype CreateBody = CreateBody(name: string, email: string, whatsapp: string, latitude: string,
                                   longitude: string, city: string, uf: string, items: string)

  /** The file the upload middleware stored. */
  datatype UploadedFile = UploadedFile(filename: string)

  /** What `create` answers: the new id with the inserted columns, or, when the
      request carries no uploaded file, the TypeError that rejects the handler's
      promise, after which no response is sent. */
  datatype CreateOutcome = Created(point: Point) | MissingUpload

  /** The point row `create` inserts (its `image` is the stored filename). */
  function NewPointRow(id: int, body: CreateBody, file: UploadedFile): (r: Point)
    ensures r.id == id
    ensures Serialize(r).image_url == UploadsUrl + file.filename
  {
    Point(id, file.filename, body.name, body.email, body.whatsapp, body.latitude, body.longitude, body.city, body.uf)
  }

  function Ids(points: seq<Point>): set<int>
  {
    set p | p in points :: p.id
  }

  /** The largest id of a non-empty table. */
  function MaxId(points: seq<Point>): (m: int)
    requires |points| > 0
    ensures forall p :: p in points ==> p.id <= m
    ensures m in Ids(points)
  {
    if |points| == 1 then points[0].id
    else
      var rest := MaxId(points[1..]);
      assert forall p :: p in points ==> p == points[0] || p in points[1..];
      if points[0].id > rest then points[0].id else rest
  }

  /** The id the database generates for an insert: 1 in an empty table, and
      otherwise one above the largest id in use. */
  function NextId(points: seq<Point>): (n: int)
    ensures n !in Ids(points)
    ensures |points| == 0 ==> n == 1
    ensures |points| > 0 ==> n - 1 in Ids(points) && forall p :: p in points ==> p.id < n
  {
    if |points| == 0 then 1 else MaxId(points) + 1
  }

  /** The table invariant: point ids are unique and every association row
      refers to an existing point. */
  ghost predicate WellFormed(points: seq<Point>, links: seq<PointItem>)
  {
    && (forall i, j :: 0 <= i < j < |points| ==> points[i].id != points[j].id)
    && (forall l :: l in links ==> l.point_id in Ids(points))
  }

  /** Rows of `point_items` that belong to point `id`. */
  function LinkCount(links: seq<PointItem>, id: int): (n: nat)
    ensures n <= |links|
    ensures n == 0 <==> forall l :: l in links ==> l.point_id != id
  {
    if |links| == 0 then 0 else (if links[0].point_id == id then 1 else 0) + LinkCount(links[1..], id)
  }

  lemma {:induction false} LinkCountAppend(a: seq<PointItem>, b: seq<PointItem>, id: int)
    ensures LinkCount(a + b, id) == LinkCount(a, id) + LinkCount(b, id)
  {
    if |a| == 0 {
      assert a + b == b;
    } else {
      assert (a + b)[1..] == a[1..] + b;
      LinkCountAppend(a[1..], b, id);
    }
  }

  lemma {:induction false} LinkCountAll(links: seq<PointItem>, id: int)
    requires forall l :: l in links ==> l.point_id == id
    ensures LinkCount(links, id) == |links|
  {
    if |links| > 0 {
      assert forall l :: l in links[1..] ==> l in links;
      LinkCountAll(links[1..], id);
    }
  }

  /** Appending a point with an unused id and association rows that all refer
      to it keeps the tables well formed. */
  lemma AppendKeepsWellFormed(points: seq<Point>, links: seq<PointItem>, row: Point, added: seq<PointItem>)
    requires WellFormed(points, links)
    requires row.id !in Ids(points)
    requires forall l :: l in added ==> l.point_id == row.id
    ensures WellFormed(points + [row], links + added)
  {
    var points' := points + [row];
    assert forall k :: 0 <= k < |points| ==> points[k] in points;
    assert Ids(points') == Ids(points) + {row.id} by {
      assert forall p :: p in points' <==> p in points || p == row;
    }
  }

  /** After a create on a well-formed store, the new id names exactly one point
      row and exactly as many association rows as the item list has segments. */
  lemma {:induction false} CreatedIdIsExact(points: seq<Point>, links: seq<PointItem>, row: Point, ids: seq<JsNum>)
    requires WellFormed(points, links)
    requires row.id !in Ids(points)
    ensures forall k :: 0 <= k < |points| + 1 && (points + [row])[k].id == row.id ==> k == |points|
    ensures LinkCount(links + PointItemsFor(row.id, ids), row.id) == |ids|
  {
    assert forall k :: 0 <= k < |points| ==> points[k] in points;
    var added := PointItemsFor(row.id, ids);
    assert LinkCount(links, row.id) == 0;
    LinkCountAppend(links, added, row.id);
    assert forall l :: l in added ==> l.point_id == row.id;
    LinkCountAll(added, row.id);
  }

  /** The database, held as three tables. */
  class Store {
    var points: seq<Point>
    var pointItems: seq<PointItem>
    var items: seq<Item>

    ghost predicate Valid()
      reads this
    {
      WellFormed(points, pointItems)
    }

    /** A database with the given categories and no points. */
    constructor (categories: seq<Item>)
      ensures Valid()
      ensures points == [] && pointItems == [] && items == categories
    {
      points := [];
      pointItems := [];
      items := categories;
    }

    /** `create`: insert the point row, then one association row per parsed
        id carrying the new point's id, and answer with the new id and the inserted columns. */
    method Create(body: CreateBody, file: Option<UploadedFile>) returns (outcome: CreateOutcome)
      requires Valid()
      modifies this
      ensures Valid()
      ensures items == old(items)
      ensures file.None? ==> outcome == MissingUpload && points == old(points) && pointItems == old(pointItems)
      ensures file.Some? ==>
        var id := NextId(old(points));
        && id !in Ids(old(points))
        && outcome == Created(NewPointRow(id, body, file.value))
        && outcome.point.image == file.value.filename
        && points == old(points) + [outcome.point]
        && pointItems == old(pointItems) + PointItemsFor(id, ParseItemIds(body.items))
    {
      // The transaction is opened first; reading the upload's file name then
      // throws when there is no file, before any insert.
      if file.None? {
        outcome := MissingUpload;
        return;
      }
      var row := NewPointRow(NextId(points), body, file.value);
      var pointId := row.id;
      var rows := PointItemsFor(pointId, ParseItemIds(body.items));
      AppendKeepsWellFormed(points, pointItems, row, rows);
      points := points + [row];
      pointItems := pointItems + rows;
      outcome := Created(row);
    }
  }
}
