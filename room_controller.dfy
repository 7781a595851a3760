/**
 * RoomController behind its two route groups: `/rooms` (index and show, no sign-in) and
 * `/room` (every action, behind the api guard). The admin role is required for store,
 * update, destroy, uploadImages and deleteImage. Responses are a status and a body.
 */
module RoomController {
  import opened Wrappers
  import opened Text
  import opened Values
  import opened RoomsTable
  import opened RoomModel
  import opened RoomQuery
  import opened RoomsDto
  import opened RoomRequest
  import opened Services

  // ---- routes and the gate ----

  datatype Action = IndexAction | ShowAction | StoreAction | UpdateAction | DestroyAction | UploadImagesAction | DeleteImageAction

  /** The two route groups: `/rooms` without sign-in, `/room` behind the api guard. */
  datatype RouteGroup = PublicRooms | AuthenticatedRoom

  /** The actions each group routes to. */
  predicate Routes(g: RouteGroup, a: Action) {
    g == AuthenticatedRoom || a == IndexAction || a == ShowAction
  }

  /** The controller's middleware table: the role middleware guards exactly these actions. */
  predicate RequiresAdmin(a: Action) {
    a == StoreAction || a == UpdateAction || a == DestroyAction || a == UploadImagesAction || a == DeleteImageAction
  }

  /**
   * The status a request is refused with before the action runs: 401 from the api guard for a
   * caller who is not signed in, then 403 from the role middleware for a caller without the
   * admin role; None when the action runs.
   */
  function Gate(g: RouteGroup, a: Action, c: Caller): (r: Option<nat>)
    requires Routes(g, a)
    ensures r.None? <==> (g == PublicRooms || !c.Anonymous?) && (!RequiresAdmin(a) || c.Admin?)
    ensures r.Some? ==> (r.value == 401 <==> g == AuthenticatedRoom && c.Anonymous?)
    ensures r.Some? ==> r.value == 401 || r.value == 403
  {
    if g == AuthenticatedRoom && c.Anonymous? then Some(401)
    else if RequiresAdmin(a) && !c.Admin? then Some(403)
    else None
  }

  /** Only an admin gets past the gate to a mutating action, on any route. */
  lemma MutationsNeedAdmin(g: RouteGroup, a: Action, c: Caller)
    requires Routes(g, a) && RequiresAdmin(a)
    ensures Gate(g, a, c).None? <==> c.Admin?
    ensures c.User? ==> Gate(g, a, c) == Some(403)
    ensures c.Anonymous? ==> Gate(g, a, c) == Some(401)
  {
  }

  /** index and show are open to everyone under /rooms and to every signed-in caller under /room. */
  lemma ReadsAreOpen(a: Action, c: Caller)
    requires a == IndexAction || a == ShowAction
    ensures Gate(PublicRooms, a, c).None?
    ensures Gate(AuthenticatedRoom, a, c).None? <==> !c.Anonymous?
  {
  }

  /** index's admin test: a signed-in caller with the admin role; no caller counts as no admin. */
  predicate IsAdmin(c: Caller) {
    c.Admin?
  }

  // ---- index ----

  /** The keys `only` passes to the filter. */
  const FilterKeys: set<string> := {"bedrooms", "bathrooms", "price", "area", "search", "type", "is_available"}

  /** $request->only([...]): the query restricted to the seven filter keys. */
  function Only(query: map<string, string>): (f: map<string, string>)
    ensures f.Keys == query.Keys * FilterKeys
    ensures forall k :: k in f ==> f[k] == query[k]
  {
    map k | k in query && k in FilterKeys :: query[k]
  }

  /** A key outside the seven never changes what reaches the filter. */
  lemma OtherKeysIgnored(query: map<string, string>, k: string, v: string)
    requires k !in FilterKeys
    ensures Only(query[k := v]) == Only(query)
  {
  }

  /**
   * A filter sent empty or as white space (`?bedrooms=`) reaches the service as null, which
   * isset skips: the listing is the one without that key.
   */
  lemma BlankFilterSkipped(query: map<string, string>, k: string, v: string)
    requires AllSpace(v)
    ensures Only(CleanQuery(query[k := v])) == Only(CleanQuery(query - {k}))
  {
    CleanQueryBlank(query, k, v);
  }

  /** A padded filter reaches the service trimmed: `?search=%20luxury` searches for "luxury". */
  lemma FilterTextTrimmed(query: map<string, string>, k: string, pre: string, term: string, post: string)
    requires k in FilterKeys && AllSpace(pre) && AllSpace(post) && term != [] && Unpadded(term)
    ensures k in Only(CleanQuery(query[k := pre + term + post]))
    ensures Only(CleanQuery(query[k := pre + term + post]))[k] == term
  {
    TrimPadded(pre, term, post);
    assert !IsSpaceChar(term[0]) && (pre + term + post)[|pre|] == term[0];
  }

  /**
   * $request->input('per_page', 15) passed to an int parameter: 15 when the key is absent. The
   * cleaned text is truncated toward zero when it is numeric and its value fits a PHP integer;
   * null (a blank text), any other text and an out-of-range value are a TypeError (None,
   * answered with 500).
   */
  function ResolvePerPage(v: Option<string>): (r: Option<int>)
    ensures v.None? ==> r == Some(15)
    ensures v.Some? && AllSpace(v.value) ==> r.None?
    ensures v.Some? && !AllSpace(v.value) ==> r == PerPageOfText(Trim(v.value))
    ensures r.Some? ==> PhpIntMin <= r.value <= PhpIntMax
  {
    match v
    case None => Some(15)
    case Some(raw) =>
      match CleanText(raw)
      case None => None
      case Some(s) => PerPageOfText(s)
  }

  /** A cleaned text passed to an int parameter: its value truncated toward zero when it is numeric and fits, else a TypeError. */
  function PerPageOfText(s: string): (r: Option<int>)
    ensures r.Some? <==> IsDecimalLiteral(s) && PhpIntMin <= Values.TruncateCents(TruncatedCents(s)) <= PhpIntMax
    ensures r.Some? ==> r.value == Values.TruncateCents(TruncatedCents(s))
  {
    if IsDecimalLiteral(s) && PhpIntMin <= Values.TruncateCents(TruncatedCents(s)) <= PhpIntMax
    then Some(Values.TruncateCents(TruncatedCents(s))) else None
  }

  /** Clean text reaches the int parameter as it is. */
  lemma PerPageOfCleanText(s: string)
    requires s != [] && Unpadded(s)
    ensures ResolvePerPage(Some(s)) == PerPageOfText(s)
  {
    CleanTextUnpadded(s);
  }

  /** An integer written out is read back as that page size when PHP can hold it, and is refused otherwise. */
  lemma PerPageRoundTrip(n: int)
    ensures PhpIntMin <= n <= PhpIntMax ==> ResolvePerPage(Some(IntToString(n))) == Some(n)
    ensures n > PhpIntMax || n < PhpIntMin ==> ResolvePerPage(Some(IntToString(n))) == None
  {
    var s := IntToString(n);
    IntToStringUnpadded(n);
    PerPageOfCleanText(s);
    IntToStringCents(n);
  }

  /**
   * FILTER_VALIDATE_INT and the at-least-1 test on a cleaned text: an optional sign, then 0 or
   * digits without a leading zero, within PHP_INT_MAX, and at least 1; anything else is page 1.
   */
  function PageOfText(s: string): (p: nat)
    ensures 1 <= p <= PhpIntMax
  {
    var (negative, b) := SplitSign(s);
    if !negative && b != [] && AllDigits(b) && b[0] != '0' && 1 <= DigitsValue(b) <= PhpIntMax then DigitsValue(b) else 1
  }

  /** The page number the paginator resolves from `page`; null, which a blank text becomes, is page 1. */
  function ResolvePage(v: Option<string>): (p: nat)
    ensures 1 <= p <= PhpIntMax
    ensures v.Some? && !AllSpace(v.value) ==> p == PageOfText(Trim(v.value))
  {
    match v
    case None => 1
    case Some(raw) =>
      match CleanText(raw)
      case None => 1
      case Some(s) => PageOfText(s)
  }

  /** Clean text reaches the page test as it is. */
  lemma PageOfCleanText(s: string)
    requires s != [] && Unpadded(s)
    ensures ResolvePage(Some(s)) == PageOfText(s)
  {
    CleanTextUnpadded(s);
  }

  /** Digits without a leading zero are that page, up to PHP_INT_MAX. */
  lemma PageOfDigits(s: string)
    requires s != [] && AllDigits(s) && s[0] != '0'
    ensures DigitsValue(s) <= PhpIntMax ==> PageOfText(s) == DigitsValue(s)
    ensures DigitsValue(s) > PhpIntMax ==> PageOfText(s) == 1
  {
    assert SplitSign(s) == (false, s) by {
      assert IsDigit(s[0]);
    }
  }

  /** A page number written out is that page, up to PHP_INT_MAX; beyond it the page is 1. */
  lemma PageRoundTrip(n: nat)
    requires n >= 1
    ensures n <= PhpIntMax ==> ResolvePage(Some(NatToString(n))) == n
    ensures n > PhpIntMax ==> ResolvePage(Some(NatToString(n))) == 1
  {
    var s := NatToString(n);
    NatToStringUnpadded(n);
    PageOfCleanText(s);
    NatToStringLeadsWithNonZero(n);
    NatToStringValue(n);
    PageOfDigits(s);
  }

  /** "0", a text without digits and a blank text are page 1. */
  lemma PageFallsBackToFirst(blank: string)
    requires AllSpace(blank)
    ensures ResolvePage(Some("0")) == 1 && ResolvePage(Some("abc")) == 1 && ResolvePage(Some(blank)) == 1
  {
    assert PageOfText("0") == 1 by {
      assert SplitSign("0") == (false, "0");
    }
    assert PageOfText("abc") == 1 by {
      assert SplitSign("abc") == (false, "abc");
      assert !IsDigit("abc"[0]);
    }
    assert Unpadded("0") && Unpadded("abc");
    PageOfCleanText("0");
    PageOfCleanText("abc");
    assert CleanText(blank).None?;
  }

  /** The reply's meta block. */
  datatype Meta = Meta(total: nat, perPage: int, currentPage: nat, lastPage: nat, from: Option<int>, to: Option<int>)

  function MetaOf<T>(p: Page<T>): (m: Meta)
    ensures m.total == p.total && m.perPage == p.perPage && m.currentPage == p.currentPage
    ensures m.lastPage == p.lastPage && m.from == p.from && m.to == p.to
  {
    Meta(p.total, p.perPage, p.currentPage, p.lastPage, p.from, p.to)
  }

  // ---- uploadImages ----

  /**
   * uploadImages' own rules: `images` is required (present, and a non-empty list) and each
   * file passes image, mimes:jpeg,png,jpg,webp and max:5120.
   */
  function UploadErrors(images: Option<seq<Upload>>): (e: set<string>)
    ensures e == {} <==> images.Some? && images.value != [] && forall i :: 0 <= i < |images.value| ==> ImageValid(images.value[i])
    ensures images.Some? && images.value != [] ==> e == ImageErrors(images.value)
  {
    if images.None? || images.value == [] then {"images"} else ImageErrors(images.value)
  }

  /** One bad file rejects the whole batch, naming that file's position. */
  lemma OneBadFileRejectsBatch(files: seq<Upload>, i: nat)
    requires i < |files| && !ImageValid(files[i])
    ensures ImageKey(i) in UploadErrors(Some(files))
  {
  }

  // ---- responses ----

  datatype Body =
    | Listing(data: seq<RoomView>, meta: Meta)
    | One(room: RoomView)
    | Saved(message: string, room: RoomView)
    | Done(message: string)
    | UploadedTo(message: string, room: RoomView, images: seq<nat>)
    | Errors(keys: set<string>)
    | Empty

  datatype Response = Response(status: nat, body: Body)

  /** Every column of a stored row, with its image list and media: what the full model serialises to. */
  function FullView(r: Room, appUrl: string, ms: seq<Media>): RoomView {
    View(r, AllColumns, appUrl, ms)
  }

  /** The ids of a room's `images` collection, in order. */
  function ImageIds(ms: seq<Media>): (ids: seq<nat>)
    ensures |ids| == |ms|
    ensures forall k :: 0 <= k < |ms| ==> ids[k] == ms[k].id
  {
    seq(|ms|, k requires 0 <= k < |ms| => ms[k].id)
  }

  class Controller {
    const service: RoomService

    constructor(service: RoomService)
      ensures this.service == service
    {
      this.service := service;
    }

    /**
     * index: the whitelisted filters, the resolved page size and page, and the caller's admin
     * test go to getRooms; the reply holds the page's items and its meta block.
     */
    method Index(g: RouteGroup, c: Caller, query: map<string, string>, perPage: Option<string>, page: Option<string>)
      returns (resp: Response)
      ensures Gate(g, IndexAction, c).Some? ==> resp == Response(Gate(g, IndexAction, c).value, Empty)
      ensures Gate(g, IndexAction, c).None? && ResolvePerPage(perPage).None? ==> resp == Response(500, Empty)
      ensures Gate(g, IndexAction, c).None? && ResolvePerPage(perPage).Some? ==>
        var p := Paginate(Views(Matching(service.rooms, Only(CleanQuery(query)), IsAdmin(c)), ColumnsFor(IsAdmin(c)), service.appUrl, service.media),
                          ResolvePerPage(perPage).value, ResolvePage(page));
        resp == Response(200, Listing(p.items, MetaOf(p)))
    {
      var gate := Gate(g, IndexAction, c);
      if gate.Some? {
        return Response(gate.value, Empty);
      }
      var size := ResolvePerPage(perPage);
      if size.None? {
        return Response(500, Empty);
      }
      var p := service.GetRooms(Only(CleanQuery(query)), size.value, ResolvePage(page), IsAdmin(c));
      resp := Response(200, Listing(p.items, MetaOf(p)));
    }

    /** show: any live room, available or not, with every column; 404 otherwise. */
    method Show(g: RouteGroup, c: Caller, id: int) returns (resp: Response)
      requires service.Valid()
      ensures Gate(g, ShowAction, c).Some? ==> resp == Response(Gate(g, ShowAction, c).value, Empty)
      ensures Gate(g, ShowAction, c).None? && !service.IsLive(id) ==> resp == Response(404, Empty)
      ensures Gate(g, ShowAction, c).None? && service.IsLive(id) ==>
        resp == Response(200, One(FullView(service.rooms[id - 1], service.appUrl, service.media)))
    {
      var gate := Gate(g, ShowAction, c);
      if gate.Some? {
        return Response(gate.value, Empty);
      }
      var r := service.GetRoomById(id);
      if r.Failure? {
        return Response(404, Empty);
      }
      resp := Response(200, One(FullView(r.value, service.appUrl, service.media)));
    }

    /**
     * store: after the gate and the form request, the validated data becomes a DTO and a new
     * room owned by the caller, answered with 201. A refused or invalid request stores nothing.
     */
    method Store(c: Caller, input: map<string, Value>, images: Option<seq<Upload>>, now: int) returns (resp: Response)
      requires service.Valid()
      modifies service
      ensures service.Valid()
      ensures resp.status != 201 ==> service.rooms == old(service.rooms) && service.media == old(service.media)
      ensures c.Anonymous? ==> resp.status == 401
      ensures c.User? ==> resp.status == 403
      ensures resp.status == 201 ==> c.Admin? && |service.rooms| == |old(service.rooms)| + 1
      ensures resp.status == 201 ==> service.rooms[|old(service.rooms)|].ownerId == Some(c.id)
      ensures resp.status == 201 ==> service.rooms[..|old(service.rooms)|] == old(service.rooms)
      ensures resp.status == 201 || resp.status == 401 || resp.status == 403 || resp.status == 422 || resp.status == 500
      ensures c.Admin? ==> (resp.status == 422 <==> RequestDto(CleanInput(input), images, old(service.rooms), None).Failure?)
      ensures c.Admin? && RequestDto(CleanInput(input), images, old(service.rooms), None).Failure? ==>
        resp == Response(422, Errors(RequestDto(CleanInput(input), images, old(service.rooms), None).error))
      ensures c.Admin? && RequestDto(CleanInput(input), images, old(service.rooms), None).Success? ==>
        var row := InsertRow(|old(service.rooms)| + 1, Some(c.id), CreateColumns(RequestDto(CleanInput(input), images, old(service.rooms), None).value),
                             old(service.users), now);
        && (resp.status == 201 <==> row.Success?)
        && (row.Failure? ==> resp == Response(500, Empty))
        && (row.Success? ==> service.rooms == old(service.rooms) + [row.value])
        && (row.Success? ==> service.media == old(service.media) + Uploaded(old(service.nextMediaId), row.value.id, images.GetOr([])))
        && (row.Success? ==> resp.body == Saved("Room created successfully", FullView(row.value, service.appUrl, service.media)))
    {
      var gate := Gate(AuthenticatedRoom, StoreAction, c);
      if gate.Some? {
        return Response(gate.value, Empty);
      }
      var request := new FormRequest(CleanInput(input), images, None, c);
      var resolved := request.Resolve(service.rooms);
      if resolved.Failure? {
        // the gate has let only admins through, so authorize passes and only validation can fail
        return Response(422, Errors(resolved.error.errors));
      }
      ValidatedIsAcceptable(request.input, images, service.rooms, None);
      var dto := FromArray(resolved.value);
      var created := service.CreateRoom(dto, images, Some(c.id), now);
      if created.Failure? {
        return Response(500, Empty);
      }
      assert service.rooms[..|old(service.rooms)|] == old(service.rooms);
      resp := Response(201, Saved("Room created successfully", FullView(created.value, service.appUrl, service.media)));
    }

    /**
     * update: after the gate and the form request (which ignores the room's own name), the
     * nine data columns of the live room are replaced; 404 for a missing or trashed id.
     */
    method Update(c: Caller, id: int, input: map<string, Value>, images: Option<seq<Upload>>, now: int) returns (resp: Response)
      requires service.Valid()
      modifies service
      ensures service.Valid() && service.media == old(service.media)
      ensures resp.status != 200 ==> service.rooms == old(service.rooms)
      ensures c.Anonymous? ==> resp.status == 401
      ensures c.User? ==> resp.status == 403
      ensures resp.status == 200 ==> c.Admin? && old(service.IsLive(id)) && |service.rooms| == |old(service.rooms)|
      ensures resp.status == 200 ==> forall i :: 0 <= i < |service.rooms| && i != id - 1 ==> service.rooms[i] == old(service.rooms)[i]
      ensures resp.status == 200 ==> service.rooms[id - 1].id == id && service.rooms[id - 1].ownerId == old(service.rooms)[id - 1].ownerId
      ensures c.Admin? ==> (resp.status == 422 <==> RequestDto(CleanInput(input), images, old(service.rooms), Some(id)).Failure?)
      ensures c.Admin? && RequestDto(CleanInput(input), images, old(service.rooms), Some(id)).Failure? ==>
        resp == Response(422, Errors(RequestDto(CleanInput(input), images, old(service.rooms), Some(id)).error))
      ensures c.Admin? && RequestDto(CleanInput(input), images, old(service.rooms), Some(id)).Success? && !old(service.IsLive(id)) ==>
        resp == Response(404, Empty)
      ensures c.Admin? && RequestDto(CleanInput(input), images, old(service.rooms), Some(id)).Success? && old(service.IsLive(id)) ==>
        var u := UpdateRow(old(service.rooms)[id - 1], UpdateColumns(RequestDto(CleanInput(input), images, old(service.rooms), Some(id)).value), now);
        && (resp.status == 200 <==> u.Success?)
        && (u.Failure? ==> resp == Response(500, Empty))
        && (u.Success? ==> service.rooms == old(service.rooms)[id - 1 := u.value])
        && (u.Success? ==> resp.body == Saved("Room updated successfully", FullView(u.value, service.appUrl, service.media)))
    {
      var gate := Gate(AuthenticatedRoom, UpdateAction, c);
      if gate.Some? {
        return Response(gate.value, Empty);
      }
      var request := new FormRequest(CleanInput(input), images, Some(id), c);
      var resolved := request.Resolve(service.rooms);
      if resolved.Failure? {
        // the gate has let only admins through, so authorize passes and only validation can fail
        return Response(422, Errors(resolved.error.errors));
      }
      ValidatedIsAcceptable(request.input, images, service.rooms, Some(id));
      var dto := FromArray(resolved.value);
      var updated := service.UpdateRoom(id, dto, now);
      if updated.Failure? {
        return if updated.error == NotFound then Response(404, Empty) else Response(500, Empty);
      }
      resp := Response(200, Saved("Room updated successfully", FullView(updated.value, service.appUrl, service.media)));
    }

    /** destroy: the live room is soft-deleted; a caller without the admin role leaves it untouched. */
    method Destroy(c: Caller, id: int, now: int) returns (resp: Response)
      requires service.Valid()
      modifies service
      ensures service.Valid() && service.media == old(service.media)
      ensures Gate(AuthenticatedRoom, DestroyAction, c).Some? ==>
        resp == Response(Gate(AuthenticatedRoom, DestroyAction, c).value, Empty) && service.rooms == old(service.rooms)
      ensures c.Admin? && !old(service.IsLive(id)) ==> resp == Response(404, Empty) && service.rooms == old(service.rooms)
      ensures c.Admin? && old(service.IsLive(id)) ==> resp == Response(200, Done("Room deleted successfully"))
      ensures c.Admin? && old(service.IsLive(id)) ==>
        service.rooms == old(service.rooms)[id - 1 := SoftDelete(old(service.rooms)[id - 1], now)]
    {
      var gate := Gate(AuthenticatedRoom, DestroyAction, c);
      if gate.Some? {
        return Response(gate.value, Empty);
      }
      var deleted := service.DeleteRoom(id, now);
      if deleted.Failure? {
        return Response(404, Empty);
      }
      resp := Response(200, Done("Room deleted successfully"));
    }

    /**
     * uploadImages: the batch is checked before the room is looked up, so one bad file rejects
     * all of them and attaches nothing; a good batch joins the live room's `images` collection.
     */
    method UploadImages(c: Caller, id: int, images: Option<seq<Upload>>) returns (resp: Response)
      requires service.Valid()
      modifies service
      ensures service.Valid() && service.rooms == old(service.rooms)
      ensures Gate(AuthenticatedRoom, UploadImagesAction, c).Some? ==>
        resp == Response(Gate(AuthenticatedRoom, UploadImagesAction, c).value, Empty) && service.media == old(service.media)
      ensures c.Admin? && UploadErrors(images) != {} ==> resp == Response(422, Errors(UploadErrors(images))) && service.media == old(service.media)
      ensures c.Admin? && UploadErrors(images) == {} && !service.IsLive(id) ==> resp == Response(404, Empty) && service.media == old(service.media)
      ensures c.Admin? && UploadErrors(images) == {} && service.IsLive(id) ==> resp.status == 200
      ensures c.Admin? && UploadErrors(images) == {} && service.IsLive(id) ==>
        service.media == old(service.media) + Uploaded(old(service.nextMediaId), id, images.value)
      ensures resp.status == 200 ==>
        resp.body == UploadedTo("Images uploaded successfully", FullView(service.rooms[id - 1], service.appUrl, service.media),
                                ImageIds(Collected(MediaOf(service.media, id), Images)))
    {
      var gate := Gate(AuthenticatedRoom, UploadImagesAction, c);
      if gate.Some? {
        return Response(gate.value, Empty);
      }
      var errors := UploadErrors(images);
      if errors != {} {
        return Response(422, Errors(errors));
      }
      var room := service.UploadImages(id, images.value);
      if room.Failure? {
        return Response(404, Empty);
      }
      var own := MediaOf(service.media, id);
      resp := Response(200, UploadedTo("Images uploaded successfully", FullView(room.value, service.appUrl, service.media),
                                       ImageIds(Collected(own, Images))));
    }

    /** deleteImage: removes the room's own media item; 404 when either id does not match. */
    method DeleteImage(c: Caller, roomId: int, mediaId: nat) returns (resp: Response)
      requires service.Valid()
      modifies service
      ensures service.Valid() && service.rooms == old(service.rooms)
      ensures Gate(AuthenticatedRoom, DeleteImageAction, c).Some? ==>
        resp == Response(Gate(AuthenticatedRoom, DeleteImageAction, c).value, Empty) && service.media == old(service.media)
      ensures c.Admin? ==> (resp.status == 200 <==>
        service.IsLive(roomId) && exists m :: m in old(service.media) && m.id == mediaId && m.roomId == roomId)
      ensures c.Admin? && resp.status != 200 ==> resp == Response(404, Empty) && service.media == old(service.media)
      ensures resp.status == 200 ==> forall m :: m in service.media <==> m in old(service.media) && m.id != mediaId
    {
      var gate := Gate(AuthenticatedRoom, DeleteImageAction, c);
      if gate.Some? {
        return Response(gate.value, Empty);
      }
      var deleted := service.DeleteImage(roomId, mediaId);
      if deleted.Failure? {
        return Response(404, Empty);
      }
      resp := Response(200, Done("Image deleted successfully"));
    }
  }
}
