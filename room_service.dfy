/**
 * RoomService: the room catalog's operations on the rooms and media tables.
 *
 * The rooms table is a sequence in id order; row k holds id k + 1 (ids are assigned by
 * auto-increment and rows are never removed, only soft-deleted). The media table is a
 * sequence of media rows with a counter for the next id. `findOrFail` fails with
 * NotFound for an id that names no row or a soft-deleted one.
 */
module Services {
  import opened Wrappers
  import opened Values
  import opened RoomsTable
  import opened RoomModel
  import opened RoomQuery
  import opened RoomsDto

  datatype ServiceError = NotFound | StorageFailure(error: StorageError)

  /** The columns createRoom writes: the DTO's, with an empty description for a null one. */
  function CreateColumns(d: Dto): (c: Columns)
    ensures c.description == Some(d.description.GetOr(""))
    ensures c.isAvailable == Some(d.isAvailable != 0)
    ensures c.roomType == d.roomType && c.name == d.name && c.address == d.address
    ensures c.bedrooms == d.bedrooms && c.bathrooms == d.bathrooms && c.price == d.price && c.area == d.area
  {
    Columns(d.address, d.name, Some(d.description.GetOr("")), d.bedrooms, d.bathrooms, d.price, d.area,
            d.roomType, Some(d.isAvailable != 0))
  }

  /** The columns updateRoom writes: the same nine fields, availability included. */
  function UpdateColumns(d: Dto): Columns {
    CreateColumns(d)
  }

  /** The media rows a batch of files becomes: consecutive ids from `start`, all in `images`, in order. */
  function Uploaded(start: nat, roomId: nat, files: seq<Upload>): (ms: seq<Media>)
    ensures |ms| == |files|
    ensures forall k :: 0 <= k < |files| ==> ms[k] == NewMedia(start + k, roomId, Images, files[k].fileName)
  {
    seq(|files|, k requires 0 <= k < |files| => NewMedia(start + k, roomId, Images, files[k].fileName))
  }

  /** The position of a room's media row with the given id, if that room has one. */
  function FindMedia(ms: seq<Media>, roomId: nat, mediaId: nat): (r: Option<nat>)
    ensures r.Some? ==> r.value < |ms| && ms[r.value].id == mediaId && ms[r.value].roomId == roomId
    ensures r.None? ==> forall m :: m in ms ==> !(m.id == mediaId && m.roomId == roomId)
  {
    if ms == [] then None
    else if ms[0].id == mediaId && ms[0].roomId == roomId then Some(0)
    else match FindMedia(ms[1..], roomId, mediaId)
      case None => None
      case Some(k) => Some(k + 1)
  }

  lemma {:induction false} MediaOfOwn(ms: seq<Media>, roomId: nat)
    requires forall k :: 0 <= k < |ms| ==> ms[k].roomId == roomId
    ensures MediaOf(ms, roomId) == ms
  {
    if ms != [] {
      MediaOfOwn(ms[1..], roomId);
    }
  }

  lemma {:induction false} MediaOfForeign(ms: seq<Media>, roomId: nat)
    requires forall m :: m in ms ==> m.roomId != roomId
    ensures MediaOf(ms, roomId) == []
  {
    if ms != [] {
      MediaOfForeign(ms[1..], roomId);
    }
  }

  lemma {:induction false} CollectedAll(ms: seq<Media>, c: Collection)
    requires forall k :: 0 <= k < |ms| ==> ms[k].collection == c
    ensures Collected(ms, c) == ms
  {
    if ms != [] {
      CollectedAll(ms[1..], c);
    }
  }

  /** An upload extends the room's image list: its earlier images, then the new files in order. */
  lemma UploadExtendsImages(ms: seq<Media>, start: nat, roomId: nat, files: seq<Upload>)
    ensures Collected(MediaOf(ms + Uploaded(start, roomId, files), roomId), Images)
         == Collected(MediaOf(ms, roomId), Images) + Uploaded(start, roomId, files)
  {
    var up := Uploaded(start, roomId, files);
    MediaOfAppend(ms, up, roomId);
    MediaOfOwn(up, roomId);
    CollectedAppend(MediaOf(ms, roomId), up, Images);
    CollectedAll(up, Images);
  }

  /**
   * A room no media row referred to before the upload lists exactly the uploaded files, in
   * order, in its `images` attribute.
   */
  lemma NewRoomListsUploads(ms: seq<Media>, start: nat, roomId: nat, files: seq<Upload>, appUrl: string)
    requires forall m :: m in ms ==> m.roomId != roomId
    ensures Collected(MediaOf(ms + Uploaded(start, roomId, files), roomId), Images) == Uploaded(start, roomId, files)
    ensures var attr := ImagesAttribute(appUrl, MediaOf(ms + Uploaded(start, roomId, files), roomId));
      && |attr| == |files|
      && forall k :: 0 <= k < |files| ==> attr[k] == Entry(BaseUrl(appUrl), NewMedia(start + k, roomId, Images, files[k].fileName))
  {
    UploadExtendsImages(ms, start, roomId, files);
    MediaOfForeign(ms, roomId);
    assert Collected(MediaOf(ms, roomId), Images) == [];
    assert [] + Uploaded(start, roomId, files) == Uploaded(start, roomId, files);
  }

  class RoomService {
    var rooms: seq<Room>
    var media: seq<Media>
    var nextMediaId: nat
    var users: set<nat>
    /** config('app.url'), the root of every image URL. */
    const appUrl: string

    /**
     * The tables' invariants: row ids follow auto-increment order, owner references are valid,
     * media ids are unique and below the counter, every media row belongs to a stored room, and
     * no room holds more than one thumbnail.
     */
    ghost predicate Valid()
      reads this
    {
      && (forall i :: 0 <= i < |rooms| ==> rooms[i].id == i + 1 && OwnerReferenceValid(rooms[i], users))
      && (forall m :: m in media ==> m.id < nextMediaId && 1 <= m.roomId <= |rooms|)
      && UniqueIds(media)
      && (forall roomId :: |Collected(MediaOf(media, roomId), Thumbnail)| <= 1)
    }

    /** An id findOrFail finds: a stored row outside the trash. */
    predicate IsLive(id: int)
      reads this
    {
      1 <= id <= |rooms| && !IsTrashed(rooms[id - 1])
    }

    constructor(appUrl: string, users: set<nat>)
      ensures Valid() && this.appUrl == appUrl && this.users == users
      ensures rooms == [] && media == [] && nextMediaId == 1
    {
      this.appUrl := appUrl;
      this.users := users;
      rooms := [];
      media := [];
      nextMediaId := 1;
    }

    /**
     * RoomsFilter: one condition per filter that is set, in key order; `type` and `is_available`
     * also skip "". The query then admits exactly the rows it admitted before that also pass
     * every filter of the bag.
     */
    method RoomsFilter(q: Builder, filters: map<string, string>)
      modifies q
      ensures q.columns == old(q.columns)
      ensures forall r :: q.Matches(r) <==> old(q.Matches(r)) && MatchesFilters(r, filters)
    {
      FilterNumber(q, filters, "bedrooms", Bedrooms);
      FilterNumber(q, filters, "bathrooms", Bathrooms);
      FilterNumber(q, filters, "price", Price);
      FilterNumber(q, filters, "area", Area);
      FilterSearch(q, filters);
      FilterType(q, filters);
      FilterAvailability(q, filters);
    }

    /** if (isset($filters[key])) where(column, $filters[key]) */
    method FilterNumber(q: Builder, filters: map<string, string>, key: string, col: NumericColumn)
      modifies q
      ensures q.columns == old(q.columns)
      ensures forall r :: q.Matches(r) <==> old(q.Matches(r)) && NumericFilterHolds(r, filters, key, col)
    {
      if key in filters {
        q.Where(NumberEquals(col, filters[key]));
      }
    }

    /** The search term is lower-cased once, then matched against the lower-cased name or description. */
    method FilterSearch(q: Builder, filters: map<string, string>)
      modifies q
      ensures q.columns == old(q.columns)
      ensures forall r :: q.Matches(r) <==> old(q.Matches(r)) && SearchHolds(r, filters)
    {
      if "search" in filters {
        var search := Text.Lower(filters["search"]);
        q.Where(SearchLike(search));
      }
    }

    method FilterType(q: Builder, filters: map<string, string>)
      modifies q
      ensures q.columns == old(q.columns)
      ensures forall r :: q.Matches(r) <==> old(q.Matches(r)) && TypeHolds(r, filters)
    {
      if "type" in filters && filters["type"] != "" {
        q.Where(TypeEquals(filters["type"]));
      }
    }

    /** The flag is compared after an (int) cast of the text. */
    method FilterAvailability(q: Builder, filters: map<string, string>)
      modifies q
      ensures q.columns == old(q.columns)
      ensures forall r :: q.Matches(r) <==> old(q.Matches(r)) && AvailabilityHolds(r, filters)
    {
      if "is_available" in filters && filters["is_available"] != "" {
        q.Where(AvailableEquals(Text.PhpIntCast(filters["is_available"])));
      }
    }

    /**
     * getRooms: the query selects the caller's columns, keeps only available rows for a caller
     * without the admin role, applies the filters, and paginates. The page is the pagination of
     * exactly the visible matching rows, in table order, each with its media.
     */
    method GetRooms(filters: map<string, string>, perPage: int, page: nat, isAdmin: bool) returns (p: Page<RoomView>)
      requires page >= 1
      ensures p == Paginate(Views(Matching(rooms, filters, isAdmin), ColumnsFor(isAdmin), appUrl, media), perPage, page)
    {
      var q := new Builder();
      if isAdmin {
        q.Select(AdminColumns);
      } else {
        q.Select(PublicColumns);
        q.Where(AvailableEquals(1));
      }
      RoomsFilter(q, filters);
      assert forall r :: q.Matches(r) <==> (isAdmin || r.isAvailable) && MatchesFilters(r, filters);
      RunIsMatching(rooms, q.clauses, filters, isAdmin);
      var rows := Run(rooms, q.clauses);
      p := Paginate(Views(rows, q.columns, appUrl, media), perPage, page);
    }

    /** getRoomById: the stored row whatever its availability, or NotFound for a missing or trashed id. */
    method GetRoomById(id: int) returns (r: Result<Room, ServiceError>)
      requires Valid()
      ensures r.Success? <==> IsLive(id)
      ensures r.Success? ==> r.value == rooms[id - 1] && r.value.id == id
      ensures r.Failure? ==> r.error == NotFound
    {
      if IsLive(id) {
        r := Success(rooms[id - 1]);
      } else {
        r := Failure(NotFound);
      }
    }

    /**
     * $room->addMedia($file)->toMediaCollection($c): a new media row with the next id and the
     * conversions generated at once; a single-file collection drops the room's earlier file.
     */
    method AddMedia(roomId: nat, c: Collection, fileName: string) returns (m: Media)
      requires Valid() && 1 <= roomId <= |rooms|
      modifies this
      ensures Valid()
      ensures m == NewMedia(old(nextMediaId), roomId, c, fileName)
      ensures media == Attach(old(media), m) && nextMediaId == old(nextMediaId) + 1
      ensures rooms == old(rooms) && users == old(users)
    {
      m := NewMedia(nextMediaId, roomId, c, fileName);
      AttachKeepsUniqueIds(media, m);
      forall id: nat
        ensures |Collected(MediaOf(Attach(media, m), id), Thumbnail)| <= 1
      {
        AttachKeepsSingleFile(media, m, id);
      }
      media := Attach(media, m);
      nextMediaId := nextMediaId + 1;
    }

    /** The foreach of createRoom and uploadImages: each file joins the room's `images` collection, in order. */
    method AttachImages(roomId: nat, files: seq<Upload>)
      requires Valid() && 1 <= roomId <= |rooms|
      modifies this
      ensures Valid()
      ensures media == old(media) + Uploaded(old(nextMediaId), roomId, files)
      ensures nextMediaId == old(nextMediaId) + |files|
      ensures rooms == old(rooms) && users == old(users)
    {
      var k := 0;
      while k < |files|
        invariant 0 <= k <= |files|
        invariant Valid() && rooms == old(rooms) && users == old(users)
        invariant media == old(media) + Uploaded(old(nextMediaId), roomId, files[..k])
        invariant nextMediaId == old(nextMediaId) + k
      {
        var m := AddMedia(roomId, Images, files[k].fileName);
        assert Uploaded(old(nextMediaId), roomId, files[..k + 1]) == Uploaded(old(nextMediaId), roomId, files[..k]) + [m];
        k := k + 1;
      }
      assert files[..k] == files;
    }

    /**
     * createRoom: a new row with the next id, the caller as owner, an empty description for a
     * null one and the DTO's availability; then each given file is attached to `images` in order.
     * A write the table refuses changes nothing.
     */
    method CreateRoom(dto: Dto, images: Option<seq<Upload>>, ownerId: Option<nat>, now: int) returns (r: Result<Room, ServiceError>)
      requires Valid()
      modifies this
      ensures Valid() && users == old(users)
      ensures var row := InsertRow(|old(rooms)| + 1, ownerId, CreateColumns(dto), users, now);
        && (r.Success? <==> row.Success?)
        && (r.Success? ==> r.value == row.value && rooms == old(rooms) + [r.value])
        && (r.Failure? ==> r.error == StorageFailure(row.error) && rooms == old(rooms) && media == old(media))
      ensures r.Success? ==> media == old(media) + Uploaded(old(nextMediaId), r.value.id, images.GetOr([]))
      ensures r.Success? ==> Collected(MediaOf(media, r.value.id), Images) == Uploaded(old(nextMediaId), r.value.id, images.GetOr([]))
    {
      var row := InsertRow(|rooms| + 1, ownerId, CreateColumns(dto), users, now);
      if row.Failure? {
        return Failure(StorageFailure(row.error));
      }
      rooms := rooms + [row.value];
      if images.Some? && images.value != [] {
        AttachImages(row.value.id, images.value);
      } else {
        assert Uploaded(nextMediaId, row.value.id, images.GetOr([])) == [];
        assert media + [] == media;
      }
      NewRoomListsUploads(old(media), old(nextMediaId), row.value.id, images.GetOr([]), appUrl);
      r := Success(row.value);
    }

    /**
     * updateRoom: all nine data columns of a live row are replaced from the DTO; id, owner and
     * media stay. NotFound for a missing or trashed id.
     */
    method UpdateRoom(id: int, dto: Dto, now: int) returns (r: Result<Room, ServiceError>)
      requires Valid()
      modifies this
      ensures Valid() && media == old(media) && users == old(users) && nextMediaId == old(nextMediaId)
      ensures !old(IsLive(id)) ==> r == Failure(NotFound) && rooms == old(rooms)
      ensures old(IsLive(id)) ==> var u := UpdateRow(old(rooms)[id - 1], UpdateColumns(dto), now);
        && (u.Success? ==> r == Success(u.value) && rooms == old(rooms)[id - 1 := u.value])
        && (u.Failure? ==> r == Failure(StorageFailure(u.error)) && rooms == old(rooms))
    {
      if !IsLive(id) {
        return Failure(NotFound);
      }
      var u := UpdateRow(rooms[id - 1], UpdateColumns(dto), now);
      if u.Failure? {
        return Failure(StorageFailure(u.error));
      }
      rooms := rooms[id - 1 := u.value];
      r := Success(u.value);
    }

    /** deleteRoom: a live row gets the soft-delete marker; its media stay. NotFound otherwise. */
    method DeleteRoom(id: int, now: int) returns (r: Result<bool, ServiceError>)
      requires Valid()
      modifies this
      ensures Valid() && media == old(media) && users == old(users) && nextMediaId == old(nextMediaId)
      ensures !old(IsLive(id)) ==> r == Failure(NotFound) && rooms == old(rooms)
      ensures old(IsLive(id)) ==> r == Success(true) && rooms == old(rooms)[id - 1 := SoftDelete(old(rooms)[id - 1], now)]
      ensures !IsLive(id)
    {
      if !IsLive(id) {
        return Failure(NotFound);
      }
      rooms := rooms[id - 1 := SoftDelete(rooms[id - 1], now)];
      r := Success(true);
    }

    /** uploadImages: a live room receives each file in its `images` collection, in order. NotFound otherwise. */
    method UploadImages(id: int, files: seq<Upload>) returns (r: Result<Room, ServiceError>)
      requires Valid()
      modifies this
      ensures Valid() && rooms == old(rooms) && users == old(users)
      ensures !IsLive(id) ==> r == Failure(NotFound) && media == old(media) && nextMediaId == old(nextMediaId)
      ensures IsLive(id) ==> r == Success(rooms[id - 1]) && media == old(media) + Uploaded(old(nextMediaId), id, files)
      ensures IsLive(id) ==> Collected(MediaOf(media, id), Images) == Collected(MediaOf(old(media), id), Images) + Uploaded(old(nextMediaId), id, files)
    {
      if !IsLive(id) {
        return Failure(NotFound);
      }
      AttachImages(id, files);
      UploadExtendsImages(old(media), old(nextMediaId), id, files);
      r := Success(rooms[id - 1]);
    }

    /**
     * deleteImage: the media row with that id is removed when it belongs to the live room;
     * NotFound when the room is missing or trashed or the media row is another room's.
     */
    method DeleteImage(roomId: int, mediaId: nat) returns (r: Result<bool, ServiceError>)
      requires Valid()
      modifies this
      ensures Valid() && rooms == old(rooms) && users == old(users) && nextMediaId == old(nextMediaId)
      ensures r.Success? <==> IsLive(roomId) && exists m :: m in old(media) && m.id == mediaId && m.roomId == roomId
      ensures r.Failure? ==> r.error == NotFound && media == old(media)
      ensures r.Success? ==> |media| == |old(media)| - 1
      ensures r.Success? ==> forall m :: m in media <==> m in old(media) && m.id != mediaId
    {
      if !IsLive(roomId) {
        return Failure(NotFound);
      }
      var k := FindMedia(media, roomId, mediaId);
      if k.None? {
        return Failure(NotFound);
      }
      var rest := RemoveAt(media, k.value);
      RemoveAtByIds(media, k.value);
      forall id: nat
        ensures |Collected(MediaOf(rest, id), Thumbnail)| <= 1
      {
        RemoveAtShrinksCollections(media, k.value, id, Thumbnail);
      }
      media := rest;
      r := Success(true);
    }
  }
}
