/**
 * The Room Eloquent model: mass update of the fillable columns with dirty tracking,
 * soft delete, its two media collections (`thumbnail` holding a single file), the two
 * conversions derived at attach time, and the `images` attribute appended to every
 * serialised room.
 */
module RoomModel {
  import opened Wrappers
  import opened Text
  import opened RoomsTable

  /** Some data column would change. */
  predicate IsDirty(r: Room, c: Columns, t: RoomType) {
    || Some(r.description) != c.description || r.name != c.name || r.address != c.address
    || r.bedrooms != c.bedrooms || r.bathrooms != c.bathrooms || r.price != c.price || r.area != c.area
    || r.roomType != t || (c.isAvailable.Some? && r.isAvailable != c.isAvailable.value)
  }

  /**
   * $room->update(columns): every supplied data column is replaced; id, owner, creation time
   * and soft-delete marker stay; `updated_at` moves to `now` only when something changed
   * (Eloquent skips the save of a clean model). A write the table refuses changes nothing.
   */
  function UpdateRow(r: Room, c: Columns, now: int): (u: Result<Room, StorageError>)
    ensures u.Success? <==> ColumnsViolation(c).None?
    ensures u.Success? ==> u.value.id == r.id && u.value.ownerId == r.ownerId
    ensures u.Success? ==> u.value.createdAt == r.createdAt && u.value.deletedAt == r.deletedAt
    ensures u.Success? ==> Some(u.value.description) == c.description && Some(TypeName(u.value.roomType)) == c.roomType
    ensures u.Success? ==> u.value.name == c.name && u.value.address == c.address
    ensures u.Success? ==> u.value.bedrooms == c.bedrooms && u.value.bathrooms == c.bathrooms
    ensures u.Success? ==> u.value.price == c.price && u.value.area == c.area
    ensures u.Success? ==> u.value.isAvailable == c.isAvailable.GetOr(r.isAvailable)
    ensures u.Success? && u.value.(updatedAt := r.updatedAt) == r ==> u.value == r
    ensures u.Success? && u.value.(updatedAt := r.updatedAt) != r ==> u.value.updatedAt == Some(now)
  {
    match ColumnsViolation(c)
    case Some(e) => Failure(e)
    case None =>
      var t := ParseType(c.roomType.value).value;
      var filled := r.(name := c.name, address := c.address, description := c.description.value,
                       bedrooms := c.bedrooms, bathrooms := c.bathrooms, price := c.price, area := c.area,
                       roomType := t, isAvailable := c.isAvailable.GetOr(r.isAvailable));
      Success(if IsDirty(r, c, t) then filled.(updatedAt := Some(now)) else filled)
  }

  /** SoftDeletes::delete(): the marker and `updated_at` are set to `now`, nothing else changes. */
  function SoftDelete(r: Room, now: int): (d: Room)
    ensures IsTrashed(d)
    ensures d.(deletedAt := r.deletedAt, updatedAt := r.updatedAt) == r
  {
    r.(deletedAt := Some(now), updatedAt := Some(now))
  }

  // ---- media ----

  datatype Collection = Images | Thumbnail

  /** registerMediaCollections: `thumbnail` keeps a single file, `images` is unbounded. */
  predicate IsSingleFile(c: Collection) {
    c == Thumbnail
  }

  /** One registered conversion: a name and the target size in pixels. */
  datatype Conversion = Conversion(name: string, width: nat, height: nat)

  /** registerMediaConversions: both run synchronously (not queued) when a file is attached. */
  const Conversions: seq<Conversion> := [Conversion("thumb", 300, 300), Conversion("preview", 800, 600)]

  /** A row of the media table: its owner room, collection, stored file name and the conversions generated for it. */
  datatype Media = Media(id: nat, roomId: nat, collection: Collection, fileName: string, generated: seq<string>)

  /** Attaching a file: the conversions are generated at once, in registration order. */
  function NewMedia(id: nat, roomId: nat, c: Collection, fileName: string): (m: Media)
    ensures |m.generated| == |Conversions| && forall k :: 0 <= k < |Conversions| ==> m.generated[k] == Conversions[k].name
    ensures m.id == id && m.roomId == roomId && m.collection == c && m.fileName == fileName
  {
    Media(id, roomId, c, fileName, ["thumb", "preview"])
  }

  /** The media rows of one room, in order. */
  function MediaOf(ms: seq<Media>, roomId: nat): (r: seq<Media>)
    ensures |r| <= |ms|
    ensures forall m :: m in r <==> m in ms && m.roomId == roomId
  {
    if ms == [] then []
    else if ms[0].roomId == roomId then [ms[0]] + MediaOf(ms[1..], roomId)
    else MediaOf(ms[1..], roomId)
  }

  /** The media rows of one collection, in order: getMedia(collection). */
  function Collected(ms: seq<Media>, c: Collection): (r: seq<Media>)
    ensures |r| <= |ms|
    ensures forall m :: m in r <==> m in ms && m.collection == c
  {
    if ms == [] then []
    else if ms[0].collection == c then [ms[0]] + Collected(ms[1..], c)
    else Collected(ms[1..], c)
  }

  /** The media rows outside one room's collection. */
  function WithoutCollection(ms: seq<Media>, roomId: nat, c: Collection): (r: seq<Media>)
    ensures forall m :: m in r <==> m in ms && !(m.roomId == roomId && m.collection == c)
  {
    if ms == [] then []
    else if ms[0].roomId == roomId && ms[0].collection == c then WithoutCollection(ms[1..], roomId, c)
    else [ms[0]] + WithoutCollection(ms[1..], roomId, c)
  }

  /**
   * Attaching `m` to the media table: a single-file collection first loses the room's earlier
   * file (Spatie keeps only the latest one), then `m` is appended.
   */
  function Attach(ms: seq<Media>, m: Media): seq<Media> {
    (if IsSingleFile(m.collection) then WithoutCollection(ms, m.roomId, m.collection) else ms) + [m]
  }

  lemma {:induction false} MediaOfAppend(a: seq<Media>, b: seq<Media>, roomId: nat)
    ensures MediaOf(a + b, roomId) == MediaOf(a, roomId) + MediaOf(b, roomId)
  {
    if a != [] {
      assert (a + b)[0] == a[0];
      assert (a + b)[1..] == a[1..] + b;
      MediaOfAppend(a[1..], b, roomId);
    } else {
      assert a + b == b;
    }
  }

  lemma {:induction false} CollectedAppend(a: seq<Media>, b: seq<Media>, c: Collection)
    ensures Collected(a + b, c) == Collected(a, c) + Collected(b, c)
  {
    if a != [] {
      assert (a + b)[0] == a[0];
      assert (a + b)[1..] == a[1..] + b;
      CollectedAppend(a[1..], b, c);
    } else {
      assert a + b == b;
    }
  }

  lemma {:induction false} WithoutCollectionOwnRoom(ms: seq<Media>, roomId: nat, c: Collection)
    ensures Collected(MediaOf(WithoutCollection(ms, roomId, c), roomId), c) == []
  {
    if ms != [] {
      WithoutCollectionOwnRoom(ms[1..], roomId, c);
    }
  }

  lemma {:induction false} WithoutCollectionOtherRoom(ms: seq<Media>, roomId: nat, c: Collection, other: nat)
    requires other != roomId
    ensures MediaOf(WithoutCollection(ms, roomId, c), other) == MediaOf(ms, other)
  {
    if ms != [] {
      WithoutCollectionOtherRoom(ms[1..], roomId, c, other);
    }
  }

  lemma {:induction false} WithoutCollectionOtherCollection(ms: seq<Media>, roomId: nat, c: Collection, d: Collection)
    requires d != c
    ensures Collected(MediaOf(WithoutCollection(ms, roomId, c), roomId), d) == Collected(MediaOf(ms, roomId), d)
  {
    if ms != [] {
      WithoutCollectionOtherCollection(ms[1..], roomId, c, d);
    }
  }

  /**
   * What attaching does to each room's collections: the receiving collection of a single-file
   * collection holds exactly the new file, the `images` collection grows by the new file at its
   * end, the room's other collection and every other room's media are untouched.
   */
  lemma AttachCollections(ms: seq<Media>, m: Media, c: Collection, roomId: nat)
    ensures roomId == m.roomId && c == m.collection && IsSingleFile(c) ==>
      Collected(MediaOf(Attach(ms, m), roomId), c) == [m]
    ensures roomId == m.roomId && c == m.collection && !IsSingleFile(c) ==>
      Collected(MediaOf(Attach(ms, m), roomId), c) == Collected(MediaOf(ms, roomId), c) + [m]
    ensures roomId == m.roomId && c != m.collection ==>
      Collected(MediaOf(Attach(ms, m), roomId), c) == Collected(MediaOf(ms, roomId), c)
    ensures roomId != m.roomId ==> MediaOf(Attach(ms, m), roomId) == MediaOf(ms, roomId)
  {
    var kept := if IsSingleFile(m.collection) then WithoutCollection(ms, m.roomId, m.collection) else ms;
    MediaOfAppend(kept, [m], roomId);
    if roomId == m.roomId {
      assert MediaOf([m], roomId) == [m];
      CollectedAppend(MediaOf(kept, roomId), [m], c);
      if IsSingleFile(m.collection) {
        WithoutCollectionOwnRoom(ms, roomId, m.collection);
        if c != m.collection {
          WithoutCollectionOtherCollection(ms, roomId, m.collection, c);
        }
      }
    } else {
      assert MediaOf([m], roomId) == [];
      if IsSingleFile(m.collection) {
        WithoutCollectionOtherRoom(ms, m.roomId, m.collection, roomId);
      }
    }
  }

  /** The single-file rule holds after any attach that started from a state where it held. */
  lemma AttachKeepsSingleFile(ms: seq<Media>, m: Media, roomId: nat)
    requires |Collected(MediaOf(ms, roomId), Thumbnail)| <= 1
    ensures |Collected(MediaOf(Attach(ms, m), roomId), Thumbnail)| <= 1
  {
    AttachCollections(ms, m, Thumbnail, roomId);
  }

  /** Removing one media row, as deleting a media item does. */
  function RemoveAt(ms: seq<Media>, k: nat): (r: seq<Media>)
    requires k < |ms|
    ensures |r| == |ms| - 1
    ensures forall m :: m in r ==> m in ms
  {
    ms[..k] + ms[k + 1..]
  }

  /** Removing a media row never grows any collection of any room. */
  lemma RemoveAtShrinksCollections(ms: seq<Media>, k: nat, roomId: nat, c: Collection)
    requires k < |ms|
    ensures |Collected(MediaOf(RemoveAt(ms, k), roomId), c)| <= |Collected(MediaOf(ms, roomId), c)|
  {
    var a, b := ms[..k], ms[k + 1..];
    assert ms == a + ([ms[k]] + b);
    MediaOfAppend(a, b, roomId);
    MediaOfAppend(a, [ms[k]] + b, roomId);
    MediaOfAppend([ms[k]], b, roomId);
    var ma, mk, mb := MediaOf(a, roomId), MediaOf([ms[k]], roomId), MediaOf(b, roomId);
    CollectedAppend(ma, mb, c);
    CollectedAppend(ma, mk + mb, c);
    CollectedAppend(mk, mb, c);
  }

  // ---- the `images` attribute ----

  /** The last index of `c` in `s`. */
  function LastIndexOf(s: string, c: char): (r: Option<nat>)
    ensures r.Some? ==> r.value < |s| && s[r.value] == c && forall j :: r.value < j < |s| ==> s[j] != c
    ensures r.None? ==> forall j :: 0 <= j < |s| ==> s[j] != c
  {
    if s == [] then None
    else if s[|s| - 1] == c then Some(|s| - 1)
    else LastIndexOf(s[..|s| - 1], c)
  }

  /** pathinfo($fileName, PATHINFO_FILENAME): the name without its final extension. */
  function FileStem(fileName: string): string {
    match LastIndexOf(fileName, '.')
    case None => fileName
    case Some(k) => fileName[..k]
  }

  /** Only the final extension goes: FileStem("a.b.png") is "a.b", FileStem("photo") is "photo". */
  lemma FileStemOfExtension(stem: string, ext: string)
    requires forall j :: 0 <= j < |ext| ==> ext[j] != '.'
    ensures FileStem(stem + "." + ext) == stem
  {
    var s := stem + "." + ext;
    var k := LastIndexOf(s, '.');
    assert s[|stem|] == '.';
    assert k.Some?;
    assert forall j :: |stem| < j < |s| ==> s[j] == ext[j - |stem| - 1];
    assert k.value == |stem|;
    assert s[..|stem|] == stem;
  }

  /** The public storage root: config('app.url') . '/storage/app/public'. */
  function BaseUrl(appUrl: string): string {
    appUrl + "/storage/app/public"
  }

  datatype ImageEntry = ImageEntry(id: nat, url: string, thumb: string, preview: string)

  /** A path under one media item's directory: base/<id><tail>. */
  function MediaPath(base: string, m: Media, tail: string): string {
    base + "/" + NatToString(m.id) + tail
  }

  /** Where one conversion of a media item is stored: base/<id>/conversions/<stem>-<conversion>.jpg. */
  function ConversionUrl(base: string, m: Media, conversion: string): string {
    MediaPath(base, m, "/conversions/" + FileStem(m.fileName) + "-" + conversion + ".jpg")
  }

  /** One entry of the attribute: the original at base/<id>/<file_name> and its two conversions. */
  function Entry(base: string, m: Media): ImageEntry {
    ImageEntry(m.id, MediaPath(base, m, "/" + m.fileName), ConversionUrl(base, m, "thumb"), ConversionUrl(base, m, "preview"))
  }

  /**
   * getImagesAttribute: one entry per media item of the `images` collection, in collection
   * order, each with the original's URL and the two conversion URLs.
   */
  function ImagesAttribute(appUrl: string, roomMedia: seq<Media>): (r: seq<ImageEntry>)
    ensures |r| == |Collected(roomMedia, Images)|
    ensures forall k :: 0 <= k < |r| ==> r[k] == Entry(BaseUrl(appUrl), Collected(roomMedia, Images)[k])
  {
    var base := BaseUrl(appUrl);
    var images := Collected(roomMedia, Images);
    seq(|images|, k requires 0 <= k < |images| => Entry(base, images[k]))
  }

  /** No two media rows share an id (the id is the media table's primary key). */
  predicate UniqueIds(ms: seq<Media>) {
    forall i, j :: 0 <= i < j < |ms| ==> ms[i].id != ms[j].id
  }

  lemma {:induction false} WithoutCollectionKeepsUniqueIds(ms: seq<Media>, roomId: nat, c: Collection)
    requires UniqueIds(ms)
    ensures UniqueIds(WithoutCollection(ms, roomId, c))
  {
    if ms != [] {
      var rest := ms[1..];
      assert forall i :: 0 <= i < |rest| ==> rest[i] == ms[i + 1];
      WithoutCollectionKeepsUniqueIds(rest, roomId, c);
      var w := WithoutCollection(rest, roomId, c);
      forall x | x in w
        ensures x.id != ms[0].id
      {
        var i :| 0 <= i < |rest| && rest[i] == x;
      }
    }
  }

  /** Attaching a media row whose id exceeds every stored one keeps the ids unique. */
  lemma AttachKeepsUniqueIds(ms: seq<Media>, m: Media)
    requires UniqueIds(ms) && forall x :: x in ms ==> x.id < m.id
    ensures UniqueIds(Attach(ms, m))
  {
    var kept := if IsSingleFile(m.collection) then WithoutCollection(ms, m.roomId, m.collection) else ms;
    if IsSingleFile(m.collection) {
      WithoutCollectionKeepsUniqueIds(ms, m.roomId, m.collection);
    }
    assert forall i :: 0 <= i < |kept| ==> kept[i] in kept;
  }

  /** Removing the row at k from a table with unique ids removes exactly the rows with that row's id. */
  lemma RemoveAtByIds(ms: seq<Media>, k: nat)
    requires UniqueIds(ms) && k < |ms|
    ensures UniqueIds(RemoveAt(ms, k))
    ensures forall m :: m in RemoveAt(ms, k) <==> m in ms && m.id != ms[k].id
  {
    var r := RemoveAt(ms, k);
    assert forall i :: 0 <= i < |r| ==> r[i] == (if i < k then ms[i] else ms[i + 1]);
    forall m | m in ms && m.id != ms[k].id
      ensures m in r
    {
      var j :| 0 <= j < |ms| && ms[j] == m;
      assert j != k;
      assert r[if j < k then j else j - 1] == m;
    }
  }

  /** Items of the `thumbnail` collection never show up in the `images` attribute. */
  lemma ImagesAttributeSkipsThumbnails(appUrl: string, roomMedia: seq<Media>, m: Media)
    requires m in roomMedia && m.collection == Thumbnail && UniqueIds(roomMedia)
    ensures forall e :: e in ImagesAttribute(appUrl, roomMedia) ==> e.id != m.id
  {
    var r := ImagesAttribute(appUrl, roomMedia);
    var images := Collected(roomMedia, Images);
    forall e | e in r
      ensures e.id != m.id
    {
      var k :| 0 <= k < |r| && r[k] == e;
      assert images[k] in images;
      var i :| 0 <= i < |roomMedia| && roomMedia[i] == images[k];
      var j :| 0 <= j < |roomMedia| && roomMedia[j] == m;
      assert i != j;
    }
  }

  /** Splitting `d + rest` at the first '/' recovers the digits `d`. */
  lemma DigitsBeforeSlash(d1: string, r1: string, d2: string, r2: string)
    requires AllDigits(d1) && AllDigits(d2)
    requires |r1| > 0 && r1[0] == '/' && |r2| > 0 && r2[0] == '/'
    requires d1 + r1 == d2 + r2
    ensures d1 == d2
  {
    var s := d1 + r1;
    assert s[|d1|] == '/';
    assert (d2 + r2)[|d2|] == '/';
    assert forall i :: 0 <= i < |d1| ==> IsDigit(s[i]);
    assert forall i :: 0 <= i < |d2| ==> IsDigit((d2 + r2)[i]);
    assert |d1| == |d2|;
    assert d1 == s[..|d1|];
    assert d2 == (d2 + r2)[..|d2|];
  }

  /** Two paths under the directories of media items with distinct ids differ, whatever follows. */
  lemma MediaPathsDiffer(base: string, m1: Media, m2: Media, t1: string, t2: string)
    requires m1.id != m2.id
    requires |t1| > 0 && t1[0] == '/' && |t2| > 0 && t2[0] == '/'
    ensures MediaPath(base, m1, t1) != MediaPath(base, m2, t2)
  {
    var p := base + "/";
    var d1, d2 := NatToString(m1.id), NatToString(m2.id);
    assert MediaPath(base, m1, t1) == p + (d1 + t1);
    assert MediaPath(base, m2, t2) == p + (d2 + t2);
    if d1 == d2 {
      NatToStringInjective(m1.id, m2.id);
    } else if p + (d1 + t1) == p + (d2 + t2) {
      assert d1 + t1 == (p + (d1 + t1))[|p|..];
      assert d2 + t2 == (p + (d2 + t2))[|p|..];
      DigitsBeforeSlash(d1, t1, d2, t2);
    }
  }

  /** The URLs tell media items apart: distinct ids give distinct original, thumb and preview URLs. */
  lemma EntryUrlsDistinguishMedia(base: string, m1: Media, m2: Media)
    requires m1.id != m2.id
    ensures Entry(base, m1).url != Entry(base, m2).url
    ensures Entry(base, m1).thumb != Entry(base, m2).thumb
    ensures Entry(base, m1).preview != Entry(base, m2).preview
  {
    MediaPathsDiffer(base, m1, m2, "/" + m1.fileName, "/" + m2.fileName);
    var c1 := "/conversions/" + FileStem(m1.fileName) + "-";
    var c2 := "/conversions/" + FileStem(m2.fileName) + "-";
    assert (c1 + "thumb" + ".jpg")[0] == '/' && (c2 + "thumb" + ".jpg")[0] == '/';
    assert (c1 + "preview" + ".jpg")[0] == '/' && (c2 + "preview" + ".jpg")[0] == '/';
    MediaPathsDiffer(base, m1, m2, c1 + "thumb" + ".jpg", c2 + "thumb" + ".jpg");
    MediaPathsDiffer(base, m1, m2, c1 + "preview" + ".jpg", c2 + "preview" + ".jpg");
  }
}
