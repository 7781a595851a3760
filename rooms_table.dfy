/**
 * The `rooms` table as its migration declares it, with the `owner_id` foreign key
 * that the later foreign-key migration adds. A row is a `Room`; the columns a write
 * supplies are `Columns`; `InsertRow` is what the database accepts or refuses.
 */
module RoomsTable {
  import opened Wrappers

  /** The `type` enum column. */
  datatype RoomType = Rent | Sale

  /** The text stored for each enum member. */
  function TypeName(t: RoomType): (s: string)
    ensures ParseType(s) == Some(t)
  {
    match t
    case Rent => "rent"
    case Sale => "sale"
  }

  /** The enum's check constraint: "rent" and "sale" are the only storable texts. */
  function ParseType(s: string): (r: Option<RoomType>)
    ensures r.Some? <==> (s == "rent" || s == "sale")
    ensures r.Some? ==> s == (if r.value == Rent then "rent" else "sale")
  {
    if s == "rent" then Some(Rent) else if s == "sale" then Some(Sale) else None
  }

  /**
   * One row. `price` and `area` are decimal(8,2) columns, kept in hundredths;
   * timestamps are opaque instants; `deletedAt` is the soft-delete marker.
   */
  datatype Room = Room(
    id: nat,
    ownerId: Option<nat>,
    address: string,
    name: string,
    description: string,
    bedrooms: int,
    bathrooms: int,
    price: int,
    area: int,
    roomType: RoomType,
    isAvailable: bool,
    createdAt: Option<int>,
    updatedAt: Option<int>,
    deletedAt: Option<int>)

  /** A soft-deleted row: still stored, absent from every normal query. */
  predicate IsTrashed(r: Room) {
    r.deletedAt.Some?
  }

  /** The foreign key: owner_id is null or names an existing user. */
  predicate OwnerReferenceValid(r: Room, users: set<nat>) {
    r.ownerId.None? || r.ownerId.value in users
  }

  /**
   * The data columns a write supplies. `description` and `roomType` may be null (both columns
   * refuse it); `isAvailable` may be left out (the column then takes its default); `roomType`
   * is the text the enum column checks. These nine and the owner, which an insert takes on its
   * own, are the model's ten fillable attributes: mass assignment drops any other key, so no
   * write can set anything else.
   */
  datatype Columns = Columns(
    address: string,
    name: string,
    description: Option<string>,
    bedrooms: int,
    bathrooms: int,
    price: int,
    area: int,
    roomType: Option<string>,
    isAvailable: Option<bool>)

  datatype StorageError = NotNullViolation(column: string) | EnumViolation(column: string) | ForeignKeyViolation(column: string)

  /** The constraint a write of these data columns breaks first, if any. */
  function ColumnsViolation(c: Columns): (r: Option<StorageError>)
    ensures r.None? <==> c.description.Some? && c.roomType.Some? && ParseType(c.roomType.value).Some?
  {
    if c.description.None? then Some(NotNullViolation("description"))
    else if c.roomType.None? then Some(NotNullViolation("type"))
    else if ParseType(c.roomType.value).None? then Some(EnumViolation("type"))
    else None
  }

  /**
   * INSERT of a new row with the given auto-increment id and owner: refused when a NOT NULL,
   * enum or foreign-key constraint fails; otherwise the stored row holds the columns given,
   * `is_available` defaulting to true, both timestamps `now`, and no soft-delete marker.
   */
  function InsertRow(id: nat, ownerId: Option<nat>, c: Columns, users: set<nat>, now: int): (r: Result<Room, StorageError>)
    ensures r.Success? <==> ColumnsViolation(c).None? && (ownerId.None? || ownerId.value in users)
    ensures r.Success? ==> OwnerReferenceValid(r.value, users) && !IsTrashed(r.value)
    ensures r.Success? ==> r.value.id == id && r.value.ownerId == ownerId
    ensures r.Success? ==> r.value.isAvailable == (c.isAvailable != Some(false))
    ensures r.Success? ==> Some(r.value.description) == c.description && Some(TypeName(r.value.roomType)) == c.roomType
    ensures r.Success? ==> r.value.name == c.name && r.value.address == c.address
    ensures r.Success? ==> r.value.bedrooms == c.bedrooms && r.value.bathrooms == c.bathrooms && r.value.price == c.price && r.value.area == c.area
    ensures r.Success? ==> r.value.createdAt == Some(now) && r.value.updatedAt == Some(now)
  {
    match ColumnsViolation(c)
    case Some(e) => Failure(e)
    case None =>
      if ownerId.Some? && ownerId.value !in users then Failure(ForeignKeyViolation("owner_id"))
      else Success(Room(id, ownerId, c.address, c.name, c.description.value, c.bedrooms, c.bathrooms,
                        c.price, c.area, ParseType(c.roomType.value).value, c.isAvailable.GetOr(true),
                        Some(now), Some(now), None))
  }

  /**
   * Deleting a user under `restrictOnDelete`: refused while any stored row, soft-deleted or
   * not, references the user; when allowed, every valid owner reference stays valid.
   */
  function DeleteUser(users: set<nat>, rows: seq<Room>, userId: nat): (r: Result<set<nat>, StorageError>)
    ensures r.Success? <==> forall i :: 0 <= i < |rows| ==> rows[i].ownerId != Some(userId)
    ensures r.Success? ==> r.value == users - {userId}
    ensures r.Success? ==> forall i :: 0 <= i < |rows| && OwnerReferenceValid(rows[i], users) ==> OwnerReferenceValid(rows[i], r.value)
  {
    if exists i :: 0 <= i < |rows| && rows[i].ownerId == Some(userId) then Failure(ForeignKeyViolation("owner_id"))
    else Success(users - {userId})
  }
}
