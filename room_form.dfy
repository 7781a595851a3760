/**
 * The front end's zod schemas for rooms: the admin form (roomFormSchema) and the catalog's
 * filter bar (roomFiltersSchema). A schema reads an object of JavaScript values, where an
 * absent key is `undefined`, and yields either the parsed value (unknown keys stripped,
 * defaults filled in) or the set of fields that failed.
 */
module RoomForm {
  import opened Wrappers
  import opened Text
  import opened Values
  import opened RoomsTable
  import opened RoomsDto
  import opened RoomRequest

  /** The value under a key, None for `undefined`. */
  function Field(input: map<string, Value>, key: string): Option<Value> {
    if key in input then Some(input[key]) else None
  }

  /**
   * Number(v), as z.coerce.number applies it, in hundredths: undefined and text that is not a
   * number give NaN (None), which the number check refuses; null, false and "" give 0; true gives 1.
   */
  function CoerceNumber(v: Option<Value>): (r: Option<int>)
    ensures v.Some? && v.value.Num? ==> r == Some(v.value.cents)
    ensures v.None? ==> r.None?
  {
    match v
    case None => None
    case Some(Null) => Some(0)
    case Some(Bool(b)) => Some(if b then 100 else 0)
    case Some(Num(c)) => Some(c)
    case Some(Str(s)) => if s == "" then Some(0) else if IsDecimalLiteral(s) then Some(TruncatedCents(s)) else None
  }

  /** A number rendered by String() is coerced back to that number. */
  lemma CoerceRendered(c: int)
    ensures CoerceNumber(Some(Str(CentsToString(c)))) == Some(c)
  {
    CentsToStringExact(c);
  }

  // ---- roomFormSchema ----

  /** The parsed form. */
  datatype Form = Form(
    name: string,
    address: string,
    description: Option<string>,
    bedrooms: int,
    bathrooms: int,
    price: int,
    area: int,
    roomType: RoomType,
    isAvailable: bool)

  const FormKeys: set<string> := {"name", "address", "description", "bedrooms", "bathrooms", "price", "area", "type", "is_available"}

  /** z.string().min(1).max(255). */
  predicate TextOfLength(v: Option<Value>) {
    v.Some? && v.value.Str? && 1 <= |v.value.s| <= 255
  }

  /** z.coerce.number().min(0). */
  predicate NonNegative(v: Option<Value>) {
    CoerceNumber(v).Some? && CoerceNumber(v).value >= 0
  }

  /** z.enum(['rent', 'sale']). */
  predicate IsRoomType(v: Option<Value>) {
    v.Some? && v.value.Str? && ParseType(v.value.s).Some?
  }

  /** Whether the form's field `key` passes its schema. */
  predicate FormFieldValid(input: map<string, Value>, key: string) {
    var v := Field(input, key);
    match key
    case "name" => TextOfLength(v)
    case "address" => TextOfLength(v)
    case "description" => v.None? || v.value.Str?
    case "type" => IsRoomType(v)
    case "is_available" => v.None? || v.value.Bool?
    case _ => NonNegative(v)
  }

  /** The fields that fail, each reported once. */
  function FormErrors(input: map<string, Value>): (e: set<string>)
    ensures forall k :: k in e <==> k in FormKeys && !FormFieldValid(input, k)
  {
    set k | k in FormKeys && !FormFieldValid(input, k)
  }

  /** roomFormSchema.safeParse: the parsed form, or the failing fields. */
  function ParseRoomForm(input: map<string, Value>): (r: Result<Form, set<string>>)
    ensures r.Success? <==> FormErrors(input) == {}
    ensures r.Failure? ==> r.error == FormErrors(input)
    ensures r.Success? ==> r.value.name == input["name"].s && r.value.address == input["address"].s
    ensures r.Success? ==> 1 <= |r.value.name| <= 255 && 1 <= |r.value.address| <= 255
    ensures r.Success? ==> (r.value.description.Some? <==> "description" in input)
    ensures r.Success? && r.value.description.Some? ==> Field(input, "description") == Some(Str(r.value.description.value))
    ensures r.Success? ==> r.value.bedrooms >= 0 && r.value.bathrooms >= 0 && r.value.price >= 0 && r.value.area >= 0
    ensures r.Success? ==> Some(r.value.bedrooms) == CoerceNumber(Field(input, "bedrooms"))
    ensures r.Success? ==> Some(r.value.bathrooms) == CoerceNumber(Field(input, "bathrooms"))
    ensures r.Success? ==> Some(r.value.price) == CoerceNumber(Field(input, "price"))
    ensures r.Success? ==> Some(r.value.area) == CoerceNumber(Field(input, "area"))
    ensures r.Success? ==> Str(TypeName(r.value.roomType)) == input["type"]
    ensures r.Success? ==> r.value.isAvailable == ("is_available" !in input || input["is_available"] == Bool(true))
  {
    if FormErrors(input) != {} then Failure(FormErrors(input))
    else
      assert forall k :: k in FormKeys ==> FormFieldValid(input, k) by {
        forall k | k in FormKeys ensures FormFieldValid(input, k) {
          assert k !in FormErrors(input);
        }
      }
      assert FormFieldValid(input, "name") && FormFieldValid(input, "address") && FormFieldValid(input, "type");
      assert FormFieldValid(input, "description") && FormFieldValid(input, "is_available");
      assert FormFieldValid(input, "bedrooms") && FormFieldValid(input, "bathrooms");
      assert FormFieldValid(input, "price") && FormFieldValid(input, "area");
      Success(Form(
        input["name"].s, input["address"].s,
        if "description" in input then Some(input["description"].s) else None,
        CoerceNumber(Field(input, "bedrooms")).value, CoerceNumber(Field(input, "bathrooms")).value,
        CoerceNumber(Field(input, "price")).value, CoerceNumber(Field(input, "area")).value,
        ParseType(input["type"].s).value,
        if "is_available" in input then input["is_available"].b else true))
  }

  /** The form refuses a negative number the back end accepts. */
  lemma NegativeRefusedByFormOnly(input: map<string, Value>, key: string)
    requires key in {"bedrooms", "bathrooms", "price", "area"} && key in input && input[key] == Num(-100)
    ensures key in FormErrors(input)
    ensures NumberValid(input, key)
  {
    assert !FormFieldValid(input, key);
  }

  /** A blank name passes the form's length check and still fails the back end's `required`. */
  lemma BlankNamePassesFormOnly(input: map<string, Value>, rows: seq<Room>, ignoreId: Option<int>)
    requires "name" in input && input["name"] == Str(" ")
    ensures "name" !in FormErrors(input)
    ensures !NameValid(input, rows, ignoreId)
  {
    assert IsBlankText(" ");
  }

  /** What the form submits: the parsed form as JSON, without description when it is undefined. */
  function Payload(f: Form): (p: map<string, Value>)
    ensures "description" in p <==> f.description.Some?
    ensures "is_available" in p && p["is_available"] == Bool(f.isAvailable)
  {
    var base := map[
      "name" := Str(f.name), "address" := Str(f.address),
      "bedrooms" := Num(f.bedrooms), "bathrooms" := Num(f.bathrooms),
      "price" := Num(f.price), "area" := Num(f.area),
      "type" := Str(TypeName(f.roomType)), "is_available" := Bool(f.isAvailable)];
    if f.description.Some? then base["description" := Str(f.description.value)] else base
  }

  /**
   * A form whose texts carry no surrounding white space and no empty description: the request
   * middleware passes its payload on unchanged (a padded text would arrive trimmed, and an empty
   * description as null).
   */
  predicate CleanTexts(f: Form) {
    && f.name != [] && Unpadded(f.name) && f.address != [] && Unpadded(f.address)
    && (f.description.Some? ==> f.description.value != [] && Unpadded(f.description.value))
  }

  /** The middleware and prepareForValidation leave a clean form's payload as it was sent. */
  lemma PayloadUntouched(f: Form)
    requires CleanTexts(f)
    ensures Prepared(CleanInput(Payload(f))) == Payload(f)
  {
    var p := Payload(f);
    var t := TypeName(f.roomType);
    assert !IsSpaceChar(t[0]) && !IsSpaceChar(t[|t| - 1]) by {
      assert t == "rent" || t == "sale";
    }
    assert p["type"] == Str(t);
    assert IsClean(p["name"]) && IsClean(p["address"]) && IsClean(p["type"]);
    assert "description" in p ==> IsClean(p["description"]);
    assert forall k :: k in p ==> IsClean(p[k]);
    CleanInputKeepsCleanBody(p);
  }

  /**
   * A submitted form that the back end accepts reaches the DTO field for field: its availability
   * is always sent, so the back end's default for an absent is_available never applies to it.
   */
  lemma SubmittedFormReachesDto(f: Form, rows: seq<Room>, ignoreId: Option<int>)
    requires CleanTexts(f)
    requires RequestDto(CleanInput(Payload(f)), None, rows, ignoreId).Success?
    ensures var d := RequestDto(CleanInput(Payload(f)), None, rows, ignoreId).value;
      && d.name == f.name && d.address == f.address && d.description == f.description
      && d.price == f.price && d.area == f.area
      && d.bedrooms == Values.TruncateCents(f.bedrooms) && d.bathrooms == Values.TruncateCents(f.bathrooms)
      && d.roomType == Some(TypeName(f.roomType))
      && d.isAvailable == (if f.isAvailable then 1 else 0)
  {
    PayloadUntouched(f);
    ValidatedPayload(f, rows, ignoreId);
    PayloadToDto(f);
  }

  /** The payload holds only rule keys, so validation passes it on whole. */
  lemma ValidatedPayload(f: Form, rows: seq<Room>, ignoreId: Option<int>)
    requires Validate(Payload(f), None, rows, ignoreId).Success?
    ensures Validate(Payload(f), None, rows, ignoreId).value == Payload(f)
  {
    assert forall k :: k in Payload(f) ==> k in RuleKeys;
  }

  /** fromArray over the payload gives back the form's fields. */
  lemma PayloadToDto(f: Form)
    ensures Acceptable(Payload(f))
    ensures var d := FromArray(Payload(f));
      && d.name == f.name && d.address == f.address && d.description == f.description
      && d.price == f.price && d.area == f.area
      && d.bedrooms == Values.TruncateCents(f.bedrooms) && d.bathrooms == Values.TruncateCents(f.bathrooms)
      && d.roomType == Some(TypeName(f.roomType))
      && d.isAvailable == (if f.isAvailable then 1 else 0)
  {
    var p := Payload(f);
    assert p["name"] == Str(f.name) && p["address"] == Str(f.address);
    assert p["area"] == Num(f.area) && p["price"] == Num(f.price);
    assert p["bedrooms"] == Num(f.bedrooms) && p["bathrooms"] == Num(f.bathrooms);
    assert p["type"] == Str(TypeName(f.roomType));
    assert f.description.Some? ==> p["description"] == Str(f.description.value);
  }

  // ---- roomFiltersSchema ----

  /** The parsed filter bar; every field optional. */
  datatype Filters = Filters(
    roomType: Option<string>,
    minPrice: Option<int>,
    maxPrice: Option<int>,
    bedrooms: Option<int>,
    search: Option<string>)

  const FilterFormKeys: set<string> := {"type", "min_price", "max_price", "bedrooms", "search"}

  /** Whether the filter field `key` passes its schema: undefined always does. */
  predicate FilterFieldValid(input: map<string, Value>, key: string) {
    var v := Field(input, key);
    v.None? ||
    match key
    case "type" => v.value == Str("rent") || v.value == Str("sale") || v.value == Str("")
    case "search" => v.value.Str?
    case _ => CoerceNumber(v).Some?
  }

  function FilterErrors(input: map<string, Value>): (e: set<string>)
    ensures forall k :: k in e <==> k in FilterFormKeys && !FilterFieldValid(input, k)
  {
    set k | k in FilterFormKeys && !FilterFieldValid(input, k)
  }

  /** The number under an optional key, once it has passed. */
  function OptionalNumber(input: map<string, Value>, key: string): (r: Option<int>)
    requires FilterFieldValid(input, key) && key != "type" && key != "search"
    ensures r.None? <==> key !in input
    ensures r.Some? ==> r == CoerceNumber(Field(input, key))
  {
    if key in input then Some(CoerceNumber(Field(input, key)).value) else None
  }

  /** roomFiltersSchema.safeParse. */
  function ParseRoomFilters(input: map<string, Value>): (r: Result<Filters, set<string>>)
    ensures r.Success? <==> FilterErrors(input) == {}
    ensures r.Failure? ==> r.error == FilterErrors(input)
    ensures r.Success? ==> (r.value.roomType.Some? <==> "type" in input)
    ensures r.Success? && r.value.roomType.Some? ==> r.value.roomType.value in {"rent", "sale", ""}
    ensures r.Success? ==> (r.value.search.Some? <==> "search" in input)
    ensures r.Success? ==> (r.value.minPrice.Some? <==> "min_price" in input) && (r.value.maxPrice.Some? <==> "max_price" in input)
    ensures r.Success? ==> (r.value.bedrooms.Some? <==> "bedrooms" in input)
    ensures r.Success? && r.value.roomType.Some? ==> Field(input, "type") == Some(Str(r.value.roomType.value))
    ensures r.Success? && r.value.search.Some? ==> Field(input, "search") == Some(Str(r.value.search.value))
    ensures r.Success? && r.value.minPrice.Some? ==> r.value.minPrice == CoerceNumber(Field(input, "min_price"))
    ensures r.Success? && r.value.maxPrice.Some? ==> r.value.maxPrice == CoerceNumber(Field(input, "max_price"))
    ensures r.Success? && r.value.bedrooms.Some? ==> r.value.bedrooms == CoerceNumber(Field(input, "bedrooms"))
  {
    if FilterErrors(input) != {} then Failure(FilterErrors(input))
    else
      assert forall k :: k in FilterFormKeys ==> FilterFieldValid(input, k) by {
        forall k | k in FilterFormKeys ensures FilterFieldValid(input, k) {
          assert k !in FilterErrors(input);
        }
      }
      assert FilterFieldValid(input, "type") && FilterFieldValid(input, "search");
      assert FilterFieldValid(input, "min_price") && FilterFieldValid(input, "max_price") && FilterFieldValid(input, "bedrooms");
      Success(Filters(
        if "type" in input then Some(input["type"].s) else None,
        OptionalNumber(input, "min_price"), OptionalNumber(input, "max_price"), OptionalNumber(input, "bedrooms"),
        if "search" in input then Some(input["search"].s) else None))
  }

  /** An empty filter bar parses, with nothing set. */
  lemma EmptyFiltersParse()
    ensures ParseRoomFilters(map[]) == Success(Filters(None, None, None, None, None))
  {
    assert FilterErrors(map[]) == {};
  }
  // ---- roomSchema and mediaSchema: a room as the front end reads it back ----

  /** mediaSchema: a numeric id, a string original_url and an optional string thumbnail_url. */
  predicate MediaShapeValid(m: map<string, Value>) {
    && Field(m, "id").Some? && Field(m, "id").value.Num?
    && Field(m, "original_url").Some? && Field(m, "original_url").value.Str?
    && (Field(m, "thumbnail_url").None? || Field(m, "thumbnail_url").value.Str?)
  }

  const RoomShapeKeys: set<string> := {"id", "name", "address", "description", "bedrooms", "bathrooms",
                                       "price", "area", "type", "is_available", "media"}

  /**
   * Whether field `key` of a room read from the API passes roomSchema. The nested `media` array,
   * absent when undefined, is passed beside the scalar fields.
   */
  predicate RoomShapeFieldValid(input: map<string, Value>, media: Option<seq<map<string, Value>>>, key: string) {
    var v := Field(input, key);
    match key
    case "name" => v.Some? && v.value.Str?
    case "address" => v.Some? && v.value.Str?
    case "description" => v.Some? && (v.value.Str? || v.value.Null?)
    case "type" => IsRoomType(v)
    case "is_available" => v.Some? && v.value.Bool?
    case "media" => media.None? || forall i :: 0 <= i < |media.value| ==> MediaShapeValid(media.value[i])
    case _ => v.Some? && v.value.Num?
  }

  /** roomSchema.safeParse, reduced to the fields that fail. */
  function RoomShapeErrors(input: map<string, Value>, media: Option<seq<map<string, Value>>>): (e: set<string>)
    ensures forall k :: k in e <==> k in RoomShapeKeys && !RoomShapeFieldValid(input, media, k)
  {
    set k | k in RoomShapeKeys && !RoomShapeFieldValid(input, media, k)
  }

  /** A room read back may carry a null description and no media array at all. */
  lemma NullDescriptionWithoutMediaAccepted(input: map<string, Value>, media: Option<seq<map<string, Value>>>)
    requires RoomShapeErrors(input, media) == {}
    ensures RoomShapeErrors(input["description" := Null], None) == {}
  {
    forall k | k in RoomShapeKeys
      ensures RoomShapeFieldValid(input["description" := Null], None, k)
    {
      assert k !in RoomShapeErrors(input, media);
    }
  }

  /**
   * A room as the public listing projects it (no is_available column) fails roomSchema on
   * is_available, whatever its other fields hold, when price and area reach the front end as
   * JSON numbers. The model declares no casts, so that is driver-dependent: PDO on MySQL and
   * PostgreSQL returns decimal columns as strings such as "1500.00", which fail z.number() too.
   */
  lemma PublicProjectionLacksAvailability(r: Room)
    ensures var shown := map["id" := Num(r.id * 100), "name" := Str(r.name), "address" := Str(r.address),
                             "description" := Str(r.description), "bedrooms" := Num(r.bedrooms * 100),
                             "bathrooms" := Num(r.bathrooms * 100), "price" := Num(r.price), "area" := Num(r.area),
                             "type" := Str(TypeName(r.roomType))];
      RoomShapeErrors(shown, None) == {"is_available"}
  {
    var shown := map["id" := Num(r.id * 100), "name" := Str(r.name), "address" := Str(r.address),
                     "description" := Str(r.description), "bedrooms" := Num(r.bedrooms * 100),
                     "bathrooms" := Num(r.bathrooms * 100), "price" := Num(r.price), "area" := Num(r.area),
                     "type" := Str(TypeName(r.roomType))];
    var e := RoomShapeErrors(shown, None);
    assert ParseType(TypeName(r.roomType)).Some?;
    assert "is_available" in e;
    forall k | k in e ensures k == "is_available" {
      assert k in RoomShapeKeys;
    }
  }
}
