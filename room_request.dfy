/**
 * RoomRequest: the form request behind store and update. It authorizes the caller,
 * rewrites `is_available` through filter_var before validation, and validates the
 * body against the room rules, reporting the set of attributes that fail.
 */
module RoomRequest {
  import opened Wrappers
  import opened Text
  import opened Values
  import opened RoomsTable
  import opened RoomsDto

  /** Who sends a request: nobody signed in, a signed-in user without the admin role, or an admin. */
  datatype Caller = Anonymous | User(id: nat) | Admin(id: nat)

  /** authorize(): the signed-in caller has the admin role. */
  function Authorize(c: Caller): (ok: bool)
    requires !c.Anonymous?
    ensures ok <==> c.Admin?
  {
    match c
    case User(_) => false
    case Admin(_) => true
  }

  // ---- the rules ----

  /** A string that passes `string` and `max:255` and is not blank. */
  predicate IsShortText(v: Value) {
    v.Str? && !IsBlankText(v.s) && |v.s| <= 255
  }

  /**
   * unique:rooms,name ignoring the route's id: no stored row, soft-deleted or not, other than
   * the ignored one carries that name.
   */
  predicate NameFree(name: string, rows: seq<Room>, ignoreId: Option<int>) {
    forall i :: 0 <= i < |rows| && rows[i].name == name ==> ignoreId == Some(rows[i].id as int)
  }

  /** name: required, string, unique ignoring the route's id, max:255. */
  predicate NameValid(input: map<string, Value>, rows: seq<Room>, ignoreId: Option<int>) {
    "name" in input && IsShortText(input["name"]) && NameFree(input["name"].s, rows, ignoreId)
  }

  /** address: required, string, max:255. */
  predicate AddressValid(input: map<string, Value>) {
    "address" in input && IsShortText(input["address"])
  }

  /** description: nullable, string (a blank string skips the `string` rule, and is a string anyway). */
  predicate DescriptionValid(input: map<string, Value>) {
    "description" !in input || input["description"].Null? || input["description"].Str?
  }

  /** area, price, bedrooms, bathrooms: required, numeric; no sign, range or integer check. */
  predicate NumberValid(input: map<string, Value>, key: string) {
    key in input && !IsBlank(input[key]) && IsNumeric(input[key])
  }

  /** type: required, string, in:rent,sale. */
  predicate TypeValid(input: map<string, Value>) {
    "type" in input && (input["type"] == Str("rent") || input["type"] == Str("sale"))
  }

  /** is_available: nullable, boolean. */
  predicate AvailabilityValid(input: map<string, Value>) {
    "is_available" !in input || input["is_available"].Null? || IsBooleanLike(input["is_available"])
  }

  /** The extensions the `image` rule accepts. */
  const ImageExtensions: set<string> := {"jpg", "jpeg", "png", "gif", "bmp", "webp"}

  /** The extensions `mimes:jpeg,png,jpg,webp` accepts. */
  const AllowedExtensions: set<string> := {"jpeg", "png", "jpg", "webp"}

  /** The `max:5120` limit: 5120 kilobytes of 1024 bytes. */
  const MaxImageBytes: nat := 5120 * 1024

  /** One file passes image, mimes:jpeg,png,jpg,webp and max:5120. */
  predicate ImageValid(u: Upload) {
    u.guessedExtension in ImageExtensions && u.guessedExtension in AllowedExtensions && u.size <= MaxImageBytes
  }

  /** The attribute name of the file at position i of `images`: "images.<i>". */
  function ImageKey(i: nat): string {
    "images." + NatToString(i)
  }

  /** The failing entries of an image list, by attribute name. */
  function ImageErrors(files: seq<Upload>): (e: set<string>)
    ensures forall i :: 0 <= i < |files| ==> (ImageKey(i) in e <==> !ImageValid(files[i]))
    ensures forall k :: k in e ==> exists i :: 0 <= i < |files| && k == ImageKey(i) && !ImageValid(files[i])
  {
    var e := set i | 0 <= i < |files| && !ImageValid(files[i]) :: ImageKey(i);
    forall i | 0 <= i < |files| && ImageKey(i) in e
      ensures !ImageValid(files[i])
    {
      var j :| 0 <= j < |files| && !ImageValid(files[j]) && ImageKey(i) == ImageKey(j);
      assert NatToString(i) == ImageKey(i)[7..] && NatToString(j) == ImageKey(j)[7..];
      NatToStringInjective(i, j);
    }
    e
  }

  /** The scalar attributes the rules name. */
  const RuleKeys: set<string> := {"name", "address", "description", "area", "price", "type",
                                  "bedrooms", "bathrooms", "is_available"}

  /** The rule of one scalar attribute holds. */
  predicate RuleHolds(input: map<string, Value>, key: string, rows: seq<Room>, ignoreId: Option<int>) {
    match key
    case "name" => NameValid(input, rows, ignoreId)
    case "address" => AddressValid(input)
    case "description" => DescriptionValid(input)
    case "type" => TypeValid(input)
    case "is_available" => AvailabilityValid(input)
    case _ => NumberValid(input, key)
  }

  /** The attributes of `input` whose rule fails. */
  function FieldErrors(input: map<string, Value>, rows: seq<Room>, ignoreId: Option<int>): (e: set<string>)
    ensures "name" in e <==> !NameValid(input, rows, ignoreId)
    ensures "address" in e <==> !AddressValid(input)
    ensures "description" in e <==> !DescriptionValid(input)
    ensures forall k :: k in {"area", "price", "bedrooms", "bathrooms"} ==> (k in e <==> !NumberValid(input, k))
    ensures "type" in e <==> !TypeValid(input)
    ensures "is_available" in e <==> !AvailabilityValid(input)
    ensures e <= RuleKeys
  {
    set k | k in RuleKeys && !RuleHolds(input, k, rows, ignoreId)
  }

  /**
   * images: nullable, array. Uploaded files replace whatever the body carries under the key and
   * form an array; otherwise a value that is neither null nor blank text (which skips the rule)
   * is a scalar, and a scalar is never an array.
   */
  predicate ImagesFieldValid(input: map<string, Value>, images: Option<seq<Upload>>) {
    images.Some? || "images" !in input || IsBlank(input["images"])
  }

  /** The failing attributes of the two image rules: `images` itself, or the files it holds. */
  function FileErrors(input: map<string, Value>, images: Option<seq<Upload>>): (e: set<string>)
    ensures "images" in e <==> !ImagesFieldValid(input, images)
    ensures images.Some? ==> e == ImageErrors(images.value)
    ensures images.None? ==> e <= {"images"}
  {
    if images.Some? then
      assert forall i :: 0 <= i < |images.value| ==> |ImageKey(i)| > |"images"|;
      ImageErrors(images.value)
    else if ImagesFieldValid(input, images) then {} else {"images"}
  }

  /**
   * The validator: the validated data (the scalar attributes the rules name, as given) when every
   * rule passes, otherwise the failing attribute names, the image rules included.
   */
  function Validate(input: map<string, Value>, images: Option<seq<Upload>>, rows: seq<Room>, ignoreId: Option<int>)
    : (r: Result<map<string, Value>, set<string>>)
    ensures r.Success? <==> FieldErrors(input, rows, ignoreId) == {} && FileErrors(input, images) == {}
    ensures r.Success? ==> r.value == map k | k in input && k in RuleKeys :: input[k]
    ensures r.Failure? ==> r.error == FieldErrors(input, rows, ignoreId) + FileErrors(input, images)
  {
    var e := FieldErrors(input, rows, ignoreId) + FileErrors(input, images);
    if e == {} then Success(map k | k in input && k in RuleKeys :: input[k]) else Failure(e)
  }

  /**
   * prepareForValidation's rewrite of the input: a present is_available (null included) holds its
   * filter_var reading, null on failure; every other key keeps its value.
   */
  function Prepared(input: map<string, Value>): (p: map<string, Value>)
    ensures p.Keys == input.Keys
    ensures forall k :: k in input && k != "is_available" ==> p[k] == input[k]
    ensures "is_available" in p ==> p["is_available"] == CoerceBoolean(input["is_available"])
  {
    if "is_available" in input then input["is_available" := CoerceBoolean(input["is_available"])] else input
  }

  /**
   * What a request that passed the gate hands the service: the DTO fromArray builds from the
   * validated data of the prepared input, or the attributes that fail.
   */
  function RequestDto(input: map<string, Value>, images: Option<seq<Upload>>, rows: seq<Room>, ignoreId: Option<int>)
    : (r: Result<Dto, set<string>>)
    ensures var v := Validate(Prepared(input), images, rows, ignoreId);
      && (r.Success? <==> v.Success?)
      && (r.Failure? ==> r.error == v.error)
      && (r.Success? ==> Acceptable(v.value) && r.value == FromArray(v.value))
  {
    var v := Validate(Prepared(input), images, rows, ignoreId);
    if v.Failure? then Failure(v.error)
    else
      ValidatedIsAcceptable(Prepared(input), images, rows, ignoreId);
      Success(FromArray(v.value))
  }

  /** The form request of one call: its input, which prepareForValidation rewrites in place, and its files. */
  class FormRequest {
    var input: map<string, Value>
    const images: Option<seq<Upload>>
    /** route('id'): the room being updated, absent on store. */
    const routeId: Option<int>
    const caller: Caller

    constructor(input: map<string, Value>, images: Option<seq<Upload>>, routeId: Option<int>, caller: Caller)
      ensures this.input == input && this.images == images && this.routeId == routeId && this.caller == caller
    {
      this.input := input;
      this.images := images;
      this.routeId := routeId;
      this.caller := caller;
    }

    /** When is_available is present (even as null) it is replaced by its filter_var reading, null on failure. */
    method PrepareForValidation()
      modifies this
      ensures input == Prepared(old(input))
    {
      if "is_available" in input {
        input := input["is_available" := CoerceBoolean(input["is_available"])];
      }
    }

    /**
     * Resolving the request: prepareForValidation, then authorize (Forbidden), then the rules
     * (Invalid with the failing attributes); the result is the validated data.
     */
    method Resolve(rows: seq<Room>) returns (r: Result<map<string, Value>, RequestError>)
      requires !caller.Anonymous?
      modifies this
      ensures input == Prepared(old(input))
      ensures !Authorize(caller) ==> r == Failure(Forbidden)
      ensures Authorize(caller) ==> match Validate(input, images, rows, routeId)
        case Success(data) => r == Success(data)
        case Failure(e) => r == Failure(Invalid(e))
    {
      PrepareForValidation();
      if !Authorize(caller) {
        return Failure(Forbidden);
      }
      match Validate(input, images, rows, routeId)
      case Success(data) => r := Success(data);
      case Failure(e) => r := Failure(Invalid(e));
    }
  }

  datatype RequestError = Forbidden | Invalid(errors: set<string>)

  // ---- properties ----

  /** After coercion is_available is a boolean or null, so its rule never fails. */
  lemma CoercedAvailabilityPasses(input: map<string, Value>)
    ensures AvailabilityValid(Prepared(input))
  {
  }

  /** The empty body fails on exactly name, address, area, price, type, bedrooms and bathrooms. */
  lemma EmptyPayloadErrors(rows: seq<Room>, ignoreId: Option<int>)
    ensures Validate(map[], None, rows, ignoreId) ==
      Failure({"name", "address", "area", "price", "type", "bedrooms", "bathrooms"})
  {
    var e := FieldErrors(map[], rows, ignoreId);
    var expected := {"name", "address", "area", "price", "type", "bedrooms", "bathrooms"};
    assert "description" !in e && "is_available" !in e;
    assert forall k :: k in expected ==> k in e;
    assert forall k :: k in e ==> k in expected;
    assert e == expected;
    var r := Validate(map[], None, rows, ignoreId);
    assert "name" in e;
    assert r.Failure? && r.error == e + {};
    assert e + {} == e;
  }

  /** A soft-deleted row's name still blocks a create, and a rename of any other room. */
  lemma TrashedNameStillTaken(input: map<string, Value>, rows: seq<Room>, ignoreId: Option<int>, i: nat)
    requires i < |rows| && IsTrashed(rows[i])
    requires "name" in input && input["name"] == Str(rows[i].name)
    requires ignoreId != Some(rows[i].id as int)
    ensures Validate(input, None, rows, ignoreId).Failure?
    ensures "name" in Validate(input, None, rows, ignoreId).error
  {
  }

  /**
   * Validating an update is validating a create against the table without the room being
   * updated: the room's own name never blocks it, every other row's name (trashed or not) does.
   */
  lemma UpdateIgnoresOwnRow(input: map<string, Value>, images: Option<seq<Upload>>, rows: seq<Room>, i: nat)
    requires i < |rows|
    requires forall j :: 0 <= j < |rows| ==> rows[j].id == j + 1
    ensures Validate(input, images, rows, Some(i + 1)) == Validate(input, images, rows[..i] + rows[i + 1..], None)
  {
    var rest := rows[..i] + rows[i + 1..];
    forall name: string
      ensures NameFree(name, rows, Some(i + 1)) <==> NameFree(name, rest, None)
    {
      assert forall j :: 0 <= j < i ==> rest[j] == rows[j];
      assert forall j :: i < j < |rows| ==> rest[j - 1] == rows[j];
    }
    forall k | k in RuleKeys
      ensures RuleHolds(input, k, rows, Some(i + 1)) == RuleHolds(input, k, rest, None)
    {
    }
    assert FieldErrors(input, rows, Some(i + 1)) == FieldErrors(input, rest, None);
  }

  /**
   * A body whose every scalar passes, but which carries text, a number or a boolean under
   * `images` and sends no files, is refused on `images` alone.
   */
  lemma ScalarImagesRejected(input: map<string, Value>, rows: seq<Room>, ignoreId: Option<int>)
    requires "images" in input && !IsBlank(input["images"])
    ensures Validate(input, None, rows, ignoreId).Failure?
    ensures Validate(input, None, rows, ignoreId).error == FieldErrors(input, rows, ignoreId) + {"images"}
  {
    assert "images" in FileErrors(input, None);
  }

  /** The numeric rules accept negative and fractional numbers, as numbers or as text. */
  lemma NumbersNeedNotBeNaturals(input: map<string, Value>, key: string)
    requires key in input && (input[key] == Num(-150) || input[key] == Str("-1.5"))
    ensures NumberValid(input, key)
  {
    if input[key] == Str("-1.5") {
      var b := SplitSign("-1.5").1;
      assert b == "1.5";
      assert IndexOf(b, '.') == Some(1);
      assert WholeDigits(b) == "1" && FractionDigits(b) == "5";
    }
  }

  /** Data that passes validation is data the DTO builder accepts. */
  lemma ValidatedIsAcceptable(input: map<string, Value>, images: Option<seq<Upload>>, rows: seq<Room>, ignoreId: Option<int>)
    requires Validate(input, images, rows, ignoreId).Success?
    requires "is_available" in input ==> input["is_available"].Bool? || input["is_available"].Null?
    ensures Acceptable(Validate(input, images, rows, ignoreId).value)
  {
    var data := Validate(input, images, rows, ignoreId).value;
    assert forall k :: k in input && k in RuleKeys ==> k in data && data[k] == input[k];
    assert NameValid(input, rows, ignoreId) && AddressValid(input) && TypeValid(input) && DescriptionValid(input);
    assert "name" in RuleKeys && "address" in RuleKeys && "type" in RuleKeys && "description" in RuleKeys;
    assert "area" in RuleKeys && "price" in RuleKeys && "bedrooms" in RuleKeys && "bathrooms" in RuleKeys;
    assert "is_available" in RuleKeys;
    assert NumberValid(input, "area") && NumberValid(input, "price");
    assert NumberValid(input, "bedrooms") && NumberValid(input, "bathrooms");
  }
}
