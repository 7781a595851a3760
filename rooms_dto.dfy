/**
 * RoomsDto: the read-only value the controller builds from validated input and hands to
 * the service. `area` and `price` are floats in the source and hundredths here;
 * `bedrooms`, `bathrooms` and `is_available` are ints.
 */
module RoomsDto {
  import opened Wrappers
  import opened Values

  datatype Dto = Dto(
    address: string,
    name: string,
    area: int,
    price: int,
    roomType: Option<string>,
    description: Option<string>,
    bedrooms: int,
    bathrooms: int,
    isAvailable: int)

  /**
   * The constructor called with only its required arguments: no description, no bedrooms or
   * bathrooms, and an availability of 1.
   */
  function WithDefaults(address: string, name: string, area: int, price: int, roomType: Option<string>): (d: Dto)
    ensures d.address == address && d.name == name && d.area == area && d.price == price && d.roomType == roomType
    ensures d.description == None && d.bedrooms == 0 && d.bathrooms == 0 && d.isAvailable == 1
  {
    Dto(address, name, area, price, roomType, None, 0, 0, 1)
  }

  /** A key that is absent or null: what PHP's `??` replaces. */
  predicate Unset(data: map<string, Value>, key: string) {
    key !in data || data[key] == Null
  }

  /**
   * What the constructor's parameter types accept: address and name strings, area and price
   * numbers, type a string or null, description a string or null, bedrooms and bathrooms
   * numbers when set, is_available a boolean when set. It holds for every validated input.
   */
  predicate Acceptable(data: map<string, Value>) {
    && "address" in data && data["address"].Str?
    && "name" in data && data["name"].Str?
    && "area" in data && IsNumeric(data["area"])
    && "price" in data && IsNumeric(data["price"])
    && "type" in data && (data["type"].Str? || data["type"].Null?)
    && ("description" in data ==> data["description"].Str? || data["description"].Null?)
    && (Unset(data, "bedrooms") || IsNumeric(data["bedrooms"]))
    && (Unset(data, "bathrooms") || IsNumeric(data["bathrooms"]))
    && (Unset(data, "is_available") || data["is_available"].Bool?)
  }

  /** An integer field: the number truncated toward zero, or 0 when unset. */
  function IntOrZero(data: map<string, Value>, key: string): int
    requires Unset(data, key) || IsNumeric(data[key])
  {
    if Unset(data, key) then 0 else WholeUnits(data[key])
  }

  /**
   * fromArray: address, name, area, price and type are copied; an unset description becomes
   * null, unset bedrooms and bathrooms become 0, and an unset availability becomes false,
   * which the int parameter stores as 0.
   */
  function FromArray(data: map<string, Value>): (d: Dto)
    requires Acceptable(data)
    ensures d.address == data["address"].s && d.name == data["name"].s
    ensures d.area == Cents(data["area"]) && d.price == Cents(data["price"])
    ensures d.roomType == (if data["type"].Str? then Some(data["type"].s) else None)
    ensures Unset(data, "description") <==> d.description.None?
    ensures d.description.Some? ==> data["description"] == Str(d.description.value)
    ensures Unset(data, "bedrooms") ==> d.bedrooms == 0
    ensures !Unset(data, "bedrooms") ==> d.bedrooms == WholeUnits(data["bedrooms"])
    ensures Unset(data, "bathrooms") ==> d.bathrooms == 0
    ensures !Unset(data, "bathrooms") ==> d.bathrooms == WholeUnits(data["bathrooms"])
    ensures d.isAvailable == 0 || d.isAvailable == 1
    ensures d.isAvailable == 1 <==> "is_available" in data && data["is_available"] == Bool(true)
  {
    Dto(data["address"].s, data["name"].s, Cents(data["area"]), Cents(data["price"]),
        if data["type"].Str? then Some(data["type"].s) else None,
        if Unset(data, "description") then None else Some(data["description"].s),
        IntOrZero(data, "bedrooms"), IntOrZero(data, "bathrooms"),
        if !Unset(data, "is_available") && data["is_available"].b then 1 else 0)
  }

  /**
   * The builder's default for availability is the opposite of the constructor's: input without
   * is_available yields 0, where a constructor call without it yields 1.
   */
  lemma AbsentAvailabilityDiffersFromConstructor(data: map<string, Value>)
    requires Acceptable(data) && "is_available" !in data
    ensures FromArray(data).isAvailable == 0
    ensures WithDefaults(data["address"].s, data["name"].s, Cents(data["area"]), Cents(data["price"]),
                         FromArray(data).roomType).isAvailable == 1
  {
  }

  /** A whole number of bedrooms given as a number reaches the DTO unchanged. */
  lemma WholeBedroomsKept(data: map<string, Value>, n: int)
    requires Acceptable(data) && "bedrooms" in data && data["bedrooms"] == Num(n * 100)
    ensures FromArray(data).bedrooms == n
  {
  }

  /** A fractional number of bedrooms is truncated toward zero: 2.5 becomes 2 and -2.5 becomes -2. */
  lemma FractionalBedroomsTruncated(data: map<string, Value>)
    requires Acceptable(data) && "bedrooms" in data
    ensures data["bedrooms"] == Num(250) ==> FromArray(data).bedrooms == 2
    ensures data["bedrooms"] == Num(-250) ==> FromArray(data).bedrooms == -2
  {
  }
}
