/**
 * The listing query of the room catalog: the conditions a query builder collects
 * (the availability restriction and the filters added clause by clause), the columns
 * it selects, and the length-aware pagination applied to its result.
 *
 * Rows are read in id order (the listing has no ORDER BY; ascending id is the order
 * this model fixes). Filter values are the query-string texts the controller passes on;
 * a key that is missing or bound to null is absent from the bag (PHP's isset is false
 * for both).
 */
module RoomQuery {
  import opened Wrappers
  import opened Text
  import opened RoomsTable
  import opened RoomModel

  // ---- conditions ----

  datatype NumericColumn = Bedrooms | Bathrooms | Price | Area

  /** A column's value in hundredths, the unit filter texts are compared in. */
  function ColumnCents(r: Room, col: NumericColumn): int {
    match col
    case Bedrooms => r.bedrooms * 100
    case Bathrooms => r.bathrooms * 100
    case Price => r.price
    case Area => r.area
  }

  /** One WHERE condition of the listing query. */
  datatype Clause =
    | NumberEquals(column: NumericColumn, text: string)   // where(column, text)
    | SearchLike(term: string)                            // LOWER(name) LIKE %term% OR LOWER(description) LIKE %term%
    | TypeEquals(text: string)                            // where('type', text)
    | AvailableEquals(flag: int)                          // where('is_available', flag)

  /** The lower-cased term occurs in the lower-cased name or description. */
  predicate SearchHit(r: Room, term: string) {
    Contains(Lower(r.name), term) || Contains(Lower(r.description), term)
  }

  /**
   * A row satisfies a condition. A text compared with a numeric column matches when it is
   * a decimal literal with exactly the column's value; the boolean column holds 1 or 0.
   */
  predicate Holds(r: Room, c: Clause) {
    match c
    case NumberEquals(col, text) => ExactCents(text) == Some(ColumnCents(r, col))
    case SearchLike(term) => SearchHit(r, term)
    case TypeEquals(text) => TypeName(r.roomType) == text
    case AvailableEquals(flag) => (if r.isAvailable then 1 else 0) == flag
  }

  predicate HoldsAll(r: Room, cs: seq<Clause>) {
    forall i :: 0 <= i < |cs| ==> Holds(r, cs[i])
  }

  /** Every column of the table, in migration order: what Room::query() selects. */
  const AllColumns: seq<string> := ["id", "owner_id", "address", "name", "description", "bedrooms", "bathrooms",
                                    "price", "area", "type", "is_available", "created_at", "updated_at", "deleted_at"]

  /** The columns a caller without the admin role is shown. */
  const PublicColumns: seq<string> := ["id", "name", "address", "description", "bedrooms", "bathrooms",
                                       "price", "area", "type"]

  /** The columns an admin is shown: the public ones and the availability flag and timestamps. */
  const AdminColumns: seq<string> := PublicColumns + ["is_available", "created_at", "updated_at"]

  /**
   * A query under construction: the columns it selects and the conditions it has collected.
   * Soft-deleted rows are excluded by the model's global scope whatever the conditions.
   */
  class Builder {
    var columns: seq<string>
    var clauses: seq<Clause>

    /** Room::query(): every column, no condition. */
    constructor()
      ensures columns == AllColumns && clauses == []
    {
      columns := AllColumns;
      clauses := [];
    }

    /** A row that every collected condition admits. */
    predicate Matches(r: Room)
      reads this
    {
      HoldsAll(r, clauses)
    }

    /** select([...]): replaces the column list. */
    method Select(cols: seq<string>)
      modifies this
      ensures columns == cols && clauses == old(clauses)
    {
      columns := cols;
    }

    /** where(...): one more condition, ANDed with the earlier ones. */
    method Where(c: Clause)
      modifies this
      ensures columns == old(columns) && clauses == old(clauses) + [c]
      ensures forall r :: Matches(r) <==> old(Matches(r)) && Holds(r, c)
    {
      clauses := clauses + [c];
      forall r: Room
        ensures Matches(r) <==> old(Matches(r)) && Holds(r, c)
      {
        assert forall i :: 0 <= i < |old(clauses)| ==> clauses[i] == old(clauses)[i];
        assert clauses[|old(clauses)|] == c;
      }
    }
  }

  // ---- the filters, key by key ----

  /** A numeric key, when set, admits only rows whose column has exactly the given value. */
  predicate NumericFilterHolds(r: Room, f: map<string, string>, key: string, col: NumericColumn) {
    key in f ==> ExactCents(f[key]) == Some(ColumnCents(r, col))
  }

  /** `search`, when set, admits rows whose name or description contains the term, ignoring ASCII case. */
  predicate SearchHolds(r: Room, f: map<string, string>) {
    "search" in f ==> SearchHit(r, Lower(f["search"]))
  }

  /** `type`, when set and not "", admits rows of exactly that type. */
  predicate TypeHolds(r: Room, f: map<string, string>) {
    "type" in f && f["type"] != "" ==> TypeName(r.roomType) == f["type"]
  }

  /** `is_available`, when set and not "", admits rows whose flag equals the text's (int) cast. */
  predicate AvailabilityHolds(r: Room, f: map<string, string>) {
    "is_available" in f && f["is_available"] != "" ==> (if r.isAvailable then 1 else 0) == PhpIntCast(f["is_available"])
  }

  /** All filters of the bag together: the rows RoomsFilter lets through. */
  predicate MatchesFilters(r: Room, f: map<string, string>) {
    && NumericFilterHolds(r, f, "bedrooms", Bedrooms)
    && NumericFilterHolds(r, f, "bathrooms", Bathrooms)
    && NumericFilterHolds(r, f, "price", Price)
    && NumericFilterHolds(r, f, "area", Area)
    && SearchHolds(r, f)
    && TypeHolds(r, f)
    && AvailabilityHolds(r, f)
  }

  /** A row the listing can return: not soft-deleted and, for a caller without the admin role, available. */
  predicate Visible(r: Room, isAdmin: bool) {
    !IsTrashed(r) && (isAdmin || r.isAvailable)
  }

  /** The listing's matching rows, in table order: the reference definition of the query result. */
  function Matching(rows: seq<Room>, f: map<string, string>, isAdmin: bool): (s: seq<Room>)
    ensures |s| <= |rows|
    ensures forall r :: r in s <==> r in rows && Visible(r, isAdmin) && MatchesFilters(r, f)
  {
    if rows == [] then []
    else if Visible(rows[0], isAdmin) && MatchesFilters(rows[0], f) then [rows[0]] + Matching(rows[1..], f, isAdmin)
    else Matching(rows[1..], f, isAdmin)
  }

  /** What the database returns for a built query: the rows outside the trash that meet every condition. */
  function Run(rows: seq<Room>, cs: seq<Clause>): seq<Room> {
    if rows == [] then []
    else if !IsTrashed(rows[0]) && HoldsAll(rows[0], cs) then [rows[0]] + Run(rows[1..], cs)
    else Run(rows[1..], cs)
  }

  /** A query whose conditions mean "visible and matching the filters" returns exactly Matching. */
  lemma {:induction false} RunIsMatching(rows: seq<Room>, cs: seq<Clause>, f: map<string, string>, isAdmin: bool)
    requires forall r :: HoldsAll(r, cs) <==> (isAdmin || r.isAvailable) && MatchesFilters(r, f)
    ensures Run(rows, cs) == Matching(rows, f, isAdmin)
  {
    if rows != [] {
      RunIsMatching(rows[1..], cs, f, isAdmin);
    }
  }

  /** The listing keeps table order: rows with ascending ids give a result with ascending ids. */
  lemma {:induction false} MatchingKeepsIdOrder(rows: seq<Room>, f: map<string, string>, isAdmin: bool)
    requires forall i, j :: 0 <= i < j < |rows| ==> rows[i].id < rows[j].id
    ensures forall i, j :: 0 <= i < j < |Matching(rows, f, isAdmin)| ==> Matching(rows, f, isAdmin)[i].id < Matching(rows, f, isAdmin)[j].id
  {
    if rows != [] {
      MatchingKeepsIdOrder(rows[1..], f, isAdmin);
      var rest := Matching(rows[1..], f, isAdmin);
      assert forall r :: r in rest ==> r in rows[1..];
      assert forall r :: r in rows[1..] ==> rows[0].id < r.id;
    }
  }

  lemma {:induction false} MatchingAppend(a: seq<Room>, b: seq<Room>, f: map<string, string>, isAdmin: bool)
    ensures Matching(a + b, f, isAdmin) == Matching(a, f, isAdmin) + Matching(b, f, isAdmin)
  {
    if a != [] {
      assert (a + b)[0] == a[0] && (a + b)[1..] == a[1..] + b;
      MatchingAppend(a[1..], b, f, isAdmin);
    } else {
      assert a + b == b;
    }
  }

  /** A soft-deleted row drops out of every listing, as if it had never been stored. */
  lemma SoftDeleteHidesRow(rows: seq<Room>, i: nat, now: int, f: map<string, string>, isAdmin: bool)
    requires i < |rows|
    ensures Matching(rows[i := SoftDelete(rows[i], now)], f, isAdmin) == Matching(rows[..i] + rows[i + 1..], f, isAdmin)
  {
    var d := SoftDelete(rows[i], now);
    var a := rows[..i];
    var b := rows[i + 1..];
    assert rows[i := d] == (a + [d]) + b;
    MatchingAppend(a + [d], b, f, isAdmin);
    MatchingAppend(a, [d], f, isAdmin);
    assert Matching([d], f, isAdmin) == [] by {
      assert !Visible(d, isAdmin) && [d][1..] == [];
    }
    MatchingAppend(a, b, f, isAdmin);
    assert Matching(a, f, isAdmin) + [] == Matching(a, f, isAdmin);
  }

  /** Without the admin role every listed row is available and outside the trash, whatever the filters. */
  lemma NonAdminSeesOnlyAvailable(rows: seq<Room>, f: map<string, string>)
    ensures forall r :: r in Matching(rows, f, false) ==> r.isAvailable && !IsTrashed(r)
  {
  }

  /** The rows available to everyone, outside the trash. */
  function AvailableRows(rows: seq<Room>): (s: seq<Room>)
    ensures forall r :: r in s <==> r in rows && r.isAvailable && !IsTrashed(r)
  {
    if rows == [] then []
    else if rows[0].isAvailable && !IsTrashed(rows[0]) then [rows[0]] + AvailableRows(rows[1..])
    else AvailableRows(rows[1..])
  }

  /** The count a caller without the admin role sees never includes unavailable rows. */
  lemma {:induction false} NonAdminTotalCountsAvailableOnly(rows: seq<Room>, f: map<string, string>)
    ensures |Matching(rows, f, false)| <= |AvailableRows(rows)|
    ensures f == map[] ==> Matching(rows, f, false) == AvailableRows(rows)
  {
    if rows != [] {
      NonAdminTotalCountsAvailableOnly(rows[1..], f);
    }
  }

  /** A bedrooms filter written as an integer admits exactly the rows with that many bedrooms. */
  lemma BedroomsFilterIsExact(r: Room, f: map<string, string>, n: int)
    requires "bedrooms" in f && f["bedrooms"] == IntToString(n)
    ensures NumericFilterHolds(r, f, "bedrooms", Bedrooms) <==> r.bedrooms == n
  {
    IntToStringCents(n);
  }

  /** A bathrooms filter written as an integer admits exactly the rows with that many bathrooms. */
  lemma BathroomsFilterIsExact(r: Room, f: map<string, string>, n: int)
    requires "bathrooms" in f && f["bathrooms"] == IntToString(n)
    ensures NumericFilterHolds(r, f, "bathrooms", Bathrooms) <==> r.bathrooms == n
  {
    IntToStringCents(n);
  }

  /** A price or area filter written as whole units admits exactly the rows with that value. */
  lemma DecimalFilterIsExact(r: Room, f: map<string, string>, key: string, col: NumericColumn, n: int)
    requires col == Price || col == Area
    requires key in f && f[key] == IntToString(n)
    ensures NumericFilterHolds(r, f, key, col) <==> ColumnCents(r, col) == n * 100
  {
    IntToStringCents(n);
  }

  /** A numeric filter text that is not a decimal literal admits no row at all. */
  lemma NonNumericFilterAdmitsNothing(r: Room, f: map<string, string>, key: string, col: NumericColumn)
    requires key in f && !IsDecimalLiteral(f[key])
    ensures !NumericFilterHolds(r, f, key, col)
  {
  }

  /** `type` and `is_available` given as "" are skipped, as if the key were absent. */
  lemma EmptyTypeAndAvailabilitySkipped(r: Room, f: map<string, string>)
    ensures MatchesFilters(r, f["type" := ""]) <==> MatchesFilters(r, f - {"type"})
    ensures MatchesFilters(r, f["is_available" := ""]) <==> MatchesFilters(r, f - {"is_available"})
  {
  }

  /** is_available=1 admits the available rows and is_available=0 the unavailable ones. */
  lemma AvailabilityFilterByDigit(r: Room, f: map<string, string>)
    ensures "is_available" in f && f["is_available"] == "1" ==> (AvailabilityHolds(r, f) <==> r.isAvailable)
    ensures "is_available" in f && f["is_available"] == "0" ==> (AvailabilityHolds(r, f) <==> !r.isAvailable)
  {
    PhpIntCastNatToString(1);
    PhpIntCastNatToString(0);
  }

  /** The flag is compared after an (int) cast, so is_available=true admits the unavailable rows. */
  lemma AvailabilityWordCastsToZero(r: Room, f: map<string, string>)
    requires "is_available" in f && f["is_available"] == "true"
    ensures AvailabilityHolds(r, f) <==> !r.isAvailable
  {
    PhpIntCastNonNumeric("true");
  }

  /** The search ignores ASCII case in the term: searching a term or its lower-case form selects alike. */
  lemma SearchIgnoresTermCase(r: Room, f: map<string, string>, term: string)
    ensures SearchHolds(r, f["search" := term]) <==> SearchHolds(r, f["search" := Lower(term)])
  {
    LowerIdempotent(term);
  }

  /** An empty search term admits every row. */
  lemma EmptySearchAdmitsAll(r: Room, f: map<string, string>)
    requires "search" in f && f["search"] == ""
    ensures SearchHolds(r, f)
  {
    ContainsAt(Lower(r.name), "", 0);
  }

  /** A name starting with "Luxury" contains "luxury" once lower-cased. */
  lemma LowerStartsWithLuxury(s: string)
    requires |s| >= 6 && s[..6] == "Luxury"
    ensures Contains(Lower(s), "luxury")
  {
    var l := Lower(s);
    LowerPrefix(s, 6);
    LowerLuxury(s[..6]);
    assert l[..6] == "luxury";
    assert "luxury" <= l[0..];
    ContainsAt(l, "luxury", 0);
  }

  /** Lower-casing commutes with taking a prefix. */
  lemma LowerPrefix(s: string, n: nat)
    requires n <= |s|
    ensures Lower(s)[..n] == Lower(s[..n])
  {
    var a, b := Lower(s)[..n], Lower(s[..n]);
    forall i | 0 <= i < n
      ensures a[i] == b[i]
    {
      assert a[i] == Lower(s)[i] == LowerChar(s[i]);
      assert b[i] == LowerChar(s[..n][i]);
    }
  }

  /** "Budget Apartment" holds no 'l' in either case, so it cannot contain "luxury". */
  lemma BudgetApartmentLacksLuxury(s: string)
    requires s == "Budget Apartment"
    ensures !Contains(Lower(s), "luxury")
  {
    var l := Lower(s);
    assert forall j :: 0 <= j < |s| ==> s[j] != 'l' && s[j] != 'L';
    assert forall j :: 0 <= j < |l| ==> l[j] != 'l';
    NotContainsMissingChar(l, "luxury");
  }

  lemma PrefixOfLiteral(s: string, p: string, rest: string)
    requires s == p + rest
    ensures |s| >= |p| && s[..|p|] == p
  {
  }

  lemma LowerLuxury(t: string)
    requires t == "Luxury"
    ensures Lower(t) == "luxury"
  {
    assert t[0] == 'L' && t[1] == 'u' && t[2] == 'x' && t[3] == 'u' && t[4] == 'r' && t[5] == 'y';
  }

  /** A room whose name starts with "Luxury" passes search=Luxury. */
  lemma LuxuryNameMatches(r: Room, f: map<string, string>)
    requires f == map["search" := "Luxury"]
    requires |r.name| >= 6 && r.name[..6] == "Luxury"
    ensures MatchesFilters(r, f)
  {
    LowerLuxury(f["search"]);
    LowerStartsWithLuxury(r.name);
  }

  /** "Budget Apartment" fails search=Luxury unless its description mentions the term. */
  lemma BudgetNameMisses(r: Room, f: map<string, string>)
    requires f == map["search" := "Luxury"]
    requires r.name == "Budget Apartment" && !Contains(Lower(r.description), "luxury")
    ensures !MatchesFilters(r, f)
  {
    LowerLuxury(f["search"]);
    BudgetApartmentLacksLuxury(r.name);
  }

  /**
   * The search example: among three available rooms named "Luxury Condo", "Budget Apartment"
   * and "Luxury Suite", whose descriptions do not mention the term, search=Luxury lists the first
   * and the third.
   */
  lemma LuxurySearchExample(a: Room, b: Room, c: Room)
    requires a.name == "Luxury Condo" && b.name == "Budget Apartment" && c.name == "Luxury Suite"
    requires Visible(a, false) && Visible(b, false) && Visible(c, false)
    requires !Contains(Lower(b.description), "luxury")
    ensures Matching([a, b, c], map["search" := "Luxury"], false) == [a, c]
  {
    var f := map["search" := "Luxury"];
    PrefixOfLiteral(a.name, "Luxury", " Condo");
    PrefixOfLiteral(c.name, "Luxury", " Suite");
    LuxuryNameMatches(a, f);
    LuxuryNameMatches(c, f);
    BudgetNameMisses(b, f);
    MatchingFirstAndThird(a, b, c, f, false);
  }

  /** Of three visible rows, a filter that admits the first and third but not the second lists those two. */
  lemma MatchingFirstAndThird(a: Room, b: Room, c: Room, f: map<string, string>, isAdmin: bool)
    requires Visible(a, isAdmin) && Visible(b, isAdmin) && Visible(c, isAdmin)
    requires MatchesFilters(a, f) && !MatchesFilters(b, f) && MatchesFilters(c, f)
    ensures Matching([a, b, c], f, isAdmin) == [a, c]
  {
    assert [a, b, c] == [a] + ([b] + [c]);
    MatchingAppend([a], [b] + [c], f, isAdmin);
    MatchingAppend([b], [c], f, isAdmin);
    MatchingSingleton(a, f, isAdmin);
    MatchingSingleton(b, f, isAdmin);
    MatchingSingleton(c, f, isAdmin);
  }

  /** The listing of a one-row table. */
  lemma MatchingSingleton(r: Room, f: map<string, string>, isAdmin: bool)
    ensures Matching([r], f, isAdmin) == if Visible(r, isAdmin) && MatchesFilters(r, f) then [r] else []
  {
    assert [r][1..] == [];
  }

  // ---- projection ----

  /** A serialised column value. Timestamps are opaque instants. */
  datatype Field = Int(n: int) | Decimal(cents: int) | Text(s: string) | Flag(b: bool) | Time(t: int) | Null

  function Nullable(v: Option<int>, wrap: int -> Field): Field {
    match v
    case None => Null
    case Some(x) => wrap(x)
  }

  /** The value of one named column of a row. */
  function ColumnValue(r: Room, name: string): Field {
    match name
    case "id" => Int(r.id)
    case "owner_id" => if r.ownerId.Some? then Int(r.ownerId.value) else Null
    case "address" => Text(r.address)
    case "name" => Text(r.name)
    case "description" => Text(r.description)
    case "bedrooms" => Int(r.bedrooms)
    case "bathrooms" => Int(r.bathrooms)
    case "price" => Decimal(r.price)
    case "area" => Decimal(r.area)
    case "type" => Text(TypeName(r.roomType))
    case "is_available" => Flag(r.isAvailable)
    case "created_at" => Nullable(r.createdAt, t => Time(t))
    case "updated_at" => Nullable(r.updatedAt, t => Time(t))
    case "deleted_at" => Nullable(r.deletedAt, t => Time(t))
    case _ => Null
  }

  /** The selected columns of a row, by name: exactly the selected table columns, each with the row's value. */
  function Project(r: Room, cols: seq<string>): (m: map<string, Field>)
    ensures m.Keys == set c | c in cols && c in AllColumns
    ensures forall c :: c in m ==> m[c] == ColumnValue(r, c)
  {
    map c | c in cols && c in AllColumns :: ColumnValue(r, c)
  }

  /** A serialised room: its selected columns, the appended `images` attribute and the loaded media. */
  datatype RoomView = RoomView(fields: map<string, Field>, images: seq<ImageEntry>, media: seq<Media>)

  function View(r: Room, cols: seq<string>, appUrl: string, allMedia: seq<Media>): RoomView {
    var own := MediaOf(allMedia, r.id);
    RoomView(Project(r, cols), ImagesAttribute(appUrl, own), own)
  }

  function Views(rows: seq<Room>, cols: seq<string>, appUrl: string, allMedia: seq<Media>): (vs: seq<RoomView>)
    ensures |vs| == |rows|
    ensures forall k :: 0 <= k < |rows| ==> vs[k] == View(rows[k], cols, appUrl, allMedia)
  {
    seq(|rows|, k requires 0 <= k < |rows| => View(rows[k], cols, appUrl, allMedia))
  }

  /** The column list getRooms selects for a caller. */
  function ColumnsFor(isAdmin: bool): seq<string> {
    if isAdmin then AdminColumns else PublicColumns
  }

  /**
   * The two projections: a caller without the admin role gets exactly id, name, address,
   * description, bedrooms, bathrooms, price, area and type; an admin gets those and
   * is_available, created_at and updated_at. Neither shows the owner or the soft-delete marker.
   */
  lemma ProjectionColumns(r: Room, c: string)
    ensures c in Project(r, ColumnsFor(false)) <==> c in PublicColumns
    ensures c in Project(r, ColumnsFor(true)) <==> c in PublicColumns || c == "is_available" || c == "created_at" || c == "updated_at"
    ensures c == "owner_id" || c == "deleted_at" ==> c !in Project(r, ColumnsFor(false)) && c !in Project(r, ColumnsFor(true))
  {
    if c in AdminColumns {
      assert c in AllColumns;
    }
  }

  // ---- pagination ----

  /** A length-aware page: its items, the total count and the numbers its meta block reports. */
  datatype Page<T> = Page(items: seq<T>, total: nat, perPage: int, currentPage: nat, lastPage: nat,
                          from: Option<int>, to: Option<int>)

  /** The page size used: a size of 0 falls back to the model's default of 15. */
  function EffectivePerPage(perPage: int): (pp: int)
    ensures pp != 0
    ensures perPage != 0 ==> pp == perPage
  {
    if perPage == 0 then 15 else perPage
  }

  /** ceil(total / perPage), at least 1; a size below 1 gives a single page. */
  function LastPage(total: nat, perPage: int): (n: nat)
    ensures n >= 1
    ensures perPage > 0 ==> total <= n * perPage
    ensures perPage > 0 && total > 0 ==> (n - 1) * perPage < total
  {
    if perPage > 0 then
      var c := (total + perPage - 1) / perPage;
      if c < 1 then 1 else c
    else 1
  }

  /**
   * The number of rows a page skips: (page - 1) * size, which forPage's offset clamps at 0, so a
   * negative size skips nothing.
   */
  function Offset(page: nat, perPage: int): (o: nat)
    requires page >= 1
    ensures perPage >= 0 ==> o == (page - 1) * perPage
    ensures perPage < 0 ==> o == 0
  {
    if perPage < 0 then 0 else (page - 1) * perPage
  }

  /** The position firstItem() reports for a page: (page - 1) * size + 1, not clamped. */
  function FirstItem(page: nat, perPage: int): (n: int)
    requires page >= 1
    ensures perPage >= 0 ==> n == Offset(page, perPage) + 1
    ensures perPage < 0 ==> n <= 1
  {
    (page - 1) * perPage + 1
  }

  /** At most `size` rows starting at `start` (OFFSET start LIMIT size). */
  function Window<T>(rows: seq<T>, start: nat, size: nat): (w: seq<T>)
    ensures |w| <= size
    ensures start + size <= |rows| ==> |w| == size
    ensures start >= |rows| ==> w == []
    ensures start < |rows| ==> w != [] || size == 0
    ensures forall k :: 0 <= k < |w| ==> start + k < |rows| && w[k] == rows[start + k]
  {
    if start >= |rows| then []
    else if start + size <= |rows| then rows[start..start + size]
    else rows[start..]
  }

  /**
   * paginate(perPage) on page `page`: the rows from offset (page - 1) * size, at most size of
   * them; a negative size sets no limit and a zero offset. `from` and `to` are the positions of
   * the first and last item, absent on an empty page; they are computed from the unclamped
   * product, so a negative size numbers the rows of a later page from below 1.
   */
  function Paginate<T>(rows: seq<T>, perPage: int, page: nat): (p: Page<T>)
    requires page >= 1
    ensures p.total == |rows| && p.perPage == EffectivePerPage(perPage) && p.currentPage == page
    ensures p.lastPage == LastPage(|rows|, p.perPage) && p.lastPage >= 1
    ensures p.perPage > 0 ==> p.items == Window(rows, Offset(page, p.perPage), p.perPage)
    ensures p.perPage < 0 ==> p.items == rows
    ensures p.items == [] <==> p.from.None?
    ensures p.items == [] <==> p.to.None?
    ensures p.items != [] ==> p.from == Some(FirstItem(page, p.perPage)) && p.to == Some(p.from.value + |p.items| - 1)
    ensures p.perPage > 0 && p.items != [] ==> 1 <= p.from.value <= p.to.value <= |rows|
  {
    var pp := EffectivePerPage(perPage);
    var items := if pp < 0 then rows[Offset(page, pp)..] else Window(rows, Offset(page, pp), pp);
    var first := FirstItem(page, pp);
    Page(items, |rows|, pp, page, LastPage(|rows|, pp),
         if items == [] then None else Some(first),
         if items == [] then None else Some(first + |items| - 1))
  }

  /** With a positive size, row k is item k % size of page k / size + 1. */
  lemma EveryRowOnItsPage<T>(rows: seq<T>, perPage: int, k: nat)
    requires perPage > 0 && k < |rows|
    ensures var p := Paginate(rows, perPage, k / perPage + 1);
      k % perPage < |p.items| && p.items[k % perPage] == rows[k]
  {
    var page := k / perPage + 1;
    assert (page - 1) * perPage + k % perPage == k;
    assert (page - 1) * perPage <= k;
  }

  /** Every page before the last one is full. */
  lemma EarlierPagesAreFull<T>(rows: seq<T>, perPage: int, page: nat)
    requires perPage > 0 && 1 <= page < LastPage(|rows|, perPage)
    ensures |Paginate(rows, perPage, page).items| == perPage
  {
    var n := LastPage(|rows|, perPage);
    assert Offset(page, perPage) + perPage == page * perPage;
    MulMonotone(page, n - 1, perPage);
    assert Offset(page, perPage) + perPage <= |rows|;
  }

  /** Multiplying both sides by a natural number keeps an inequality. */
  lemma MulMonotone(a: int, b: int, c: nat)
    requires a <= b
    ensures a * c <= b * c
  {
    var d: nat := b - a;
    assert b * c == a * c + d * c;
  }

  /** The last page holds at least one row when there are any, and the pages after it none. */
  lemma LastPageIsTheEnd<T>(rows: seq<T>, perPage: int, page: nat)
    requires perPage > 0 && page >= 1
    ensures page == LastPage(|rows|, perPage) && |rows| > 0 ==> Paginate(rows, perPage, page).items != []
    ensures page > LastPage(|rows|, perPage) ==> Paginate(rows, perPage, page).items == []
  {
    var n := LastPage(|rows|, perPage);
    if page > n {
      MulMonotone(n, page - 1, perPage);
      assert Offset(page, perPage) >= |rows|;
    } else if page == n && |rows| > 0 {
      assert Offset(page, perPage) < |rows|;
    }
  }

  /** The pagination example: 20 rows at 5 per page give a first page of 5, a total of 20 and 4 pages. */
  lemma TwentyRowsFivePerPage<T>(rows: seq<T>)
    requires |rows| == 20
    ensures var p := Paginate(rows, 5, 1);
      |p.items| == 5 && p.total == 20 && p.lastPage == 4 && p.from == Some(1) && p.to == Some(5)
  {
  }

  /** With no size given the page holds 15 rows. */
  lemma DefaultPageSize<T>(rows: seq<T>)
    requires |rows| >= 15
    ensures |Paginate(rows, 0, 1).items| == 15 && Paginate(rows, 0, 1).perPage == 15
  {
  }
}
