/**
 * The front end's room service, without its HTTP calls: `list` builds the catalog's query
 * string from the parsed filter bar, and `uploadImages` builds the multipart body.
 */
module RoomClient {
  import opened Wrappers
  import opened Text
  import opened Values
  import opened RoomsTable
  import opened RoomQuery
  import opened RoomForm
  import opened RoomController

  /** The keys `list` may emit, in the order it appends them. */
  const ListOrder: seq<string> := ["type", "min_price", "max_price", "bedrooms", "search"]

  /** A JavaScript value's truthiness: "" and 0 are falsy, as is undefined. */
  predicate TruthyText(v: Option<string>) {
    v.Some? && v.value != ""
  }

  predicate TruthyNumber(v: Option<int>) {
    v.Some? && v.value != 0
  }

  /** The parameter `list` emits for a key, if any: strings as they are, numbers through String(). */
  function Param(f: Filters, key: string): (r: Option<string>)
    ensures r.Some? ==> key in ListOrder
  {
    match key
    case "type" => if TruthyText(f.roomType) then f.roomType else None
    case "min_price" => if TruthyNumber(f.minPrice) then Some(CentsToString(f.minPrice.value)) else None
    case "max_price" => if TruthyNumber(f.maxPrice) then Some(CentsToString(f.maxPrice.value)) else None
    case "bedrooms" => if TruthyNumber(f.bedrooms) then Some(CentsToString(f.bedrooms.value)) else None
    case "search" => if TruthyText(f.search) then f.search else None
    case _ => None
  }

  /** The position of a key in the append order. */
  function Rank(key: string): nat {
    if key == "type" then 0 else if key == "min_price" then 1 else if key == "max_price" then 2
    else if key == "bedrooms" then 3 else 4
  }

  lemma RankOfOrder(m: nat)
    requires m < |ListOrder|
    ensures Rank(ListOrder[m]) == m
  {
  }

  /** The parameter for the key at position `k`, when its value is truthy. */
  function Entry(f: Filters, k: nat): (e: seq<(string, string)>)
    requires k < |ListOrder|
    ensures |e| <= 1
    ensures e != [] ==> e[0].0 == ListOrder[k] && Param(f, ListOrder[k]) == Some(e[0].1)
    ensures e == [] <==> Param(f, ListOrder[k]).None?
  {
    var v := Param(f, ListOrder[k]);
    if v.Some? then [(ListOrder[k], v.value)] else []
  }

  /** The parameters for the keys from position `k` on, in append order. */
  function Emitted(f: Filters, k: nat): seq<(string, string)>
    requires k <= |ListOrder|
    decreases |ListOrder| - k
  {
    if k == |ListOrder| then [] else Entry(f, k) + Emitted(f, k + 1)
  }

  /** Every parameter from position `k` on carries a key from position `k` on, with its value. */
  lemma {:induction false} EmittedKeys(f: Filters, k: nat)
    requires k <= |ListOrder|
    decreases |ListOrder| - k
    ensures var e := Emitted(f, k);
      forall i :: 0 <= i < |e| ==> k <= Rank(e[i].0) < |ListOrder| && ListOrder[Rank(e[i].0)] == e[i].0 && Param(f, e[i].0) == Some(e[i].1)
  {
    if k < |ListOrder| {
      EmittedKeys(f, k + 1);
      RankOfOrder(k);
      var head := Entry(f, k);
      var rest := Emitted(f, k + 1);
      var e: seq<(string, string)> := head + rest;
      assert Emitted(f, k) == e;
      forall i | 0 <= i < |e|
        ensures k <= Rank(e[i].0) < |ListOrder| && ListOrder[Rank(e[i].0)] == e[i].0 && Param(f, e[i].0) == Some(e[i].1)
      {
        if i >= |head| {
          var j := i - |head|;
          assert 0 <= j < |rest| && e[i] == rest[j];
          var p := rest[j];
          assert k + 1 <= Rank(p.0) < |ListOrder| && ListOrder[Rank(p.0)] == p.0 && Param(f, p.0) == Some(p.1);
        } else {
          assert e[i] == head[0];
          assert head[0].0 == ListOrder[k] && Param(f, ListOrder[k]) == Some(head[0].1);
          assert Rank(e[i].0) == k;
        }
      }
    }
  }

  /** The parameters from position `k` on come in append order, so each key at most once. */
  lemma {:induction false} EmittedOrdered(f: Filters, k: nat)
    requires k <= |ListOrder|
    decreases |ListOrder| - k
    ensures var e := Emitted(f, k);
      forall i, j :: 0 <= i < j < |e| ==> Rank(e[i].0) < Rank(e[j].0)
  {
    if k < |ListOrder| {
      EmittedOrdered(f, k + 1);
      EmittedKeys(f, k + 1);
      RankOfOrder(k);
      var head := Entry(f, k);
      var rest := Emitted(f, k + 1);
      var e := head + rest;
      assert Emitted(f, k) == e;
      forall i, j | 0 <= i < j < |e|
        ensures Rank(e[i].0) < Rank(e[j].0)
      {
        assert e[j] == rest[j - |head|];
        if i >= |head| {
          assert e[i] == rest[i - |head|];
        }
      }
    }
  }

  /** Every truthy key from position `k` on is among the parameters. */
  lemma {:induction false} EmittedComplete(f: Filters, k: nat)
    requires k <= |ListOrder|
    decreases |ListOrder| - k
    ensures var e := Emitted(f, k);
      forall m :: k <= m < |ListOrder| && Param(f, ListOrder[m]).Some? ==> exists i :: 0 <= i < |e| && e[i].0 == ListOrder[m]
  {
    if k < |ListOrder| {
      EmittedComplete(f, k + 1);
      var head := Entry(f, k);
      var rest := Emitted(f, k + 1);
      var e := head + rest;
      assert Emitted(f, k) == e;
      forall m | k <= m < |ListOrder| && Param(f, ListOrder[m]).Some?
        ensures exists i :: 0 <= i < |e| && e[i].0 == ListOrder[m]
      {
        if m == k {
          assert e[0].0 == ListOrder[m];
        } else {
          var i :| 0 <= i < |rest| && rest[i].0 == ListOrder[m];
          assert e[|head| + i] == rest[i];
        }
      }
    }
  }

  /**
   * What `list` promises of its parameters: only keys from the append order, in that order and
   * each at most once, every one it emits carrying its `Param`, every `Param` emitted.
   */
  ghost predicate Encodes(params: seq<(string, string)>, f: Filters) {
    && (forall i :: 0 <= i < |params| ==> params[i].0 in ListOrder && Param(f, params[i].0) == Some(params[i].1))
    && (forall i, j :: 0 <= i < j < |params| ==> Rank(params[i].0) < Rank(params[j].0))
    && (forall k :: k in ListOrder && Param(f, k).Some? ==> exists i :: 0 <= i < |params| && params[i].0 == k)
  }

  lemma EmittedEncodes(f: Filters)
    ensures Encodes(Emitted(f, 0), f)
  {
    EmittedKeys(f, 0);
    EmittedOrdered(f, 0);
    EmittedComplete(f, 0);
    var e := Emitted(f, 0);
    forall i | 0 <= i < |e|
      ensures e[i].0 in ListOrder
    {
      assert ListOrder[Rank(e[i].0)] == e[i].0;
    }
    forall k | k in ListOrder && Param(f, k).Some?
      ensures exists i :: 0 <= i < |Emitted(f, 0)| && Emitted(f, 0)[i].0 == k
    {
      var m :| 0 <= m < |ListOrder| && ListOrder[m] == k;
    }
  }

  lemma EmittedUnfolds(f: Filters)
    ensures Emitted(f, 0) == Entry(f, 0) + Entry(f, 1) + Entry(f, 2) + Entry(f, 3) + Entry(f, 4)
  {
    assert Emitted(f, 4) == Entry(f, 4);
  }

  /** The entry at each position, written as `list` tests and appends it. */
  lemma EntriesAsAppended(f: Filters)
    ensures Entry(f, 0) == if TruthyText(f.roomType) then [("type", f.roomType.value)] else []
    ensures Entry(f, 1) == if TruthyNumber(f.minPrice) then [("min_price", CentsToString(f.minPrice.value))] else []
    ensures Entry(f, 2) == if TruthyNumber(f.maxPrice) then [("max_price", CentsToString(f.maxPrice.value))] else []
    ensures Entry(f, 3) == if TruthyNumber(f.bedrooms) then [("bedrooms", CentsToString(f.bedrooms.value))] else []
    ensures Entry(f, 4) == if TruthyText(f.search) then [("search", f.search.value)] else []
  {
  }

  /** list: appends type, min_price, max_price, bedrooms and search, each only when truthy. */
  method ListParams(f: Filters) returns (params: seq<(string, string)>)
    ensures params == Emitted(f, 0)
    ensures Encodes(params, f)
  {
    EntriesAsAppended(f);
    params := [];
    if TruthyText(f.roomType) {
      params := params + [("type", f.roomType.value)];
    }
    ghost var upTo0 := params;
    if TruthyNumber(f.minPrice) {
      params := params + [("min_price", CentsToString(f.minPrice.value))];
    }
    ghost var upTo1 := params;
    if TruthyNumber(f.maxPrice) {
      params := params + [("max_price", CentsToString(f.maxPrice.value))];
    }
    ghost var upTo2 := params;
    if TruthyNumber(f.bedrooms) {
      params := params + [("bedrooms", CentsToString(f.bedrooms.value))];
    }
    ghost var upTo3 := params;
    if TruthyText(f.search) {
      params := params + [("search", f.search.value)];
    }
    assert upTo0 == Entry(f, 0) && upTo1 == upTo0 + Entry(f, 1) && upTo2 == upTo1 + Entry(f, 2);
    assert upTo3 == upTo2 + Entry(f, 3) && params == upTo3 + Entry(f, 4);
    EmittedUnfolds(f);
    EmittedEncodes(f);
  }

  /** The query the back end reads from the parameters (each key appears once). */
  function QueryOf(params: seq<(string, string)>): (q: map<string, string>)
    ensures forall i :: 0 <= i < |params| ==> params[i].0 in q
    ensures forall k :: k in q ==> exists i :: 0 <= i < |params| && params[i].0 == k
  {
    if params == [] then map[]
    else QueryOf(params[..|params| - 1])[params[|params| - 1].0 := params[|params| - 1].1]
  }

  /** A false filter is never sent: `type: ''` and `bedrooms: 0` add no parameter. */
  lemma FalsyFiltersDropped(f: Filters)
    requires f.roomType == Some("") && f.bedrooms == Some(0)
    ensures Param(f, "type").None? && Param(f, "bedrooms").None?
  {
  }

  /** Of the keys `list` may emit, type, bedrooms and search are in the back end's whitelist; the prices are not. */
  lemma WhitelistedListKeys(m: nat)
    requires m < |ListOrder|
    ensures ListOrder[m] in FilterKeys <==> m == 0 || m == 3 || m == 4
  {
    if m == 1 || m == 2 {
      assert ListOrder[m][0] == 'm';
      assert forall k :: k in FilterKeys ==> k[0] != 'm';
    }
  }

  /**
   * Of what `list` sends, only type, bedrooms and search reach the back end's filter:
   * min_price and max_price are dropped by the whitelist, and bathrooms, area and
   * is_available are never sent.
   */
  lemma {:induction false} OnlyThreeFiltersReachBackend(params: seq<(string, string)>, f: Filters)
    requires Encodes(params, f)
    ensures "min_price" !in Only(CleanQuery(QueryOf(params))) && "max_price" !in Only(CleanQuery(QueryOf(params)))
    ensures forall k :: k in Only(CleanQuery(QueryOf(params))) ==> k in {"type", "bedrooms", "search"} && Param(f, k).Some?
  {
    WhitelistedListKeys(1);
    WhitelistedListKeys(2);
    forall k | k in Only(CleanQuery(QueryOf(params)))
      ensures k in {"type", "bedrooms", "search"} && Param(f, k).Some?
    {
      var i :| 0 <= i < |params| && params[i].0 == k;
      var m :| 0 <= m < |ListOrder| && ListOrder[m] == k;
      WhitelistedListKeys(m);
    }
  }

  lemma {:induction false} QueryOfLookup(params: seq<(string, string)>, i: nat)
    requires i < |params|
    requires forall a, b :: 0 <= a < b < |params| ==> params[a].0 != params[b].0
    ensures QueryOf(params)[params[i].0] == params[i].1
  {
    if i < |params| - 1 {
      QueryOfLookup(params[..|params| - 1], i);
    }
  }

  /**
   * A bedrooms filter the catalog sends arrives as a text that the back end reads back as the
   * same number, so it matches exactly the rows with that many bedrooms.
   */
  lemma BedroomsArriveIntact(params: seq<(string, string)>, f: Filters, r: Room)
    requires Encodes(params, f) && TruthyNumber(f.bedrooms)
    ensures "bedrooms" in Only(CleanQuery(QueryOf(params)))
    ensures NumericFilterHolds(r, Only(CleanQuery(QueryOf(params))), "bedrooms", Bedrooms) <==> r.bedrooms * 100 == f.bedrooms.value
  {
    assert "bedrooms" in ListOrder;
    var i :| 0 <= i < |params| && params[i].0 == "bedrooms";
    QueryOfLookup(params, i);
    CentsToStringUnpadded(f.bedrooms.value);
    CleanTextUnpadded(CentsToString(f.bedrooms.value));
    CentsToStringExact(f.bedrooms.value);
  }

  // ---- uploadImages ----

  /** uploadImages: one `images[]` entry per file, in order. */
  method UploadForm(files: seq<Upload>) returns (form: seq<(string, Upload)>)
    ensures |form| == |files|
    ensures forall i :: 0 <= i < |files| ==> form[i] == ("images[]", files[i])
  {
    form := [];
    for i := 0 to |files|
      invariant |form| == i
      invariant forall j :: 0 <= j < i ==> form[j] == ("images[]", files[j])
    {
      form := form + [("images[]", files[i])];
    }
  }

  /** The list the back end reads under `images` from a multipart body. */
  function ImagesOf(form: seq<(string, Upload)>): (files: seq<Upload>)
    ensures |files| <= |form|
  {
    if form == [] then []
    else (if form[0].0 == "images[]" then [form[0].1] else []) + ImagesOf(form[1..])
  }

  /** The back end reads back exactly the files sent, in order and count. */
  lemma {:induction false} UploadRoundTrip(form: seq<(string, Upload)>, files: seq<Upload>)
    requires |form| == |files|
    requires forall i :: 0 <= i < |files| ==> form[i] == ("images[]", files[i])
    ensures ImagesOf(form) == files
  {
    if files != [] {
      UploadRoundTrip(form[1..], files[1..]);
    }
  }
}
