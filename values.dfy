/**
 * The scalar values a JSON request body (or a browser form) carries, and the PHP and
 * Laravel readings of them the catalog relies on: blankness for `required`,
 * `is_numeric` for `numeric`, and `filter_var(..., FILTER_VALIDATE_BOOLEAN,
 * FILTER_NULL_ON_FAILURE)` for the availability flag.
 */
module Values {
  import opened Wrappers
  import opened Text

  /**
   * A request scalar. Numbers are kept in hundredths (`Num(250)` is 2.5): every number the
   * catalog stores is a decimal column with two places or an integer.
   */
  datatype Value = Null | Bool(b: bool) | Num(cents: int) | Str(s: string)

  /** The characters PHP's trim() removes. */
  predicate IsTrimmed(c: char) {
    c == ' ' || c == '\t' || c == '\n' || c == '\r' || c == '\0' || c as int == 0x0B
  }

  /** A string that trim() reduces to "". */
  predicate IsBlankText(s: string) {
    forall i :: 0 <= i < |s| ==> IsTrimmed(s[i])
  }

  /** What Laravel's `required` rejects: null, and strings that are empty after trimming. */
  predicate IsBlank(v: Value) {
    v.Null? || (v.Str? && IsBlankText(v.s))
  }

  /** PHP's is_numeric: numbers, and strings that are decimal literals. */
  predicate IsNumeric(v: Value) {
    v.Num? || (v.Str? && IsDecimalLiteral(v.s))
  }

  /** A numeric value as a float parameter sees it, in hundredths. */
  function Cents(v: Value): int
    requires IsNumeric(v)
  {
    if v.Num? then v.cents else TruncatedCents(v.s)
  }

  /** Truncation of hundredths to whole units toward zero, as PHP converts a float to int. */
  function TruncateCents(c: int): (n: int)
    ensures c >= 0 ==> 0 <= n * 100 <= c < n * 100 + 100
    ensures c < 0 ==> n * 100 - 100 < c <= n * 100 <= 0
  {
    if c >= 0 then c / 100 else -((-c) / 100)
  }

  /** A numeric value passed to an int parameter. */
  function WholeUnits(v: Value): int
    requires IsNumeric(v)
  {
    TruncateCents(Cents(v))
  }

  /** The strings filter_var reads as true, after ASCII case folding. */
  predicate IsTrueWord(s: string) {
    var w := Lower(s);
    w == "1" || w == "true" || w == "on" || w == "yes"
  }

  /** The strings filter_var reads as false, after ASCII case folding. */
  predicate IsFalseWord(s: string) {
    var w := Lower(s);
    w == "0" || w == "false" || w == "off" || w == "no" || w == ""
  }

  /**
   * filter_var($v, FILTER_VALIDATE_BOOLEAN, FILTER_NULL_ON_FAILURE): booleans stay, the
   * words above and the numbers 1 and 0 convert, null converts like "" (to false), and
   * everything else is a failure (None).
   */
  function FilterBoolean(v: Value): (r: Option<bool>)
    ensures v.Bool? ==> r == Some(v.b)
    ensures v.Null? ==> r == Some(false)
    ensures v.Str? ==> (r == Some(true) <==> IsTrueWord(v.s)) && (r == Some(false) <==> IsFalseWord(v.s))
    ensures v.Num? ==> (r == Some(true) <==> v.cents == 100) && (r == Some(false) <==> v.cents == 0)
  {
    match v
    case Null => Some(false)
    case Bool(b) => Some(b)
    case Num(c) => if c == 100 then Some(true) else if c == 0 then Some(false) else None
    case Str(s) => if IsTrueWord(s) then Some(true) else if IsFalseWord(s) then Some(false) else None
  }

  /** The value prepareForValidation merges back: the boolean, or null on failure. */
  function CoerceBoolean(v: Value): (r: Value)
    ensures r.Bool? || r.Null?
    ensures r == Null <==> FilterBoolean(v).None?
  {
    match FilterBoolean(v)
    case Some(b) => Bool(b)
    case None => Null
  }

  /** Laravel's `boolean` rule: true, false, 1, 0, "1" and "0". */
  predicate IsBooleanLike(v: Value) {
    v.Bool? || v == Num(0) || v == Num(100) || v == Str("0") || v == Str("1")
  }

  // ---- the global request middleware ----

  /**
   * A query-string value after TrimStrings and then ConvertEmptyStringsToNull: the text without
   * its surrounding white space, or None (null) when nothing is left.
   */
  function CleanText(s: string): (r: Option<string>)
    ensures r.None? <==> AllSpace(s)
    ensures r.Some? ==> r.value != [] && Unpadded(r.value) && r.value == Trim(s)
  {
    TrimEmpty(s);
    var t := Trim(s);
    if t == [] then None else Some(t)
  }

  /** Text that is already clean passes through unchanged. */
  lemma CleanTextUnpadded(s: string)
    requires s != [] && Unpadded(s)
    ensures CleanText(s) == Some(s)
  {
    TrimUnpadded(s);
  }

  /** A value the middleware has nothing to do to. */
  predicate IsClean(v: Value) {
    v.Str? ==> v.s != [] && Unpadded(v.s)
  }

  /** One scalar of a request body after the two middlewares: strings are cleaned, other values pass as they are. */
  function Clean(v: Value): (r: Value)
    ensures r.Str? ==> r.s != [] && Unpadded(r.s)
    ensures v.Str? ==> (r == Null <==> AllSpace(v.s))
    ensures !v.Str? ==> r == v
  {
    match v
    case Str(s) => if CleanText(s).Some? then Str(CleanText(s).value) else Null
    case _ => v
  }

  /** Cleaning leaves exactly the clean values alone, and its result is clean. */
  lemma CleanFixesCleanValues(v: Value)
    ensures Clean(v) == v <==> IsClean(v)
    ensures IsClean(Clean(v))
  {
    if IsClean(v) && v.Str? {
      CleanTextUnpadded(v.s);
    }
  }

  /** Cleaning twice is cleaning once. */
  lemma CleanIdempotent(v: Value)
    ensures Clean(Clean(v)) == Clean(v)
  {
    CleanFixesCleanValues(v);
    CleanFixesCleanValues(Clean(v));
  }

  /** A body of clean values is left as it is. */
  lemma CleanInputKeepsCleanBody(input: map<string, Value>)
    requires forall k :: k in input ==> IsClean(input[k])
    ensures CleanInput(input) == input
  {
    forall k | k in input
      ensures Clean(input[k]) == input[k]
    {
      CleanFixesCleanValues(input[k]);
    }
  }

  /** A request body as the controller receives it: every scalar cleaned, no key added or dropped. */
  function CleanInput(input: map<string, Value>): (r: map<string, Value>)
    ensures r.Keys == input.Keys
    ensures forall k :: k in r ==> r[k] == Clean(input[k])
  {
    map k | k in input :: Clean(input[k])
  }

  /**
   * The query string as `only` and the paginator read it. A key whose value became null reads
   * like an absent key to everything that reads the filters (they test it with isset), so it is
   * left out.
   */
  function CleanQuery(q: map<string, string>): (r: map<string, string>)
    ensures forall k :: k in r <==> k in q && !AllSpace(q[k])
    ensures forall k :: k in r ==> Some(r[k]) == CleanText(q[k])
  {
    map k | k in q && CleanText(q[k]).Some? :: CleanText(q[k]).value
  }

  /** A blank value drops its key from the cleaned query, as if it had not been sent. */
  lemma CleanQueryBlank(q: map<string, string>, k: string, v: string)
    requires AllSpace(v)
    ensures CleanQuery(q[k := v]) == CleanQuery(q - {k})
  {
    var a := CleanQuery(q[k := v]);
    var b := CleanQuery(q - {k});
    forall j | j in a
      ensures j in b && a[j] == b[j]
    {
      assert j != k;
      assert (q[k := v])[j] == q[j] == (q - {k})[j];
    }
    forall j | j in b
      ensures j in a
    {
      assert j != k;
      assert (q[k := v])[j] == q[j] == (q - {k})[j];
    }
  }

  /**
   * An uploaded file: the client's file name, the extension guessed from its content (what the
   * `mimes` and `image` rules look at) and its size in bytes.
   */
  datatype Upload = Upload(fileName: string, guessedExtension: string, size: nat)
}
