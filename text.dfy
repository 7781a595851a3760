/**
 * Strings as the catalog treats them: ASCII lower-casing (PHP's strtolower and
 * SQLite's LOWER() both fold only A-Z), substring search, decimal rendering of
 * integers, decimal literals as SQL and PHP read them, and PHP's (int) cast.
 */
module Text {
  import opened Wrappers

  function LowerChar(c: char): char {
    if 'A' <= c <= 'Z' then (c as int + 32) as char else c
  }

  function Lower(s: string): (r: string)
    ensures |r| == |s|
    ensures forall i :: 0 <= i < |s| ==> r[i] == LowerChar(s[i])
  {
    if s == [] then [] else [LowerChar(s[0])] + Lower(s[1..])
  }

  /** Folding twice is folding once: a term that is already lower-case is searched unchanged. */
  lemma LowerIdempotent(s: string)
    ensures Lower(Lower(s)) == Lower(s)
  {
    assert forall i :: 0 <= i < |s| ==> LowerChar(LowerChar(s[i])) == LowerChar(s[i]);
  }

  /** `needle` occurs in `hay` at some position: SQL's LIKE '%needle%' without wildcards in needle. */
  predicate Contains(hay: string, needle: string) {
    exists i | 0 <= i <= |hay| :: needle <= hay[i..]
  }

  lemma ContainsAt(hay: string, needle: string, i: nat)
    requires i <= |hay| && needle <= hay[i..]
    ensures Contains(hay, needle)
  {
  }

  /** A non-empty needle whose first character never occurs in `hay` is not contained in it. */
  lemma NotContainsMissingChar(hay: string, needle: string)
    requires needle != [] && forall j :: 0 <= j < |hay| ==> hay[j] != needle[0]
    ensures !Contains(hay, needle)
  {
    forall i | 0 <= i <= |hay|
      ensures !(needle <= hay[i..])
    {
      if i < |hay| {
        assert hay[i..][0] == hay[i];
      }
    }
  }

  // ---- surrounding white space ----

  /**
   * The characters Laravel's TrimStrings strips from both ends of a request string: what a Unicode
   * regular expression's \s matches, plus the byte-order mark, the zero-width space and the
   * Mongolian vowel separator.
   */
  predicate IsSpaceChar(c: char) {
    || c == ' ' || c == '\t' || c == '\n' || c == '\r' || c as int == 0x0B || c as int == 0x0C
    || c as int == 0x85 || c as int == 0xA0 || c as int == 0x1680 || 0x2000 <= c as int <= 0x200B
    || c as int == 0x2028 || c as int == 0x2029 || c as int == 0x202F || c as int == 0x205F
    || c as int == 0x3000 || c as int == 0x180E || c as int == 0xFEFF
  }

  /** A string that starts and ends with something other than white space. */
  predicate Unpadded(s: string) {
    s == [] || (!IsSpaceChar(s[0]) && !IsSpaceChar(s[|s| - 1]))
  }

  /** A string made of white space only. */
  predicate AllSpace(s: string) {
    forall i :: 0 <= i < |s| ==> IsSpaceChar(s[i])
  }

  /** s without its leading white space. */
  function TrimStart(s: string): (r: string)
    ensures |r| <= |s|
    ensures r == s[|s| - |r|..]
    ensures AllSpace(s[..|s| - |r|])
    ensures r != [] ==> !IsSpaceChar(r[0])
  {
    if s != [] && IsSpaceChar(s[0]) then
      var r := TrimStart(s[1..]);
      assert s[..|s| - |r|] == [s[0]] + s[1..][..|s| - 1 - |r|];
      r
    else s
  }

  /** s without its trailing white space. */
  function TrimEnd(s: string): (r: string)
    ensures |r| <= |s|
    ensures r == s[..|r|]
    ensures AllSpace(s[|r|..])
    ensures r != [] ==> !IsSpaceChar(r[|r| - 1])
  {
    if s != [] && IsSpaceChar(s[|s| - 1]) then
      var r := TrimEnd(s[..|s| - 1]);
      assert s[|r|..] == s[..|s| - 1][|r|..] + [s[|s| - 1]];
      r
    else s
  }

  /** TrimStrings: white space removed from both ends. */
  function Trim(s: string): (r: string)
    ensures Unpadded(r)
  {
    var t := TrimStart(s);
    var r := TrimEnd(t);
    assert r != [] ==> r[0] == t[0];
    r
  }

  lemma {:induction false} TrimStartPadded(pre: string, t: string)
    requires AllSpace(pre) && (t == [] || !IsSpaceChar(t[0]))
    ensures TrimStart(pre + t) == t
  {
    if pre != [] {
      assert (pre + t)[1..] == pre[1..] + t;
      TrimStartPadded(pre[1..], t);
    } else {
      assert pre + t == t;
    }
  }

  lemma {:induction false} TrimEndPadded(t: string, post: string)
    requires AllSpace(post) && (t == [] || !IsSpaceChar(t[|t| - 1]))
    ensures TrimEnd(t + post) == t
  {
    if post != [] {
      assert (t + post)[..|t + post| - 1] == t + post[..|post| - 1];
      TrimEndPadded(t, post[..|post| - 1]);
    } else {
      assert t + post == t;
    }
  }

  /** Trimming gives back the text between any white-space padding, and only that text. */
  lemma TrimPadded(pre: string, s: string, post: string)
    requires AllSpace(pre) && AllSpace(post) && Unpadded(s)
    ensures Trim(pre + s + post) == s
  {
    assert pre + s + post == pre + (s + post);
    if s == [] {
      assert pre + (s + post) == pre + post;
      TrimStartPadded(pre + post, []);
      assert pre + post + [] == pre + post;
    } else {
      TrimStartPadded(pre, s + post);
      TrimEndPadded(s, post);
    }
  }

  /** Text without surrounding white space is left as it is. */
  lemma TrimUnpadded(s: string)
    requires Unpadded(s)
    ensures Trim(s) == s
  {
    TrimPadded([], s, []);
    assert [] + s + [] == s;
  }

  /** Trimming twice is trimming once. */
  lemma TrimIdempotent(s: string)
    ensures Trim(Trim(s)) == Trim(s)
  {
    var r := Trim(s);
    TrimPadded([], r, []);
    assert [] + r + [] == r;
  }

  /** Trimming leaves nothing exactly when the text is all white space. */
  lemma TrimEmpty(s: string)
    ensures Trim(s) == [] <==> AllSpace(s)
  {
    var t := TrimStart(s);
    if TrimEnd(t) == [] {
      assert AllSpace(t);
      assert s == s[..|s| - |t|] + t;
    }
    if AllSpace(s) {
      TrimPadded(s, [], []);
      assert s + [] + [] == s;
    }
  }

  // ---- digits and decimal rendering ----

  predicate IsDigit(c: char) {
    '0' <= c <= '9'
  }

  predicate AllDigits(s: string) {
    forall i :: 0 <= i < |s| ==> IsDigit(s[i])
  }

  function DigitValue(c: char): nat
    requires IsDigit(c)
  {
    c as int - '0' as int
  }

  function DigitChar(d: nat): (c: char)
    requires d < 10
    ensures IsDigit(c) && DigitValue(c) == d
  {
    ('0' as int + d) as char
  }

  /** The value of a string of decimal digits, most significant first. */
  function DigitsValue(s: string): nat
    requires AllDigits(s)
  {
    if s == [] then 0 else DigitsValue(s[..|s| - 1]) * 10 + DigitValue(s[|s| - 1])
  }

  /** The shortest decimal rendering of a natural number, as PHP's string conversion and JavaScript's String() give it. */
  function NatToString(n: nat): (s: string)
    ensures |s| >= 1 && AllDigits(s)
  {
    if n < 10 then [DigitChar(n)] else NatToString(n / 10) + [DigitChar(n % 10)]
  }

  function IntToString(n: int): (s: string)
    ensures |s| >= 1
  {
    if n < 0 then "-" + NatToString(-n) else NatToString(n)
  }

  /** Reading back a rendered natural number gives the number. */
  lemma {:induction false} NatToStringValue(n: nat)
    ensures DigitsValue(NatToString(n)) == n
  {
    if n >= 10 {
      var s := NatToString(n);
      assert s[..|s| - 1] == NatToString(n / 10);
      NatToStringValue(n / 10);
    }
  }

  /** Two naturals render alike only when they are equal. */
  lemma NatToStringInjective(m: nat, n: nat)
    requires NatToString(m) == NatToString(n)
    ensures m == n
  {
    NatToStringValue(m);
    NatToStringValue(n);
  }

  // ---- decimal literals ----

  /** Splits off an optional leading sign: (is it negative, the rest). */
  function SplitSign(s: string): (bool, string) {
    if |s| > 0 && (s[0] == '-' || s[0] == '+') then (s[0] == '-', s[1..]) else (false, s)
  }

  function IndexOf(s: string, c: char): (r: Option<nat>)
    ensures r.Some? ==> r.value < |s| && s[r.value] == c && forall j :: 0 <= j < r.value ==> s[j] != c
    ensures r.None? ==> forall j :: 0 <= j < |s| ==> s[j] != c
  {
    if s == [] then None
    else if s[0] == c then Some(0)
    else match IndexOf(s[1..], c)
      case None => None
      case Some(k) => Some(k + 1)
  }

  /** The digits before the point of an unsigned literal. */
  function WholeDigits(b: string): string {
    match IndexOf(b, '.')
    case None => b
    case Some(k) => b[..k]
  }

  /** The digits after the point of an unsigned literal ("" when there is none). */
  function FractionDigits(b: string): string {
    match IndexOf(b, '.')
    case None => ""
    case Some(k) => b[k + 1..]
  }

  /**
   * A decimal literal as is_numeric and SQL numeric affinity accept it: an optional sign, digits,
   * an optional point and more digits, with at least one digit in all.
   */
  predicate IsDecimalLiteral(s: string) {
    var b := SplitSign(s).1;
    AllDigits(WholeDigits(b)) && AllDigits(FractionDigits(b)) && |WholeDigits(b)| + |FractionDigits(b)| >= 1
  }

  /** The first two fraction digits as hundredths ("5" is 50, "256" is 25). */
  function FractionCents(f: string): (c: nat)
    requires AllDigits(f)
    ensures c < 100
  {
    if |f| == 0 then 0
    else if |f| == 1 then DigitValue(f[0]) * 10
    else DigitValue(f[0]) * 10 + DigitValue(f[1])
  }

  /** The literal's value in hundredths, digits beyond the second decimal place dropped (toward zero). */
  function TruncatedCents(s: string): int
    requires IsDecimalLiteral(s)
  {
    var (negative, b) := SplitSign(s);
    var magnitude := DigitsValue(WholeDigits(b)) * 100 + FractionCents(FractionDigits(b));
    if negative then -magnitude else magnitude
  }

  /** The literal's exact value in hundredths, when it has one. */
  function ExactCents(s: string): (r: Option<int>)
    ensures r.Some? <==> IsDecimalLiteral(s) && forall i :: 2 <= i < |FractionDigits(SplitSign(s).1)| ==> FractionDigits(SplitSign(s).1)[i] == '0'
    ensures r.Some? ==> r.value == TruncatedCents(s)
  {
    var f := FractionDigits(SplitSign(s).1);
    if IsDecimalLiteral(s) && forall i :: 2 <= i < |f| ==> f[i] == '0' then Some(TruncatedCents(s)) else None
  }

  lemma AllDigitsHasNoPoint(s: string)
    requires AllDigits(s)
    ensures IndexOf(s, '.') == None
  {
    forall k | 0 <= k < |s|
      ensures s[k] != '.'
    {
      assert IsDigit(s[k]);
    }
  }

  /** A rendered integer reads back, as a decimal literal, as exactly that many units. */
  lemma IntToStringCents(n: int)
    ensures IsDecimalLiteral(IntToString(n))
    ensures ExactCents(IntToString(n)) == Some(n * 100)
  {
    var m: nat := if n < 0 then -n else n;
    var digits := NatToString(m);
    AllDigitsHasNoPoint(digits);
    NatToStringValue(m);
    assert IsDigit(digits[0]);
    if n < 0 {
      assert ("-" + digits)[1..] == digits;
    }
    assert SplitSign(IntToString(n)).1 == digits;
    assert WholeDigits(digits) == digits && FractionDigits(digits) == "";
  }

  /** The rendering of a non-negative count of hundredths: the whole part, then up to two fraction digits without trailing zeros. */
  function UnsignedCentsToString(m: nat): (s: string)
    ensures |s| >= 1 && IsDigit(s[0]) && IsDigit(s[|s| - 1])
  {
    var whole := NatToString(m / 100);
    var f := m % 100;
    if f == 0 then whole
    else if f % 10 == 0 then whole + "." + [DigitChar(f / 10)]
    else whole + "." + [DigitChar(f / 10), DigitChar(f % 10)]
  }

  /**
   * JavaScript's String() of a number that is a whole count of hundredths: the shortest
   * rendering, with no trailing zero after the point and no point for whole numbers.
   */
  function CentsToString(c: int): (s: string)
    ensures |s| >= 1
  {
    if c < 0 then "-" + UnsignedCentsToString(-c) else UnsignedCentsToString(c)
  }

  lemma {:induction false} IndexOfPointAfterDigits(d: string, f: string)
    requires AllDigits(d)
    ensures IndexOf(d + "." + f, '.') == Some(|d|)
  {
    if d != [] {
      assert (d + "." + f)[1..] == d[1..] + "." + f;
      IndexOfPointAfterDigits(d[1..], f);
      assert IsDigit(d[0]);
    }
  }

  lemma UnsignedCentsExact(m: nat)
    ensures var b := UnsignedCentsToString(m);
      && AllDigits(WholeDigits(b)) && AllDigits(FractionDigits(b)) && |WholeDigits(b)| >= 1
      && |FractionDigits(b)| <= 2
      && DigitsValue(WholeDigits(b)) * 100 + FractionCents(FractionDigits(b)) == m
  {
    var whole := NatToString(m / 100);
    NatToStringValue(m / 100);
    var f := m % 100;
    var b := UnsignedCentsToString(m);
    if f == 0 {
      AllDigitsHasNoPoint(whole);
    } else {
      var frac: string := if f % 10 == 0 then [DigitChar(f / 10)] else [DigitChar(f / 10), DigitChar(f % 10)];
      assert b == whole + "." + frac;
      IndexOfPointAfterDigits(whole, frac);
      assert b[..|whole|] == whole && b[|whole| + 1..] == frac;
    }
  }

  /** A rendered amount reads back, as a decimal literal, as exactly that many hundredths. */
  lemma CentsToStringExact(c: int)
    ensures IsDecimalLiteral(CentsToString(c))
    ensures ExactCents(CentsToString(c)) == Some(c)
  {
    var m: nat := if c < 0 then -c else c;
    var b := UnsignedCentsToString(m);
    CentsToStringSign(c);
    UnsignedCentsExact(m);
    var fd := FractionDigits(b);
    assert |fd| <= 2;
    assert IsDecimalLiteral(CentsToString(c));
    assert TruncatedCents(CentsToString(c)) == c;
  }

  /** A rendered amount carries no surrounding white space, so request trimming keeps it whole. */
  lemma CentsToStringUnpadded(c: int)
    ensures Unpadded(CentsToString(c))
  {
    var b := UnsignedCentsToString(if c < 0 then -c else c);
    assert !IsSpaceChar(b[0]) && !IsSpaceChar(b[|b| - 1]);
  }

  /** The sign String() writes is the sign of the amount; the rest renders its magnitude. */
  lemma CentsToStringSign(c: int)
    ensures SplitSign(CentsToString(c)) == (c < 0, UnsignedCentsToString(if c < 0 then -c else c))
  {
    var b := UnsignedCentsToString(if c < 0 then -c else c);
    if c < 0 {
      assert ("-" + b)[0] == '-' && ("-" + b)[1..] == b;
    } else {
      assert IsDigit(b[0]);
    }
  }

  // ---- PHP's 64-bit integers ----

  /** PHP_INT_MAX and PHP_INT_MIN on a 64-bit build. */
  const PhpIntMax: int := 0x7FFF_FFFF_FFFF_FFFF
  const PhpIntMin: int := -0x8000_0000_0000_0000

  /** A rendered natural number carries no surrounding white space. */
  lemma NatToStringUnpadded(n: nat)
    ensures Unpadded(NatToString(n))
  {
    var s := NatToString(n);
    assert IsDigit(s[0]) && IsDigit(s[|s| - 1]);
  }

  /** A rendered positive number does not start with 0. */
  lemma {:induction false} NatToStringLeadsWithNonZero(n: nat)
    requires n >= 1
    ensures NatToString(n)[0] != '0'
  {
    if n >= 10 {
      NatToStringLeadsWithNonZero(n / 10);
      assert NatToString(n)[0] == NatToString(n / 10)[0];
    }
  }

  /** A rendered integer has no surrounding white space either. */
  lemma IntToStringUnpadded(n: int)
    ensures Unpadded(IntToString(n))
  {
    var s := IntToString(n);
    var digits := NatToString(if n < 0 then -n else n);
    assert IsDigit(digits[|digits| - 1]) && s[|s| - 1] == digits[|digits| - 1];
    assert s[0] == '-' || IsDigit(s[0]);
  }

  // ---- PHP's (int) cast of a string ----

  /** The longest prefix of `s` made of digits. */
  function LeadingDigits(s: string): (r: string)
    ensures AllDigits(r) && r <= s
    ensures |r| < |s| ==> !IsDigit(s[|r|])
  {
    if s != [] && IsDigit(s[0]) then [s[0]] + LeadingDigits(s[1..]) else []
  }

  /**
   * (int) applied to a string: an optional sign and the digits that follow it; a string
   * without leading digits casts to 0, and a value beyond the 64-bit range saturates at
   * PHP_INT_MAX or PHP_INT_MIN.
   */
  function PhpIntCast(s: string): (n: int)
    ensures PhpIntMin <= n <= PhpIntMax
  {
    var (negative, b) := SplitSign(s);
    var magnitude: int := DigitsValue(LeadingDigits(b));
    if negative then (if magnitude > -PhpIntMin then PhpIntMin else -magnitude)
    else if magnitude > PhpIntMax then PhpIntMax else magnitude
  }

  /** A string that does not start with a sign or a digit casts to 0 ("true", "yes", "abc"). */
  lemma PhpIntCastNonNumeric(s: string)
    requires s != [] && !IsDigit(s[0]) && s[0] != '-' && s[0] != '+'
    ensures PhpIntCast(s) == 0
  {
  }

  /** A rendered natural number casts back to itself up to PHP_INT_MAX, and to PHP_INT_MAX beyond it. */
  lemma {:induction false} PhpIntCastNatToString(n: nat)
    ensures n <= PhpIntMax ==> PhpIntCast(NatToString(n)) == n
    ensures n > PhpIntMax ==> PhpIntCast(NatToString(n)) == PhpIntMax
  {
    var s := NatToString(n);
    LeadingDigitsOfDigits(s);
    NatToStringValue(n);
  }

  lemma {:induction false} LeadingDigitsOfDigits(s: string)
    requires AllDigits(s)
    ensures LeadingDigits(s) == s
  {
    if s != [] {
      LeadingDigitsOfDigits(s[1..]);
    }
  }
}
