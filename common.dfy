/**
 * Helpers the pages share: optional values, the JavaScript string and number
 * built-ins they call (toLowerCase, includes, trim, split(' '), Math.round of a
 * quotient, the truncating %, Number.toString and parseInt), and list
 * filtering, summing and counting.
 *
 * Text is ASCII: lower-casing folds only 'A'..'Z' and trimming removes only the
 * ASCII white-space characters.
 */
module Common {

  datatype Option<+T> = None | Some(value: T) {
    /** `x || d` and `x ?? d` for an optional value. */
    function GetOr(default: T): T {
      if Some? then value else default
    }
  }

  /** A number as parseInt produces it: an integer or NaN. */
  datatype JsNumber = Num(n: int) | NaN

  type Text = seq<char>

  // ---------------------------------------------------------------------------
  // toLowerCase and includes

  function LowerChar(c: char): char {
    if 'A' <= c <= 'Z' then (c as int + 32) as char else c
  }

  function Lower(s: Text): (r: Text)
    ensures |r| == |s|
    ensures forall i :: 0 <= i < |s| ==> r[i] == LowerChar(s[i])
  {
    seq(|s|, i requires 0 <= i < |s| => LowerChar(s[i]))
  }

  /** Lower-casing twice is lower-casing once. */
  lemma LowerIdempotent(s: Text)
    ensures Lower(Lower(s)) == Lower(s)
  {
  }

  predicate IsPrefix(p: Text, s: Text) {
    |p| <= |s| && s[..|p|] == p
  }

  predicate EndsWith(s: Text, suffix: Text) {
    |suffix| <= |s| && s[|s| - |suffix|..] == suffix
  }

  /** `s.includes(sub)`: sub occurs somewhere in s. */
  predicate Includes(s: Text, sub: Text)
    decreases |s|
  {
    IsPrefix(sub, s) || (|s| > 0 && Includes(s[1..], sub))
  }

  /** `haystack.toLowerCase().includes(needle.toLowerCase())` */
  predicate ContainsIgnoringCase(haystack: Text, needle: Text) {
    Includes(Lower(haystack), Lower(needle))
  }

  lemma IncludesEmpty(s: Text)
    ensures Includes(s, [])
  {
  }

  /** sub occurs in s starting at position i. */
  predicate OccursAt(s: Text, sub: Text, i: int) {
    0 <= i <= |s| - |sub| && s[i..i + |sub|] == sub
  }

  /** Includes means an occurrence at some position. */
  lemma {:induction false} IncludesAt(s: Text, sub: Text)
    ensures Includes(s, sub) <==> exists i :: OccursAt(s, sub, i)
    decreases |s|
  {
    if Includes(s, sub) {
      if !IsPrefix(sub, s) {
        IncludesAt(s[1..], sub);
        var i :| OccursAt(s[1..], sub, i);
        assert s[i + 1..i + 1 + |sub|] == s[1..][i..i + |sub|];
        assert OccursAt(s, sub, i + 1);
      } else {
        assert OccursAt(s, sub, 0);
      }
    }
    if exists i :: OccursAt(s, sub, i) {
      var i :| OccursAt(s, sub, i);
      if i > 0 {
        assert s[1..][i - 1..i - 1 + |sub|] == s[i..i + |sub|];
        assert OccursAt(s[1..], sub, i - 1);
        IncludesAt(s[1..], sub);
      } else {
        assert IsPrefix(sub, s);
      }
    }
  }

  lemma IncludesSelf(s: Text)
    ensures Includes(s, s)
  {
    assert IsPrefix(s, s);
  }

  // ---------------------------------------------------------------------------
  // trim

  predicate IsSpace(c: char) {
    c == ' ' || c == '\t' || c == '\n' || c == '\r' || c == '\U{B}' || c == '\U{C}'
  }

  function TrimStart(s: Text): (r: Text)
    ensures |r| <= |s| && r == s[|s| - |r|..]
    ensures r == [] <==> forall i :: 0 <= i < |s| ==> IsSpace(s[i])
    ensures r != [] ==> !IsSpace(r[0])
    decreases |s|
  {
    if |s| > 0 && IsSpace(s[0]) then TrimStart(s[1..]) else s
  }

  function TrimEnd(s: Text): (r: Text)
    ensures |r| <= |s| && r == s[..|r|]
    ensures r == [] <==> forall i :: 0 <= i < |s| ==> IsSpace(s[i])
    ensures r != [] ==> !IsSpace(r[|r| - 1])
    decreases |s|
  {
    if |s| > 0 && IsSpace(s[|s| - 1]) then TrimEnd(s[..|s| - 1]) else s
  }

  /** `s.trim()` */
  function Trim(s: Text): Text {
    TrimEnd(TrimStart(s))
  }

  /** `!s.trim()`: the text is empty or all white space. */
  predicate IsBlank(s: Text) {
    Trim(s) == []
  }

  lemma BlankIffAllSpace(s: Text)
    ensures IsBlank(s) <==> forall i :: 0 <= i < |s| ==> IsSpace(s[i])
  {
    var t := TrimStart(s);
    if t != [] {
      assert !IsSpace(t[0]);
    }
  }

  // ---------------------------------------------------------------------------
  // Arithmetic: Math.round of a quotient, Math.floor, and the truncating %

  /**
   * `Math.round(a / b)` for b > 0. Math.round(x) is floor(x + 1/2), so halves
   * round up (towards +infinity).
   */
  function RoundDiv(a: int, b: int): (r: int)
    requires b > 0
    ensures 2 * b * r <= 2 * a + b < 2 * b * r + 2 * b
  {
    var q := (2 * a + b) / (2 * b);
    assert 2 * a + b == 2 * b * q + (2 * a + b) % (2 * b);
    q
  }

  /** `Math.round((part / whole) * 100)` */
  function Percent(part: int, whole: int): int
    requires whole > 0
  {
    RoundDiv(100 * part, whole)
  }

  lemma {:induction false} MulMonotone(k: nat, x: int, y: int)
    requires x <= y
    ensures k * x <= k * y
  {
    if k > 0 {
      MulMonotone(k - 1, x, y);
      assert k * x == (k - 1) * x + x;
      assert k * y == (k - 1) * y + y;
    }
  }

  /** A rounded quotient of a value between lo*b and hi*b lies between lo and hi. */
  lemma RoundDivBetween(a: int, b: int, lo: int, hi: int)
    requires b > 0
    requires lo * b <= a <= hi * b
    ensures lo <= RoundDiv(a, b) <= hi
  {
    var r := RoundDiv(a, b);
    var k := 2 * b;
    assert k * r <= 2 * a + b < k * r + k;
    assert k * hi == 2 * (hi * b) && k * lo == 2 * (lo * b);
    assert k * (hi + 1) == k * hi + k && k * (r + 1) == k * r + k;
    if r > hi {
      MulMonotone(k, hi + 1, r);
    }
    if r < lo {
      MulMonotone(k, r + 1, lo);
    }
  }

  /** Rounding a quotient keeps the order of the dividends. */
  lemma RoundDivMonotone(a1: int, a2: int, b: int)
    requires b > 0 && a1 <= a2
    ensures RoundDiv(a1, b) <= RoundDiv(a2, b)
  {
    var r1 := RoundDiv(a1, b);
    var r2 := RoundDiv(a2, b);
    var k := 2 * b;
    assert k * (r2 + 1) == k * r2 + k;
    if r1 > r2 {
      MulMonotone(k, r2 + 1, r1);
    }
  }

  /** A percentage of a part no larger than the whole lies in [0, 100]. */
  lemma PercentInRange(part: int, whole: int)
    requires whole > 0 && 0 <= part <= whole
    ensures 0 <= Percent(part, whole) <= 100
  {
    RoundDivBetween(100 * part, whole, 0, 100);
  }

  /** JavaScript's `a % b`: the remainder takes the sign of the dividend. */
  function JsRem(a: int, b: int): (r: int)
    requires b > 0
    ensures a >= 0 ==> 0 <= r < b
    ensures a < 0 ==> -b < r <= 0
    ensures a >= 0 ==> r == a % b
    ensures a < 0 ==> r == -((-a) % b)
  {
    if a >= 0 then a % b else -((-a) % b)
  }

  // ---------------------------------------------------------------------------
  // Number.prototype.toString (decimal) and parseInt

  predicate IsDigit(c: char) {
    '0' <= c <= '9'
  }

  predicate AllDigits(s: Text) {
    forall i :: 0 <= i < |s| ==> IsDigit(s[i])
  }

  function DigitChar(d: nat): (c: char)
    requires d < 10
    ensures IsDigit(c)
  {
    ('0' as int + d) as char
  }

  function DigitVal(c: char): nat
    requires IsDigit(c)
  {
    c as int - '0' as int
  }

  /** Decimal digits of a natural number, most significant first, no leading zero. */
  function NatDigits(n: nat): (r: Text)
    ensures |r| > 0 && AllDigits(r)
    decreases n
  {
    if n < 10 then [DigitChar(n)] else NatDigits(n / 10) + [DigitChar(n % 10)]
  }

  /** Value of a string of decimal digits. */
  function DigitsValue(s: Text): nat
    requires AllDigits(s)
    decreases |s|
  {
    if s == [] then 0 else DigitsValue(s[..|s| - 1]) * 10 + DigitVal(s[|s| - 1])
  }

  /** `n.toString()` for an integer n. */
  function IntToString(n: int): (r: Text)
    ensures |r| > 0 && (r[0] == '-' || IsDigit(r[0]))
  {
    if n < 0 then ['-'] + NatDigits(-n) else NatDigits(n)
  }

  lemma TrimStartNoSpace(s: Text)
    requires s != [] && !IsSpace(s[0])
    ensures TrimStart(s) == s
  {
  }

  /** The longest run of decimal digits at the start of s. */
  function DigitPrefix(s: Text): (r: Text)
    ensures IsPrefix(r, s) && AllDigits(r)
    ensures |r| < |s| ==> !IsDigit(s[|r|])
    decreases |s|
  {
    if |s| > 0 && IsDigit(s[0]) then [s[0]] + DigitPrefix(s[1..]) else []
  }

  /** The digits after an optional sign: NaN without a digit. */
  function ParseDigits(body: Text, negative: bool): JsNumber {
    var digits := DigitPrefix(body);
    if digits == [] then NaN
    else if negative then Num(-(DigitsValue(digits) as int))
    else Num(DigitsValue(digits))
  }

  /** One optional sign, then the digits. */
  function ParseSigned(t: Text): JsNumber {
    if |t| > 0 && (t[0] == '-' || t[0] == '+') then ParseDigits(t[1..], t[0] == '-')
    else ParseDigits(t, false)
  }

  /**
   * `parseInt(s)` in base 10: leading white space is skipped, one optional sign
   * is read, then the longest run of digits; with no digit the result is NaN.
   */
  function ParseInt(s: Text): JsNumber {
    ParseSigned(TrimStart(s))
  }

  /** `parseInt(s) || d`: NaN and 0 are both falsy and give the fallback. */
  function ParseIntOr(s: Text, fallback: int): (r: int)
    ensures ParseInt(s) == NaN ==> r == fallback
    ensures ParseInt(s).Num? && ParseInt(s).n != 0 ==> r == ParseInt(s).n
    ensures r == 0 ==> fallback == 0
  {
    match ParseInt(s)
    case Num(n) => if n == 0 then fallback else n
    case NaN => fallback
  }

  lemma {:induction false} DigitsValueOfNatDigits(n: nat)
    ensures DigitsValue(NatDigits(n)) == n
    decreases n
  {
    var s := NatDigits(n);
    if n >= 10 {
      DigitsValueOfNatDigits(n / 10);
      assert s[..|s| - 1] == NatDigits(n / 10);
    }
  }

  lemma {:induction false} DigitPrefixStops(d: Text, rest: Text)
    requires AllDigits(d)
    requires rest == [] || !IsDigit(rest[0])
    ensures DigitPrefix(d + rest) == d
    decreases |d|
  {
    if d == [] {
      assert d + rest == rest;
    } else {
      DigitPrefixStops(d[1..], rest);
      assert (d + rest)[1..] == d[1..] + rest;
    }
  }

  /**
   * parseInt reads back a number written by toString, whatever non-digit text
   * follows it.
   */
  /** The digits d, cut off by a non-digit, read as a signed number. */
  lemma ParseDigitsOf(d: Text, rest: Text, negative: bool)
    requires d != [] && AllDigits(d)
    requires rest == [] || !IsDigit(rest[0])
    ensures ParseDigits(d + rest, negative) == Num(if negative then -(DigitsValue(d) as int) else DigitsValue(d))
  {
    DigitPrefixStops(d, rest);
  }

  /** Text that starts with no white space goes straight to the sign. */
  lemma ParseIntNoLeadingSpace(s: Text)
    requires s != [] && !IsSpace(s[0])
    ensures ParseInt(s) == ParseSigned(s)
  {
    TrimStartNoSpace(s);
  }

  lemma ParseIntOfUnsigned(d: Text, rest: Text)
    requires d != [] && AllDigits(d)
    requires rest == [] || !IsDigit(rest[0])
    ensures ParseInt(d + rest) == Num(DigitsValue(d))
  {
    assert (d + rest)[0] == d[0];
    ParseIntNoLeadingSpace(d + rest);
    ParseDigitsOf(d, rest, false);
  }

  lemma ParseIntOfNegative(d: Text, rest: Text)
    requires d != [] && AllDigits(d)
    requires rest == [] || !IsDigit(rest[0])
    ensures ParseInt(['-'] + d + rest) == Num(-(DigitsValue(d) as int))
  {
    var s := ['-'] + (d + rest);
    assert s[0] == '-' && s[1..] == d + rest;
    ParseIntNoLeadingSpace(s);
    assert ParseSigned(s) == ParseDigits(d + rest, true);
    ParseDigitsOf(d, rest, true);
    assert ['-'] + d + rest == s;
  }

  /**
   * parseInt reads back a number written by toString, whatever non-digit text
   * follows it.
   */
  lemma ParseIntReadsNumber(n: int, rest: Text)
    requires rest == [] || !IsDigit(rest[0])
    ensures ParseInt(IntToString(n) + rest) == Num(n)
  {
    var abs := if n < 0 then -n else n;
    DigitsValueOfNatDigits(abs);
    if n < 0 {
      ParseIntOfNegative(NatDigits(abs), rest);
    } else {
      ParseIntOfUnsigned(NatDigits(abs), rest);
    }
  }

  /** Math.round of a quotient of non-negative numbers is not negative. */
  lemma RoundDivNonNegative(a: int, b: int)
    requires a >= 0 && b > 0
    ensures RoundDiv(a, b) >= 0
  {
    MulMonotone(a, 1, b);
    RoundDivBetween(a, b, 0, a);
  }

  /** Round trip: parseInt reads back what toString wrote. */
  lemma ParseIntOfIntToString(n: int)
    ensures ParseInt(IntToString(n)) == Num(n)
  {
    ParseIntReadsNumber(n, []);
    assert IntToString(n) + [] == IntToString(n);
  }

  /** Distinct numbers print differently. */
  lemma IntToStringInjective(m: int, n: int)
    requires IntToString(m) == IntToString(n)
    ensures m == n
  {
    ParseIntOfIntToString(m);
    ParseIntOfIntToString(n);
  }

  // ---------------------------------------------------------------------------
  // split(' ') and join

  /**
   * `[s.split(' ')[0], s.split(' ').slice(1).join(' ')]`: the text before the
   * first space and the text after it.
   */
  function SplitAtFirstSpace(s: Text): (parts: (Text, Text))
    ensures ' ' !in parts.0
    decreases |s|
  {
    if s == [] then ([], [])
    else if s[0] == ' ' then ([], s[1..])
    else
      var rest := SplitAtFirstSpace(s[1..]);
      ([s[0]] + rest.0, rest.1)
  }

  /** Round trip of the split: the two halves and the space give back the text. */
  lemma {:induction false} SplitAtFirstSpaceRejoins(s: Text)
    ensures ' ' in s ==> SplitAtFirstSpace(s).0 + [' '] + SplitAtFirstSpace(s).1 == s
    ensures ' ' !in s ==> SplitAtFirstSpace(s) == (s, [])
    decreases |s|
  {
    if s != [] && s[0] != ' ' {
      SplitAtFirstSpaceRejoins(s[1..]);
      assert s == [s[0]] + s[1..];
      assert ' ' in s <==> ' ' in s[1..];
    }
  }

  /** `parts.join(sep)` */
  function Join(parts: seq<Text>, sep: Text): Text
    decreases |parts|
  {
    if |parts| == 0 then []
    else if |parts| == 1 then parts[0]
    else parts[0] + sep + Join(parts[1..], sep)
  }

  // ---------------------------------------------------------------------------
  // Array.prototype.filter, reduce-as-sum and counting

  function Filter<T>(s: seq<T>, p: T -> bool): (r: seq<T>)
    ensures |r| <= |s|
    ensures forall i :: 0 <= i < |r| ==> r[i] in s && p(r[i])
    ensures forall i :: 0 <= i < |s| && p(s[i]) ==> s[i] in r
    decreases |s|
  {
    if s == [] then []
    else if p(s[0]) then [s[0]] + Filter(s[1..], p)
    else Filter(s[1..], p)
  }

  /** `a` is `b` with some elements left out, the rest in their order. */
  predicate IsSubsequence<T(==)>(a: seq<T>, b: seq<T>)
    decreases |b|
  {
    a == [] || (b != [] && (if a[0] == b[0] then IsSubsequence(a[1..], b[1..]) else IsSubsequence(a, b[1..])))
  }

  lemma {:induction false} FilterIsSubsequence<T>(s: seq<T>, p: T -> bool)
    ensures IsSubsequence(Filter(s, p), s)
    decreases |s|
  {
    if s != [] {
      FilterIsSubsequence(s[1..], p);
      var r := Filter(s[1..], p);
      if !p(s[0]) && r != [] {
        assert p(r[0]);
      }
    }
  }

  lemma {:induction false} SubsequenceRefl<T>(s: seq<T>)
    ensures IsSubsequence(s, s)
    decreases |s|
  {
    if s != [] {
      SubsequenceRefl(s[1..]);
    }
  }

  /** Leaving out the first element of a subsequence gives a subsequence. */
  lemma {:induction false} SubsequenceDropFirst<T>(a: seq<T>, b: seq<T>)
    requires a != [] && IsSubsequence(a, b)
    ensures IsSubsequence(a[1..], b)
    decreases |b|, 1
  {
    if a[0] == b[0] {
      SubsequenceExtend(a[1..], b);
    } else {
      SubsequenceDropFirst(a, b[1..]);
      SubsequenceExtend(a[1..], b);
    }
  }

  /** A subsequence of the tail is a subsequence of the whole list. */
  lemma {:induction false} SubsequenceExtend<T>(a: seq<T>, b: seq<T>)
    requires b != [] && IsSubsequence(a, b[1..])
    ensures IsSubsequence(a, b)
    decreases |b|, 0
  {
    if a != [] && a[0] == b[0] {
      SubsequenceDropFirst(a, b[1..]);
    }
  }

  lemma {:induction false} SubsequenceTrans<T>(a: seq<T>, b: seq<T>, c: seq<T>)
    requires IsSubsequence(a, b) && IsSubsequence(b, c)
    ensures IsSubsequence(a, c)
    decreases |c|
  {
    if a != [] {
      if b[0] == c[0] {
        if a[0] == b[0] {
          SubsequenceTrans(a[1..], b[1..], c[1..]);
        } else {
          SubsequenceTrans(a, b[1..], c[1..]);
        }
      } else {
        SubsequenceTrans(a, b, c[1..]);
        if a[0] == c[0] {
          SubsequenceDropFirst(a, c[1..]);
        }
      }
    }
  }

  lemma {:induction false} FilterAll<T>(s: seq<T>, p: T -> bool)
    requires forall x :: x in s ==> p(x)
    ensures Filter(s, p) == s
    decreases |s|
  {
    if s != [] {
      FilterAll(s[1..], p);
    }
  }

  lemma {:induction false} FilterNone<T>(s: seq<T>, p: T -> bool)
    requires forall x :: x in s ==> !p(x)
    ensures Filter(s, p) == []
    decreases |s|
  {
    if s != [] {
      FilterNone(s[1..], p);
    }
  }

  /** Filtering twice keeps what both predicates keep, in order. */
  lemma {:induction false} FilterFilter<T>(s: seq<T>, p: T -> bool, q: T -> bool)
    ensures Filter(Filter(s, p), q) == Filter(s, x => p(x) && q(x))
    decreases |s|
  {
    if s != [] {
      FilterFilter(s[1..], p, q);
    }
  }

  /** Filtering with predicates that agree on every element gives the same list. */
  lemma {:induction false} FilterCongruent<T>(s: seq<T>, p: T -> bool, q: T -> bool)
    requires forall x :: x in s ==> p(x) == q(x)
    ensures Filter(s, p) == Filter(s, q)
    decreases |s|
  {
    if s != [] {
      FilterCongruent(s[1..], p, q);
    }
  }

  /** Filtering keeps every copy of the elements it keeps and no copy of the others. */
  lemma {:induction false} FilterMultiplicity<T>(s: seq<T>, p: T -> bool, x: T)
    ensures multiset(Filter(s, p))[x] == if p(x) then multiset(s)[x] else 0
    decreases |s|
  {
    if s != [] {
      FilterMultiplicity(s[1..], p, x);
      assert s == [s[0]] + s[1..];
    }
  }

  /** Every element occurs in the filtered list as often as in the list when kept, else never. */
  lemma FilterCounts<T>(s: seq<T>, p: T -> bool)
    ensures forall x :: multiset(Filter(s, p))[x] == if p(x) then multiset(s)[x] else 0
  {
    forall x
      ensures multiset(Filter(s, p))[x] == if p(x) then multiset(s)[x] else 0
    {
      FilterMultiplicity(s, p, x);
    }
  }

  /** Filtering by p and then by q keeps, in order and with every copy, what `keep` accepts, when keep is p and q. */
  lemma FilterTwice<T>(s: seq<T>, p: T -> bool, q: T -> bool, keep: T -> bool)
    requires forall x :: keep(x) == (p(x) && q(x))
    ensures forall x :: x in Filter(Filter(s, p), q) <==> x in s && keep(x)
    ensures forall x :: multiset(Filter(Filter(s, p), q))[x] == if keep(x) then multiset(s)[x] else 0
    ensures IsSubsequence(Filter(Filter(s, p), q), s)
  {
    FilterCounts(s, p);
    FilterCounts(Filter(s, p), q);
    FilterIsSubsequence(s, p);
    FilterIsSubsequence(Filter(s, p), q);
    SubsequenceTrans(Filter(Filter(s, p), q), Filter(s, p), s);
  }

  /** Filtering two lists with the same elements keeps the same elements. */
  lemma FilterPermutation<T>(s: seq<T>, t: seq<T>, p: T -> bool)
    requires multiset(s) == multiset(t)
    ensures multiset(Filter(s, p)) == multiset(Filter(t, p))
  {
    forall x
      ensures multiset(Filter(s, p))[x] == multiset(Filter(t, p))[x]
    {
      FilterMultiplicity(s, p, x);
      FilterMultiplicity(t, p, x);
    }
  }

  function Count<T>(s: seq<T>, p: T -> bool): (n: nat)
    ensures n <= |s|
  {
    |Filter(s, p)|
  }

  /** The elements kept and the elements dropped make up the whole list. */
  lemma {:induction false} CountSplit<T>(s: seq<T>, p: T -> bool, q: T -> bool)
    requires forall x :: q(x) == !p(x)
    ensures Count(s, p) + Count(s, q) == |s|
    decreases |s|
  {
    if s != [] {
      CountSplit(s[1..], p, q);
    }
  }

  /** Count over a list that a predicate partitions into two kinds. */
  lemma {:induction false} CountMonotone<T>(s: seq<T>, p: T -> bool, q: T -> bool)
    requires forall x :: x in s && p(x) ==> q(x)
    ensures Count(s, p) <= Count(s, q)
    decreases |s|
  {
    if s != [] {
      CountMonotone(s[1..], p, q);
    }
  }

  /** `s.reduce((sum, x) => sum + f(x), 0)` */
  function SumBy<T>(s: seq<T>, f: T -> int): int
    decreases |s|
  {
    if s == [] then 0 else f(s[0]) + SumBy(s[1..], f)
  }

  /** A sum of n terms each between lo and hi lies between n*lo and n*hi. */
  lemma {:induction false} SumByBetween<T>(s: seq<T>, f: T -> int, lo: int, hi: int)
    requires forall x :: x in s ==> lo <= f(x) <= hi
    ensures |s| * lo <= SumBy(s, f) <= |s| * hi
    decreases |s|
  {
    if s != [] {
      SumByBetween(s[1..], f, lo, hi);
      assert |s| * lo == lo + |s[1..]| * lo;
      assert |s| * hi == hi + |s[1..]| * hi;
    }
  }

  /** Sum of a concatenation. */
  lemma {:induction false} SumByAppend<T>(a: seq<T>, b: seq<T>, f: T -> int)
    ensures SumBy(a + b, f) == SumBy(a, f) + SumBy(b, f)
    decreases |a|
  {
    if a == [] {
      assert a + b == b;
    } else {
      SumByAppend(a[1..], b, f);
      var c := a + b;
      assert c[0] == a[0] && c[1..] == a[1..] + b;
    }
  }

  /** Taking out the term at position k. */
  lemma SumByRemove<T>(t: seq<T>, k: int, f: T -> int)
    requires 0 <= k < |t|
    ensures multiset(t) == multiset(t[..k] + t[k + 1..]) + multiset{t[k]}
    ensures SumBy(t, f) == f(t[k]) + SumBy(t[..k] + t[k + 1..], f)
  {
    var before, after := t[..k], t[k + 1..];
    var mid := [t[k]] + after;
    SplitAround(t, k);
    SumByAppend(before, mid, f);
    SumByCons(t[k], after, f);
    SumByAppend(before, after, f);
  }

  /** A list is what comes before position k, the term at k, and what comes after. */
  lemma SplitAround<T>(t: seq<T>, k: int)
    requires 0 <= k < |t|
    ensures t == t[..k] + ([t[k]] + t[k + 1..])
    ensures multiset(t) == multiset(t[..k] + t[k + 1..]) + multiset{t[k]}
  {
    assert t == t[..k] + ([t[k]] + t[k + 1..]);
  }

  lemma SumByCons<T>(x: T, s: seq<T>, f: T -> int)
    ensures SumBy([x] + s, f) == f(x) + SumBy(s, f)
  {
    assert ([x] + s)[1..] == s;
  }

  /** A sum does not depend on the order of its terms. */
  lemma {:induction false} SumByPermutation<T>(s: seq<T>, t: seq<T>, f: T -> int)
    requires multiset(s) == multiset(t)
    ensures SumBy(s, f) == SumBy(t, f)
    decreases |s|
  {
    if s == [] {
      assert |t| == |multiset(t)| == 0;
    } else {
      assert s[0] in multiset(t);
      var k :| 0 <= k < |t| && t[k] == s[0];
      SumByRemove(t, k, f);
      var rest := t[..k] + t[k + 1..];
      assert s == [s[0]] + s[1..];
      var one := multiset{s[0]};
      assert multiset(s[1..]) + one == multiset(rest) + one;
      forall y
        ensures multiset(s[1..])[y] == multiset(rest)[y]
      {
        assert (multiset(s[1..]) + one)[y] == (multiset(rest) + one)[y];
      }
      assert multiset(s[1..]) == multiset(rest);
      SumByPermutation(s[1..], rest, f);
    }
  }

  /** Sum of a list of non-negative terms is non-negative. */
  lemma SumByNonNegative<T>(s: seq<T>, f: T -> int)
    requires forall x :: x in s ==> f(x) >= 0
    ensures SumBy(s, f) >= 0
  {
    SumByBetween(s, f, 0, 0 + (if s == [] then 0 else MaxBy(s, f)));
  }

  /** `Math.max(...s.map(f))` for a non-empty list. */
  function MaxBy<T>(s: seq<T>, f: T -> int): (m: int)
    requires |s| > 0
    ensures forall i :: 0 <= i < |s| ==> f(s[i]) <= m
    ensures exists i :: 0 <= i < |s| && f(s[i]) == m
    decreases |s|
  {
    if |s| == 1 then f(s[0])
    else
      var rest := MaxBy(s[1..], f);
      assert forall i :: 1 <= i < |s| ==> s[i] == s[1..][i - 1];
      if f(s[0]) >= rest then f(s[0]) else rest
  }

  /** `Math.min(...s.map(f))` for a non-empty list. */
  function MinBy<T>(s: seq<T>, f: T -> int): (m: int)
    requires |s| > 0
    ensures forall i :: 0 <= i < |s| ==> m <= f(s[i])
    ensures exists i :: 0 <= i < |s| && f(s[i]) == m
    decreases |s|
  {
    if |s| == 1 then f(s[0])
    else
      var rest := MinBy(s[1..], f);
      assert forall i :: 1 <= i < |s| ==> s[i] == s[1..][i - 1];
      if f(s[0]) <= rest then f(s[0]) else rest
  }

  /** The largest and the smallest term do not depend on the order of the terms. */
  lemma MaxMinPermutation<T>(s: seq<T>, t: seq<T>, f: T -> int)
    requires |s| > 0 && multiset(s) == multiset(t)
    ensures |t| > 0 && MaxBy(s, f) == MaxBy(t, f) && MinBy(s, f) == MinBy(t, f)
  {
    assert |t| == |multiset(t)| == |s|;
    var i1 :| 0 <= i1 < |s| && f(s[i1]) == MaxBy(s, f);
    var i2 :| 0 <= i2 < |t| && f(t[i2]) == MaxBy(t, f);
    var j1 :| 0 <= j1 < |s| && f(s[j1]) == MinBy(s, f);
    var j2 :| 0 <= j2 < |t| && f(t[j2]) == MinBy(t, f);
    assert s[i1] in multiset(t) && s[j1] in multiset(t);
    assert t[i2] in multiset(s) && t[j2] in multiset(s);
  }

  /** `value || undefined` on a text: an empty text is sent as absent. */
  function OrAbsent(t: Text): (r: Option<Text>)
    ensures r.None? <==> t == []
    ensures r.Some? ==> r.value == t
  {
    if t == [] then None else Some(t)
  }

  function Min(a: int, b: int): int {
    if a <= b then a else b
  }
}
