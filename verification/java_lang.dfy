/** Java-level building blocks shared by the demos: the wrap-around of `int` and
    `long` arithmetic, the decimal text that string concatenation gives an `int`
    (with a reader that recovers the number), repetition as a `StringBuilder`
    loop produces it, and the static `counter++` id source. */
module JavaLang {
  import opened Wrappers

  const INT_MIN: int := -0x8000_0000
  const INT_MAX: int := 0x7fff_ffff
  const LONG_MIN: int := -0x8000_0000_0000_0000
  const LONG_MAX: int := 0x7fff_ffff_ffff_ffff
  const INT_RANGE: int := 0x1_0000_0000
  const LONG_RANGE: int := 0x1_0000_0000_0000_0000

  predicate IsInt(x: int) { INT_MIN <= x <= INT_MAX }
  predicate IsLong(x: int) { LONG_MIN <= x <= LONG_MAX }

  /** A positive multiple of a positive number is at least that number. */
  lemma MulAtLeast(m: int, k: int)
    requires m > 0 && k >= 1
    ensures m * k >= m
  {
  }

  /** Euclidean division is unique: a remainder in [0, m) is the remainder, and its
      quotient the quotient. */
  lemma ModUnique(x: int, q: int, r: int, m: int)
    requires m > 0 && 0 <= r < m && x == m * q + r
    ensures x % m == r && x / m == q
  {
    var q', r' := x / m, x % m;
    assert x == m * q' + r';
    var k := q - q';
    assert m * k == r' - r by {
      assert m * q - m * q' == r' - r;
    }
    if k >= 1 {
      MulAtLeast(m, k);
    } else if k <= -1 {
      MulAtLeast(m, -k);
    }
  }

  /** Euclidean division and remainder put back together. */
  lemma DivMod(x: int, m: int)
    requires m > 0
    ensures x == m * (x / m) + x % m && 0 <= x % m < m
  {
  }

  /** One more multiple of `m` adds `m`. */
  lemma MulSucc(m: int, q: int)
    ensures m * (q + 1) == m * q + m
  {
  }

  /** Adding a multiple of `m` does not change the remainder. */
  lemma ModShift(y: int, q: int, m: int)
    requires m > 0
    ensures (m * q + y) % m == y % m
  {
    var s := y / m;
    assert y == m * s + y % m;
    assert m * q + y == m * (q + s) + y % m;
    ModUnique(m * q + y, q + s, y % m, m);
  }

  /** The value a Java `long` holds after an arithmetic result `x` is stored in it. */
  function WrapLong(x: int): (r: int)
    ensures IsLong(r)
  {
    (x - LONG_MIN) % LONG_RANGE + LONG_MIN
  }

  /** A value that fits in a `long` is stored unchanged. */
  lemma WrapLongFits(x: int)
    requires IsLong(x)
    ensures WrapLong(x) == x
  {
    assert (x - LONG_MIN) % LONG_RANGE == x - LONG_MIN;
  }

  /** Wrapping an intermediate sum first and wrapping only at the end agree:
      `long` addition is addition modulo 2^64. */
  lemma WrapLongAdd(a: int, b: int)
    ensures WrapLong(WrapLong(a) + b) == WrapLong(a + b)
  {
    var x := a - LONG_MIN;
    assert x == LONG_RANGE * (x / LONG_RANGE) + x % LONG_RANGE;
    ModShift(x % LONG_RANGE + b, x / LONG_RANGE, LONG_RANGE);
    assert a + b - LONG_MIN == LONG_RANGE * (x / LONG_RANGE) + (x % LONG_RANGE + b);
  }

  /** The value a Java `int` holds after `x - 1` is stored in it (`x--`). */
  function DecInt(x: int): (r: int)
    requires IsInt(x)
    ensures IsInt(r)
    ensures x > INT_MIN ==> r == x - 1
    ensures x == INT_MIN ==> r == INT_MAX
  {
    if x == INT_MIN then INT_MAX else x - 1
  }

  predicate IsDigit(c: char) { '0' <= c <= '9' }

  predicate AllDigits(s: string) { forall i :: 0 <= i < |s| ==> IsDigit(s[i]) }

  function Digit(d: int): (c: char)
    requires 0 <= d < 10
    ensures IsDigit(c) && c as int - '0' as int == d
  {
    (d + '0' as int) as char
  }

  /** Decimal digits of a natural number, most significant first, no leading zero. */
  function NatText(n: nat): (s: string)
    ensures |s| >= 1 && AllDigits(s)
    ensures s[0] == '0' ==> n == 0
    decreases n
  {
    if n < 10 then [Digit(n)] else NatText(n / 10) + [Digit(n % 10)]
  }

  /** The text Java gives an `int` in string concatenation (`"" + n`, `append(n)`). */
  function IntText(n: int): (s: string)
    ensures |s| >= 1
    ensures s[0] == '-' <==> n < 0
    ensures forall i :: 0 <= i < |s| ==> IsDigit(s[i]) || (i == 0 && s[i] == '-')
  {
    if n < 0 then "-" + NatText(-n) else NatText(n)
  }

  /** The number a string of decimal digits denotes. */
  function DigitsValue(s: string): nat
    requires AllDigits(s)
    decreases |s|
  {
    if s == [] then 0
    else
      assert IsDigit(s[|s| - 1]);
      DigitsValue(s[..|s| - 1]) * 10 + (s[|s| - 1] as int - '0' as int)
  }

  /** Reads an optional minus sign followed by at least one decimal digit. */
  function ParseInt(s: string): Option<int>
  {
    if |s| >= 2 && s[0] == '-' && AllDigits(s[1..]) then Some(0 - DigitsValue(s[1..]))
    else if |s| >= 1 && AllDigits(s) then Some(DigitsValue(s))
    else None
  }

  lemma {:induction false} NatTextValue(n: nat)
    ensures DigitsValue(NatText(n)) == n
    decreases n
  {
    if n >= 10 {
      var s := NatText(n);
      assert s[..|s| - 1] == NatText(n / 10);
      NatTextValue(n / 10);
    }
  }

  /** Reading back the decimal text of any `int` gives the number. */
  lemma IntTextRoundTrip(n: int)
    ensures ParseInt(IntText(n)) == Some(n)
  {
    if n < 0 {
      NatTextValue(-n);
      ParseNegative(NatText(-n), -n);
    } else {
      NatTextValue(n);
      ParseDigits(NatText(n), n);
    }
  }

  lemma ParseDigits(t: string, v: int)
    requires |t| >= 1 && AllDigits(t) && DigitsValue(t) == v
    ensures ParseInt(t) == Some(v)
  {
    assert IsDigit(t[0]);
  }

  lemma ParseNegative(t: string, v: int)
    requires |t| >= 1 && AllDigits(t) && DigitsValue(t) == v
    ensures ParseInt("-" + t) == Some(-v)
  {
    assert ("-" + t)[1..] == t;
  }

  /** Distinct numbers have distinct decimal texts. */
  lemma IntTextInjective(a: int, b: int)
    ensures IntText(a) == IntText(b) ==> a == b
  {
    IntTextRoundTrip(a);
    IntTextRoundTrip(b);
  }

  /** A character that is neither a digit nor a minus sign never occurs in the text of an `int`. */
  lemma SeparatorNotInIntText(n: int, c: char)
    requires !IsDigit(c) && c != '-'
    ensures c !in IntText(n)
  {
  }

  /** The text before and after the first occurrence of `sep`, if any. */
  function SplitAt(s: string, sep: char): (r: Option<(string, string)>)
    ensures r.Some? ==> sep !in r.value.0 && s == r.value.0 + [sep] + r.value.1
    ensures r.None? ==> sep !in s
  {
    if s == [] then None
    else if s[0] == sep then Some(([], s[1..]))
    else match SplitAt(s[1..], sep)
      case None => None
      case Some(p) => Some(([s[0]] + p.0, p.1))
  }

  /** Splitting at the first separator recovers the two parts joined around it. */
  lemma {:induction false} SplitAtJoin(a: string, sep: char, b: string)
    requires sep !in a
    ensures SplitAt(a + [sep] + b, sep) == Some((a, b))
    decreases |a|
  {
    var s := a + [sep] + b;
    if a == [] {
      assert s[1..] == b;
    } else {
      assert s[1..] == a[1..] + [sep] + b;
      SplitAtJoin(a[1..], sep, b);
      assert [a[0]] + a[1..] == a;
    }
  }

  /** `"(" + a + ":" + b + ")"`: the shape of the task summaries. */
  function PairText(a: int, b: int): (s: string)
    ensures ParsePair(s) == Some((a, b))
  {
    PairTextParses(a, b);
    "(" + IntText(a) + ":" + IntText(b) + ")"
  }

  /** Reads back a summary `(a:b)`. */
  function ParsePair(s: string): Option<(int, int)>
  {
    if |s| < 2 || s[0] != '(' || s[|s| - 1] != ')' then None
    else match SplitAt(s[1..|s| - 1], ':')
      case None => None
      case Some((l, r)) =>
        match (ParseInt(l), ParseInt(r))
        case (Some(x), Some(y)) => Some((x, y))
        case _ => None
  }

  lemma PairTextParses(a: int, b: int)
    ensures ParsePair("(" + IntText(a) + ":" + IntText(b) + ")") == Some((a, b))
  {
    var s := "(" + IntText(a) + ":" + IntText(b) + ")";
    assert s[1..|s| - 1] == IntText(a) + [':'] + IntText(b);
    SeparatorNotInIntText(a, ':');
    SplitAtJoin(IntText(a), ':', IntText(b));
    IntTextRoundTrip(a);
    IntTextRoundTrip(b);
  }

  /** `n` copies of `c`, as a `for` loop of `append(c)` builds them (nothing when `n <= 0`). */
  function Repeat(c: char, n: int): (s: string)
    ensures |s| == if n > 0 then n else 0
    ensures forall i :: 0 <= i < |s| ==> s[i] == c
    decreases n
  {
    if n <= 0 then [] else Repeat(c, n - 1) + [c]
  }

  /** The number of occurrences of `c` in `s`. */
  function Occurrences(c: char, s: string): (n: nat)
    ensures n <= |s|
    ensures n == 0 <==> c !in s
  {
    multiset(s)[c]
  }

  /** `(x:y)` around texts free of `(` and line breaks holds one `(` and no line break. */
  lemma FramedCharacters(x: string, y: string)
    requires '(' !in x && '(' !in y && '\n' !in x && '\n' !in y
    ensures Occurrences('(', "(" + x + ":" + y + ")") == 1
    ensures Occurrences('\n', "(" + x + ":" + y + ")") == 0
  {
    assert multiset("(" + x + ":" + y + ")") == multiset("(") + multiset(x) + multiset(":") + multiset(y) + multiset(")");
  }

  /** The text of a summary `(a:b)` holds one opening parenthesis and no line break. */
  lemma PairTextCharacters(a: int, b: int)
    ensures Occurrences('(', PairText(a, b)) == 1
    ensures Occurrences('\n', PairText(a, b)) == 0
  {
    SeparatorNotInIntText(a, '(');
    SeparatorNotInIntText(b, '(');
    SeparatorNotInIntText(a, '\n');
    SeparatorNotInIntText(b, '\n');
    FramedCharacters(IntText(a), IntText(b));
  }

  /** A `private static int counter` that hands out ids with `counter++`. */
  class StaticCounter {
    var next: int

    constructor ()
      ensures next == 0
    {
      next := 0;
    }

    /** `counter++`: the current value, and the counter moves on by one. */
    method PostIncrement() returns (v: int)
      modifies this
      ensures v == old(next) && next == old(next) + 1
    {
      v := next;
      next := next + 1;
    }
  }
}
