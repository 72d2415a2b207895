/**
  Reading a size given on the command line: an integer, optionally followed
  by one scale suffix. `K`, `M`, `G`, `T` scale by powers of 1000; `Ki`,
  `Mi`, `Gi`, `Ti` by powers of 1024. Whitespace around the number is
  ignored. Results are Go `int64` values.
*/
module Size {
  import opened Wrappers

  const MinInt64: int := -0x8000_0000_0000_0000
  const MaxInt64: int := 0x7fff_ffff_ffff_ffff

  predicate InInt64(x: int)
  {
    MinInt64 <= x <= MaxInt64
  }

  /** Why a size could not be read: not a number, or a number out of the `int64` range. */
  datatype NumError = Syntax | Range

  function Pow(b: int, k: nat): int
  {
    if k == 0 then 1 else b * Pow(b, k - 1)
  }

  // ---------------------------------------------------------------------
  // Whitespace trimming

  /** The characters Unicode calls white space, as Go's strings.TrimSpace removes them. */
  const WhiteSpace: set<int> := {
    0x09, 0x0A, 0x0B, 0x0C, 0x0D, 0x20, 0x85, 0xA0, 0x1680,
    0x2000, 0x2001, 0x2002, 0x2003, 0x2004, 0x2005, 0x2006, 0x2007,
    0x2008, 0x2009, 0x200A, 0x2028, 0x2029, 0x202F, 0x205F, 0x3000
  }

  predicate IsSpace(c: char)
  {
    c as int in WhiteSpace
  }

  predicate AllSpace(s: string)
  {
    forall i :: 0 <= i < |s| ==> IsSpace(s[i])
  }

  function TrimLeft(s: string): (r: string)
    ensures |r| <= |s| && r == s[|s| - |r|..]
    ensures AllSpace(s[..|s| - |r|])
    ensures r == [] || !IsSpace(r[0])
  {
    if s != [] && IsSpace(s[0]) then
      var r := TrimLeft(s[1..]);
      assert s[..|s| - |r|] == [s[0]] + s[1..][..|s| - 1 - |r|];
      r
    else s
  }

  function TrimRight(s: string): (r: string)
    ensures |r| <= |s| && r == s[..|r|]
    ensures AllSpace(s[|r|..])
    ensures r == [] || !IsSpace(r[|r| - 1])
  {
    if s != [] && IsSpace(s[|s| - 1]) then
      var r := TrimRight(s[..|s| - 1]);
      assert s[|r|..] == s[..|s| - 1][|r|..] + [s[|s| - 1]];
      r
    else s
  }

  /** `s` without its leading and trailing white space. */
  function TrimSpace(s: string): string
  {
    TrimRight(TrimLeft(s))
  }

  lemma {:induction false} TrimLeftPadded(pad: string, d: string)
    requires AllSpace(pad) && d != [] && !IsSpace(d[0])
    ensures TrimLeft(pad + d) == d
    decreases |pad|
  {
    if pad == [] {
      assert pad + d == d;
    } else {
      assert (pad + d)[1..] == pad[1..] + d;
      TrimLeftPadded(pad[1..], d);
    }
  }

  lemma {:induction false} TrimRightPadded(d: string, pad: string)
    requires AllSpace(pad) && d != [] && !IsSpace(d[|d| - 1])
    ensures TrimRight(d + pad) == d
    decreases |pad|
  {
    if pad == [] {
      assert d + pad == d;
    } else {
      assert (d + pad)[..|d + pad| - 1] == d + pad[..|pad| - 1];
      TrimRightPadded(d, pad[..|pad| - 1]);
    }
  }

  /** Trimming removes exactly the white space around a word that starts and ends with something else. */
  lemma TrimSpacePadded(left: string, d: string, right: string)
    requires AllSpace(left) && AllSpace(right)
    requires d != [] && !IsSpace(d[0]) && !IsSpace(d[|d| - 1])
    ensures TrimSpace(left + d + right) == d
  {
    assert left + d + right == left + (d + right);
    TrimLeftPadded(left, d + right);
    TrimRightPadded(d, right);
  }

  // ---------------------------------------------------------------------
  // Integers in decimal

  predicate IsDigit(c: char)
  {
    '0' <= c <= '9'
  }

  function DigitValue(c: char): nat
    requires IsDigit(c)
  {
    c as int - '0' as int
  }

  function DigitChar(d: nat): char
    requires d < 10
  {
    ('0' as int + d) as char
  }

  /** A decimal numeral without leading zeros: the part of Go's integer syntax this model reads. */
  predicate IsDecimal(d: string)
  {
    |d| > 0 && (forall i :: 0 <= i < |d| ==> IsDigit(d[i])) && (d[0] == '0' ==> |d| == 1)
  }

  function DecimalValue(d: string): nat
    requires forall i :: 0 <= i < |d| ==> IsDigit(d[i])
  {
    if d == [] then 0 else 10 * DecimalValue(d[..|d| - 1]) + DigitValue(d[|d| - 1])
  }

  /** The decimal numeral for `n`, as Go prints it. */
  function Decimal(n: nat): (d: string)
    ensures |d| > 0
  {
    if n < 10 then [DigitChar(n)] else Decimal(n / 10) + [DigitChar(n % 10)]
  }

  function SignedDecimal(n: int): string
  {
    if n < 0 then "-" + Decimal(-n) else Decimal(n)
  }

  /**
    Go's strconv.ParseInt with base 0 and 64 bits, on decimal numerals: an
    optional sign, then digits; out-of-range values are an error.
  */
  function ParseInt(s: string): (r: Result<int, NumError>)
    ensures r.Success? ==> InInt64(r.value)
  {
    if s == [] then Failure(Syntax)
    else
      var digits := if s[0] == '-' || s[0] == '+' then s[1..] else s;
      if !IsDecimal(digits) then Failure(Syntax)
      else
        var v: int := if s[0] == '-' then -(DecimalValue(digits) as int) else DecimalValue(digits);
        if InInt64(v) then Success(v) else Failure(Range)
  }

  lemma {:induction false} DecimalRoundTrip(n: nat)
    ensures IsDecimal(Decimal(n)) && DecimalValue(Decimal(n)) == n
  {
    if n >= 10 {
      DecimalRoundTrip(n / 10);
      var d := Decimal(n);
      assert d[..|d| - 1] == Decimal(n / 10);
    }
  }

  lemma {:induction false} DecimalValuePositive(d: string)
    requires IsDecimal(d) && d[0] != '0'
    ensures DecimalValue(d) > 0
    decreases |d|
  {
    if |d| > 1 {
      DecimalValuePositive(d[..|d| - 1]);
    }
  }

  lemma {:induction false} DecimalCanonical(d: string)
    requires IsDecimal(d)
    ensures Decimal(DecimalValue(d)) == d
    decreases |d|
  {
    if |d| == 1 {
      assert d == [DigitChar(DigitValue(d[0]))];
    } else {
      var init := d[..|d| - 1];
      DecimalValuePositive(init);
      DecimalCanonical(init);
      assert d == init + [DigitChar(DigitValue(d[|d| - 1]))];
    }
  }

  /** A numeral after an optional sign reads as its value, negated after `-`, when that fits in `int64`. */
  lemma ParseIntOfParts(sign: string, digits: string)
    requires sign == "" || sign == "-" || sign == "+"
    requires IsDecimal(digits)
    ensures var v: int := if sign == "-" then -(DecimalValue(digits) as int) else DecimalValue(digits);
      ParseInt(sign + digits) == if InInt64(v) then Success(v) else Failure(Range)
  {
    var s := sign + digits;
    if sign == "" {
      assert s == digits;
    } else {
      assert s[0] == sign[0] && s[1..] == digits;
    }
  }

  /** Every `int64` written in decimal reads back as itself. */
  lemma {:induction false} ParseIntSignedDecimal(n: int)
    requires InInt64(n)
    ensures ParseInt(SignedDecimal(n)) == Success(n)
  {
    if n < 0 {
      NegativeReadsBack(n);
    } else {
      DecimalRoundTrip(n);
      ParseIntOfParts("", Decimal(n));
      assert "" + Decimal(n) == Decimal(n);
    }
  }

  lemma NegativeReadsBack(n: int)
    requires MinInt64 <= n < 0
    ensures ParseInt("-" + Decimal(-n)) == Success(n)
  {
    DecimalRoundTrip(-n);
    ParseIntOfParts("-", Decimal(-n));
  }

  /** Conversely, an accepted numeral is the decimal form of its value, up to a `+` sign or the spelling `-0`. */
  lemma {:induction false} ParseIntCanonical(s: string, n: int)
    requires ParseInt(s) == Success(n)
    ensures s == SignedDecimal(n) || (n >= 0 && s == "+" + Decimal(n)) || (n == 0 && s == "-0")
  {
    var signed := s[0] == '-' || s[0] == '+';
    var sign := if signed then s[..1] else "";
    var digits := if signed then s[1..] else s;
    assert s == sign + digits;
    assert IsDecimal(digits);
    ParseIntOfParts(sign, digits);
    var v := DecimalValue(digits);
    DecimalCanonical(digits);
    if sign == "-" {
      if v == 0 {
        if digits[0] != '0' {
          DecimalValuePositive(digits);
        }
        assert digits == "0";
      }
    }
  }

  // ---------------------------------------------------------------------
  // Scale suffixes and the size itself

  /** The scale a suffix selects: how many characters it takes up and the factor it stands for. */
  datatype Scale = Scale(strip: nat, factor: int)

  /** The letters a scale suffix is made of. */
  predicate IsUnit(c: char)
  {
    c == 'K' || c == 'M' || c == 'G' || c == 'T'
  }

  /** The power a unit letter raises its base to. */
  function Rank(c: char): nat
  {
    if c == 'K' then 1 else if c == 'M' then 2 else if c == 'G' then 3 else if c == 'T' then 4 else 0
  }

  /** The factors the unit letters stand for. */
  lemma PowersOfUnits()
    ensures Pow(1000, Rank('K')) == 1000 && Pow(1000, Rank('M')) == 1000 * 1000
    ensures Pow(1000, Rank('G')) == 1000 * 1000 * 1000 && Pow(1000, Rank('T')) == 1000 * 1000 * 1000 * 1000
    ensures Pow(1024, Rank('K')) == 1024 && Pow(1024, Rank('M')) == 1024 * 1024
    ensures Pow(1024, Rank('G')) == 1024 * 1024 * 1024 && Pow(1024, Rank('T')) == 1024 * 1024 * 1024 * 1024
  {
  }

  /** The suffix tests of SelectScale in terms of the last characters of `value`. */
  lemma EndsWithLetters(value: string)
    ensures forall c: char {:trigger [c]} :: EndsWith(value, [c]) <==> |value| >= 1 && value[|value| - 1] == c
    ensures forall c: char {:trigger [c, 'i']} :: EndsWith(value, [c, 'i']) <==>
      |value| >= 2 && value[|value| - 2] == c && value[|value| - 1] == 'i'
  {
    forall c: char ensures EndsWith(value, [c]) <==> |value| >= 1 && value[|value| - 1] == c {
      if |value| >= 1 {
        assert value[|value| - 1..] == [value[|value| - 1]];
      }
    }
    forall c: char ensures EndsWith(value, [c, 'i']) <==> |value| >= 2 && value[|value| - 2] == c && value[|value| - 1] == 'i' {
      if |value| >= 2 {
        assert value[|value| - 2..] == [value[|value| - 2], value[|value| - 1]];
      }
    }
  }

  /** Go's strings.HasSuffix. */
  predicate EndsWith(s: string, suffix: string)
  {
    |suffix| <= |s| && s[|s| - |suffix|..] == suffix
  }

  /**
    The scale suffix of `value`, tried in the order T, Ti, G, Gi, M, Mi, K, Ki:
    at most one is recognised, and the factor follows from its letter and
    whether it ends in `i`.
  */
  function SelectScale(value: string): (s: Scale)
    ensures s.strip <= 2 && s.strip <= |value|
    ensures s.strip == 1 ==> IsUnit(value[|value| - 1])
    ensures s.strip == 2 ==> value[|value| - 1] == 'i' && IsUnit(value[|value| - 2])
    ensures s.strip == 0 ==>
      s.factor == 1
      && !(|value| >= 1 && IsUnit(value[|value| - 1]))
      && !(|value| >= 2 && value[|value| - 1] == 'i' && IsUnit(value[|value| - 2]))
  {
    EndsWithLetters(value);
    if EndsWith(value, "T") then Scale(1, 1000 * 1000 * 1000 * 1000)
    else if EndsWith(value, "Ti") then Scale(2, 1024 * 1024 * 1024 * 1024)
    else if EndsWith(value, "G") then Scale(1, 1000 * 1000 * 1000)
    else if EndsWith(value, "Gi") then Scale(2, 1024 * 1024 * 1024)
    else if EndsWith(value, "M") then Scale(1, 1000 * 1000)
    else if EndsWith(value, "Mi") then Scale(2, 1024 * 1024)
    else if EndsWith(value, "K") then Scale(1, 1000)
    else if EndsWith(value, "Ki") then Scale(2, 1024)
    else Scale(0, 1)
  }

  /** The factor of a recognised suffix is its base, 1000 or 1024, raised to the rank of its letter. */
  lemma SelectScaleFactor(value: string)
    ensures var s := SelectScale(value);
      && (s.strip == 1 ==> s.factor == Pow(1000, Rank(value[|value| - 1])))
      && (s.strip == 2 ==> s.factor == Pow(1024, Rank(value[|value| - 2])))
  {
    PowersOfUnits();
    EndsWithLetters(value);
    var s := SelectScale(value);
    if s.strip == 1 {
      var c := value[|value| - 1];
      assert c == 'K' || c == 'M' || c == 'G' || c == 'T';
    } else if s.strip == 2 {
      var c := value[|value| - 2];
      assert c == 'K' || c == 'M' || c == 'G' || c == 'T';
    }
  }

  /** The number part of `value`: the suffix, if any, removed, then the white space around what is left. */
  function Remainder(value: string): string
  {
    TrimSpace(value[..|value| - SelectScale(value).strip])
  }

  /**
    The size `value` stands for, as size.go:40 computes it: the product is
    taken in `int64` and wraps around when it does not fit.
  */
  function ParseSizeAsWritten(value: string): (r: Result<int, NumError>)
    ensures r.Success? ==> InInt64(r.value)
  {
    match ParseInt(Remainder(value))
    case Failure(e) => Failure(e)
    case Success(n) => Success(Wrap64(n * SelectScale(value).factor))
  }

  /** Two's-complement wrap-around of an integer into `int64`. */
  function Wrap64(x: int): (r: int)
    ensures InInt64(r)
    ensures InInt64(x) ==> r == x
    ensures (r - x) % 0x1_0000_0000_0000_0000 == 0
  {
    (x - MinInt64) % 0x1_0000_0000_0000_0000 + MinInt64
  }

  /**
    The size `value` stands for, with a product that does not fit in `int64`
    reported as out of range rather than wrapped.
  */
  function ParseSize(value: string): (r: Result<int, NumError>)
    ensures r.Success? ==> InInt64(r.value)
  {
    match ParseInt(Remainder(value))
    case Failure(e) => Failure(e)
    case Success(n) =>
      var size := n * SelectScale(value).factor;
      if InInt64(size) then Success(size) else Failure(Range)
  }

  /** The text of a scale suffix: a unit letter, followed by `i` for the powers of 1024. */
  function Suffix(letter: char, binary: bool): string
  {
    [letter] + (if binary then "i" else "")
  }

  /**
    A number written in decimal, with white space anywhere around it, and one
    suffix, reads as the number times the suffix's power of 1000 or 1024.
  */
  lemma ParseSizeScaled(left: string, n: int, right: string, letter: char, binary: bool)
    requires AllSpace(left) && AllSpace(right)
    requires IsUnit(letter)
    requires InInt64(n) && InInt64(n * Pow(if binary then 1024 else 1000, Rank(letter)))
    ensures ParseSize(left + SignedDecimal(n) + right + Suffix(letter, binary))
         == Success(n * Pow(if binary then 1024 else 1000, Rank(letter)))
  {
    var d := SignedDecimal(n);
    var value := left + d + right + Suffix(letter, binary);
    var sfx := Suffix(letter, binary);
    assert value[|value| - 1] == sfx[|sfx| - 1];
    assert |value| >= 2 ==> value[|value| - 2] == (left + d + right + sfx)[|value| - 2];
    if binary {
      assert value[|value| - 2] == letter;
    }
    var s := SelectScale(value);
    SelectScaleFactor(value);
    assert s.strip == |sfx|;
    assert value[..|value| - s.strip] == left + d + right;
    SignedDecimalShape(n);
    TrimSpacePadded(left, d, right);
    RemainderIs(value, left + d + right);
    ParseSizeOfParts(value, n, s);
  }

  /** Without a suffix the scale is 1 and the whole trimmed string is the number. */
  lemma ParseSizeUnscaled(left: string, n: int, right: string)
    requires AllSpace(left) && AllSpace(right)
    requires InInt64(n)
    ensures ParseSize(left + SignedDecimal(n) + right) == Success(n)
  {
    var d := SignedDecimal(n);
    var value := left + d + right;
    SignedDecimalShape(n);
    if right == [] {
      assert value[|value| - 1] == d[|d| - 1];
    } else {
      assert value[|value| - 1] == right[|right| - 1];
    }
    NoSuffix(value);
    assert value[..|value| - 0] == left + d + right;
    TrimSpacePadded(left, d, right);
    RemainderIs(value, left + d + right);
    ParseSizeOfParts(value, n, Scale(0, 1));
  }

  /** A value ending in a digit or in white space carries no scale suffix. */
  lemma NoSuffix(value: string)
    requires |value| > 0 && (IsDigit(value[|value| - 1]) || IsSpace(value[|value| - 1]))
    ensures SelectScale(value) == Scale(0, 1)
  {
    var c := value[|value| - 1];
    assert c != 'i' && !IsUnit(c);
  }

  lemma RemainderIs(value: string, number: string)
    requires value[..|value| - SelectScale(value).strip] == number
    ensures Remainder(value) == TrimSpace(number)
  {
  }

  /** Once the scale and the number part are known, the size is their product. */
  lemma ParseSizeOfParts(value: string, n: int, s: Scale)
    requires SelectScale(value) == s
    requires Remainder(value) == SignedDecimal(n)
    requires InInt64(n)
    ensures ParseSize(value) == if InInt64(n * s.factor) then Success(n * s.factor) else Failure(Range)
    ensures ParseSizeAsWritten(value) == Success(Wrap64(n * s.factor))
  {
    ParseIntSignedDecimal(n);
    assert ParseInt(Remainder(value)) == Success(n);
  }

  /** A decimal numeral starts with a sign or digit and ends with a digit. */
  lemma SignedDecimalShape(n: int)
    ensures var d := SignedDecimal(n);
      && d != [] && !IsSpace(d[0]) && !IsSpace(d[|d| - 1]) && IsDigit(d[|d| - 1])
      && !IsUnit(d[0]) && !IsUnit(d[|d| - 1])
  {
    DecimalRoundTrip(if n < 0 then -n else n);
  }

  /** The example of size_test.go: `42Gi` is 42 times 1024 cubed. */
  lemma FortyTwoGibibytes()
    ensures ParseSize("42Gi") == Success(42 * 1024 * 1024 * 1024)
    ensures ParseSizeAsWritten("42Gi") == Success(42 * 1024 * 1024 * 1024)
  {
    FortyTwoGibibytesNumber();
    FortyTwo();
    ParseSizeAgreesWhenInRange("42Gi");
  }

  lemma FortyTwo()
    ensures ParseInt("42") == Success(42)
  {
    assert "42"[..1] == "4" && "4"[..0] == [];
    assert IsDecimal("42") && DecimalValue("42") == 42;
  }

  lemma FortyTwoGibibytesScale()
    ensures SelectScale("42Gi") == Scale(2, 1024 * 1024 * 1024)
  {
    EndsWithLetters("42Gi");
  }

  lemma FortyTwoGibibytesNumber()
    ensures SelectScale("42Gi") == Scale(2, 1024 * 1024 * 1024)
    ensures Remainder("42Gi") == "42"
  {
    FortyTwoGibibytesScale();
    assert "42Gi"[..2] == "" + "42" + "";
    TrimSpacePadded("", "42", "");
  }

  /** `1Ki` is 1024. */
  lemma OneKibibyte()
    ensures ParseSize("1Ki") == Success(1024)
    ensures ParseSizeAsWritten("1Ki") == Success(1024)
  {
    OneKibibyteNumber();
    assert ParseInt("1") == Success(1);
    ParseSizeAgreesWhenInRange("1Ki");
  }

  lemma OneKibibyteScale()
    ensures SelectScale("1Ki") == Scale(2, 1024)
  {
    EndsWithLetters("1Ki");
  }

  lemma OneKibibyteNumber()
    ensures SelectScale("1Ki") == Scale(2, 1024)
    ensures Remainder("1Ki") == "1"
  {
    OneKibibyteScale();
    assert "1Ki"[..1] == "" + "1" + "";
    TrimSpacePadded("", "1", "");
  }

  /** For every product that fits in `int64` the corrected reading agrees with the code as written. */
  lemma ParseSizeAgreesWhenInRange(value: string)
    requires ParseSize(value).Success?
    ensures ParseSizeAsWritten(value) == ParseSize(value)
  {
  }

  /**
    With the product taken in `int64`, a number of terabytes too large for
    `int64` reads as a negative size, which every file exceeds; the corrected
    reading reports it as out of range.
  */
  lemma OverflowingSizeWraps(n: int)
    requires InInt64(n) && MaxInt64 < n * Pow(1000, 4) < 0x1_0000_0000_0000_0000
    ensures ParseSizeAsWritten(SignedDecimal(n) + "T") == Success(n * Pow(1000, 4) - 0x1_0000_0000_0000_0000)
    ensures n * Pow(1000, 4) - 0x1_0000_0000_0000_0000 < 0
    ensures ParseSize(SignedDecimal(n) + "T") == Failure(Range)
  {
    var d := SignedDecimal(n);
    var value := d + "T";
    EndsWithLetters(value);
    assert value[|value| - 1] == 'T';
    var s := SelectScale(value);
    PowersOfUnits();
    assert s == Scale(1, Pow(1000, 4));
    assert value[..|value| - s.strip] == "" + d + "";
    SignedDecimalShape(n);
    TrimSpacePadded("", d, "");
    RemainderIs(value, "" + d + "");
    ParseSizeOfParts(value, n, s);
    WrapOnce(n * Pow(1000, 4));
  }

  lemma WrapOnce(x: int)
    requires MaxInt64 < x < 0x1_0000_0000_0000_0000
    ensures Wrap64(x) == x - 0x1_0000_0000_0000_0000
  {
    var m := 0x1_0000_0000_0000_0000;
    var y := x - MinInt64;
    assert m <= y < 2 * m;
    assert y % m == y - m;
  }

  /** Ten million terabytes is such a size. */
  lemma TenMillionTerabytesWraps()
    ensures ParseSizeAsWritten("10000000T") == Success(-8_446_744_073_709_551_616)
    ensures ParseSize("10000000T") == Failure(Range)
  {
    PowersOfUnits();
    OverflowingSizeWraps(10_000_000);
    TenMillionNumeral();
  }

  lemma TenMillionNumeral()
    ensures SignedDecimal(10_000_000) + "T" == "10000000T"
  {
  }
}
