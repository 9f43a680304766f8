/** Base-10, 64-bit integer parsing and formatting as Go's `strconv` does it
    (`ParseUint(s, 10, 64)`, `ParseInt(s, 10, 64)`, `FormatUint`, `FormatInt`). */
module Strconv {
  import opened Wrappers
  import opened Strings

  const MaxUint64: int := 0xFFFF_FFFF_FFFF_FFFF
  const MinInt64: int := -0x8000_0000_0000_0000
  const MaxInt64: int := 0x7FFF_FFFF_FFFF_FFFF

  /** Go's `uint` and `uint64` on a 64-bit platform. */
  type Uint64 = x: int | 0 <= x <= MaxUint64
  /** Go's `int` and `int64` on a 64-bit platform. */
  type Int64 = x: int | MinInt64 <= x <= MaxInt64

  /** Go's `int(u)` for a `uint64` u: the same 64 bits read as two's complement. */
  function ToInt64(u: Uint64): (r: Int64)
    ensures u <= MaxInt64 ==> r == u
    ensures u > MaxInt64 ==> r < 0 && r + MaxUint64 + 1 == u
  {
    if u <= MaxInt64 then u else u - MaxUint64 - 1
  }

  /** The two reasons a `strconv` parse fails. */
  datatype NumErrKind = ErrSyntax | ErrRange

  /** `*strconv.NumError`: the function, the text it was given, and the reason. */
  datatype NumError = NumError(func: string, num: string, kind: NumErrKind) {
    /** The text of `NumError.Error()`. */
    function Message(): string {
      "strconv." + func + ": parsing " + Quote(num) + ": "
      + (if kind == ErrSyntax then "invalid syntax" else "value out of range")
    }
  }

  predicate IsDigit(c: char) {
    '0' <= c <= '9'
  }

  predicate AllDigits(s: string) {
    forall i :: 0 <= i < |s| ==> IsDigit(s[i])
  }

  function DigitValue(c: char): nat
    requires IsDigit(c)
  {
    c as int - '0' as int
  }

  /** The number a string of decimal digits denotes. */
  function DecimalValue(s: string): nat
    requires AllDigits(s)
  {
    if s == [] then 0 else DecimalValue(s[..|s| - 1]) * 10 + DigitValue(s[|s| - 1])
  }

  /** The loop of `ParseUint` from index `i` on, with `acc` the value of `s[..i]`: the first
      character that is not a digit is a syntax error, the first digit that takes the value
      past 2^64-1 a range error, whichever comes first. */
  function ScanDecimal(s: string, i: nat, acc: Uint64): Result<Uint64, NumErrKind>
    requires i <= |s|
    decreases |s| - i
  {
    if i == |s| then Ok(acc)
    else if !IsDigit(s[i]) then Err(ErrSyntax)
    else if acc * 10 + DigitValue(s[i]) > MaxUint64 then Err(ErrRange)
    else ScanDecimal(s, i + 1, acc * 10 + DigitValue(s[i]))
  }

  /** `strconv.ParseUint(s, 10, 64)`. */
  function ParseUint(s: string): Result<Uint64, NumError> {
    if s == [] then Err(NumError("ParseUint", s, ErrSyntax))
    else match ScanDecimal(s, 0, 0)
      case Ok(n) => Ok(n)
      case Err(k) => Err(NumError("ParseUint", s, k))
  }

  /** `strconv.ParseInt(s, 10, 64)`: an optional sign, then the unsigned parse; a range
      error of the unsigned parse stays a range error, any other failure is a syntax error. */
  function ParseInt(s: string): Result<Int64, NumError> {
    if s == [] then Err(NumError("ParseInt", s, ErrSyntax))
    else
      var neg := s[0] == '-';
      var body := if s[0] == '+' || s[0] == '-' then s[1..] else s;
      match ParseUint(body)
      case Err(e) =>
        if e.kind == ErrRange then Err(NumError("ParseInt", s, ErrRange))
        else Err(NumError("ParseInt", s, ErrSyntax))
      case Ok(u) =>
        if !neg && u > MaxInt64 then Err(NumError("ParseInt", s, ErrRange))
        else if neg && u > MaxInt64 + 1 then Err(NumError("ParseInt", s, ErrRange))
        else
          var v: int := if neg then -(u as int) else u;
          Ok(v)
  }

  function DigitChar(d: nat): (c: char)
    requires d < 10
    ensures IsDigit(c) && DigitValue(c) == d
  {
    ('0' as int + d) as char
  }

  /** `strconv.FormatUint(n, 10)`: the shortest decimal numeral of `n`. */
  function FormatUint(n: nat): string {
    if n < 10 then [DigitChar(n)] else FormatUint(n / 10) + [DigitChar(n % 10)]
  }

  /** `strconv.FormatInt(n, 10)`, which is also what `strconv.Itoa` writes. */
  function FormatInt(n: int): string {
    if n < 0 then "-" + FormatUint(-n) else FormatUint(n)
  }

  /** A numeral without superfluous leading zeros, as JSON requires. */
  predicate Canonical(s: string) {
    s != [] && (s[0] == '0' ==> |s| == 1)
  }

  /** `FormatUint` writes a canonical, non-empty numeral of digits whose value is `n`. */
  lemma {:induction false} FormatUintDigits(n: nat)
    ensures var s := FormatUint(n);
      Canonical(s) && AllDigits(s) && DecimalValue(s) == n
  {
    if n >= 10 {
      FormatUintDigits(n / 10);
      var p := FormatUint(n / 10);
      var s := p + [DigitChar(n % 10)];
      assert s[..|s| - 1] == p;
      assert s[0] == p[0];
    }
  }

  lemma {:induction false} DecimalValuePrefix(s: string, i: nat)
    requires AllDigits(s) && i < |s|
    ensures DecimalValue(s[..i + 1]) == DecimalValue(s[..i]) * 10 + DigitValue(s[i])
  {
    assert s[..i + 1][..i] == s[..i];
  }

  /** The value of a prefix never exceeds the value of the whole numeral. */
  lemma {:induction false} DecimalValueMonotone(s: string, i: nat)
    requires AllDigits(s) && i <= |s|
    ensures DecimalValue(s[..i]) <= DecimalValue(s)
    decreases |s| - i
  {
    if i < |s| {
      DecimalValuePrefix(s, i);
      DecimalValueMonotone(s, i + 1);
    } else {
      assert s[..i] == s;
    }
  }

  lemma {:induction false} ScanDecimalOk(s: string, i: nat)
    requires AllDigits(s) && i <= |s| && DecimalValue(s) <= MaxUint64
    ensures DecimalValue(s[..i]) <= MaxUint64
    ensures ScanDecimal(s, i, DecimalValue(s[..i])) == Ok(DecimalValue(s))
    decreases |s| - i
  {
    DecimalValueMonotone(s, i);
    if i == |s| {
      assert s[..i] == s;
    } else {
      DecimalValuePrefix(s, i);
      DecimalValueMonotone(s, i + 1);
      ScanDecimalOk(s, i + 1);
    }
  }

  lemma {:induction false} ScanDecimalSound(s: string, i: nat, n: Uint64)
    requires i <= |s| && AllDigits(s[..i]) && DecimalValue(s[..i]) <= MaxUint64
    requires ScanDecimal(s, i, DecimalValue(s[..i])) == Ok(n)
    ensures AllDigits(s) && DecimalValue(s) == n
    decreases |s| - i
  {
    if i == |s| {
      assert s[..i] == s;
    } else {
      assert AllDigits(s[..i + 1]);
      assert s[..i + 1][..i] == s[..i];
      ScanDecimalSound(s, i + 1, n);
    }
  }

  /** `ParseUint` accepts exactly the non-empty digit strings whose value fits in 64 bits,
      and yields that value. */
  lemma ParseUintOk(s: string)
    ensures ParseUint(s).Ok? <==> s != [] && AllDigits(s) && DecimalValue(s) <= MaxUint64
    ensures ParseUint(s).Ok? ==> ParseUint(s).value == DecimalValue(s)
  {
    assert s[..0] == [];
    if s != [] && AllDigits(s) && DecimalValue(s) <= MaxUint64 {
      ScanDecimalOk(s, 0);
    }
    if ParseUint(s).Ok? {
      ScanDecimalSound(s, 0, ParseUint(s).value);
    }
  }

  /** A text that starts with a minus sign is never an unsigned number. */
  lemma ParseUintRejectsSign(s: string)
    requires s != [] && (s[0] == '-' || s[0] == '+')
    ensures ParseUint(s) == Err(NumError("ParseUint", s, ErrSyntax))
  {
  }

  /** Round trip: parsing what `FormatUint` wrote gives the number back. */
  lemma ParseFormatUint(n: Uint64)
    ensures ParseUint(FormatUint(n)) == Ok(n)
  {
    FormatUintDigits(n);
    ParseUintOk(FormatUint(n));
  }

  /** Round trip: parsing what `FormatInt` wrote gives the number back. */
  lemma ParseFormatInt(n: Int64)
    ensures ParseInt(FormatInt(n)) == Ok(n)
  {
    var s := FormatInt(n);
    if n < 0 {
      var m: nat := -(n as int);
      var body := FormatUint(m);
      assert s == "-" + body && s[1..] == body;
      ParseFormatUint(m);
      assert ParseUint(body) == Ok(m);
    } else {
      FormatUintDigits(n);
      assert IsDigit(s[0]);
      ParseFormatUint(n);
    }
  }

  /** `ParseInt` reads an unsigned numeral as `ParseUint` does when the number fits an
      `int64`, and reports a range error when it does not. */
  lemma ParseIntOfUnsigned(s: string, n: Uint64)
    requires ParseUint(s) == Ok(n)
    ensures n <= MaxInt64 ==> ParseInt(s) == Ok(n)
    ensures n > MaxInt64 ==> ParseInt(s) == Err(NumError("ParseInt", s, ErrRange))
  {
    ParseUintOk(s);
    assert IsDigit(s[0]);
  }

  /** Text that starts with neither a digit nor a sign is a syntax error for both parsers. */
  lemma ParseRejectsNonNumeral(s: string)
    requires s != [] && !IsDigit(s[0]) && s[0] != '+' && s[0] != '-'
    ensures ParseUint(s) == Err(NumError("ParseUint", s, ErrSyntax))
    ensures ParseInt(s) == Err(NumError("ParseInt", s, ErrSyntax))
  {
  }

  /** A negative number's numeral is refused by `ParseUint`. */
  lemma ParseUintOfNegative(n: Int64)
    requires n < 0
    ensures ParseUint(FormatInt(n)).Err?
  {
  }
}
