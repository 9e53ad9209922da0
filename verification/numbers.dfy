/** Python's `int(...)` applied to decoded JSON values, and the server's
    `usec_to_ms` (server.py:26-33) built on it. */
module Numbers {
  import opened Common
  import opened Text

  predicate IsDigit(c: char)
  {
    '0' <= c <= '9'
  }

  function DigitValue(c: char): nat
    requires IsDigit(c)
  {
    c as int - '0' as int
  }

  function DigitChar(d: nat): char
    requires d < 10
  {
    ('0' as int + d) as char
  }

  /** The digits of a decimal Python integer literal: ASCII digits, with
      single underscores allowed between two digits. */
  predicate IsDigitGroup(s: string)
  {
    && s != [] && IsDigit(s[0]) && IsDigit(s[|s| - 1])
    && (forall i :: 0 <= i < |s| ==> IsDigit(s[i]) || s[i] == '_')
    && (forall i :: 0 <= i < |s| - 1 ==> IsDigit(s[i]) || IsDigit(s[i + 1]))
  }

  /** The number the digits of `s` spell, underscores ignored. */
  function DigitsValue(s: string): nat
    requires forall i :: 0 <= i < |s| ==> IsDigit(s[i]) || s[i] == '_'
  {
    if s == [] then 0
    else if s[|s| - 1] == '_' then DigitsValue(s[..|s| - 1])
    else 10 * DigitsValue(s[..|s| - 1]) + DigitValue(s[|s| - 1])
  }

  /** Python's `int(s)` on a string: surrounding whitespace, an optional
      sign, then a decimal digit group; anything else raises (None here). */
  function ParseInt(s: string): Option<int>
  {
    var t := Strip(s);
    if t == [] then None
    else
      var body := if t[0] == '-' || t[0] == '+' then t[1..] else t;
      if !IsDigitGroup(body) then None
      else
        var magnitude: int := DigitsValue(body);
        Some(if t[0] == '-' then -magnitude else magnitude)
  }

  /** The decimal digits of `n`, most significant first. */
  function DecimalDigits(n: nat): (s: string)
    ensures s != []
    ensures forall i :: 0 <= i < |s| ==> IsDigit(s[i])
  {
    if n < 10 then [DigitChar(n)] else DecimalDigits(n / 10) + [DigitChar(n % 10)]
  }

  /** `str(n)`: how a tool prints an integer. */
  function Decimal(n: int): string
  {
    if n < 0 then "-" + DecimalDigits(-n) else DecimalDigits(n)
  }

  lemma {:induction false} DigitsValueOfDecimal(n: nat)
    ensures DigitsValue(DecimalDigits(n)) == n
  {
    var s := DecimalDigits(n);
    if n >= 10 {
      DigitsValueOfDecimal(n / 10);
      assert s[..|s| - 1] == DecimalDigits(n / 10);
    }
  }

  /** `int(str(n)) == n`: a printed integer reads back as itself. */
  lemma ParseIntDecimal(n: int)
    ensures ParseInt(Decimal(n)) == Some(n)
  {
    var d := if n < 0 then -n else n;
    DigitsValueOfDecimal(d);
    if n < 0 {
      var s := Decimal(n);
      assert s[1..] == DecimalDigits(d);
      ParseIntOfNegative(s);
    } else {
      ParseIntOfDigits(DecimalDigits(d));
    }
  }

  /** A run of digits reads as its value. */
  lemma ParseIntOfDigits(digits: string)
    requires digits != [] && forall i :: 0 <= i < |digits| ==> IsDigit(digits[i])
    ensures ParseInt(digits) == Some(DigitsValue(digits))
  {
    assert IsDigitGroup(digits);
    assert Strip(digits) == digits by {
      assert IsStripped(digits) by {
        assert IsDigit(digits[0]) && IsDigit(digits[|digits| - 1]);
      }
    }
  }

  /** A minus sign and a run of digits read as minus their value. */
  lemma ParseIntOfNegative(s: string)
    requires |s| >= 2 && s[0] == '-' && forall i :: 1 <= i < |s| ==> IsDigit(s[i])
    ensures ParseInt(s) == Some(-(DigitsValue(s[1..]) as int))
  {
    assert Strip(s) == s by {
      assert IsDigit(s[|s| - 1]);
      assert IsStripped(s);
    }
    assert IsDigitGroup(s[1..]);
  }

  /** Python's `int(v)` on a decoded JSON value; None where it raises. */
  function PyInt(v: Json): Option<int>
  {
    match v
    case JBool(b) => Some(if b then 1 else 0)
    case JInt(i) => Some(i)
    case JStr(s) => ParseInt(s)
    case _ => None
  }

  /** `usec_to_ms`: microseconds to milliseconds by floor division; a value
      that does not convert to an integer, or is not positive, is absent. */
  function UsecToMs(v: Json): (r: Option<nat>)
    ensures r.Some? <==> PyInt(v).Some? && PyInt(v).value > 0
    ensures r.Some? ==> r.value * 1000 <= PyInt(v).value < r.value * 1000 + 1000
  {
    match PyInt(v)
    case None => None
    case Some(n) => if n <= 0 then None else Some(n / 1000)
  }

  /** The last millisecond `ms_to_iso` renders: `datetime.fromtimestamp`
      refuses a time in year 10000 or later, and 10000-01-01T00:00:00Z is
      253402300800 seconds after the epoch. */
  const MaxIsoMs := 253402300799999

  /** `ms_to_iso(ms)` returns instead of raising: there is no time, or the
      time falls before year 10000. Every time here is at or after the
      epoch, so the lower end of the calendar is never reached. */
  predicate IsoRenders(ms: Option<nat>)
  {
    ms.None? || ms.value <= MaxIsoMs
  }

  /** A microsecond count renders exactly when it falls before year 10000. */
  lemma UsecToMsRenders(v: Json)
    requires PyInt(v).Some? && PyInt(v).value > 0
    ensures IsoRenders(UsecToMs(v)) <==> PyInt(v).value < (MaxIsoMs + 1) * 1000
  {
  }

  /** A positive timestamp printed in decimal, as the journal prints
      `__REALTIME_TIMESTAMP`, converts to its whole milliseconds. */
  lemma UsecToMsOfPrinted(n: int)
    requires n > 0
    ensures UsecToMs(JStr(Decimal(n))) == Some(n / 1000)
  {
    ParseIntDecimal(n);
  }
}
