/** Python values as `json.loads` produces them, the way `str()` renders the
    scalar ones, and the exceptions that end a request. */
module Values {

  datatype Option<T> = None | Some(value: T)

  datatype Result<T, E> = Success(value: T) | Failure(error: E)

  /** A decoded JSON value as Python holds it: None, a bool, an int, a str, or
      a list or dict (`Compound`), whose contents never matter here.
      JSON numbers with a fraction, and texts holding a lone surrogate, are
      not modelled. */
  datatype Value = Null | Bool(b: bool) | Int(n: int) | Str(s: string) | Compound

  /** A decoded JSON object: a dict with string keys. */
  type Object = map<string, Value>

  /** `d.get(key)`: an absent key reads as None rather than raising. */
  function Get(d: Object, key: string): Value
  {
    if key in d then d[key] else Null
  }

  /** The exceptions that abort a request somewhere in the system. */
  datatype Fault =
    | ArityMismatch           // TypeError: a call that leaves a parameter without an argument
    | MissingKey(key: string) // KeyError from `d[key]`
    | IntegerOverflow         // OverflowError: an int outside 64 bits bound as an SQL parameter
    | UnsupportedParameter    // a list or dict bound as an SQL parameter
    | NotNull(column: string) // IntegrityError: NULL stored into a NOT NULL column
    | RowIdExhausted          // SQLITE_FULL: AUTOINCREMENT has no larger rowid left
    | TextInIntegerColumn     // a non-numeric text stored into an INTEGER column (not modelled further)

  predicate IsDigit(c: char)
  {
    '0' <= c <= '9'
  }

  predicate AllDigits(s: string)
  {
    forall i :: 0 <= i < |s| ==> IsDigit(s[i])
  }

  function DigitChar(d: nat): (c: char)
    requires d < 10
    ensures IsDigit(c) && c as int - '0' as int == d
  {
    ('0' as int + d) as char
  }

  /** The decimal digits of `n`, most significant first, with no leading zero. */
  function Digits(n: nat): (s: string)
    ensures |s| > 0 && AllDigits(s)
    ensures n >= 10 ==> s[0] != '0'
    decreases n
  {
    if n < 10 then [DigitChar(n)] else Digits(n / 10) + [DigitChar(n % 10)]
  }

  /** The number a run of decimal digits denotes. */
  function DigitsValue(s: string): nat
    requires AllDigits(s)
    decreases |s|
  {
    if s == [] then 0 else DigitsValue(s[..|s| - 1]) * 10 + (s[|s| - 1] as int - '0' as int)
  }

  /** `str(n)` for a Python int. */
  function DecimalString(n: int): string
  {
    if n < 0 then "-" + Digits(-n) else Digits(n)
  }

  /** The integer a text denotes when SQLite converts it under numeric
      affinity, restricted to an optional minus sign followed by digits. */
  function IntegerText(s: string): Option<int>
  {
    if |s| > 1 && s[0] == '-' && AllDigits(s[1..]) then Some(-(DigitsValue(s[1..]) as int))
    else if |s| > 0 && AllDigits(s) then Some(DigitsValue(s))
    else None
  }

  /** `str(v)` as an f-string renders the scalar values. */
  function Show(v: Value): string
    requires !v.Compound?
  {
    match v
    case Null => "None"
    case Bool(b) => if b then "True" else "False"
    case Int(n) => DecimalString(n)
    case Str(s) => s
  }

  lemma {:induction false} DigitsRoundTrip(n: nat)
    ensures DigitsValue(Digits(n)) == n
    decreases n
  {
    if n >= 10 {
      var p := Digits(n / 10);
      var s := p + [DigitChar(n % 10)];
      assert s[..|s| - 1] == p;
      DigitsRoundTrip(n / 10);
    }
  }

  /** Reading back what `str(n)` wrote gives `n`. */
  lemma DecimalRoundTrip(n: int)
    ensures IntegerText(DecimalString(n)) == Some(n)
  {
    if n < 0 {
      var d := Digits(-n);
      var s := "-" + d;
      assert s[0] == '-' && s[1..] == d;
      DigitsRoundTrip(-n);
      assert IntegerText(s) == Some(-(DigitsValue(d) as int));
    } else {
      var d := Digits(n);
      assert IsDigit(d[0]);
      DigitsRoundTrip(n);
      assert IntegerText(d) == Some(DigitsValue(d));
    }
  }
}
