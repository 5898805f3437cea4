/**
 * The `listen <PORT>` argument (src/main.rs): parsed as a `usize` the way
 * current Rust's integer `FromStr` does on a 64-bit target, then accepted only up to
 * 65535; every rejection ends the process with exit code 1.
 */
module Listen {
  import opened Wrappers

  const UsizeMax: nat := 0xFFFF_FFFF_FFFF_FFFF
  const MaxPort: nat := 65535

  /** The `ParseIntError` kinds unsigned parsing can report. */
  datatype IntErrorKind = Empty | InvalidDigit | PosOverflow

  predicate IsDigit(c: char) { '0' <= c <= '9' }

  predicate AllDigits(t: string) { forall k :: 0 <= k < |t| ==> IsDigit(t[k]) }

  /** The number a string of decimal digits denotes (leading zeros allowed). */
  function DecimalValue(t: string): nat
    requires AllDigits(t)
  {
    if |t| == 0 then 0 else DecimalValue(t[..|t| - 1]) * 10 + (t[|t| - 1] as int - '0' as int)
  }

  /** The length of the run of digits at the front of `t`. */
  function DigitRun(t: string): (n: nat)
    ensures n <= |t| && AllDigits(t[..n])
    ensures n < |t| ==> !IsDigit(t[n])
  {
    if |t| == 0 || !IsDigit(t[0]) then 0
    else
      var k := 1 + DigitRun(t[1..]);
      assert t[..k] == [t[0]] + t[1..][..k - 1];
      k
  }

  /** The part of the argument that must be digits: a single leading `+` is allowed. */
  function Unsigned(src: string): string
  {
    if |src| > 0 && src[0] == '+' then src[1..] else src
  }

  /** Longer digit prefixes never denote smaller numbers. */
  lemma {:induction false} DecimalValueMonotone(t: string, i: nat, j: nat)
    requires i <= j <= |t| && AllDigits(t[..j])
    ensures AllDigits(t[..i]) && DecimalValue(t[..i]) <= DecimalValue(t[..j])
    decreases j - i
  {
    assert t[..j][..i] == t[..i];
    if i < j {
      assert t[..j][..j - 1] == t[..j - 1];
      DecimalValueMonotone(t, i, j - 1);
    }
  }

  /**
   * The digit loop of Rust's unsigned parsing over a non-empty `digits`: the
   * first non-digit is `InvalidDigit`, the first digit that takes the value
   * past `usize::MAX` is `PosOverflow`.
   */
  method ReadDigits(digits: string) returns (r: Result<nat, IntErrorKind>)
    requires |digits| > 0
    ensures r != Err(Empty)
    ensures r.Ok? <==> AllDigits(digits) && DecimalValue(digits) <= UsizeMax
    ensures r.Ok? ==> AllDigits(digits) && r.value == DecimalValue(digits)
    ensures r == Err(PosOverflow) <==> DecimalValue(digits[..DigitRun(digits)]) > UsizeMax
  {
    var acc := 0;
    var i := 0;
    while i < |digits|
      invariant 0 <= i <= |digits|
      invariant AllDigits(digits[..i])
      invariant acc == DecimalValue(digits[..i]) <= UsizeMax
    {
      if !IsDigit(digits[i]) {
        assert DigitRun(digits) == i;
        return Err(InvalidDigit);
      }
      assert digits[..i + 1][..i] == digits[..i];
      var next := acc * 10 + (digits[i] as int - '0' as int);
      if next > UsizeMax {
        assert next == DecimalValue(digits[..i + 1]);
        DecimalValueMonotone(digits, i + 1, DigitRun(digits));
        assert AllDigits(digits) ==> digits[..DigitRun(digits)] == digits;
        return Err(PosOverflow);
      }
      acc := next;
      i := i + 1;
    }
    assert digits[..i] == digits;
    return Ok(acc);
  }

  /**
   * `src.parse::<usize>()`: empty input is `Empty`; otherwise the digits after
   * an optional `+` are read (a lone `+` is `InvalidDigit`).
   */
  method ParseUsize(src: string) returns (r: Result<nat, IntErrorKind>)
    ensures r == Err(Empty) <==> src == ""
    ensures r.Ok? <==>
      && |Unsigned(src)| > 0 && AllDigits(Unsigned(src))
      && DecimalValue(Unsigned(src)) <= UsizeMax
    ensures r.Ok? ==> AllDigits(Unsigned(src)) && r.value == DecimalValue(Unsigned(src))
    ensures r == Err(PosOverflow) <==> DecimalValue(Unsigned(src)[..DigitRun(Unsigned(src))]) > UsizeMax
  {
    if |src| == 0 {
      return Err(Empty);
    }
    var digits := Unsigned(src);
    if |digits| == 0 {
      return Err(InvalidDigit);
    }
    r := ReadDigits(digits);
  }

  /** Why the listener refused to start. */
  datatype PortError = NotInRange(port: nat) | Unparsable(input: string, kind: IntErrorKind)

  /** Either the listener starts on a port, or the process exits with a code after printing the error. */
  datatype PortOutcome = Listening(port: nat) | Exit(code: int, error: PortError)

  /** An argument the listener accepts: digits after an optional `+`, at most 65535. */
  predicate AcceptedPort(src: string)
  {
    var t := Unsigned(src);
    |t| > 0 && AllDigits(t) && DecimalValue(t) <= MaxPort
  }

  /** Accepts the port exactly when it parses as a `usize` no larger than 65535; every other case exits with code 1. */
  method ValidatePort(portOption: string) returns (o: PortOutcome)
    ensures o.Listening? <==> AcceptedPort(portOption)
    ensures o.Listening? ==> AllDigits(Unsigned(portOption)) && o.port == DecimalValue(Unsigned(portOption))
    ensures o.Exit? ==> o.code == 1
    ensures o.Exit? && o.error.NotInRange? ==>
      AllDigits(Unsigned(portOption)) && MaxPort < o.error.port == DecimalValue(Unsigned(portOption)) <= UsizeMax
    // a number that parses but is too large is reported as out of range, and only such a number
    ensures o.Exit? ==>
      (o.error.NotInRange? <==>
        |Unsigned(portOption)| > 0 && AllDigits(Unsigned(portOption)) &&
        MaxPort < DecimalValue(Unsigned(portOption)) <= UsizeMax)
    // a parse failure is reported with the argument and the parse error's kind
    ensures o.Exit? && o.error.Unparsable? ==>
      && o.error.input == portOption
      && (o.error.kind == Empty <==> portOption == "")
      && (o.error.kind == PosOverflow <==>
            DecimalValue(Unsigned(portOption)[..DigitRun(Unsigned(portOption))]) > UsizeMax)
  {
    var parsed := ParseUsize(portOption);
    match parsed
    case Ok(port) =>
      if port <= MaxPort {
        return Listening(port);
      }
      return Exit(1, NotInRange(port));
    case Err(kind) =>
      return Exit(1, Unparsable(portOption, kind));
  }

  /** The decimal numeral of `n`, without leading zeros. */
  function Decimal(n: nat): (t: string)
    ensures |t| > 0 && AllDigits(t)
  {
    var d := ['0' + (n % 10) as char];
    if n < 10 then d else Decimal(n / 10) + d
  }

  /** A numeral reads back as its number. */
  lemma {:induction false} DecimalRoundTrip(n: nat)
    ensures DecimalValue(Decimal(n)) == n
  {
    var t := Decimal(n);
    if n >= 10 {
      assert t[..|t| - 1] == Decimal(n / 10);
      DecimalRoundTrip(n / 10);
    }
  }

  /** Every port from 0 to 65535, written in decimal with or without a `+`, is accepted as itself. */
  lemma {:induction false} PortRoundTrip(n: nat)
    requires n <= MaxPort
    ensures AcceptedPort(Decimal(n)) && DecimalValue(Unsigned(Decimal(n))) == n
    ensures AcceptedPort("+" + Decimal(n)) && DecimalValue(Unsigned("+" + Decimal(n))) == n
  {
    DecimalRoundTrip(n);
    assert ("+" + Decimal(n))[1..] == Decimal(n);
  }
}
