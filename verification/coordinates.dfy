/**
 * Reading one latitude or longitude, and recovering a degree sign that was recognised
 * as the digit 0 (`parse_coordinate` in src/screen2xyz_m2/parsing.py).
 * The two patterns are deterministic, so each is a left-to-right scan.  Values are
 * reals; the six-decimal text is a function of the value.
 */
module Coordinates {
  import opened Common
  import opened PointIds

  const DEGREE: char := '\U{00B0}'
  const PRIME: char := '\U{2032}'
  const DOUBLE_PRIME: char := '\U{2033}'

  /** Digits, and digits after a decimal point if there is one. */
  datatype Num = Num(whole: string, fraction: string) {
    predicate Ok() { whole != "" && AllDigits(whole) && AllDigits(fraction) }

    function Text(): string { if fraction == "" then whole else whole + (['.'] + fraction) }

    function Amount(): real
      requires Ok()
    {
      Value(whole) as real + Value(fraction) as real / Power(|fraction|)
    }
  }

  function Power(n: nat): (r: real)
    ensures r >= 1.0
  {
    if n == 0 then 1.0 else 10.0 * Power(n - 1)
  }

  datatype Outcome = NoNumber | Malformed | Suspect | Ok(value: real, recovered: bool)

  predicate IsSpace(c: char) { c == ' ' || '\t' <= c <= '\r' }

  predicate IsHemisphere(c: char) { c in {'N', 'S', 'E', 'W', 'n', 's', 'e', 'w'} }

  predicate Polar(c: char) { c in {'N', 'S', 'n', 's'} }

  predicate Negative(c: char) { c in {'S', 'W', 's', 'w'} }

  predicate IsMinuteQuote(c: char) { c == '\'' || c == PRIME }

  // ---- scanning ---------------------------------------------------------------------------------

  predicate AllSpace(s: string) { forall i :: 0 <= i < |s| ==> IsSpace(s[i]) }

  function SkipSpace(s: string): (r: string)
    ensures |r| <= |s|
  {
    if s != "" && IsSpace(s[0]) then SkipSpace(s[1..]) else s
  }

  function DropSpaceEnd(s: string): string {
    if s != "" && IsSpace(s[|s| - 1]) then DropSpaceEnd(s[..|s| - 1]) else s
  }

  function Strip(s: string): string { DropSpaceEnd(SkipSpace(s)) }

  /** The longest prefix of digits. */
  function DigitRun(s: string): (r: string)
    ensures r <= s && AllDigits(r)
  {
    if s != "" && IsDigit(s[0]) then [s[0]] + DigitRun(s[1..]) else ""
  }

  function ScanNumber(s: string): (r: Option<(Num, string)>)
    ensures r.Some? ==> r.value.0.Ok()
  {
    var whole := DigitRun(s);
    var rest := s[|whole|..];
    if whole == "" then None
    else if rest != "" && rest[0] == '.' && DigitRun(rest[1..]) != "" then
      var fraction := DigitRun(rest[1..]);
      Some((Num(whole, fraction), rest[1..][|fraction|..]))
    else Some((Num(whole, ""), rest))
  }

  /** Nothing but an optional hemisphere letter and white space. */
  function ScanEnd(s: string): Option<Option<char>> {
    if s != "" && IsHemisphere(s[0]) && AllSpace(s[1..]) then Some(Some(s[0]))
    else if AllSpace(s) then Some(None)
    else None
  }

  function ScanSecondQuote(s: string): Option<string> {
    if s != "" && (s[0] == DOUBLE_PRIME || s[0] == '"') then Some(s[1..])
    else if |s| >= 2 && s[0] == '\'' && s[1] == '\'' then Some(s[2..])
    else None
  }

  /** Seconds with their mark, and the end of the text. */
  function ScanSeconds(s: string): (r: Option<(Num, Option<char>)>)
    ensures r.Some? ==> r.value.0.Ok()
  {
    match ScanNumber(s)
    case None => None
    case Some((seconds, rest)) =>
      match ScanSecondQuote(SkipSpace(rest))
      case None => None
      case Some(tail) =>
        match ScanEnd(SkipSpace(tail))
        case None => None
        case Some(hemisphere) => Some((seconds, hemisphere))
  }

  function ScanSign(s: string): (bool, string) {
    if s != "" && (s[0] == '+' || s[0] == '-') then (s[0] == '-', s[1..]) else (false, s)
  }

  /** The mark after the minutes, and what follows the white space behind it. */
  function ScanMinuteQuote(s: string): Option<string> {
    var t := SkipSpace(s);
    if t != "" && IsMinuteQuote(t[0]) then Some(SkipSpace(t[1..])) else None
  }

  // ---- the two patterns ----------------------------------------------------------------------------

  datatype Fields = Fields(minus: bool, degrees: Num, minutes: Option<Num>, seconds: Option<Num>,
                           hemisphere: Option<char>)

  function EndAfter(minus: bool, degrees: Num, minutes: Option<Num>, s: string): Option<Fields> {
    match ScanEnd(s)
    case None => None
    case Some(hemisphere) => Some(Fields(minus, degrees, minutes, None, hemisphere))
  }

  /** What may follow the degree sign: minutes, and after them seconds. */
  function MatchAfterDegree(minus: bool, degrees: Num, s: string): Option<Fields> {
    match ScanNumber(s)
    case None => EndAfter(minus, degrees, None, s)
    case Some((minutes, rest)) =>
      match ScanMinuteQuote(rest)
      case None => None
      case Some(t) =>
        if ScanNumber(t).None? then EndAfter(minus, degrees, Some(minutes), t)
        else
          match ScanSeconds(t)
          case None => None
          case Some((seconds, hemisphere)) => Some(Fields(minus, degrees, Some(minutes), Some(seconds), hemisphere))
  }

  function MatchAfterSign(minus: bool, s: string): Option<Fields> {
    match ScanNumber(s)
    case None => None
    case Some((degrees, rest)) =>
      var t := SkipSpace(rest);
      if t != "" && t[0] == DEGREE then MatchAfterDegree(minus, degrees, SkipSpace(t[1..]))
      else EndAfter(minus, degrees, None, t)
  }

  function MatchCoordinate(s: string): Option<Fields> {
    var (minus, rest) := ScanSign(SkipSpace(s));
    MatchAfterSign(minus, SkipSpace(rest))
  }

  /** Four digits or more that stand for degrees, a misread sign and minutes. */
  datatype Garbled = Garbled(minus: bool, run: string, seconds: Num, hemisphere: Option<char>)

  function GarbledAfterSign(minus: bool, s: string): Option<Garbled> {
    var run := DigitRun(s);
    if |run| < 4 then None
    else
      match ScanMinuteQuote(s[|run|..])
      case None => None
      case Some(t) =>
        match ScanSeconds(t)
        case None => None
        case Some((seconds, hemisphere)) => Some(Garbled(minus, run, seconds, hemisphere))
  }

  function MatchGarbled(s: string): Option<Garbled> {
    var (minus, rest) := ScanSign(SkipSpace(s));
    GarbledAfterSign(minus, SkipSpace(rest))
  }

  // ---- values ----------------------------------------------------------------------------------------

  function AxisMax(hemisphere: Option<char>): real {
    if hemisphere.Some? && Polar(hemisphere.value) then 90.0 else 180.0
  }

  function Signed(total: real, minus: bool, hemisphere: Option<char>): real {
    if minus || (hemisphere.Some? && Negative(hemisphere.value)) then -total else total
  }

  function Compose(degrees: real, minutes: real, seconds: real): real {
    degrees + minutes / 60.0 + seconds / 3600.0
  }

  /** One reading of degrees, minutes and seconds, checked against the axis. */
  predicate Possible(degrees: real, minutes: real, seconds: real, axisMax: real) {
    minutes < 60.0 && seconds < 60.0 && Compose(degrees, minutes, seconds) <= axisMax
  }

  function AmountOr0(n: Option<Num>): real
    requires n.Some? ==> n.value.Ok()
  {
    if n.Some? then n.value.Amount() else 0.0
  }

  predicate FieldsOk(f: Fields) {
    f.degrees.Ok() && (f.minutes.Some? ==> f.minutes.value.Ok()) && (f.seconds.Some? ==> f.seconds.value.Ok())
  }

  function Judge(f: Fields): Outcome
    requires FieldsOk(f)
  {
    var d, m, s := f.degrees.Amount(), AmountOr0(f.minutes), AmountOr0(f.seconds);
    if Possible(d, m, s, AxisMax(f.hemisphere)) then Ok(Signed(Compose(d, m, s), f.minus, f.hemisphere), false)
    else Suspect
  }

  // ---- recovery ----------------------------------------------------------------------------------------

  /** The run read with the 0 at `i` as the degree sign, when that is physically possible. */
  predicate ValidSplit(run: string, i: nat, seconds: real, axisMax: real)
    requires AllDigits(run)
  {
    && i < |run| && run[i] == '0' && i >= 1 && 1 <= |run| - i - 1 <= 2
    && Possible(Value(run[..i]) as real, Value(run[i + 1..]) as real, seconds, axisMax)
  }

  function SplitTotal(run: string, i: nat, seconds: real): real
    requires i < |run| && AllDigits(run)
  {
    Compose(Value(run[..i]) as real, Value(run[i + 1..]) as real, seconds)
  }

  /** All totals the run could stand for, in the order of the positions below `n`. */
  function SplitsBelow(run: string, n: nat, seconds: real, axisMax: real): seq<real>
    requires n <= |run| && AllDigits(run)
  {
    if n == 0 then []
    else
      SplitsBelow(run, n - 1, seconds, axisMax)
      + (if ValidSplit(run, n - 1, seconds, axisMax) then [SplitTotal(run, n - 1, seconds)] else [])
  }

  function Recovered(g: Garbled): Option<real>
    requires AllDigits(g.run) && g.seconds.Ok()
  {
    if g.hemisphere.None? then None
    else
      var totals := SplitsBelow(g.run, |g.run|, g.seconds.Amount(), AxisMax(g.hemisphere));
      if |totals| == 1 then Some(Signed(totals[0], g.minus, g.hemisphere)) else None
  }

  /** The program's loop; degrees beyond the axis are skipped before the total is looked at. */
  method RecoverCorruptedDegrees(g: Garbled) returns (r: Option<real>)
    requires AllDigits(g.run) && g.seconds.Ok()
    ensures r == Recovered(g)
  {
    hide Value, AllDigits, Compose;
    if g.hemisphere.None? {
      return None;
    }
    var seconds, axisMax := g.seconds.Amount(), AxisMax(g.hemisphere);
    if seconds >= 60.0 {
      NoSplits(g.run, |g.run|, seconds, axisMax);
      return None;
    }
    var totals: seq<real> := [];
    for i := 0 to |g.run|
      invariant totals == SplitsBelow(g.run, i, seconds, axisMax)
    {
      PartsAreDigits(g.run, i);
      if g.run[i] != '0' {
        continue;
      }
      var before, after := g.run[..i], g.run[i + 1..];
      if before == "" || |after| < 1 || |after| > 2 {
        continue;
      }
      var degrees, minutes := Value(before) as real, Value(after) as real;
      NotBeyond(degrees, minutes, seconds);
      if degrees > axisMax || minutes >= 60.0 {
        continue;
      }
      var total := Compose(degrees, minutes, seconds);
      if total > axisMax {
        continue;
      }
      totals := totals + [total];
    }
    if |totals| != 1 {
      return None;
    }
    return Some(Signed(totals[0], g.minus, g.hemisphere));
  }

  lemma PartsAreDigits(run: string, i: nat)
    requires i < |run| && AllDigits(run)
    ensures AllDigits(run[..i]) && AllDigits(run[i + 1..])
  {
  }

  lemma NotBeyond(degrees: real, minutes: real, seconds: real)
    requires seconds < 60.0
    ensures minutes >= 0.0 && seconds >= 0.0 ==> Compose(degrees, minutes, seconds) >= degrees
  {
  }

  lemma {:induction false} NoSplits(run: string, n: nat, seconds: real, axisMax: real)
    requires n <= |run| && AllDigits(run) && seconds >= 60.0
    ensures SplitsBelow(run, n, seconds, axisMax) == []
  {
    if n > 0 {
      NoSplits(run, n - 1, seconds, axisMax);
    }
  }

  lemma MatchedFieldsOk(s: string)
    ensures MatchCoordinate(s).Some? ==> FieldsOk(MatchCoordinate(s).value)
    ensures MatchGarbled(s).Some? ==> AllDigits(MatchGarbled(s).value.run) && MatchGarbled(s).value.seconds.Ok()
  {
    hide SkipSpace, DigitRun, ScanEnd, ScanSecondQuote, ScanNumber, ScanSeconds, AllDigits;
  }

  function ParseCoordinate(text: string): Outcome {
    var s := Strip(text);
    if s == "" then NoNumber
    else
      MatchedFieldsOk(s);
      match MatchCoordinate(s)
      case Some(f) => Judge(f)
      case None =>
        match MatchGarbled(s)
        case None => Malformed
        case Some(g) => if Recovered(g).Some? then Ok(Recovered(g).value, true) else Suspect
  }
}
