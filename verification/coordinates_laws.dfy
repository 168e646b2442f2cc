/** A reading is parsed to its value; with its degree sign misread, to its value or to no value. */
module CoordinatesLaws {
  import opened Common
  import opened Coordinates
  import opened PointIds

  // ---- scanning over known text --------------------------------------------------------------------

  predicate NoSpaceFirst(t: string) { t != "" ==> !IsSpace(t[0]) }

  /** What may follow a number without becoming part of it. */
  predicate Ends(t: string) { t != "" ==> !IsDigit(t[0]) && t[0] != '.' }

  lemma {:induction false} SkipOver(gap: string, t: string)
    requires AllSpace(gap) && NoSpaceFirst(t)
    ensures SkipSpace(gap + t) == t
  {
    if gap == "" {
      assert gap + t == t;
    } else {
      assert (gap + t)[0] == gap[0] && (gap + t)[1..] == gap[1..] + t;
      SkipOver(gap[1..], t);
    }
  }

  lemma {:induction false} RunOver(digits: string, t: string)
    requires AllDigits(digits) && (t != "" ==> !IsDigit(t[0]))
    ensures DigitRun(digits + t) == digits && (digits + t)[|digits|..] == t
  {
    if digits == "" {
      assert digits + t == t;
    } else {
      assert (digits + t)[0] == digits[0] && (digits + t)[1..] == digits[1..] + t;
      RunOver(digits[1..], t);
    }
  }

  lemma GapEnds(gap: string, t: string)
    requires AllSpace(gap) && Ends(t)
    ensures Ends(gap + t)
  {
  }

  lemma NumberOver(n: Num, t: string)
    requires n.Ok() && Ends(t)
    ensures ScanNumber(n.Text() + t) == Some((n, t))
  {
    hide DigitRun, AllDigits;
    if n.fraction == "" {
      WholeOver(n.whole, t);
    } else {
      PointedOver(n.whole, n.fraction, t);
    }
  }

  lemma WholeOver(whole: string, t: string)
    requires whole != "" && AllDigits(whole) && Ends(t)
    ensures ScanNumber(whole + t) == Some((Num(whole, ""), t))
  {
    hide DigitRun, AllDigits;
    RunOver(whole, t);
  }

  lemma PointedOver(whole: string, fraction: string, t: string)
    requires whole != "" && AllDigits(whole) && fraction != "" && AllDigits(fraction) && Ends(t)
    ensures ScanNumber((whole + (['.'] + fraction)) + t) == Some((Num(whole, fraction), t))
  {
    hide DigitRun, AllDigits;
    var u := fraction + t;
    var point := ['.'] + u;
    assert (whole + (['.'] + fraction)) + t == whole + point;
    assert point[0] == '.' && point[1..] == u;
    RunOver(whole, point);
    RunOver(fraction, t);
  }

  lemma NumberStarts(n: Num, t: string)
    requires n.Ok()
    ensures n.Text() + t != "" && IsDigit((n.Text() + t)[0]) && NoSpaceFirst(n.Text() + t)
  {
  }

  // ---- how a reading is written ------------------------------------------------------------------------

  /** White space between the parts, and the marks in use. */
  datatype Layout = Layout(afterSign: string, beforeDegree: string, afterDegree: string,
                           beforeMinuteQuote: string, afterMinuteQuote: string, minuteQuote: char,
                           beforeSecondQuote: string, afterSecondQuote: string, secondQuote: string)
  {
    predicate Ok() {
      && AllSpace(afterSign) && AllSpace(beforeDegree) && AllSpace(afterDegree)
      && AllSpace(beforeMinuteQuote) && AllSpace(afterMinuteQuote) && IsMinuteQuote(minuteQuote)
      && AllSpace(beforeSecondQuote) && AllSpace(afterSecondQuote)
      && secondQuote in {[DOUBLE_PRIME], "\"", "''"}
    }
  }

  datatype Reading = Reading(sign: string, degrees: Num, minutes: Num, seconds: Num, hemisphere: Option<char>) {
    predicate Ok() {
      && sign in {"", "+", "-"} && degrees.Ok() && minutes.Ok() && seconds.Ok()
      && (hemisphere.Some? ==> IsHemisphere(hemisphere.value))
    }

    predicate Minus() { sign == "-" }
  }

  /** Nothing to strip: white space stands only between two parts. */
  predicate Fits(r: Reading, l: Layout) {
    r.Ok() && l.Ok() && (r.sign == "" ==> l.afterSign == "") && (r.hemisphere.None? ==> l.afterSecondQuote == "")
  }

  function HemisphereText(h: Option<char>): string { if h.Some? then [h.value] else "" }

  function SecondsText(r: Reading, l: Layout): string {
    r.seconds.Text() + (l.beforeSecondQuote + (l.secondQuote + (l.afterSecondQuote + HemisphereText(r.hemisphere))))
  }

  function MinutesText(minutes: Num, l: Layout, tail: string): string {
    minutes.Text() + (l.beforeMinuteQuote + ([l.minuteQuote] + (l.afterMinuteQuote + tail)))
  }

  /** From the degrees on, with `sign` where the degree sign belongs. */
  function Body(degrees: Num, minutes: Num, l: Layout, sign: char, tail: string): string {
    degrees.Text() + (l.beforeDegree + ([sign] + (l.afterDegree + MinutesText(minutes, l, tail))))
  }

  function Written(r: Reading, l: Layout, sign: char): string {
    r.sign + (l.afterSign + Body(r.degrees, r.minutes, l, sign, SecondsText(r, l)))
  }

  lemma SecondQuoteOver(quote: string, t: string)
    requires quote in {[DOUBLE_PRIME], "\"", "''"}
    ensures ScanSecondQuote(quote + t) == Some(t) && Ends(quote + t) && NoSpaceFirst(quote + t)
  {
  }

  lemma HemisphereOver(h: Option<char>)
    requires h.Some? ==> IsHemisphere(h.value)
    ensures ScanEnd(HemisphereText(h)) == Some(h) && NoSpaceFirst(HemisphereText(h))
    ensures ScanNumber(HemisphereText(h)).None?
  {
  }

  lemma SecondsOver(r: Reading, l: Layout)
    requires r.Ok() && l.Ok()
    ensures ScanSeconds(SecondsText(r, l)) == Some((r.seconds, r.hemisphere))
    ensures NoSpaceFirst(SecondsText(r, l)) && ScanNumber(SecondsText(r, l)).Some?
  {
    var t4 := HemisphereText(r.hemisphere);
    var t3 := l.afterSecondQuote + t4;
    var t2 := l.secondQuote + t3;
    var t1 := l.beforeSecondQuote + t2;
    HemisphereOver(r.hemisphere);
    hide HemisphereText, ScanEnd;
    SkipOver(l.afterSecondQuote, t4);
    SecondQuoteOver(l.secondQuote, t3);
    hide ScanSecondQuote;
    SkipOver(l.beforeSecondQuote, t2);
    GapEnds(l.beforeSecondQuote, t2);
    NumberOver(r.seconds, t1);
    NumberStarts(r.seconds, t1);
  }

  /** The text from the end of the minutes on. */
  function MarkText(l: Layout, tail: string): string {
    l.beforeMinuteQuote + ([l.minuteQuote] + (l.afterMinuteQuote + tail))
  }

  lemma MinuteQuoteOver(l: Layout, tail: string)
    requires l.Ok() && NoSpaceFirst(tail)
    ensures ScanMinuteQuote(MarkText(l, tail)) == Some(tail) && Ends(MarkText(l, tail))
    ensures SkipSpace(MarkText(l, tail)) != "" && IsMinuteQuote(SkipSpace(MarkText(l, tail))[0])
  {
    var t2 := l.afterMinuteQuote + tail;
    var t1 := [l.minuteQuote] + t2;
    assert t1[0] == l.minuteQuote && t1[1..] == t2;
    SkipOver(l.afterMinuteQuote, tail);
    SkipOver(l.beforeMinuteQuote, t1);
    GapEnds(l.beforeMinuteQuote, t1);
  }

  // ---- the clean form ---------------------------------------------------------------------------------------

  lemma CleanAfterDegree(minus: bool, r: Reading, l: Layout)
    requires r.Ok() && l.Ok()
    ensures MatchAfterDegree(minus, r.degrees, MinutesText(r.minutes, l, SecondsText(r, l)))
         == Some(Fields(minus, r.degrees, Some(r.minutes), Some(r.seconds), r.hemisphere))
  {
    var tail := SecondsText(r, l);
    SecondsOver(r, l);
    MinuteQuoteOver(l, tail);
    NumberOver(r.minutes, MarkText(l, tail));
    hide SecondsText, ScanNumber, ScanMinuteQuote, ScanSeconds, SkipSpace;
  }

  lemma DegreeOver(degrees: Num, l: Layout, tail: string)
    requires degrees.Ok() && l.Ok() && NoSpaceFirst(tail)
    ensures var rest := l.beforeDegree + ([DEGREE] + (l.afterDegree + tail));
      && ScanNumber(degrees.Text() + rest) == Some((degrees, rest))
      && SkipSpace(rest) != "" && SkipSpace(rest)[0] == DEGREE && SkipSpace(SkipSpace(rest)[1..]) == tail
  {
    var t2 := l.afterDegree + tail;
    var t1 := [DEGREE] + t2;
    assert t1[0] == DEGREE && t1[1..] == t2;
    SkipOver(l.afterDegree, tail);
    SkipOver(l.beforeDegree, t1);
    GapEnds(l.beforeDegree, t1);
    NumberOver(degrees, l.beforeDegree + t1);
  }

  lemma CleanAfterSign(minus: bool, r: Reading, l: Layout)
    requires r.Ok() && l.Ok()
    ensures MatchAfterSign(minus, Body(r.degrees, r.minutes, l, DEGREE, SecondsText(r, l)))
         == Some(Fields(minus, r.degrees, Some(r.minutes), Some(r.seconds), r.hemisphere))
  {
    var tail := MinutesText(r.minutes, l, SecondsText(r, l));
    NumberStarts(r.minutes, MarkText(l, SecondsText(r, l)));
    CleanAfterDegree(minus, r, l);
    DegreeOver(r.degrees, l, tail);
    hide MinutesText, SecondsText, ScanNumber, SkipSpace, MatchAfterDegree;
  }

  /** An optional sign and the white space behind it, in front of a digit. */
  lemma SignOver(sign: string, gap: string, body: string)
    requires sign in {"", "+", "-"} && AllSpace(gap) && (sign == "" ==> gap == "")
    requires body != "" && IsDigit(body[0])
    ensures MatchCoordinate(sign + (gap + body)) == MatchAfterSign(sign == "-", body)
    ensures MatchGarbled(sign + (gap + body)) == GarbledAfterSign(sign == "-", body)
    ensures NoSpaceFirst(sign + (gap + body)) && sign + (gap + body) != ""
  {
    var s := sign + (gap + body);
    SkipOver(gap, body);
    hide MatchAfterSign, GarbledAfterSign;
    if sign == "" {
      assert s == body;
      SkipOver("", body);
      assert "" + body == body;
    } else {
      assert s[0] == sign[0] && s[1..] == gap + body;
      assert "" + s == s;
      SkipOver("", s);
    }
  }

  // ---- stripping ---------------------------------------------------------------------------------------------

  predicate Tight(t: string) { t != "" && !IsSpace(t[|t| - 1]) }

  lemma TightAfter(a: string, b: string)
    requires Tight(b)
    ensures Tight(a + b)
  {
  }

  lemma StripTight(s: string)
    requires Tight(s) && NoSpaceFirst(s)
    ensures Strip(s) == s
  {
  }

  /** An optional sign in front of a text that starts with a digit and ends without white space. */
  lemma SignedIsStripped(sign: string, gap: string, body: string)
    requires sign in {"", "+", "-"} && AllSpace(gap) && (sign == "" ==> gap == "")
    requires body != "" && IsDigit(body[0]) && Tight(body)
    ensures var s := sign + (gap + body);
      && Strip(s) == s && s != ""
      && MatchCoordinate(s) == MatchAfterSign(sign == "-", body)
      && MatchGarbled(s) == GarbledAfterSign(sign == "-", body)
  {
    hide MatchAfterSign, GarbledAfterSign, Tight, MatchCoordinate, MatchGarbled, Strip;
    SignOver(sign, gap, body);
    TightAfter(gap, body);
    TightAfter(sign, gap + body);
    StripTight(sign + (gap + body));
  }

  lemma SecondsTight(r: Reading, l: Layout)
    requires Fits(r, l)
    ensures Tight(SecondsText(r, l))
  {
  }

  lemma BodyTight(degrees: Num, minutes: Num, l: Layout, sign: char, tail: string)
    requires Tight(tail)
    ensures Tight(Body(degrees, minutes, l, sign, tail))
  {
  }

  lemma WrittenIsStripped(r: Reading, l: Layout, sign: char)
    requires Fits(r, l)
    ensures Strip(Written(r, l, sign)) == Written(r, l, sign) && Written(r, l, sign) != ""
    ensures MatchCoordinate(Written(r, l, sign))
         == MatchAfterSign(r.Minus(), Body(r.degrees, r.minutes, l, sign, SecondsText(r, l)))
    ensures MatchGarbled(Written(r, l, sign))
         == GarbledAfterSign(r.Minus(), Body(r.degrees, r.minutes, l, sign, SecondsText(r, l)))
  {
    var tail := SecondsText(r, l);
    var body := Body(r.degrees, r.minutes, l, sign, tail);
    SecondsTight(r, l);
    BodyTight(r.degrees, r.minutes, l, sign, tail);
    BodyStarts(r.degrees, r.minutes, l, sign, tail);
    hide SecondsText, Body, MatchAfterSign, GarbledAfterSign, Tight, MatchCoordinate, MatchGarbled, Strip;
    SignedIsStripped(r.sign, l.afterSign, body);
  }

  lemma BodyStarts(degrees: Num, minutes: Num, l: Layout, sign: char, tail: string)
    requires degrees.Ok()
    ensures Body(degrees, minutes, l, sign, tail) != "" && IsDigit(Body(degrees, minutes, l, sign, tail)[0])
  {
  }

  // ---- values ---------------------------------------------------------------------------------------------

  /** Degrees, minutes and seconds as a number: each is a sixtieth of the one before. */
  function Places(degrees: real, minutes: real, seconds: real): real {
    (3600.0 * degrees + 60.0 * minutes + seconds) / 3600.0
  }

  /** Negative with a minus sign, in the south and in the west. */
  function Towards(x: real, minus: bool, h: Option<char>): real {
    if minus || h == Some('S') || h == Some('s') || h == Some('W') || h == Some('w') then -x else x
  }

  function Limit(h: Option<char>): real {
    if h == Some('N') || h == Some('n') || h == Some('S') || h == Some('s') then 90.0 else 180.0
  }

  predicate OnGlobe(degrees: real, minutes: real, seconds: real, h: Option<char>) {
    minutes < 60.0 && seconds < 60.0 && 3600.0 * degrees + 60.0 * minutes + seconds <= 3600.0 * Limit(h)
  }

  /** The program's arithmetic is that. */
  lemma Plainly()
    ensures forall d: real, m: real, s: real :: Compose(d, m, s) == Places(d, m, s)
    ensures forall x: real, minus: bool, h: Option<char> :: Signed(x, minus, h) == Towards(x, minus, h)
    ensures forall h: Option<char> :: AxisMax(h) == Limit(h)
    ensures forall d: real, m: real, s: real, h: Option<char> :: OnGlobe(d, m, s, h) == Possible(d, m, s, Limit(h))
  {
  }

  function TrueValue(r: Reading): real
    requires r.Ok()
  {
    Towards(Places(r.degrees.Amount(), r.minutes.Amount(), r.seconds.Amount()), r.Minus(), r.hemisphere)
  }

  /** A place on the globe: minutes and seconds below 60, and not past the pole or the date line. */
  predicate OnTheGlobe(r: Reading)
    requires r.Ok()
  {
    OnGlobe(r.degrees.Amount(), r.minutes.Amount(), r.seconds.Amount(), r.hemisphere)
  }

  /** A number with decimals is the one made of all its digits, divided by a 1 with as many zeros. */
  lemma AmountMeans(n: Num)
    requires n.Ok()
    ensures AllDigits(n.whole + n.fraction) && AllDigits("1" + Zeros(|n.fraction|))
    ensures n.Amount() * Value("1" + Zeros(|n.fraction|)) as real == Value(n.whole + n.fraction) as real
  {
    hide Value, Zeros, AllDigits;
    var k := |n.fraction|;
    DigitsTogether(n.whole, n.fraction);
    OneIsOne();
    ZerosBehind("1", k);
    Fractional(Value(n.whole) as real, Value(n.fraction) as real, Power(k));
    hide Power;
  }

  lemma OneIsOne()
    ensures AllDigits("1") && Value("1") == 1
  {
    OneDigit('1');
    assert ['1'] == "1";
  }

  lemma Fractional(a: real, b: real, p: real)
    requires p >= 1.0
    ensures (a + b / p) * p == a * p + b
  {
    assert b / p * p == b;
  }

  lemma {:induction false} DigitsTogether(a: string, b: string)
    requires AllDigits(a) && AllDigits(b)
    ensures AllDigits(a + b)
    ensures Value(a + b) as real == Value(a) as real * Power(|b|) + Value(b) as real
  {
    hide Value, AllDigits, Power;
    if b == "" {
      NoneBehind(a);
    } else {
      var n := |b| - 1;
      DigitsOf(b, n);
      DigitsTogether(a, b[..n]);
      TakeLast(a, b, n);
      ValueSnoc(a + b[..n], b[n]);
      ValueSnoc(b[..n], b[n]);
      NextDigit(Value(a) as real, Power(n), Value(b[..n]) as real, DigitValue(b[n]) as real);
    }
  }

  lemma NoneBehind(a: string)
    requires AllDigits(a)
    ensures a + "" == a && AllDigits("") && Value("") == 0 && Power(0) == 1.0
  {
  }

  lemma TakeLast(a: string, b: string, n: nat)
    requires n + 1 == |b|
    ensures b == b[..n] + [b[n]] && a + b == a + b[..n] + [b[n]] && Power(|b|) == 10.0 * Power(n)
  {
  }

  lemma DigitsOf(b: string, n: nat)
    requires AllDigits(b) && n < |b|
    ensures IsDigit(b[n]) && AllDigits(b[..n])
  {
  }

  lemma NextDigit(x: real, p: real, v: real, d: real)
    ensures (x * p + v) * 10.0 + d == x * (10.0 * p) + (v * 10.0 + d)
  {
  }

  /** The clean form gives the true value, or is flagged when it is no place on the globe. */
  lemma CleanFormIsRead(r: Reading, l: Layout)
    requires Fits(r, l)
    ensures ParseCoordinate(Written(r, l, DEGREE)) == if OnTheGlobe(r) then Ok(TrueValue(r), false) else Suspect
  {
    WrittenIsStripped(r, l, DEGREE);
    CleanAfterSign(r.Minus(), r, l);
    Plainly();
    hide Written, Strip, MatchCoordinate, MatchGarbled, MatchAfterSign, Body, SecondsText, Possible, OnGlobe, Compose,
         Places, Signed, Towards, AxisMax, Limit, Num.Amount;
    MatchedFieldsOk(Written(r, l, DEGREE));
  }

  // ---- the degree sign misread as 0 --------------------------------------------------------------------------

  /** A first pattern that has read a number cannot go on here. */
  lemma CoordinateStuck(minus: bool, s: string)
    requires ScanNumber(s).Some? && SkipSpace(ScanNumber(s).value.1) != ""
    requires var c := SkipSpace(ScanNumber(s).value.1)[0]; IsDigit(c) || c == '.' || IsMinuteQuote(c)
    ensures MatchAfterSign(minus, s) == None
  {
    hide ScanNumber, SkipSpace;
  }

  lemma GarbledStuck(minus: bool, s: string)
    requires SkipSpace(s[|DigitRun(s)|..]) != "" && !IsMinuteQuote(SkipSpace(s[|DigitRun(s)|..])[0])
    ensures GarbledAfterSign(minus, s) == None
  {
  }

  /** Nothing separates the degrees, the misread sign and the minutes. */
  predicate Joined(degrees: Num, minutes: Num, l: Layout) {
    l.beforeDegree == "" && l.afterDegree == "" && degrees.fraction == "" && minutes.fraction == ""
  }

  function RunText(degrees: Num, minutes: Num): string { degrees.whole + ("0" + minutes.whole) }

  lemma JoinedBody(degrees: Num, minutes: Num, l: Layout, tail: string)
    requires Joined(degrees, minutes, l)
    ensures Body(degrees, minutes, l, '0', tail) == RunText(degrees, minutes) + MarkText(l, tail)
  {
  }

  lemma JoinedRead(minus: bool, degrees: Num, minutes: Num, l: Layout, tail: string)
    requires degrees.Ok() && minutes.Ok() && l.Ok() && NoSpaceFirst(tail) && Joined(degrees, minutes, l)
    ensures AllDigits(RunText(degrees, minutes))
    ensures MatchAfterSign(minus, Body(degrees, minutes, l, '0', tail)) == None
    ensures GarbledAfterSign(minus, Body(degrees, minutes, l, '0', tail))
         == if |RunText(degrees, minutes)| < 4 || ScanSeconds(tail).None? then None
            else Some(Garbled(minus, RunText(degrees, minutes), ScanSeconds(tail).value.0, ScanSeconds(tail).value.1))
  {
    var run, mark := RunText(degrees, minutes), MarkText(l, tail);
    var s := run + mark;
    JoinedBody(degrees, minutes, l, tail);
    MinuteQuoteOver(l, tail);
    hide MarkText, Body;
    assert AllDigits(run);
    RunOver(run, mark);
    NumberOver(Num(run, ""), mark);
    CoordinateStuck(minus, s);
    hide MatchAfterSign, ScanNumber, SkipSpace, RunText, ScanSeconds, ScanMinuteQuote, DigitRun;
  }

  /** The text in front of which a scan gets stuck. */
  predicate Blocking(t: string) { t != "" && (IsDigit(t[0]) || t[0] == '.') }

  /** White space in front of the misread sign. */
  lemma SpacedBefore(minus: bool, degrees: Num, gap: string, t: string)
    requires degrees.Ok() && AllSpace(gap) && gap != "" && Blocking(t)
    ensures MatchAfterSign(minus, degrees.Text() + (gap + t)) == None
    ensures GarbledAfterSign(minus, degrees.Text() + (gap + t)) == None
  {
    var rest := gap + t;
    assert rest[0] == gap[0];
    SkipOver(gap, t);
    NumberOver(degrees, rest);
    CoordinateStuck(minus, degrees.Text() + rest);
    RunStuck(minus, degrees, rest);
  }

  /** A number with a decimal point, or followed by white space and more digits, is no garbled run. */
  lemma RunStuck(minus: bool, n: Num, rest: string)
    requires n.Ok() && Ends(rest)
    requires n.fraction == "" ==> SkipSpace(rest) != "" && !IsMinuteQuote(SkipSpace(rest)[0])
    ensures GarbledAfterSign(minus, n.Text() + rest) == None
  {
    var s := n.Text() + rest;
    if n.fraction == "" {
      RunOver(n.whole, rest);
    } else {
      var u := ['.'] + (n.fraction + rest);
      assert s == n.whole + u;
      PointedNumber(n.whole, n.fraction, rest);
      assert u[0] == '.';
      StaysPut(u);
    }
    hide SkipSpace, DigitRun, GarbledAfterSign;
    GarbledStuck(minus, s);
  }

  /** A number, then something neither pattern can take. */
  lemma NumberThenStuck(minus: bool, n: Num, rest: string)
    requires n.Ok() && Ends(rest) && SkipSpace(rest) != ""
    requires var c := SkipSpace(rest)[0]; IsDigit(c) || c == '.' || (IsMinuteQuote(c) && n.fraction != "")
    ensures MatchAfterSign(minus, n.Text() + rest) == None
    ensures GarbledAfterSign(minus, n.Text() + rest) == None
  {
    NumberOver(n, rest);
    CoordinateStuck(minus, n.Text() + rest);
    RunStuck(minus, n, rest);
  }

  /** Two decimal points in one number: the scan stops at the second. */
  lemma TwoPoints(minus: bool, whole: string, f: string, g: string, rest: string)
    requires AllDigits(whole) && whole != "" && AllDigits(f) && f != "" && AllDigits(g)
    ensures MatchAfterSign(minus, whole + (['.'] + (f + (['.'] + (g + rest))))) == None
    ensures GarbledAfterSign(minus, whole + (['.'] + (f + (['.'] + (g + rest))))) == None
  {
    var w := ['.'] + (g + rest);
    assert w[0] == '.';
    var s := whole + (['.'] + (f + w));
    PointedNumber(whole, f, w);
    StaysPut(w);
    hide ScanNumber, SkipSpace, DigitRun, MatchAfterSign, GarbledAfterSign;
    CoordinateStuck(minus, s);
    StaysPut(['.'] + (f + w));
    GarbledStuck(minus, s);
  }

  lemma StaysPut(w: string)
    requires NoSpaceFirst(w)
    ensures SkipSpace(w) == w
  {
  }

  lemma PointedNumber(whole: string, f: string, w: string)
    requires AllDigits(whole) && whole != "" && AllDigits(f) && f != "" && (w != "" ==> !IsDigit(w[0]))
    ensures var s := whole + (['.'] + (f + w));
      ScanNumber(s) == Some((Num(whole, f), w)) && s[|DigitRun(s)|..] == ['.'] + (f + w)
  {
    var v := f + w;
    var u := ['.'] + v;
    RunOver(whole, u);
    RunOver(f, w);
    assert u[0] == '.' && u[1..] == v;
  }

  /** The degrees with the misread sign stuck to them. */
  function Lengthened(n: Num): Num {
    if n.fraction == "" then Num(n.whole + "0", "") else Num(n.whole, n.fraction + "0")
  }

  lemma LengthenedText(n: Num, t: string)
    requires n.Ok()
    ensures Lengthened(n).Ok() && n.Text() + ("" + (['0'] + t)) == Lengthened(n).Text() + t
  {
  }

  /** White space behind the misread sign. */
  lemma SpacedAfter(minus: bool, degrees: Num, minutes: Num, l: Layout, tail: string)
    requires degrees.Ok() && minutes.Ok() && l.Ok() && l.beforeDegree == "" && l.afterDegree != ""
    ensures MatchAfterSign(minus, Body(degrees, minutes, l, '0', tail)) == None
    ensures GarbledAfterSign(minus, Body(degrees, minutes, l, '0', tail)) == None
  {
    var m := MinutesText(minutes, l, tail);
    var rest := l.afterDegree + m;
    NumberStarts(minutes, MarkText(l, tail));
    hide MinutesText, MarkText;
    LengthenedText(degrees, rest);
    SkipOver(l.afterDegree, m);
    assert rest[0] == l.afterDegree[0];
    hide MatchAfterSign, GarbledAfterSign, SkipSpace;
    NumberThenStuck(minus, Lengthened(degrees), rest);
  }

  /** No white space, but a decimal point in the degrees or in the minutes. */
  lemma PointedRead(minus: bool, degrees: Num, minutes: Num, l: Layout, tail: string)
    requires degrees.Ok() && minutes.Ok() && l.Ok() && NoSpaceFirst(tail)
    requires l.beforeDegree == "" && l.afterDegree == "" && (degrees.fraction != "" || minutes.fraction != "")
    ensures MatchAfterSign(minus, Body(degrees, minutes, l, '0', tail)) == None
    ensures GarbledAfterSign(minus, Body(degrees, minutes, l, '0', tail)) == None
  {
    var mark := MarkText(l, tail);
    var body := Body(degrees, minutes, l, '0', tail);
    PointedBody(degrees, minutes, l, tail);
    MinuteQuoteOver(l, tail);
    hide MarkText, Body, MatchAfterSign, GarbledAfterSign, SkipSpace;
    if degrees.fraction == "" {
      var n := Num(degrees.whole + ("0" + minutes.whole), minutes.fraction);
      MergePointBehind(degrees.whole, minutes, mark);
      NumberThenStuck(minus, n, mark);
    } else if minutes.fraction == "" {
      var n := Num(degrees.whole, degrees.fraction + ("0" + minutes.whole));
      MergePointBefore(degrees, minutes.whole, mark);
      NumberThenStuck(minus, n, mark);
    } else {
      var f := degrees.fraction + ("0" + minutes.whole);
      MergeTwoPoints(degrees, minutes, mark);
      TwoPoints(minus, degrees.whole, f, minutes.fraction, mark);
    }
  }

  lemma Regroup(a: string, b: string, c: string)
    ensures (a + b) + c == a + (b + c)
  {
  }

  lemma MergePointBehind(d: string, minutes: Num, mark: string)
    requires minutes.fraction != ""
    ensures d + ("0" + (minutes.Text() + mark)) == Num(d + ("0" + minutes.whole), minutes.fraction).Text() + mark
  {
    var w, f := minutes.whole, ['.'] + minutes.fraction;
    Regroup("0", w, f);
    Regroup(d, "0" + w, f);
    Regroup("0", w + f, mark);
    Regroup(d, "0" + (w + f), mark);
  }

  lemma MergePointBefore(degrees: Num, m: string, mark: string)
    requires degrees.fraction != ""
    ensures degrees.Text() + ("0" + (m + mark)) == Num(degrees.whole, degrees.fraction + ("0" + m)).Text() + mark
  {
    var w, f := degrees.whole, degrees.fraction;
    Regroup("0", m, mark);
    Regroup(w + (['.'] + f), "0" + m, mark);
    Regroup(w, ['.'] + f, "0" + m);
    Regroup(['.'], f, "0" + m);
  }

  lemma MergeTwoPoints(degrees: Num, minutes: Num, mark: string)
    requires degrees.fraction != "" && minutes.fraction != ""
    ensures degrees.Text() + ("0" + (minutes.Text() + mark))
         == degrees.whole + (['.'] + ((degrees.fraction + ("0" + minutes.whole)) + (['.'] + (minutes.fraction + mark))))
  {
    var w, f, m, g := degrees.whole, degrees.fraction, minutes.whole, minutes.fraction;
    var u := ['.'] + (g + mark);
    Regroup(['.'], g, mark);
    Regroup(m, ['.'] + g, mark);
    Regroup("0", m, u);
    Regroup(f, "0" + m, u);
    Regroup(['.'], f, ("0" + m) + u);
    Regroup(w, ['.'] + f, ("0" + m) + u);
  }

  lemma PointedBody(degrees: Num, minutes: Num, l: Layout, tail: string)
    requires l.beforeDegree == "" && l.afterDegree == ""
    ensures Body(degrees, minutes, l, '0', tail) == degrees.Text() + ("0" + (minutes.Text() + MarkText(l, tail)))
  {
  }

  /** With the sign misread, neither pattern matches unless degrees, sign and minutes form one run of digits. */
  lemma MisreadNotJoined(minus: bool, degrees: Num, minutes: Num, l: Layout, tail: string)
    requires degrees.Ok() && minutes.Ok() && l.Ok() && NoSpaceFirst(tail) && !Joined(degrees, minutes, l)
    ensures MatchAfterSign(minus, Body(degrees, minutes, l, '0', tail)) == None
    ensures GarbledAfterSign(minus, Body(degrees, minutes, l, '0', tail)) == None
  {
    if l.beforeDegree != "" {
      var t := ['0'] + (l.afterDegree + MinutesText(minutes, l, tail));
      assert t[0] == '0';
      SpacedBefore(minus, degrees, l.beforeDegree, t);
    } else if l.afterDegree != "" {
      SpacedAfter(minus, degrees, minutes, l, tail);
    } else {
      PointedRead(minus, degrees, minutes, l, tail);
    }
  }

  // ---- recovery -------------------------------------------------------------------------------------------------

  /** No 0 below `n` but the one at `i` could be the sign. */
  ghost predicate OnlySplit(run: string, n: nat, i: nat, seconds: real, axisMax: real)
    requires AllDigits(run)
  {
    forall j: nat :: j < n && j != i ==> !ValidSplit(run, j, seconds, axisMax)
  }

  lemma {:induction false} SingleSplit(run: string, n: nat, seconds: real, axisMax: real, i: nat)
    requires n <= |run| && AllDigits(run) && ValidSplit(run, i, seconds, axisMax)
    requires OnlySplit(run, n, i, seconds, axisMax)
    ensures SplitsBelow(run, n, seconds, axisMax) == if i < n then [SplitTotal(run, i, seconds)] else []
  {
    hide ValidSplit, SplitTotal;
    if n > 0 {
      SingleSplit(run, n - 1, seconds, axisMax, i);
    }
  }

  lemma {:induction false} SomeSplit(run: string, n: nat, seconds: real, axisMax: real, i: nat)
    requires n <= |run| && AllDigits(run) && i < n && ValidSplit(run, i, seconds, axisMax)
    ensures |SplitsBelow(run, n, seconds, axisMax)| >= 1
  {
    hide ValidSplit, SplitTotal;
    if i < n - 1 {
      SomeSplit(run, n - 1, seconds, axisMax, i);
    }
  }

  lemma {:induction false} TwoSplits(run: string, n: nat, seconds: real, axisMax: real, i: nat, j: nat)
    requires n <= |run| && AllDigits(run) && i < j < n
    requires ValidSplit(run, i, seconds, axisMax) && ValidSplit(run, j, seconds, axisMax)
    ensures |SplitsBelow(run, n, seconds, axisMax)| >= 2
  {
    hide ValidSplit, SplitTotal;
    if j < n - 1 {
      TwoSplits(run, n - 1, seconds, axisMax, i, j);
    } else {
      SomeSplit(run, n - 1, seconds, axisMax, i);
    }
  }

  lemma RecoveredExactly(g: Garbled, i: nat)
    requires AllDigits(g.run) && g.seconds.Ok() && g.hemisphere.Some? && i < |g.run|
    requires ValidSplit(g.run, i, g.seconds.Amount(), AxisMax(g.hemisphere))
    ensures Recovered(g)
         == if OnlySplit(g.run, |g.run|, i, g.seconds.Amount(), AxisMax(g.hemisphere))
            then Some(Signed(SplitTotal(g.run, i, g.seconds.Amount()), g.minus, g.hemisphere)) else None
  {
    var n, s, m := |g.run|, g.seconds.Amount(), AxisMax(g.hemisphere);
    hide ValidSplit, SplitsBelow, SplitTotal;
    if OnlySplit(g.run, n, i, s, m) {
      SingleSplit(g.run, n, s, m, i);
    } else {
      var j: nat :| j < n && j != i && ValidSplit(g.run, j, s, m);
      TwoSplits(g.run, n, s, m, if i < j then i else j, if i < j then j else i);
    }
  }

  /** In a reading on the globe with one or two minute digits, the misread sign is a valid split. */
  lemma TrueSplit(r: Reading)
    requires r.Ok() && r.degrees.fraction == "" && r.minutes.fraction == "" && |r.minutes.whole| <= 2 && OnTheGlobe(r)
    ensures var run := RunText(r.degrees, r.minutes);
      && AllDigits(run)
      && |r.degrees.whole| < |run|
      && ValidSplit(run, |r.degrees.whole|, r.seconds.Amount(), AxisMax(r.hemisphere))
      && Signed(SplitTotal(run, |r.degrees.whole|, r.seconds.Amount()), r.Minus(), r.hemisphere) == TrueValue(r)
  {
    Plainly();
    var run, i := RunText(r.degrees, r.minutes), |r.degrees.whole|;
    assert run[..i] == r.degrees.whole && run[i] == '0' && run[i + 1..] == r.minutes.whole;
    WholeAmount(r.degrees);
    WholeAmount(r.minutes);
    hide Value;
  }

  lemma WholeAmount(n: Num)
    requires n.Ok() && n.fraction == ""
    ensures n.Amount() == Value(n.whole) as real
  {
  }

  /** Exactly when a misread reading is recovered; when it is, it is recovered right. */
  ghost predicate Recoverable(r: Reading, l: Layout)
    requires r.Ok()
  {
    && Joined(r.degrees, r.minutes, l) && r.hemisphere.Some? && |RunText(r.degrees, r.minutes)| >= 4
    && AllDigits(RunText(r.degrees, r.minutes))
    && OnlySplit(RunText(r.degrees, r.minutes), |RunText(r.degrees, r.minutes)|, |r.degrees.whole|,
                 r.seconds.Amount(), AxisMax(r.hemisphere))
  }

  function RunOf(r: Reading): Garbled {
    Garbled(r.Minus(), RunText(r.degrees, r.minutes), r.seconds, r.hemisphere)
  }

  lemma MisreadJoined(r: Reading, l: Layout)
    requires Fits(r, l) && Joined(r.degrees, r.minutes, l)
    ensures AllDigits(RunOf(r).run) && RunOf(r).seconds.Ok()
    ensures ParseCoordinate(Written(r, l, '0'))
         == if |RunOf(r).run| < 4 then Malformed
            else if Recovered(RunOf(r)).Some? then Ok(Recovered(RunOf(r)).value, true) else Suspect
  {
    WrittenIsStripped(r, l, '0');
    SecondsOver(r, l);
    JoinedRead(r.Minus(), r.degrees, r.minutes, l, SecondsText(r, l));
    hide Written, Strip, MatchCoordinate, MatchGarbled, SecondsText, Body, MatchAfterSign, GarbledAfterSign, RunText,
         ScanSeconds, Recovered;
  }

  /**
   * Right or refused: a place on the globe, written with at most two minute digits and with its degree
   * sign read as 0, comes out as its true value or as no value, never as another one.
   */
  lemma MisreadSignRightOrRefused(r: Reading, l: Layout)
    requires Fits(r, l) && OnTheGlobe(r) && |r.minutes.whole| <= 2
    ensures var o := ParseCoordinate(Written(r, l, '0'));
      if Recoverable(r, l) then o == Ok(TrueValue(r), true) else o in {Suspect, Malformed}
  {
    hide Possible, OnlySplit;
    if Joined(r.degrees, r.minutes, l) {
      MisreadJoined(r, l);
      TrueSplit(r);
      hide ParseCoordinate, Written, RunText, ValidSplit, SplitTotal;
      if r.hemisphere.Some? {
        RecoveredExactly(RunOf(r), |r.degrees.whole|);
      }
    } else {
      MisreadUnjoined(r, l);
    }
  }

  lemma MisreadUnjoined(r: Reading, l: Layout)
    requires Fits(r, l) && !Joined(r.degrees, r.minutes, l)
    ensures ParseCoordinate(Written(r, l, '0')) == Malformed
  {
    var tail := SecondsText(r, l);
    WrittenIsStripped(r, l, '0');
    SecondsOver(r, l);
    hide Written, Strip, MatchCoordinate, MatchGarbled, SecondsText;
    MisreadNotJoined(r.Minus(), r.degrees, r.minutes, l, tail);
  }

  // ---- shorter forms ---------------------------------------------------------------------------------------------

  function WithoutSeconds(sign: string, degrees: Num, minutes: Num, l: Layout, c: char, h: Option<char>): string {
    sign + (l.afterSign + Body(degrees, minutes, l, c, HemisphereText(h)))
  }

  predicate FitsWithoutSeconds(sign: string, degrees: Num, minutes: Num, l: Layout, h: Option<char>) {
    && sign in {"", "+", "-"} && (sign == "" ==> l.afterSign == "") && degrees.Ok() && minutes.Ok() && l.Ok()
    && (h.Some? ==> IsHemisphere(h.value)) && (h.None? ==> l.afterMinuteQuote == "")
  }

  lemma WithoutSecondsIsStripped(sign: string, degrees: Num, minutes: Num, l: Layout, c: char, h: Option<char>)
    requires FitsWithoutSeconds(sign, degrees, minutes, l, h)
    ensures var s := WithoutSeconds(sign, degrees, minutes, l, c, h);
      var body := Body(degrees, minutes, l, c, HemisphereText(h));
      && Strip(s) == s && s != ""
      && MatchCoordinate(s) == MatchAfterSign(sign == "-", body)
      && MatchGarbled(s) == GarbledAfterSign(sign == "-", body)
  {
    var tail := HemisphereText(h);
    var body := Body(degrees, minutes, l, c, tail);
    BodyStarts(degrees, minutes, l, c, tail);
    MarkTight(l, h);
    TightAfter(minutes.Text(), MarkText(l, tail));
    DegreesTight(degrees, l, c, MinutesText(minutes, l, tail));
    SignedIsStripped(sign, l.afterSign, body);
  }

  lemma CleanMinutesMatch(minus: bool, degrees: Num, minutes: Num, l: Layout, h: Option<char>)
    requires degrees.Ok() && minutes.Ok() && l.Ok() && (h.Some? ==> IsHemisphere(h.value))
    ensures MatchAfterSign(minus, Body(degrees, minutes, l, DEGREE, HemisphereText(h)))
         == Some(Fields(minus, degrees, Some(minutes), None, h))
  {
    var tail := HemisphereText(h);
    HemisphereOver(h);
    MinuteQuoteOver(l, tail);
    NumberOver(minutes, MarkText(l, tail));
    NumberStarts(minutes, MarkText(l, tail));
    DegreeOver(degrees, l, MinutesText(minutes, l, tail));
    hide ScanNumber, ScanMinuteQuote, SkipSpace, ScanEnd, HemisphereText, MarkText;
  }

  /** The clean form without seconds gives its value, or is flagged. */
  lemma CleanWithoutSecondsIsRead(sign: string, degrees: Num, minutes: Num, l: Layout, h: Option<char>)
    requires FitsWithoutSeconds(sign, degrees, minutes, l, h)
    ensures var d, m := degrees.Amount(), minutes.Amount();
      ParseCoordinate(WithoutSeconds(sign, degrees, minutes, l, DEGREE, h))
      == if OnGlobe(d, m, 0.0, h) then Ok(Towards(Places(d, m, 0.0), sign == "-", h), false) else Suspect
  {
    Plainly();
    WithoutSecondsIsStripped(sign, degrees, minutes, l, DEGREE, h);
    CleanMinutesMatch(sign == "-", degrees, minutes, l, h);
    hide WithoutSeconds, Strip, MatchCoordinate, MatchGarbled, MatchAfterSign, GarbledAfterSign, Body, HemisphereText,
         Possible, OnGlobe, Compose, Places, Signed, Towards, AxisMax, Limit, Num.Amount;
    MatchedFieldsOk(WithoutSeconds(sign, degrees, minutes, l, DEGREE, h));
  }

  /** Degrees and minutes without seconds: a misread sign is never taken for anything. */
  lemma MisreadWithoutSeconds(sign: string, degrees: Num, minutes: Num, l: Layout, h: Option<char>)
    requires FitsWithoutSeconds(sign, degrees, minutes, l, h)
    ensures ParseCoordinate(WithoutSeconds(sign, degrees, minutes, l, '0', h)) == Malformed
  {
    var tail := HemisphereText(h);
    WithoutSecondsIsStripped(sign, degrees, minutes, l, '0', h);
    HemisphereOver(h);
    if Joined(degrees, minutes, l) {
      JoinedRead(sign == "-", degrees, minutes, l, tail);
    } else {
      MisreadNotJoined(sign == "-", degrees, minutes, l, tail);
    }
    assert ScanSeconds(tail).None?;
    hide Body, HemisphereText, MatchAfterSign, GarbledAfterSign, MatchCoordinate, MatchGarbled, Strip, WithoutSeconds,
         ScanSeconds, ScanNumber, RunText;
  }

  lemma MarkTight(l: Layout, h: Option<char>)
    requires l.Ok() && (h.Some? ==> IsHemisphere(h.value)) && (h.None? ==> l.afterMinuteQuote == "")
    ensures Tight(MarkText(l, HemisphereText(h)))
  {
  }

  lemma DegreesTight(degrees: Num, l: Layout, c: char, t: string)
    requires Tight(t)
    ensures Tight(degrees.Text() + (l.beforeDegree + ([c] + (l.afterDegree + t))))
  {
  }

  function DegreesBody(degrees: Num, l: Layout, c: char, h: Option<char>): string {
    degrees.Text() + (l.beforeDegree + ([c] + (l.afterDegree + HemisphereText(h))))
  }

  function DegreesOnly(sign: string, degrees: Num, l: Layout, c: char, h: Option<char>): string {
    sign + (l.afterSign + DegreesBody(degrees, l, c, h))
  }

  predicate FitsDegreesOnly(sign: string, degrees: Num, l: Layout, h: Option<char>) {
    && sign in {"", "+", "-"} && (sign == "" ==> l.afterSign == "") && degrees.Ok() && l.Ok()
    && (h.Some? ==> IsHemisphere(h.value)) && (h.None? ==> l.afterDegree == "")
  }

  lemma DegreesBodyRead(minus: bool, degrees: Num, l: Layout, h: Option<char>)
    requires degrees.Ok() && l.Ok() && (h.Some? ==> IsHemisphere(h.value)) && (h.None? ==> l.afterDegree == "")
    ensures var body := DegreesBody(degrees, l, '0', h);
      && Lengthened(degrees).Ok()
      && (l.beforeDegree == "" ==>
           MatchAfterSign(minus, body) == Some(Fields(minus, Lengthened(degrees), None, None, h)))
      && (l.beforeDegree != "" ==> MatchAfterSign(minus, body) == None && GarbledAfterSign(minus, body) == None)
  {
    var t := HemisphereText(h);
    var rest := l.afterDegree + t;
    HemisphereOver(h);
    LengthenedText(degrees, rest);
    if l.beforeDegree != "" {
      assert (['0'] + rest)[0] == '0';
      SpacedBefore(minus, degrees, l.beforeDegree, ['0'] + rest);
    } else {
      SkipOver(l.afterDegree, t);
      HemisphereEnds(h);
      GapEnds(l.afterDegree, t);
      NumberOver(Lengthened(degrees), rest);
      hide ScanNumber, SkipSpace, Lengthened;
    }
  }

  lemma HemisphereEnds(h: Option<char>)
    requires h.Some? ==> IsHemisphere(h.value)
    ensures Ends(HemisphereText(h)) && (HemisphereText(h) != "" ==> HemisphereText(h)[0] != DEGREE)
  {
  }

  lemma DegreesBodyTight(degrees: Num, l: Layout, c: char, h: Option<char>)
    requires degrees.Ok() && l.Ok() && (h.Some? ==> IsHemisphere(h.value)) && (h.None? ==> l.afterDegree == "")
    requires !IsSpace(c)
    ensures Tight(DegreesBody(degrees, l, c, h))
  {
    if h.Some? {
      DegreesTight(degrees, l, c, HemisphereText(h));
    } else {
      assert l.afterDegree + HemisphereText(h) == "" && [c] + "" == [c];
      TightAfter(l.beforeDegree, [c]);
      TightAfter(degrees.Text(), l.beforeDegree + [c]);
    }
  }

  lemma DegreesOnlyIsStripped(sign: string, degrees: Num, l: Layout, c: char, h: Option<char>)
    requires FitsDegreesOnly(sign, degrees, l, h) && !IsSpace(c)
    ensures var s, body := DegreesOnly(sign, degrees, l, c, h), DegreesBody(degrees, l, c, h);
      && Strip(s) == s && s != ""
      && MatchCoordinate(s) == MatchAfterSign(sign == "-", body)
      && MatchGarbled(s) == GarbledAfterSign(sign == "-", body)
  {
    NumberStarts(degrees, l.beforeDegree + ([c] + (l.afterDegree + HemisphereText(h))));
    DegreesBodyTight(degrees, l, c, h);
    SignedIsStripped(sign, l.afterSign, DegreesBody(degrees, l, c, h));
  }

  lemma CleanDegreesMatch(minus: bool, degrees: Num, l: Layout, h: Option<char>)
    requires degrees.Ok() && l.Ok() && (h.Some? ==> IsHemisphere(h.value))
    ensures MatchAfterSign(minus, DegreesBody(degrees, l, DEGREE, h)) == Some(Fields(minus, degrees, None, None, h))
  {
    HemisphereOver(h);
    DegreeOver(degrees, l, HemisphereText(h));
    hide ScanNumber, SkipSpace, ScanEnd, HemisphereText;
  }

  /** The clean form with degrees alone gives its value, or is flagged. */
  lemma CleanDegreesAreRead(sign: string, degrees: Num, l: Layout, h: Option<char>)
    requires FitsDegreesOnly(sign, degrees, l, h)
    ensures ParseCoordinate(DegreesOnly(sign, degrees, l, DEGREE, h))
         == if degrees.Amount() <= Limit(h) then Ok(Towards(degrees.Amount(), sign == "-", h), false) else Suspect
  {
    DegreesOnlyIsStripped(sign, degrees, l, DEGREE, h);
    CleanDegreesMatch(sign == "-", degrees, l, h);
    DegreesJudged(sign == "-", degrees, h);
    hide DegreesOnly, DegreesBody, Strip, MatchCoordinate, MatchGarbled, MatchAfterSign, GarbledAfterSign, Judge,
         Towards, Limit, Num.Amount;
    MatchedFieldsOk(DegreesOnly(sign, degrees, l, DEGREE, h));
  }

  /** Degrees without any mark. */
  function Plain(sign: string, afterSign: string, degrees: Num, gap: string, h: Option<char>): string {
    sign + (afterSign + (degrees.Text() + (gap + HemisphereText(h))))
  }

  predicate FitsPlain(sign: string, afterSign: string, degrees: Num, gap: string, h: Option<char>) {
    && sign in {"", "+", "-"} && AllSpace(afterSign) && (sign == "" ==> afterSign == "") && degrees.Ok()
    && AllSpace(gap) && (h.Some? ==> IsHemisphere(h.value)) && (h.None? ==> gap == "")
  }

  lemma PlainMatch(minus: bool, degrees: Num, gap: string, h: Option<char>)
    requires degrees.Ok() && AllSpace(gap) && (h.Some? ==> IsHemisphere(h.value))
    ensures MatchAfterSign(minus, degrees.Text() + (gap + HemisphereText(h)))
         == Some(Fields(minus, degrees, None, None, h))
  {
    var t := HemisphereText(h);
    HemisphereOver(h);
    HemisphereEnds(h);
    GapEnds(gap, t);
    SkipOver(gap, t);
    NumberOver(degrees, gap + t);
    hide ScanNumber, SkipSpace, ScanEnd, HemisphereText;
  }

  lemma PlainTight(degrees: Num, gap: string, h: Option<char>)
    requires degrees.Ok() && (h.Some? ==> IsHemisphere(h.value)) && (h.None? ==> gap == "")
    ensures var body := degrees.Text() + (gap + HemisphereText(h));
      body != "" && IsDigit(body[0]) && Tight(body)
  {
    NumberStarts(degrees, gap + HemisphereText(h));
    if h.None? {
      assert gap + HemisphereText(h) == "" && degrees.Text() + "" == degrees.Text();
    }
  }

  /** A plain number gives its value, or is flagged. */
  lemma PlainDegreesAreRead(sign: string, afterSign: string, degrees: Num, gap: string, h: Option<char>)
    requires FitsPlain(sign, afterSign, degrees, gap, h)
    ensures ParseCoordinate(Plain(sign, afterSign, degrees, gap, h))
         == if degrees.Amount() <= Limit(h) then Ok(Towards(degrees.Amount(), sign == "-", h), false) else Suspect
  {
    PlainTight(degrees, gap, h);
    SignedIsStripped(sign, afterSign, degrees.Text() + (gap + HemisphereText(h)));
    PlainMatch(sign == "-", degrees, gap, h);
    DegreesJudged(sign == "-", degrees, h);
    hide HemisphereText, Strip, MatchCoordinate, MatchGarbled, MatchAfterSign, GarbledAfterSign, Judge, Towards, Limit,
         Num.Amount, Num.Text;
    MatchedFieldsOk(Plain(sign, afterSign, degrees, gap, h));
  }

  /** A 0 behind whole degrees multiplies them by ten; behind decimals it changes nothing. */
  lemma LengthenedAmount(n: Num)
    requires n.Ok()
    ensures Lengthened(n).Ok()
    ensures Lengthened(n).Amount() == if n.fraction == "" then 10.0 * n.Amount() else n.Amount()
  {
  }

  lemma DegreesJudged(minus: bool, n: Num, h: Option<char>)
    requires n.Ok()
    ensures Judge(Fields(minus, n, None, None, h))
         == if n.Amount() <= Limit(h) then Ok(Towards(n.Amount(), minus, h), false) else Suspect
  {
    Plainly();
  }

  /**
   * Degrees alone are not protected: the misread sign makes whole degrees ten times too large, and the
   * result is taken for good exactly when it still lies on the axis.
   */
  lemma DegreesOnlyMisread(sign: string, degrees: Num, l: Layout, h: Option<char>)
    requires FitsDegreesOnly(sign, degrees, l, h)
    ensures var o := ParseCoordinate(DegreesOnly(sign, degrees, l, '0', h));
      var amount := degrees.Amount();
      && (l.beforeDegree != "" ==> o == Malformed)
      && (l.beforeDegree == "" && degrees.fraction != "" ==>
            o == if amount <= Limit(h) then Ok(Towards(amount, sign == "-", h), false) else Suspect)
      && (l.beforeDegree == "" && degrees.fraction == "" ==>
            o == if 10.0 * amount <= Limit(h) then Ok(Towards(10.0 * amount, sign == "-", h), false) else Suspect)
  {
    DegreesOnlyIsStripped(sign, degrees, l, '0', h);
    DegreesBodyRead(sign == "-", degrees, l, h);
    LengthenedAmount(degrees);
    DegreesJudged(sign == "-", Lengthened(degrees), h);
    hide DegreesOnly, DegreesBody, Strip, MatchCoordinate, MatchGarbled, MatchAfterSign, GarbledAfterSign, Lengthened,
         Judge, Towards, Limit, Num.Amount;
    MatchedFieldsOk(DegreesOnly(sign, degrees, l, '0', h));
  }

  /** So a wrong value comes out if and only if whole, non-zero degrees stay on the axis when multiplied by ten. */
  lemma DegreesOnlyWrongExactly(sign: string, degrees: Num, l: Layout, h: Option<char>)
    requires FitsDegreesOnly(sign, degrees, l, h)
    ensures var o := ParseCoordinate(DegreesOnly(sign, degrees, l, '0', h));
      (o.Ok? && o.value != Towards(degrees.Amount(), sign == "-", h))
      <==> (l.beforeDegree == "" && degrees.fraction == "" && degrees.Amount() != 0.0
            && 10.0 * degrees.Amount() <= Limit(h))
  {
    DegreesOnlyMisread(sign, degrees, l, h);
    hide ParseCoordinate, DegreesOnly;
  }

  // ---- every accepted value -------------------------------------------------------------------------------------

  lemma AmountNotNegative(n: Num)
    requires n.Ok()
    ensures n.Amount() >= 0.0
  {
  }

  lemma {:induction false} SplitsInRange(run: string, n: nat, seconds: real, axisMax: real)
    requires n <= |run| && AllDigits(run) && seconds >= 0.0
    ensures forall k :: 0 <= k < |SplitsBelow(run, n, seconds, axisMax)| ==>
      0.0 <= SplitsBelow(run, n, seconds, axisMax)[k] <= axisMax
  {
    hide Value;
    if n > 0 {
      SplitsInRange(run, n - 1, seconds, axisMax);
    }
  }

  predicate OnAxis(value: real, h: Option<char>) { -Limit(h) <= value <= Limit(h) }

  lemma JudgedInRange(f: Fields)
    requires FieldsOk(f)
    ensures Judge(f).Ok? ==> OnAxis(Judge(f).value, f.hemisphere)
  {
    AmountNotNegative(f.degrees);
    if f.minutes.Some? {
      AmountNotNegative(f.minutes.value);
    }
    if f.seconds.Some? {
      AmountNotNegative(f.seconds.value);
    }
  }

  lemma RecoveredInRange(g: Garbled)
    requires AllDigits(g.run) && g.seconds.Ok() && Recovered(g).Some?
    ensures OnAxis(Recovered(g).value, g.hemisphere)
  {
    AmountNotNegative(g.seconds);
    SplitsInRange(g.run, |g.run|, g.seconds.Amount(), AxisMax(g.hemisphere));
    hide SplitsBelow;
  }

  /** The hemisphere letter that was read, by whichever pattern matched. */
  function HemisphereOf(s: string): Option<char> {
    match MatchCoordinate(s)
    case Some(f) => f.hemisphere
    case None => if MatchGarbled(s).Some? then MatchGarbled(s).value.hemisphere else None
  }

  /** Whatever the text, an accepted value lies on its axis: within 90 of the equator or 180 of the meridian. */
  lemma AcceptedIsOnTheAxis(text: string)
    ensures var o := ParseCoordinate(text); o.Ok? ==> OnAxis(o.value, HemisphereOf(Strip(text)))
  {
    var s := Strip(text);
    MatchedFieldsOk(s);
    hide Strip, MatchCoordinate, MatchGarbled, Recovered, Judge, OnAxis;
    match MatchCoordinate(s)
    case Some(f) => JudgedInRange(f);
    case None =>
      if MatchGarbled(s).Some? && Recovered(MatchGarbled(s).value).Some? {
        RecoveredInRange(MatchGarbled(s).value);
      }
  }

  // ---- minutes written with three digits or more --------------------------------------------------------------------

  lemma ValueSnoc(s: string, c: char)
    requires AllDigits(s) && IsDigit(c)
    ensures AllDigits(s + [c]) && Value(s + [c]) == Value(s) * 10 + DigitValue(c)
  {
  }

  lemma TwoDigits(a: char, b: char)
    requires IsDigit(a) && IsDigit(b)
    ensures AllDigits([a, b]) && Value([a, b]) == DigitValue(a) * 10 + DigitValue(b)
  {
    ValueSnoc("", a);
    ValueSnoc([a], b);
    assert "" + [a] == [a] && [a] + [b] == [a, b] && Value("") == 0;
  }

  lemma OneDigit(a: char)
    requires IsDigit(a)
    ensures AllDigits([a]) && Value([a]) == DigitValue(a)
  {
  }

  lemma {:induction false} NothingButZeros(s: string)
    requires AllDigits(s) && Value(s) == 0
    ensures s == Zeros(|s|)
  {
    if s != "" {
      NothingButZeros(s[..|s| - 1]);
      assert s == s[..|s| - 1] + [s[|s| - 1]];
    }
  }

  lemma NextPower(x: real, v: int, n: nat)
    requires v as real == x * Power(n)
    ensures (v * 10) as real == x * Power(n + 1)
  {
    assert x * (10.0 * Power(n)) == 10.0 * (x * Power(n));
  }

  lemma OneMoreZero(s: string, n: nat)
    requires AllDigits(s) && n > 0
    ensures AllDigits(s + Zeros(n - 1)) && AllDigits(s + Zeros(n))
    ensures Value(s + Zeros(n)) == Value(s + Zeros(n - 1)) * 10
  {
    assert s + Zeros(n) == s + Zeros(n - 1) + ['0'];
    assert AllDigits(s + Zeros(n - 1));
    hide Value, AllDigits, Zeros;
    ValueSnoc(s + Zeros(n - 1), '0');
  }

  lemma NoZeros(s: string)
    ensures s + Zeros(0) == s && Power(0) == 1.0
  {
  }

  lemma {:induction false} ZerosBehind(s: string, n: nat)
    requires AllDigits(s)
    ensures AllDigits(s + Zeros(n)) && Value(s + Zeros(n)) as real == Value(s) as real * Power(n)
  {
    hide Value, AllDigits, Zeros, Power;
    if n == 0 {
      NoZeros(s);
    } else {
      ZerosBehind(s, n - 1);
      OneMoreZero(s, n);
      NextPower(Value(s) as real, Value(s + Zeros(n - 1)), n - 1);
    }
  }

  lemma LastTwo(h: string, a: char, b: char)
    requires AllDigits(h) && IsDigit(a) && IsDigit(b)
    ensures AllDigits(h + [a] + [b])
    ensures Value(h + [a] + [b]) == Value(h) * 100 + DigitValue(a) * 10 + DigitValue(b)
  {
    ValueSnoc(h, a);
    ValueSnoc(h + [a], b);
    hide Value, AllDigits;
  }

  lemma SmallValue(m: string, h: string, a: char, b: char)
    requires AllDigits(h) && IsDigit(a) && IsDigit(b) && m == h + [a] + [b]
    requires AllDigits(m) && Value(m) < 60
    ensures Value(h) == 0 && Value(m) == DigitValue(a) * 10 + DigitValue(b)
    ensures a == '0' <==> Value(m) < 10
  {
    hide Value, AllDigits;
    LastTwo(h, a, b);
  }

  lemma SplitLastTwo(m: string, k: nat)
    requires AllDigits(m) && k == |m| >= 2
    ensures AllDigits(m[..k - 2]) && IsDigit(m[k - 2]) && IsDigit(m[k - 1])
    ensures m == m[..k - 2] + [m[k - 2]] + [m[k - 1]] == m[..k - 2] + m[k - 2..]
    ensures m[k - 2..] == [m[k - 2], m[k - 1]] && m[k - 1..] == [m[k - 1]]
  {
    hide Value;
  }

  /** Minutes below 60 in three digits or more: zeros, then the last two digits. */
  lemma SmallMinutes(m: string)
    requires AllDigits(m) && |m| >= 3 && Value(m) < 60
    ensures m == Zeros(|m| - 2) + m[|m| - 2..] && AllDigits(m[|m| - 2..]) && Value(m[|m| - 2..]) == Value(m)
    ensures m[|m| - 2] == '0' <==> Value(m) < 10
    ensures AllDigits(m[|m| - 1..]) && (Value(m) < 10 ==> Value(m[|m| - 1..]) == Value(m))
  {
    hide Value, AllDigits, Zeros;
    var k := |m|;
    var h, a, b := m[..k - 2], m[k - 2], m[k - 1];
    SplitLastTwo(m, k);
    SmallValue(m, h, a, b);
    TwoDigits(a, b);
    OneDigit(b);
    NothingButZeros(h);
  }

  /** What stands in front of the 0 that leaves `last` minute digits. */
  function DegreesRead(r: Reading, last: nat): real
    requires r.Ok() && last <= |r.minutes.whole|
  {
    r.degrees.Amount() * Power(|r.minutes.whole| - last)
  }

  /** The run with its sign taken to stand in front of the last two minute digits is a place on the globe. */
  predicate TwoDigitsFit(r: Reading)
    requires r.Ok() && |r.minutes.whole| >= 3
  {
    Places(DegreesRead(r, 2), r.minutes.Amount(), r.seconds.Amount()) <= Limit(r.hemisphere)
  }

  /** The same in front of the last minute digit, which needs another 0 there. */
  predicate OneDigitFits(r: Reading)
    requires r.Ok() && |r.minutes.whole| >= 3
  {
    && r.minutes.Amount() < 10.0
    && Places(DegreesRead(r, 1), r.minutes.Amount(), r.seconds.Amount()) <= Limit(r.hemisphere)
  }

  predicate LongJoined(r: Reading) {
    r.Ok() && r.degrees.fraction == "" && r.minutes.fraction == "" && |r.minutes.whole| >= 3
  }

  /** The run in front of and behind the 0 that leaves two minute digits. */
  lemma RunBeforeTwo(d: string, m: string)
    requires AllDigits(d) && AllDigits(m) && |m| >= 3 && Value(m) < 60
    ensures var run, i := d + ("0" + m), |d| + |m| - 2;
      && |run| == |d| + |m| + 1 && AllDigits(run) && run[i] == '0'
      && run[..i] == d + Zeros(|m| - 2) && run[i + 1..] == m[|m| - 2..]
  {
    hide Value, Zeros;
    SmallMinutes(m);
    ZerosShift(|m| - 3);
    Reread(d, Zeros(|m| - 3), m[|m| - 2..], m);
  }

  /** The zeros between the sign and the last two digits, with the last of them taken for the sign. */
  lemma Reread(d: string, z: string, t: string, m: string)
    requires ['0'] + z == z + ['0'] && m == (z + ['0']) + t
    ensures var run, i := d + ("0" + m), |d| + |z| + 1;
      && |run| == i + 1 + |t| && run[i] == '0' && run[..i] == d + (z + ['0']) && run[i + 1..] == t
  {
    Regroup(['0'] + z, ['0'], t);
    Regroup(['0'], z + ['0'], t);
    Regroup(['0'], z, ['0']);
    var head := d + (z + ['0']);
    assert d + ("0" + m) == head + (['0'] + t);
  }

  lemma {:induction false} ZerosShift(n: nat)
    ensures ['0'] + Zeros(n) == Zeros(n) + ['0'] == Zeros(n + 1)
  {
    assert forall i :: 0 <= i < n + 1 ==> (['0'] + Zeros(n))[i] == '0' == (Zeros(n) + ['0'])[i];
  }

  lemma RunBeforeOne(d: string, m: string)
    requires AllDigits(d) && AllDigits(m) && |m| >= 3 && Value(m) < 60
    ensures var run, i := d + ("0" + m), |d| + |m| - 1;
      && |run| == |d| + |m| + 1 && AllDigits(run) && (run[i] == '0' <==> Value(m) < 10)
      && (Value(m) < 10 ==> run[..i] == d + Zeros(|m| - 1) && run[i + 1..] == m[|m| - 1..])
  {
    RunBeforeTwo(d, m);
    SmallMinutes(m);
    var run, i := d + ("0" + m), |d| + |m| - 1;
    assert run[i] == m[|m| - 2] && run[..i] == run[..i - 1] + [run[i - 1]];
    hide Value;
  }

  /** A split from what stands in front of its 0 and behind it. */
  lemma SplitParts(run: string, i: nat, d: real, m: real, s: real, axisMax: real)
    requires i < |run| && AllDigits(run) && run[i] == '0' && i >= 1 && 1 <= |run| - i - 1 <= 2
    requires Value(run[..i]) as real == d && Value(run[i + 1..]) as real == m
    ensures ValidSplit(run, i, s, axisMax) <==> Possible(d, m, s, axisMax)
    ensures SplitTotal(run, i, s) == Compose(d, m, s)
  {
    hide Value, AllDigits;
  }

  lemma SplitAtTwo(r: Reading)
    requires LongJoined(r) && OnTheGlobe(r)
    ensures var run, i := RunText(r.degrees, r.minutes), |r.degrees.whole| + |r.minutes.whole| - 2;
      && AllDigits(run) && i < |run|
      && (ValidSplit(run, i, r.seconds.Amount(), AxisMax(r.hemisphere)) <==> TwoDigitsFit(r))
      && SplitTotal(run, i, r.seconds.Amount()) == Compose(DegreesRead(r, 2), r.minutes.Amount(), r.seconds.Amount())
  {
    hide Value, Zeros, Num.Amount, AllDigits, Compose, AxisMax, Power, ValidSplit, SplitTotal, Places, Limit;
    Plainly();
    WholeAmount(r.degrees);
    WholeAmount(r.minutes);
    var d, m, k := r.degrees.whole, r.minutes.whole, |r.minutes.whole|;
    var i := |d| + k - 2;
    assert Value(m) < 60;
    RunBeforeTwo(d, m);
    SmallMinutes(m);
    ZerosBehind(d, k - 2);
    SplitParts(d + ("0" + m), i, DegreesRead(r, 2), r.minutes.Amount(), r.seconds.Amount(), AxisMax(r.hemisphere));
  }

  lemma SplitAtOne(r: Reading)
    requires LongJoined(r) && OnTheGlobe(r)
    ensures var run, i := RunText(r.degrees, r.minutes), |r.degrees.whole| + |r.minutes.whole| - 1;
      && AllDigits(run) && i < |run|
      && (ValidSplit(run, i, r.seconds.Amount(), AxisMax(r.hemisphere)) <==> OneDigitFits(r))
  {
    hide Value, Zeros, Num.Amount, AllDigits, Compose, AxisMax, Power, ValidSplit, Places, Limit;
    Plainly();
    WholeAmount(r.degrees);
    WholeAmount(r.minutes);
    var d, m, k := r.degrees.whole, r.minutes.whole, |r.minutes.whole|;
    var i := |d| + k - 1;
    assert Value(m) < 60;
    RunBeforeOne(d, m);
    if Value(m) < 10 {
      SmallMinutes(m);
      ZerosBehind(d, k - 1);
      SplitParts(d + ("0" + m), i, DegreesRead(r, 1), r.minutes.Amount(), r.seconds.Amount(), AxisMax(r.hemisphere));
    } else {
      NoZeroNoSplit(d + ("0" + m), i, r.seconds.Amount(), AxisMax(r.hemisphere));
    }
  }

  lemma NoZeroNoSplit(run: string, i: nat, s: real, axisMax: real)
    requires i < |run| && AllDigits(run) && run[i] != '0'
    ensures !ValidSplit(run, i, s, axisMax)
  {
  }

  lemma ProductGrows(x: real, p: real)
    requires x >= 0.0 && p >= 1.0
    ensures x * p <= x * (10.0 * p)
  {
    assert x * p >= 0.0;
    assert x * (10.0 * p) == 10.0 * (x * p);
  }

  lemma MoreDegreesRead(r: Reading)
    requires r.Ok() && |r.minutes.whole| >= 2
    ensures DegreesRead(r, 2) <= DegreesRead(r, 1)
  {
    hide Num.Amount;
    var k := |r.minutes.whole|;
    assert Power(k - 1) == 10.0 * Power(k - 2);
    AmountNotNegative(r.degrees);
    ProductGrows(r.degrees.Amount(), Power(k - 2));
  }

  lemma OneImpliesTwo(r: Reading)
    requires LongJoined(r) && OneDigitFits(r)
    ensures TwoDigitsFit(r)
  {
    hide Num.Amount, DegreesRead, AxisMax;
    MoreDegreesRead(r);
  }

  lemma {:induction false} NoSplit(run: string, n: nat, seconds: real, axisMax: real)
    requires n <= |run| && AllDigits(run)
    requires forall j: nat :: j < n ==> !ValidSplit(run, j, seconds, axisMax)
    ensures SplitsBelow(run, n, seconds, axisMax) == []
  {
    hide ValidSplit, SplitTotal;
    if n > 0 {
      NoSplit(run, n - 1, seconds, axisMax);
    }
  }

  /** No other 0 leaves one or two digits behind it. */
  lemma OnlyLastTwo(run: string, j: nat, seconds: real, axisMax: real)
    requires AllDigits(run) && ValidSplit(run, j, seconds, axisMax)
    ensures |run| - 3 <= j <= |run| - 2
  {
  }

  /** The value with all but the last two minute digits read into the degrees. */
  function LongValue(r: Reading): real
    requires r.Ok() && |r.minutes.whole| >= 3
  {
    Towards(Places(DegreesRead(r, 2), r.minutes.Amount(), r.seconds.Amount()), r.Minus(), r.hemisphere)
  }

  /** At most the last but two digits and the one behind it can be the sign, the latter only if the former can. */
  lemma TwoCandidates(g: Garbled, i: nat)
    requires AllDigits(g.run) && g.seconds.Ok() && g.hemisphere.Some? && |g.run| == i + 3
    requires var s, a := g.seconds.Amount(), AxisMax(g.hemisphere);
      ValidSplit(g.run, i + 1, s, a) ==> ValidSplit(g.run, i, s, a)
    ensures var s, a := g.seconds.Amount(), AxisMax(g.hemisphere);
      Recovered(g) == if ValidSplit(g.run, i, s, a) && !ValidSplit(g.run, i + 1, s, a)
                      then Some(Signed(SplitTotal(g.run, i, s), g.minus, g.hemisphere)) else None
  {
    hide ValidSplit, SplitTotal, Signed, AllDigits, Num.Amount, AxisMax;
    var s, a := g.seconds.Amount(), AxisMax(g.hemisphere);
    forall j: nat | ValidSplit(g.run, j, s, a) && j != i
      ensures j == i + 1
    {
      OnlyLastTwo(g.run, j, s, a);
    }
    if ValidSplit(g.run, i, s, a) {
      RecoveredExactly(g, i);
    } else {
      NoSplit(g.run, |g.run|, s, a);
    }
  }

  lemma RunLength(degrees: Num, minutes: Num)
    ensures |RunText(degrees, minutes)| == |degrees.whole| + |minutes.whole| + 1
  {
  }

  lemma LongRecovered(r: Reading)
    requires LongJoined(r) && OnTheGlobe(r) && r.hemisphere.Some? && AllDigits(RunOf(r).run)
    ensures Recovered(RunOf(r))
         == if TwoDigitsFit(r) && !OneDigitFits(r)
            then Some(LongValue(r))
            else None
  {
    hide RunText, ValidSplit, SplitTotal, TwoDigitsFit, OneDigitFits, OnTheGlobe, DegreesRead, Compose, Num.Amount,
         AllDigits, Signed, Recovered, Places, Towards;
    Plainly();
    SplitAtTwo(r);
    SplitAtOne(r);
    if OneDigitFits(r) {
      OneImpliesTwo(r);
    }
    RunLength(r.degrees, r.minutes);
    TwoCandidates(RunOf(r), |r.degrees.whole| + |r.minutes.whole| - 2);
  }

  /**
   * The outcome for minutes in three digits or more: the 0 taken for the sign is the last one that can be, so
   * the zeros between are read into the degrees; two such zeros refuse the reading.
   */
  lemma MisreadLongMinutes(r: Reading, l: Layout)
    requires Fits(r, l) && OnTheGlobe(r) && Joined(r.degrees, r.minutes, l) && |r.minutes.whole| >= 3
    ensures ParseCoordinate(Written(r, l, '0'))
         == if r.hemisphere.Some? && TwoDigitsFit(r) && !OneDigitFits(r)
            then Ok(LongValue(r), true)
            else Suspect
  {
    MisreadJoined(r, l);
    assert |RunOf(r).run| >= 4;
    hide ParseCoordinate, Written, OnTheGlobe, TwoDigitsFit, OneDigitFits, DegreesRead, Compose, Signed, RunText;
    if r.hemisphere.Some? {
      LongRecovered(r);
    }
  }

  /** What a caller can check before reading: when the misread sign moves the place. */
  predicate Misplaced(r: Reading, l: Layout)
    requires r.Ok()
  {
    && Joined(r.degrees, r.minutes, l) && r.hemisphere.Some? && |r.minutes.whole| >= 3
    && r.degrees.Amount() != 0.0 && TwoDigitsFit(r) && !OneDigitFits(r)
  }

  lemma ProductMoves(x: real, p: real)
    requires p >= 1.0
    ensures x * (10.0 * p) == x <==> x == 0.0
  {
    if x > 0.0 {
      assert x * p >= x;
      assert x * (10.0 * p) == 10.0 * (x * p);
    } else if x < 0.0 {
      assert x * p <= x;
      assert x * (10.0 * p) == 10.0 * (x * p);
    }
  }

  lemma DegreesMove(r: Reading)
    requires r.Ok() && |r.minutes.whole| >= 3
    ensures DegreesRead(r, 2) == r.degrees.Amount() <==> r.degrees.Amount() == 0.0
  {
    var k := |r.minutes.whole|;
    assert Power(k - 2) == 10.0 * Power(k - 3);
    ProductMoves(r.degrees.Amount(), Power(k - 3));
    hide Num.Amount, Power;
  }

  /** Two totals with the same sign rule. */
  lemma SignedApart(a: real, b: real, m: real, s: real, minus: bool, h: Option<char>)
    ensures Towards(Places(a, m, s), minus, h) == Towards(Places(b, m, s), minus, h) <==> a == b
  {
  }

  /**
   * A place on the globe, written in any layout with its degree sign read as 0, comes out as another place if
   * and only if it is `Misplaced`: nothing separates the digits, the hemisphere is given, the minutes have
   * three digits or more, and the degrees, when not zero, stay on the axis with all but two of the minute
   * digits behind them, while those with all but one do not.
   */
  lemma MisreadSignWrongExactly(r: Reading, l: Layout)
    requires Fits(r, l) && OnTheGlobe(r)
    ensures var o := ParseCoordinate(Written(r, l, '0'));
      (o.Ok? && o.value != TrueValue(r)) <==> Misplaced(r, l)
  {
    hide OnTheGlobe, Written, ParseCoordinate, Recoverable, TwoDigitsFit, OneDigitFits, Compose, Signed, Num.Amount;
    if !Joined(r.degrees, r.minutes, l) {
      MisreadUnjoined(r, l);
    } else if |r.minutes.whole| <= 2 {
      MisreadSignRightOrRefused(r, l);
    } else {
      MisreadLongMinutes(r, l);
      DegreesMove(r);
      var m, s := r.minutes.Amount(), r.seconds.Amount();
      SignedApart(DegreesRead(r, 2), r.degrees.Amount(), m, s, r.Minus(), r.hemisphere);
    }
  }

  function LongMinutes(): Reading { Reading("", Num("4", ""), Num("008", ""), Num("20", ""), Some('N')) }

  function PlainLayout(): Layout { Layout("", "", "", "", "", '\'', "", "", "\"") }

  lemma LongMinutesAmounts()
    ensures LongMinutes().Ok() && Fits(LongMinutes(), PlainLayout())
    ensures var r := LongMinutes(); r.degrees.Amount() == 4.0 && r.minutes.Amount() == 8.0 && r.seconds.Amount() == 20.0
  {
    var r := LongMinutes();
    OneDigit('4');
    TwoDigits('0', '0');
    ValueSnoc("00", '8');
    assert "00" + ['8'] == "008" && ['0', '0'] == "00";
    TwoDigits('2', '0');
    assert ['2', '0'] == "20" && ['4'] == "4";
    WholeAmount(r.degrees);
    WholeAmount(r.minutes);
    WholeAmount(r.seconds);
    hide Value;
  }

  /** It happens: four degrees with minutes written `008` come out as forty degrees. */
  lemma LongMinutesGoWrong()
    ensures var r, l := LongMinutes(), PlainLayout();
      && Fits(r, l) && OnTheGlobe(r)
      && var o := ParseCoordinate(Written(r, l, '0'));
         o.Ok? && 3600.0 * o.value == 144500.0 && 3600.0 * TrueValue(r) == 14900.0
  {
    var r, l := LongMinutes(), PlainLayout();
    LongMinutesAmounts();
    hide Num.Amount, Written, ParseCoordinate;
    assert Power(1) == 10.0 && Power(2) == 100.0;
    MisreadLongMinutes(r, l);
  }

  /** So do degrees alone: twelve degrees east come out as a hundred and twenty. */
  lemma MisreadDegreesGoWrong()
    ensures var degrees, l, h := Num("12", ""), PlainLayout(), Some('E');
      && FitsDegreesOnly("", degrees, l, h)
      && ParseCoordinate(DegreesOnly("", degrees, l, '0', h)) == Ok(120.0, false)
      && degrees.Amount() == 12.0
  {
    var degrees := Num("12", "");
    TwoDigits('1', '2');
    assert degrees.whole == ['1', '2'];
    WholeAmount(degrees);
    DegreesOnlyMisread("", degrees, PlainLayout(), Some('E'));
    hide Num.Amount, ParseCoordinate, DegreesOnly;
  }

  // ---- the values, counted in seconds ------------------------------------------------------------------------------

  /** `3600 * value` is the number of seconds, counted from the equator or the meridian, south and west below zero. */
  predicate IsSeconds(value: real, degrees: real, minutes: real, seconds: real, minus: bool, h: Option<char>) {
    var size := 3600.0 * degrees + 60.0 * minutes + seconds;
    if minus || (h.Some? && h.value in {'S', 's', 'W', 'w'}) then 3600.0 * value == -size else 3600.0 * value == size
  }

  lemma PlacesAreSeconds(d: real, m: real, s: real, minus: bool, h: Option<char>)
    ensures IsSeconds(Towards(Places(d, m, s), minus, h), d, m, s, minus, h)
  {
  }

  /**
   * Whatever the layout, a reading that is accepted has the value it says: in its clean form, and with its
   * degree sign read as 0 when its minutes have one or two digits.
   */
  lemma ValueInSeconds(r: Reading, l: Layout)
    requires Fits(r, l)
    ensures var clean, misread := ParseCoordinate(Written(r, l, DEGREE)), ParseCoordinate(Written(r, l, '0'));
      var d, m, s := r.degrees.Amount(), r.minutes.Amount(), r.seconds.Amount();
      && (clean.Ok? <==> OnGlobe(d, m, s, r.hemisphere))
      && (clean.Ok? ==> !clean.recovered && IsSeconds(clean.value, d, m, s, r.sign == "-", r.hemisphere))
      && (OnGlobe(d, m, s, r.hemisphere) && |r.minutes.whole| <= 2 && misread.Ok? ==>
            misread.recovered && IsSeconds(misread.value, d, m, s, r.sign == "-", r.hemisphere))
  {
    CleanFormIsRead(r, l);
    PlacesAreSeconds(r.degrees.Amount(), r.minutes.Amount(), r.seconds.Amount(), r.Minus(), r.hemisphere);
    hide ParseCoordinate, Written, Num.Amount, Places, Towards, OnGlobe, IsSeconds, Recoverable;
    if OnTheGlobe(r) && |r.minutes.whole| <= 2 {
      MisreadSignRightOrRefused(r, l);
    }
  }

  // ---- some readings, spelled out ----------------------------------------------------------------------------------

  lemma TwoDigitAmount(n: Num, a: char, b: char)
    requires IsDigit(a) && IsDigit(b) && n == Num([a, b], "")
    ensures n.Ok() && n.Amount() == (DigitValue(a) * 10 + DigitValue(b)) as real
  {
    TwoDigits(a, b);
    WholeAmount(n);
  }

  /** Half a degree: 49 degrees and 30 minutes north, in its clean form and with the sign misread. */
  lemma NorthernReading()
    ensures ParseCoordinate("49\U{00B0}30'00\"N") == Ok(49.5, false)
    ensures ParseCoordinate("49030'00\"N") == Ok(49.5, true)
  {
    var r, l := Reading("", Num("49", ""), Num("30", ""), Num("00", ""), Some('N')), PlainLayout();
    NorthernAmounts(r);
    assert Written(r, l, DEGREE) == "49\U{00B0}30'00\"N" && Written(r, l, '0') == "49030'00\"N";
    hide Num.Amount, ParseCoordinate, Written, Recoverable, AllDigits;
    CleanFormIsRead(r, l);
    MisreadSignRightOrRefused(r, l);
    NorthernSplit(r, l);
  }

  lemma NorthernAmounts(r: Reading)
    requires r == Reading("", Num("49", ""), Num("30", ""), Num("00", ""), Some('N'))
    ensures r.Ok() && r.degrees.Amount() == 49.0 && r.minutes.Amount() == 30.0 && r.seconds.Amount() == 0.0
    ensures Fits(r, PlainLayout())
  {
    assert r.degrees.whole == ['4', '9'] && r.minutes.whole == ['3', '0'] && r.seconds.whole == ['0', '0'];
    TwoDigitAmount(r.degrees, '4', '9');
    TwoDigitAmount(r.minutes, '3', '0');
    TwoDigitAmount(r.seconds, '0', '0');
    hide Num.Amount;
  }

  /** The 0 of the 30 minutes stands last, so only one 0 can be the sign. */
  lemma NorthernSplit(r: Reading, l: Layout)
    requires r == Reading("", Num("49", ""), Num("30", ""), Num("00", ""), Some('N')) && l == PlainLayout() && r.Ok()
    ensures Recoverable(r, l)
  {
    var run := RunText(r.degrees, r.minutes);
    assert run == "49030" && AllDigits(run);
    hide Num.Amount, Value;
    assert OnlySplit(run, 5, 2, r.seconds.Amount(), AxisMax(r.hemisphere));
  }

  /** South and west are negative: 33 degrees, 52 minutes and 10.5 seconds south. */
  lemma SouthernReading()
    ensures var o := ParseCoordinate("33\U{00B0}52'10.5\"S"); o.Ok? && 3600.0 * o.value == -121930.5
  {
    var r, l := Reading("", Num("33", ""), Num("52", ""), Num("10", "5"), Some('S')), PlainLayout();
    SouthernAmounts(r);
    assert r.seconds.Text() == "10.5";
    assert Written(r, l, DEGREE) == "33\U{00B0}52'10.5\"S";
    hide Num.Amount, ParseCoordinate, Written;
    CleanFormIsRead(r, l);
  }

  lemma SouthernAmounts(r: Reading)
    requires r == Reading("", Num("33", ""), Num("52", ""), Num("10", "5"), Some('S'))
    ensures r.Ok() && r.degrees.Amount() == 33.0 && r.minutes.Amount() == 52.0 && r.seconds.Amount() == 10.5
    ensures Fits(r, PlainLayout())
  {
    assert r.degrees.whole == ['3', '3'] && r.minutes.whole == ['5', '2'];
    TwoDigitAmount(r.degrees, '3', '3');
    TwoDigitAmount(r.minutes, '5', '2');
    OneDecimal(r.seconds, '1', '0', '5');
    hide Num.Amount;
  }

  lemma OneDecimal(n: Num, a: char, b: char, c: char)
    requires IsDigit(a) && IsDigit(b) && IsDigit(c) && n.whole == [a, b] && n.fraction == [c]
    ensures n.Ok() && 10.0 * n.Amount() == (DigitValue(a) * 100 + DigitValue(b) * 10 + DigitValue(c)) as real
  {
    TwoDigits(a, b);
    OneDigit(c);
    assert Power(1) == 10.0 * Power(0) == 10.0;
    hide Value, Power;
  }
}
