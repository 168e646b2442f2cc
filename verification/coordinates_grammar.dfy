/**
 * Which texts are coordinates at all (src/screen2xyz_m2/parsing.py): the scans accept what the written forms of
 * `CoordinatesLaws` spell, and nothing else, so text left over beyond one coordinate is never read.
 */
module CoordinatesGrammar {
  import opened Common
  import opened Coordinates
  import opened CoordinatesLaws
  import opened PointIds

  // ---- what a scan has passed over ------------------------------------------

  lemma {:induction false} Skipped(s: string) returns (gap: string)
    ensures s == gap + SkipSpace(s) && AllSpace(gap) && NoSpaceFirst(SkipSpace(s))
  {
    hide AllSpace, IsSpace;
    SkipOne(s);
    if s != "" && IsSpace(s[0]) {
      var rest := Skipped(s[1..]);
      gap := [s[0]] + rest;
      assert s == [s[0]] + s[1..];
      Regroup([s[0]], rest, SkipSpace(s[1..]));
      OneMoreSpace(s[0], rest);
    } else {
      gap := "";
    }
  }

  lemma SkipOne(s: string)
    ensures AllSpace("") && (s == "" || !IsSpace(s[0]) ==> NoSpaceFirst(s))
    ensures SkipSpace(s) == if s != "" && IsSpace(s[0]) then SkipSpace(s[1..]) else s
  {
  }

  lemma OneMoreSpace(c: char, rest: string)
    requires IsSpace(c) && AllSpace(rest)
    ensures AllSpace([c] + rest)
  {
  }

  lemma NumberTaken(s: string)
    requires ScanNumber(s).Some?
    ensures var (n, rest) := ScanNumber(s).value; s == n.Text() + rest && n.Ok()
  {
    var whole := DigitRun(s);
    var rest := s[|whole|..];
    assert s == whole + rest;
    if rest != "" && rest[0] == '.' && DigitRun(rest[1..]) != "" {
      var fraction := DigitRun(rest[1..]);
      var tail := rest[1..][|fraction|..];
      assert rest == ['.'] + rest[1..] && rest[1..] == fraction + tail;
      assert whole + (['.'] + (fraction + tail)) == (whole + (['.'] + fraction)) + tail;
    }
  }

  lemma SecondQuoteTaken(s: string) returns (quote: string)
    requires ScanSecondQuote(s).Some?
    ensures s == quote + ScanSecondQuote(s).value && quote in {[DOUBLE_PRIME], "\"", "''"}
  {
    if s[0] == DOUBLE_PRIME || s[0] == '"' {
      quote := [s[0]];
      assert s == [s[0]] + s[1..];
    } else {
      quote := "''";
      assert s == [s[0], s[1]] + s[2..];
    }
  }

  lemma MinuteQuoteTaken(s: string) returns (before: string, quote: char, after: string)
    requires ScanMinuteQuote(s).Some?
    ensures s == before + ([quote] + (after + ScanMinuteQuote(s).value))
    ensures AllSpace(before) && IsMinuteQuote(quote) && AllSpace(after) && NoSpaceFirst(ScanMinuteQuote(s).value)
  {
    hide AllSpace, SkipSpace, IsSpace, NoSpaceFirst;
    before := Skipped(s);
    var t := SkipSpace(s);
    quote := t[0];
    after := Skipped(t[1..]);
    assert t == [t[0]] + t[1..];
  }

  /** Ends without white space, or is empty. */
  predicate Trim(t: string) { t == "" || Tight(t) }

  lemma Rest(a: string, b: string)
    requires Trim(a + b)
    ensures Trim(b)
  {
    if b != "" {
      assert (a + b)[|a + b| - 1] == b[|b| - 1];
    }
  }

  lemma NothingButSpace(gap: string)
    requires AllSpace(gap) && Trim(gap)
    ensures gap == ""
  {
  }

  lemma EndTaken(s: string)
    requires ScanEnd(s).Some? && Trim(s)
    ensures var h := ScanEnd(s).value; s == HemisphereText(h) && (h.Some? ==> IsHemisphere(h.value))
  {
    if s != "" && IsHemisphere(s[0]) && AllSpace(s[1..]) {
      assert s == [s[0]] + s[1..];
      Rest([s[0]], s[1..]);
      NothingButSpace(s[1..]);
    } else {
      NothingButSpace(s);
    }
  }

  /** White space and an optional hemisphere at the end: without a hemisphere there is no white space either. */
  lemma EndingTaken(s: string) returns (gap: string)
    requires Trim(s) && ScanEnd(SkipSpace(s)).Some?
    ensures var h := ScanEnd(SkipSpace(s)).value;
      && s == gap + HemisphereText(h) && AllSpace(gap) && (h.Some? ==> IsHemisphere(h.value))
      && (h.None? ==> gap == "")
  {
    hide AllSpace, SkipSpace, IsSpace, NoSpaceFirst, ScanEnd, Trim;
    gap := Skipped(s);
    Rest(gap, SkipSpace(s));
    EndTaken(SkipSpace(s));
    if ScanEnd(SkipSpace(s)).value.None? {
      assert s == gap + "" == gap;
      NothingButSpace(gap);
    }
  }

  /** Seconds and the end: three gaps and the mark. */
  lemma SecondsTaken(s: string) returns (before: string, quote: string, after: string)
    requires Trim(s) && ScanSeconds(s).Some?
    ensures var (n, h) := ScanSeconds(s).value;
      && s == n.Text() + (before + (quote + (after + HemisphereText(h)))) && n.Ok()
      && AllSpace(before) && quote in {[DOUBLE_PRIME], "\"", "''"} && AllSpace(after)
      && (h.Some? ==> IsHemisphere(h.value)) && (h.None? ==> after == "")
  {
    hide SkipSpace, ScanNumber, ScanSecondQuote, ScanEnd, Num.Text, Num.Ok, HemisphereText, Trim;
    NumberTaken(s);
    var (n, rest) := ScanNumber(s).value;
    Rest(n.Text(), rest);
    before := Skipped(rest);
    Rest(before, SkipSpace(rest));
    quote := SecondQuoteTaken(SkipSpace(rest));
    var tail := ScanSecondQuote(SkipSpace(rest)).value;
    Rest(quote, tail);
    after := EndingTaken(tail);
  }

  // ---- the coordinates there are --------------------------------------------

  datatype Spelling =
    | Full(r: Reading, l: Layout)
    | NoSeconds(sign: string, degrees: Num, minutes: Num, l: Layout, h: Option<char>)
    | NoMinutes(sign: string, degrees: Num, l: Layout, h: Option<char>)
    | Unmarked(sign: string, afterSign: string, degrees: Num, gap: string, h: Option<char>)

  predicate Proper(sp: Spelling) {
    match sp
    case Full(r, l) => Fits(r, l)
    case NoSeconds(sign, d, m, l, h) => FitsWithoutSeconds(sign, d, m, l, h)
    case NoMinutes(sign, d, l, h) => FitsDegreesOnly(sign, d, l, h)
    case Unmarked(sign, afterSign, d, gap, h) => FitsPlain(sign, afterSign, d, gap, h)
  }

  function Spelled(sp: Spelling): string {
    match sp
    case Full(r, l) => Written(r, l, DEGREE)
    case NoSeconds(sign, d, m, l, h) => WithoutSeconds(sign, d, m, l, DEGREE, h)
    case NoMinutes(sign, d, l, h) => DegreesOnly(sign, d, l, DEGREE, h)
    case Unmarked(sign, afterSign, d, gap, h) => Plain(sign, afterSign, d, gap, h)
  }

  /** What the spelling says. */
  function Said(sp: Spelling): Fields {
    match sp
    case Full(r, l) => Fields(r.sign == "-", r.degrees, Some(r.minutes), Some(r.seconds), r.hemisphere)
    case NoSeconds(sign, d, m, l, h) => Fields(sign == "-", d, Some(m), None, h)
    case NoMinutes(sign, d, l, h) => Fields(sign == "-", d, None, None, h)
    case Unmarked(sign, afterSign, d, gap, h) => Fields(sign == "-", d, None, None, h)
  }

  lemma SpelledIsMatched(sp: Spelling)
    requires Proper(sp)
    ensures MatchCoordinate(Spelled(sp)) == Some(Said(sp)) && Strip(Spelled(sp)) == Spelled(sp) && Spelled(sp) != ""
  {
    hide MatchCoordinate, MatchGarbled, MatchAfterSign, GarbledAfterSign, Strip, Written, WithoutSeconds, DegreesOnly,
         DegreesBody, Body, SecondsText, HemisphereText, Num.Text, Tight;
    match sp
    case Full(r, l) =>
      WrittenIsStripped(r, l, DEGREE);
      CleanAfterSign(r.Minus(), r, l);
    case NoSeconds(sign, d, m, l, h) =>
      WithoutSecondsIsStripped(sign, d, m, l, DEGREE, h);
      CleanMinutesMatch(sign == "-", d, m, l, h);
    case NoMinutes(sign, d, l, h) =>
      DegreesOnlyIsStripped(sign, d, l, DEGREE, h);
      CleanDegreesMatch(sign == "-", d, l, h);
    case Unmarked(sign, afterSign, d, gap, h) =>
      PlainTight(d, gap, h);
      SignedIsStripped(sign, afterSign, d.Text() + (gap + HemisphereText(h)));
      PlainMatch(sign == "-", d, gap, h);
  }

  /** The sign, and the white space behind it. */
  lemma SignTaken(s: string) returns (sign: string, gap: string)
    requires NoSpaceFirst(s)
    ensures var (minus, rest) := ScanSign(SkipSpace(s));
      && sign in {"", "+", "-"} && minus == (sign == "-") && s == sign + (gap + SkipSpace(rest)) && AllSpace(gap)
      && (sign == "" ==> gap == "")
  {
    assert SkipSpace(s) == s;
    if s != "" && (s[0] == '+' || s[0] == '-') {
      sign := [s[0]];
      gap := Skipped(s[1..]);
      assert s == [s[0]] + s[1..];
    } else {
      sign, gap := "", "";
      assert s == sign + (gap + s);
    }
  }

  function Marks(beforeDegree: string, afterDegree: string): Layout {
    Layout("", beforeDegree, afterDegree, "", "", '\'', "", "", "\"")
  }

  /** From the degrees on: `sign` and `gap` are what stands before them. */
  lemma AfterSignIsSpelled(sign: string, gap: string, s: string) returns (sp: Spelling)
    requires sign in {"", "+", "-"} && AllSpace(gap) && (sign == "" ==> gap == "") && Trim(s)
    requires MatchAfterSign(sign == "-", s).Some?
    ensures Proper(sp) && Spelled(sp) == sign + (gap + s) && Some(Said(sp)) == MatchAfterSign(sign == "-", s)
  {
    hide SkipSpace, ScanNumber, ScanEnd, ScanMinuteQuote, ScanSeconds, HemisphereText, Num.Text, Num.Ok, AllSpace,
         MatchAfterDegree;
    NumberTaken(s);
    var (degrees, rest) := ScanNumber(s).value;
    Rest(degrees.Text(), rest);
    var t := SkipSpace(rest);
    if t != "" && t[0] == DEGREE {
      var before := Skipped(rest);
      Rest(before, t);
      assert t == [DEGREE] + t[1..];
      Rest([DEGREE], t[1..]);
      var after := Skipped(t[1..]);
      sp := AfterDegreeIsSpelled(sign, gap, degrees, before, after, SkipSpace(t[1..]));
    } else {
      var end := EndingTaken(rest);
      sp := Unmarked(sign, gap, degrees, end, ScanEnd(t).value);
    }
  }

  lemma AfterDegreeIsSpelled(sign: string, gap: string, degrees: Num, before: string, after: string, s: string)
    returns (sp: Spelling)
    requires sign in {"", "+", "-"} && AllSpace(gap) && (sign == "" ==> gap == "") && degrees.Ok()
    requires AllSpace(before) && AllSpace(after) && NoSpaceFirst(s) && Trim(after + s)
    requires MatchAfterDegree(sign == "-", degrees, s).Some?
    ensures Proper(sp) && Some(Said(sp)) == MatchAfterDegree(sign == "-", degrees, s)
    ensures Spelled(sp) == sign + (gap + (degrees.Text() + (before + ([DEGREE] + (after + s)))))
  {
    hide SkipSpace, ScanNumber, ScanEnd, ScanMinuteQuote, ScanSeconds, HemisphereText, Num.Text, Num.Ok, Trim;
    Rest(after, s);
    if ScanNumber(s).None? {
      EndTaken(s);
      var h := ScanEnd(s).value;
      if h.None? {
        assert s == "" by { NoHemisphere(); }
        assert after + s == after;
        NothingButSpace(after);
      }
      sp := NoMinutes(sign, degrees, Marks(before, after).(afterSign := gap), h);
    } else {
      NumberTaken(s);
      var (minutes, rest) := ScanNumber(s).value;
      Rest(minutes.Text(), rest);
      var b, q, a := MinuteQuoteTaken(rest);
      var t := ScanMinuteQuote(rest).value;
      Rest(b, [q] + (a + t));
      Rest([q], a + t);
      Rest(a, t);
      var l := Layout(gap, before, after, b, a, q, "", "", "\"");
      if ScanNumber(t).None? {
        EndTaken(t);
        var h := ScanEnd(t).value;
        if h.None? {
          assert t == "" by { NoHemisphere(); }
          assert a + t == a;
          NothingButSpace(a);
        }
        sp := NoSeconds(sign, degrees, minutes, l, h);
      } else {
        var b2, q2, a2 := SecondsTaken(t);
        var (seconds, h) := ScanSeconds(t).value;
        sp := Full(Reading(sign, degrees, minutes, seconds, h),
                   l.(beforeSecondQuote := b2, secondQuote := q2, afterSecondQuote := a2));
      }
    }
  }

  lemma NoHemisphere()
    ensures HemisphereText(None) == ""
  {
  }

  lemma MatchedIsSpelled(s: string) returns (sp: Spelling)
    requires NoSpaceFirst(s) && Trim(s) && MatchCoordinate(s).Some?
    ensures Proper(sp) && Spelled(sp) == s && MatchCoordinate(s) == Some(Said(sp))
  {
    hide MatchAfterSign, SkipSpace, ScanSign, Proper, Spelled, Said;
    var sign, gap := SignTaken(s);
    var body := SkipSpace(ScanSign(SkipSpace(s)).1);
    assert s == (sign + gap) + body;
    Rest(sign + gap, body);
    sp := AfterSignIsSpelled(sign, gap, body);
  }

  // ---- the readings with a misread degree sign ------------------------------

  /** Four digits or more where degrees, sign and minutes should be; the reading's own are not looked at. */
  function RunSpelled(r: Reading, l: Layout, run: string): string {
    r.sign + (l.afterSign + (run + MarkText(l, SecondsText(r, l))))
  }

  predicate FitsRun(r: Reading, l: Layout, run: string) { Fits(r, l) && AllDigits(run) && |run| >= 4 }

  lemma RunRead(minus: bool, run: string, r: Reading, l: Layout)
    requires r.Ok() && l.Ok() && AllDigits(run) && |run| >= 4
    ensures var body := run + MarkText(l, SecondsText(r, l));
      && GarbledAfterSign(minus, body) == Some(Garbled(minus, run, r.seconds, r.hemisphere))
      && MatchAfterSign(minus, body).None?
  {
    hide MatchAfterSign, SkipSpace, ScanNumber, ScanMinuteQuote, ScanSeconds, SecondsText, MarkText, DigitRun;
    var mark := MarkText(l, SecondsText(r, l));
    SecondsOver(r, l);
    MinuteQuoteOver(l, SecondsText(r, l));
    RunOver(run, mark);
    NumberOver(Num(run, ""), mark);
    CoordinateStuck(minus, run + mark);
  }

  lemma RunStarts(run: string, rest: string)
    requires AllDigits(run) && run != "" && Tight(rest)
    ensures run + rest != "" && IsDigit((run + rest)[0]) && Tight(run + rest)
  {
  }

  lemma RunSpelledIsMatched(r: Reading, l: Layout, run: string)
    requires FitsRun(r, l, run)
    ensures MatchGarbled(RunSpelled(r, l, run)) == Some(Garbled(r.sign == "-", run, r.seconds, r.hemisphere))
    ensures MatchCoordinate(RunSpelled(r, l, run)).None?
  {
    hide MarkText, SecondsText, MatchAfterSign, GarbledAfterSign, MatchCoordinate, MatchGarbled, Tight, Strip,
         AllDigits;
    RunRead(r.sign == "-", run, r, l);
    SecondsTight(r, l);
    TightMark(l, SecondsText(r, l));
    var mark := MarkText(l, SecondsText(r, l));
    RunStarts(run, mark);
    SignedIsStripped(r.sign, l.afterSign, run + mark);
  }

  lemma TightMark(l: Layout, tail: string)
    requires Tight(tail)
    ensures Tight(MarkText(l, tail))
  {
  }

  lemma GarbledIsSpelled(s: string) returns (r: Reading, l: Layout)
    requires NoSpaceFirst(s) && Trim(s) && MatchGarbled(s).Some?
    ensures FitsRun(r, l, MatchGarbled(s).value.run) && RunSpelled(r, l, MatchGarbled(s).value.run) == s
  {
    hide SkipSpace, ScanSign, GarbledAfterSign, RunSpelled, FitsRun;
    var sign, gap := SignTaken(s);
    var body := SkipSpace(ScanSign(SkipSpace(s)).1);
    assert s == (sign + gap) + body;
    Rest(sign + gap, body);
    r, l := RunAfterSign(sign, gap, body);
  }

  lemma RunAfterSign(sign: string, gap: string, s: string) returns (r: Reading, l: Layout)
    requires sign in {"", "+", "-"} && AllSpace(gap) && (sign == "" ==> gap == "") && Trim(s)
    requires GarbledAfterSign(sign == "-", s).Some?
    ensures var run := GarbledAfterSign(sign == "-", s).value.run;
      FitsRun(r, l, run) && RunSpelled(r, l, run) == sign + (gap + s)
  {
    hide SkipSpace, ScanSign, ScanMinuteQuote, ScanSeconds, HemisphereText, Num.Text, Num.Ok, DigitRun, Trim, AllSpace,
         AllDigits;
    var run := DigitRun(s);
    var rest := s[|run|..];
    assert s == run + rest;
    Rest(run, rest);
    var b, q, a := MinuteQuoteTaken(rest);
    var t := ScanMinuteQuote(rest).value;
    Rest(b, [q] + (a + t));
    Rest([q], a + t);
    Rest(a, t);
    var b2, q2, a2 := SecondsTaken(t);
    var (seconds, h) := ScanSeconds(t).value;
    r, l := Reading(sign, seconds, seconds, seconds, h), Layout(gap, "", "", b, a, q, b2, a2, q2);
    NoGaps();
  }

  lemma NoGaps()
    ensures AllSpace("")
  {
  }

  // ---- every text -----------------------------------------------------------

  ghost predicate IsCoordinate(s: string) { exists sp :: Proper(sp) && Spelled(sp) == s }

  ghost predicate IsGarbled(s: string) { exists r, l, run :: FitsRun(r, l, run) && RunSpelled(r, l, run) == s }

  lemma {:induction false} SpaceAtEnd(s: string, b: string)
    requires Trim(s) && AllSpace(b)
    ensures DropSpaceEnd(s + b) == s
  {
    if b == "" {
      assert s + b == s;
    } else {
      assert (s + b)[..|s + b| - 1] == s + b[..|b| - 1];
      SpaceAtEnd(s, b[..|b| - 1]);
    }
  }

  lemma SpaceAround(a: string, s: string, b: string)
    requires AllSpace(a) && AllSpace(b) && NoSpaceFirst(s) && Trim(s)
    ensures Strip(a + (s + b)) == s
  {
    if s == "" {
      assert a + (s + b) == (a + b) + "";
      SkipOver(a + b, "");
    } else {
      assert (s + b)[0] == s[0];
      SkipOver(a, s + b);
      SpaceAtEnd(s, b);
    }
  }

  /** What a spelling is worth. */
  function Worth(sp: Spelling): Outcome
    requires Proper(sp)
  {
    var f := Said(sp);
    var d := f.degrees.Amount();
    var m, s := if f.minutes.Some? then f.minutes.value.Amount() else 0.0,
                if f.seconds.Some? then f.seconds.value.Amount() else 0.0;
    if OnGlobe(d, m, s, f.hemisphere) then Ok(Towards(Places(d, m, s), f.minus, f.hemisphere), false) else Suspect
  }

  lemma ReadAsSpelled(sp: Spelling)
    requires Proper(sp)
    ensures ParseCoordinate(Spelled(sp)) == Worth(sp)
  {
    SpelledIsMatched(sp);
    Plainly();
    hide Spelled, Strip, MatchCoordinate, MatchGarbled, Possible, OnGlobe, Compose, Places, Signed, Towards, AxisMax,
         Limit, Num.Amount;
    MatchedFieldsOk(Spelled(sp));
  }

  /**
   * Every text, with the white space around it: nothing at all, or one of the spellings, which gives its worth, or
   * a run of digits for a misread degree sign, which alone may be recovered.  Anything else, a second coordinate
   * behind the first included, is malformed.
   */
  lemma EveryText(a: string, s: string, b: string)
    requires AllSpace(a) && AllSpace(b) && NoSpaceFirst(s) && Trim(s)
    ensures var o := ParseCoordinate(a + (s + b));
      && (o == NoNumber <==> s == "")
      && (o == Malformed <==> s != "" && !IsCoordinate(s) && !IsGarbled(s))
      && (IsCoordinate(s) ==> !IsGarbled(s) && s != "")
      && (forall sp :: Proper(sp) && Spelled(sp) == s ==> o == Worth(sp))
      && (o.Ok? && o.recovered <==> IsGarbled(s) && o.Ok?)
  {
    hide MatchCoordinate, MatchGarbled, Strip, Spelled, Proper, Worth, IsGarbled, IsCoordinate, ParseCoordinate;
    SpaceAround(a, s, b);
    SpaceAround("", s, "");
    assert "" + (s + "") == s;
    SameStripped(a + (s + b), s);
    SpelledExactly(s);
    ByPattern(s);
    forall sp | Proper(sp) && Spelled(sp) == s
      ensures ParseCoordinate(s) == Worth(sp)
    {
      ReadAsSpelled(sp);
    }
  }

  lemma SameStripped(a: string, b: string)
    requires Strip(a) == Strip(b)
    ensures ParseCoordinate(a) == ParseCoordinate(b)
  {
    hide Strip, MatchCoordinate, MatchGarbled;
    MatchedFieldsOk(Strip(a));
  }

  /** The kind of outcome, by the pattern that matches. */
  lemma ByPattern(s: string)
    requires Strip(s) == s
    ensures var o, clean, garbled := ParseCoordinate(s), MatchCoordinate(s).Some?, MatchGarbled(s).Some?;
      && (o == NoNumber <==> s == "")
      && (o == Malformed <==> s != "" && !clean && !garbled)
      && (o.Ok? && s != "" ==> (o.recovered <==> !clean && garbled))
  {
    hide Strip, MatchCoordinate, MatchGarbled;
    MatchedFieldsOk(s);
  }

  lemma SpelledExactly(s: string)
    requires NoSpaceFirst(s) && Trim(s)
    ensures IsCoordinate(s) <==> MatchCoordinate(s).Some?
    ensures MatchCoordinate(s).None? ==> (IsGarbled(s) <==> MatchGarbled(s).Some?)
    ensures IsGarbled(s) ==> MatchCoordinate(s).None?
    ensures MatchCoordinate(s).Some? ==> s != ""
  {
    hide MatchCoordinate, MatchGarbled, RunSpelled, Spelled, Proper, FitsRun;
    if MatchCoordinate(s).Some? {
      var sp := MatchedIsSpelled(s);
      SpelledIsMatched(sp);
    }
    if MatchGarbled(s).Some? {
      var r, l := GarbledIsSpelled(s);
    }
    forall sp | Proper(sp) && Spelled(sp) == s
      ensures MatchCoordinate(s).Some?
    {
      SpelledIsMatched(sp);
    }
    forall r, l, run | FitsRun(r, l, run) && RunSpelled(r, l, run) == s
      ensures MatchGarbled(s).Some? && MatchCoordinate(s).None?
    {
      RunSpelledIsMatched(r, l, run);
    }
  }

  /** White space is that of ASCII. */
  lemma SpaceMeans(c: char)
    ensures IsSpace(c) <==> c in {' ', '\t', '\n', '\U{000B}', '\U{000C}', '\r'}
  {
  }
}
