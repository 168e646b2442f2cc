/** Decimal and grouping marks of a number token (`_interpret` in src/screen2xyz_m2/parsing.py). */
module Separators {
  import opened Common
  import opened PointIds

  datatype Mode = PointMode | CommaMode | AutoMode

  function RunLength(s: string): (n: nat)
    ensures n <= |s| && AllDigits(s[..n]) && (n < |s| ==> !IsDigit(s[n]))
  {
    if s != "" && IsDigit(s[0]) then 1 + RunLength(s[1..]) else 0
  }

  /** The decimal mark and at least one digit, to the end. */
  predicate Fraction(s: string, mark: char) { |s| >= 2 && s[0] == mark && AllDigits(s[1..]) }

  /** Groups of three digits, each behind a grouping mark, then perhaps a fraction. */
  predicate Groups(s: string, group: char, mark: char) {
    && |s| >= 4 && s[0] == group && AllDigits(s[1..4])
    && (s[4..] == "" || Fraction(s[4..], mark) || Groups(s[4..], group, mark))
  }

  predicate Plain(body: string, mark: char) {
    var n := RunLength(body);
    n > 0 && (body[n..] == "" || Fraction(body[n..], mark))
  }

  predicate Grouped(body: string, group: char, mark: char) {
    var n := RunLength(body);
    1 <= n <= 3 && Groups(body[n..], group, mark)
  }

  /** Grouping marks dropped, the decimal mark written as a point. */
  function Canonical(s: string, group: char, mark: char): string {
    if s == "" then ""
    else (if s[0] == group then "" else if s[0] == mark then "." else [s[0]]) + Canonical(s[1..], group, mark)
  }

  function WithMarks(body: string, group: char, mark: char): Option<string> {
    if Plain(body, mark) || Grouped(body, group, mark) then Some(Canonical(body, group, mark)) else None
  }

  function SignOf(token: string): string {
    if token != "" && (token[0] == '+' || token[0] == '-') then [token[0]] else ""
  }

  function BodyOf(token: string): string { token[|SignOf(token)|..] }

  function Signed(sign: string, value: Option<string>): Option<string> {
    if value.Some? then Some(sign + value.value) else None
  }

  /** In automatic mode a token both modes can read counts only if they read the same. */
  function Interpret(token: string, mode: Mode): Option<string> {
    var sign, body := SignOf(token), BodyOf(token);
    var point, comma := WithMarks(body, ',', '.'), WithMarks(body, '.', ',');
    match mode
    case PointMode => Signed(sign, point)
    case CommaMode => Signed(sign, comma)
    case AutoMode =>
      if point.Some? && comma.Some? then (if point == comma then Signed(sign, point) else None)
      else if point.Some? then Signed(sign, point) else Signed(sign, comma)
  }

  // ---- when a token means two things ---------------------------------------------------------------

  /** One to three digits, one mark, exactly three digits: a fraction to one reader, thousands to the other. */
  predicate TwoMeanings(body: string) {
    var n := RunLength(body);
    1 <= n <= 3 && |body| == n + 4 && (body[n] == '.' || body[n] == ',') && AllDigits(body[n + 1..])
  }

  lemma {:induction false} CanonicalDigits(s: string, group: char, mark: char)
    requires AllDigits(s) && !IsDigit(group) && !IsDigit(mark)
    ensures Canonical(s, group, mark) == s
  {
    if s != "" {
      CanonicalDigits(s[1..], group, mark);
      assert s == [s[0]] + s[1..];
    }
  }

  lemma {:induction false} CanonicalJoin(a: string, b: string, group: char, mark: char)
    ensures Canonical(a + b, group, mark) == Canonical(a, group, mark) + Canonical(b, group, mark)
  {
    if a == "" {
      assert a + b == b;
    } else {
      assert (a + b)[0] == a[0] && (a + b)[1..] == a[1..] + b;
      CanonicalJoin(a[1..], b, group, mark);
    }
  }

  /** A fraction can also be read as groups exactly when it is one group. */
  lemma FractionAsGroups(s: string, mark: char, other: char)
    requires Fraction(s, mark) && !IsDigit(mark) && !IsDigit(other) && mark != other
    ensures Groups(s, mark, other) <==> |s| == 4
  {
  }

  lemma OnlyDigits(s: string)
    requires RunLength(s) == |s|
    ensures AllDigits(s)
  {
  }

  lemma GroupsStart(s: string, group: char, mark: char)
    requires Groups(s, group, mark)
    ensures s[0] == group
  {
  }

  /** One mark dropped, or written as a point. */
  lemma CanonicalOneMark(body: string, n: nat, group: char, mark: char)
    requires n < |body| && AllDigits(body[..n]) && AllDigits(body[n + 1..]) && !IsDigit(group) && !IsDigit(mark)
    requires group != mark && body[n] in {group, mark}
    ensures Canonical(body, group, mark) == body[..n] + ((if body[n] == group then "" else ".") + body[n + 1..])
  {
    var m := [body[n]];
    assert body == body[..n] + (m + body[n + 1..]);
    CanonicalJoin(body[..n], m + body[n + 1..], group, mark);
    CanonicalJoin(m, body[n + 1..], group, mark);
    CanonicalDigits(body[..n], group, mark);
    CanonicalDigits(body[n + 1..], group, mark);
    assert m[1..] == "" && Canonical("", group, mark) == "";
    assert Canonical(m, group, mark) == if body[n] == group then "" else ".";
  }

  lemma BothReadings(body: string)
    ensures WithMarks(body, ',', '.').Some? && WithMarks(body, '.', ',').Some?
       <==> (body != "" && RunLength(body) == |body|) || TwoMeanings(body)
  {
    var n := RunLength(body);
    var rest := body[n..];
    if n < |body| {
      assert rest[0] == body[n] && rest[1..] == body[n + 1..];
      if Fraction(rest, '.') {
        FractionAsGroups(rest, '.', ',');
      }
      if Fraction(rest, ',') {
        FractionAsGroups(rest, ',', '.');
      }
      if TwoMeanings(body) {
        assert Fraction(rest, body[n]);
      }
      if Groups(rest, ',', '.') {
        GroupsStart(rest, ',', '.');
      }
      if Groups(rest, '.', ',') {
        GroupsStart(rest, '.', ',');
      }
      hide Groups;
    }
  }

  /** Automatic mode refuses a token that some mode accepts exactly when the token has two meanings. */
  lemma AutoRefusesExactly(token: string)
    ensures Interpret(token, AutoMode).None?
       <==> (Interpret(token, PointMode).None? && Interpret(token, CommaMode).None?) || TwoMeanings(BodyOf(token))
  {
    var body := BodyOf(token);
    var n := RunLength(body);
    BothReadings(body);
    hide Plain, Grouped;
    if n == |body| {
      OnlyDigits(body);
      CanonicalDigits(body, ',', '.');
      CanonicalDigits(body, '.', ',');
    } else if TwoMeanings(body) {
      CanonicalOneMark(body, n, ',', '.');
      CanonicalOneMark(body, n, '.', ',');
      LengthsDiffer(body, n);
    }
  }

  lemma LengthsDiffer(body: string, n: nat)
    requires n < |body|
    ensures body[..n] + ("." + body[n + 1..]) != body[..n] + ("" + body[n + 1..])
  {
  }

  // ---- what a token is read as ---------------------------------------------------------------------

  /** A sign in front is kept in front of what the rest is read as. */
  lemma SignIsKept(sign: char, body: string, mode: Mode)
    requires sign == '+' || sign == '-'
    requires body != "" ==> body[0] != '+' && body[0] != '-'
    ensures var r := Interpret(body, mode);
      Interpret([sign] + body, mode) == if r.Some? then Some([sign] + r.value) else None
  {
    hide WithMarks;
    var token := [sign] + body;
    assert SignOf(token) == [sign] && token[1..] == body && BodyOf(token) == body;
    assert SignOf(body) == "" && BodyOf(body) == body;
    var point, comma := WithMarks(body, ',', '.'), WithMarks(body, '.', ',');
    assert point.Some? ==> "" + point.value == point.value;
    assert comma.Some? ==> "" + comma.value == comma.value;
  }

  /** Digits, and digits behind a mark: read with the decimal mark as a point. */
  lemma PlainIsRead(whole: string, fraction: string, mode: Mode, mark: char)
    requires AllDigits(whole) && whole != "" && AllDigits(fraction) && fraction != ""
    requires (mode.PointMode? && mark == '.') || (mode.CommaMode? && mark == ',')
    ensures Interpret(whole + ([mark] + fraction), mode) == Some(whole + ("." + fraction))
  {
    var body, n := whole + ([mark] + fraction), |whole|;
    RunIs(whole, [mark] + fraction);
    assert body[..n] == whole && body[n..] == [mark] + fraction && body[n + 1..] == fraction;
    assert Fraction(body[n..], mark);
    assert Plain(body, mark);
    assert SignOf(body) == "" && BodyOf(body) == body;
    CanonicalOneMark(body, n, if mark == '.' then ',' else '.', mark);
    assert "" + (whole + ("." + fraction)) == whole + ("." + fraction);
    hide Plain, Grouped, Canonical;
  }

  lemma {:induction false} RunIs(digits: string, rest: string)
    requires AllDigits(digits) && (rest != "" ==> !IsDigit(rest[0]))
    ensures RunLength(digits + rest) == |digits|
  {
    if digits == "" {
      assert digits + rest == rest;
    } else {
      assert (digits + rest)[1..] == digits[1..] + rest;
      RunIs(digits[1..], rest);
    }
  }

  /** Digits in groups, as in 1,234,567: read as the digits alone, with the mark that is not the decimal one. */
  function InGroups(head: string, groups: seq<string>, group: char): string {
    if groups == [] then head else InGroups(head, groups[..|groups| - 1], group) + ([group] + groups[|groups| - 1])
  }

  function TogetherFrom(head: string, groups: seq<string>): string {
    if groups == [] then head else TogetherFrom(head, groups[..|groups| - 1]) + groups[|groups| - 1]
  }

  predicate AreGroups(groups: seq<string>) {
    forall i :: 0 <= i < |groups| ==> |groups[i]| == 3 && AllDigits(groups[i])
  }

  lemma {:induction false} GroupsCanonical(head: string, groups: seq<string>, group: char, mark: char)
    requires AllDigits(head) && AreGroups(groups) && !IsDigit(group) && !IsDigit(mark)
    ensures Canonical(InGroups(head, groups, group), group, mark) == TogetherFrom(head, groups)
  {
    if groups == [] {
      CanonicalDigits(head, group, mark);
    } else {
      var n := |groups| - 1;
      var last := groups[n];
      GroupsCanonical(head, groups[..n], group, mark);
      CanonicalJoin(InGroups(head, groups[..n], group), [group] + last, group, mark);
      CanonicalDigits(last, group, mark);
      assert ([group] + last)[1..] == last && "" + last == last;
    }
  }

  function TailOf(groups: seq<string>, group: char): string {
    if groups == [] then "" else ([group] + groups[0]) + TailOf(groups[1..], group)
  }

  lemma {:induction false} TailSnoc(groups: seq<string>, g: string, group: char)
    ensures TailOf(groups + [g], group) == TailOf(groups, group) + ([group] + g)
  {
    if groups == [] {
      assert groups + [g] == [g] && [g][1..] == [];
      assert ([group] + g) + "" == "" + ([group] + g);
    } else {
      assert (groups + [g])[1..] == groups[1..] + [g];
      TailSnoc(groups[1..], g, group);
      var head := [group] + groups[0];
      assert head + (TailOf(groups[1..], group) + ([group] + g)) == (head + TailOf(groups[1..], group)) + ([group] + g);
    }
  }

  lemma {:induction false} InGroupsIs(head: string, groups: seq<string>, group: char)
    ensures InGroups(head, groups, group) == head + TailOf(groups, group)
  {
    if groups == [] {
      assert head + "" == head;
    } else {
      var n := |groups| - 1;
      InGroupsIs(head, groups[..n], group);
      TailSnoc(groups[..n], groups[n], group);
      assert groups == groups[..n] + [groups[n]];
    }
  }

  lemma {:induction false} TailIsGroups(groups: seq<string>, group: char, mark: char)
    requires AreGroups(groups) && groups != []
    ensures Groups(TailOf(groups, group), group, mark)
  {
    var s, rest := TailOf(groups, group), TailOf(groups[1..], group);
    var head := [group] + groups[0];
    assert s == head + rest && |head| == 4;
    assert s[1..4] == groups[0] && s[4..] == rest;
    if |groups| > 1 {
      assert AreGroups(groups[1..]);
      TailIsGroups(groups[1..], group, mark);
    }
  }

  lemma GroupsAreRead(head: string, groups: seq<string>, mode: Mode, group: char)
    requires AllDigits(head) && 1 <= |head| <= 3 && AreGroups(groups) && groups != []
    requires (mode.PointMode? && group == ',') || (mode.CommaMode? && group == '.')
    ensures Interpret(InGroups(head, groups, group), mode) == Some(TogetherFrom(head, groups))
  {
    var body, mark := InGroups(head, groups, group), if group == ',' then '.' else ',';
    InGroupsIs(head, groups, group);
    TailIsGroups(groups, group, mark);
    var tail := TailOf(groups, group);
    RunIs(head, tail);
    assert body[|head|..] == tail && Grouped(body, group, mark);
    assert SignOf(body) == "" && BodyOf(body) == body;
    GroupsCanonical(head, groups, group, mark);
    assert "" + TogetherFrom(head, groups) == TogetherFrom(head, groups);
    hide Plain, Grouped, Canonical, InGroups, TogetherFrom;
  }
}
