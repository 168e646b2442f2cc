/**
 * The journal on disk: one JSON object a line, appended by `RunJournal`, read
 * back by `read_journal` (src/screen2xyz_m2/journal.py) after any crash.
 */
module JournalFile {
  import opened Common
  import opened Framing
  import opened JsonText
  import opened PointIds
  import opened Utf8

  /**
   * How events become JSON objects and back.  `decode` stands for UTF-8 decoding
   * and json.loads, `seqNo` for event.get("event_seq").
   */
  datatype Codec<!E(!new)> = Codec(fields: E -> Fields, seqNo: E -> Option<int>, decode: Bytes -> Option<E>)

  const RETURN: Byte := 13

  /** What a file in text mode puts in front of a newline: a carriage return on Windows, nothing elsewhere. */
  type Ending = b: Bytes | b == [] || b == [RETURN]

  /**
   * Events dump to valid JSON and load back, also with the white space of a line ending behind them;
   * nothing loads whose brackets do not match.
   */
  ghost predicate Faithful<E(!new)>(c: Codec<E>) {
    && (forall e :: ValidFields(c.fields(e)) && c.decode(LineOf(c, e)) == Some(e) == c.decode(LineOf(c, e) + [RETURN]))
    && (forall b :: c.decode(b).Some? ==> Closed(b))
  }

  function LineOf<E(!new)>(c: Codec<E>, e: E): Bytes { Dumps(Object(c.fields(e))) }

  function LinesOf<E(!new)>(c: Codec<E>, ending: Ending, events: seq<E>): (r: seq<Bytes>)
    ensures |r| == |events| && forall i :: 0 <= i < |r| ==> r[i] == LineOf(c, events[i]) + ending
  {
    seq(|events|, i requires 0 <= i < |events| => LineOf(c, events[i]) + ending)
  }

  /** The file after these events were appended, each line with its ending and newline. */
  function FileOf<E(!new)>(c: Codec<E>, ending: Ending, events: seq<E>): Bytes { Written(LinesOf(c, ending, events)) }

  datatype Warning = PartialFinalLine | JournalMissing

  /** What read_journal returns, or the storage failure it raises. */
  datatype ReadResult<E> =
    | Read(events: seq<E>, warnings: seq<Warning>)
    | MalformedLine(line: nat)
    | SequenceBreak(line: nat)

  /** bytes.split on a newline: always one more piece than there are newlines. */
  function Split(raw: Bytes): (r: seq<Bytes>)
    ensures r != []
    decreases |raw|
  {
    var i := FirstNewline(raw);
    if i == |raw| then [raw] else [raw[..i]] + Split(raw[i + 1..])
  }

  predicate EndsWithNewline(raw: Bytes) { raw != [] && raw[|raw| - 1] == NEWLINE }

  /** Index of the last non-empty piece, or -1. */
  function LastNonEmpty(lines: seq<Bytes>): int {
    if lines == [] then -1
    else if lines[|lines| - 1] != [] then |lines| - 1
    else LastNonEmpty(lines[..|lines| - 1])
  }

  function ReadFrom<E(!new)>(c: Codec<E>, lines: seq<Bytes>, i: nat, last: int, terminated: bool,
                      events: seq<E>): ReadResult<E>
    requires i <= |lines|
    decreases |lines| - i
  {
    if i == |lines| then Read(events, [])
    else if lines[i] == [] then ReadFrom(c, lines, i + 1, last, terminated, events)
    else
      var e := c.decode(lines[i]);
      if e.None? then
        if i == last && !terminated then Read(events, [PartialFinalLine]) else MalformedLine(i + 1)
      else if c.seqNo(e.value) != Some(|events| + 1) then SequenceBreak(i + 1)
      else ReadFrom(c, lines, i + 1, last, terminated, events + [e.value])
  }

  function ReadBytes<E(!new)>(c: Codec<E>, raw: Bytes): ReadResult<E> {
    ReadFrom(c, Split(raw), 0, LastNonEmpty(Split(raw)), EndsWithNewline(raw), [])
  }

  /** read_journal; `raw` is None when the file does not exist. */
  method ReadJournal<E(!new)>(c: Codec<E>, raw: Option<Bytes>) returns (r: ReadResult<E>)
    ensures r == if raw.None? then Read([], [JournalMissing]) else ReadBytes(c, raw.value)
    ensures r.Read? ==> forall i :: 0 <= i < |r.events| ==> c.seqNo(r.events[i]) == Some(i + 1)
  {
    if raw.None? {
      return Read([], [JournalMissing]);
    }
    var lines, terminated := Split(raw.value), EndsWithNewline(raw.value);
    var lastNonEmpty := |lines| - 1;
    assert lines[..|lines|] == lines;
    while lastNonEmpty >= 0 && lines[lastNonEmpty] == []
      invariant -1 <= lastNonEmpty < |lines|
      invariant LastNonEmpty(lines) == LastNonEmpty(lines[..lastNonEmpty + 1])
    {
      assert lines[..lastNonEmpty + 1][..lastNonEmpty] == lines[..lastNonEmpty];
      lastNonEmpty := lastNonEmpty - 1;
    }
    var events: seq<E> := [];
    var index := 0;
    while index < |lines|
      invariant 0 <= index <= |lines|
      invariant forall i :: 0 <= i < |events| ==> c.seqNo(events[i]) == Some(i + 1)
      invariant ReadBytes(c, raw.value) == ReadFrom(c, lines, index, lastNonEmpty, terminated, events)
    {
      var line := lines[index];
      if line != [] {
        var isLast := index == lastNonEmpty && !terminated;
        var event := c.decode(line);
        if event.None? {
          if isLast {
            return Read(events, [PartialFinalLine]);
          }
          return MalformedLine(index + 1);
        }
        if c.seqNo(event.value) != Some(|events| + 1) {
          return SequenceBreak(index + 1);
        }
        events := events + [event.value];
      }
      index := index + 1;
    }
    r := Read(events, []);
  }

  // ---- reading a truncated file -----------------------------------------------------

  ghost predicate Newlineless(lines: seq<Bytes>) {
    forall i :: 0 <= i < |lines| ==> NEWLINE !in lines[i]
  }

  lemma SplitLine(line: Bytes, rest: Bytes)
    requires NEWLINE !in line
    ensures Split(line + [NEWLINE] + rest) == [line] + Split(rest)
  {
    SplitAtNewline(line, rest);
  }

  lemma SplitTail(tail: Bytes)
    requires NEWLINE !in tail
    ensures Split(tail) == [tail]
  {
  }

  lemma {:induction false} SplitWritten(lines: seq<Bytes>, tail: Bytes)
    requires Newlineless(lines) && NEWLINE !in tail
    ensures Split(Written(lines) + tail) == lines + [tail]
  {
    hide Split;
    if lines == [] {
      assert Written(lines) + tail == tail && lines + [tail] == [tail];
      SplitTail(tail);
    } else {
      var rest := Written(lines[1..]) + tail;
      SplitWritten(lines[1..], tail);
      assert Written(lines) + tail == lines[0] + [NEWLINE] + rest;
      SplitLine(lines[0], rest);
      assert lines + [tail] == [lines[0]] + (lines[1..] + [tail]);
    }
  }

  lemma {:induction false} WrittenEnds(lines: seq<Bytes>)
    ensures lines != [] ==> EndsWithNewline(Written(lines))
    ensures lines == [] ==> Written(lines) == []
  {
    if |lines| > 1 {
      WrittenEnds(lines[1..]);
    }
  }

  lemma {:induction false} WrittenAppend(lines: seq<Bytes>, line: Bytes)
    ensures Written(lines + [line]) == Written(lines) + line + [NEWLINE]
  {
    if lines == [] {
      assert [line][1..] == [];
    } else {
      assert (lines + [line])[1..] == lines[1..] + [line];
      WrittenAppend(lines[1..], line);
    }
  }

  /** Cutting a written file at byte `k`: whole lines, then a prefix of the next one. */
  lemma {:induction false} CutFile(lines: seq<Bytes>, k: nat) returns (m: nat, tail: Bytes)
    requires Newlineless(lines) && k <= |Written(lines)|
    ensures m <= |lines| && Written(lines)[..k] == Written(lines[..m]) + tail
    ensures tail != [] ==> m < |lines| && tail <= lines[m]
    ensures NEWLINE !in tail
  {
    hide Written;
    WrittenHead(lines);
    if lines == [] {
      m, tail := 0, [];
    } else {
      var l, w, rest := lines[0], Written(lines), Written(lines[1..]);
      if k <= |l| {
        m, tail := 0, l[..k];
        WrittenHead(lines[..0]);
        assert w[..k] == [] + tail;
      } else {
        m, tail := CutFile(lines[1..], k - |l| - 1);
        assert w[..k] == l + [NEWLINE] + rest[..k - |l| - 1];
        WrittenHead(lines[..m + 1]);
        assert lines[..m + 1][0] == l && lines[..m + 1][1..] == lines[1..][..m];
        Regrouped(l + [NEWLINE], Written(lines[1..][..m]), tail);
        m := m + 1;
      }
    }
  }

  lemma Regrouped(a: Bytes, b: Bytes, c: Bytes)
    ensures a + (b + c) == (a + b) + c
  {
  }

  lemma WrittenHead(lines: seq<Bytes>)
    ensures Written(lines) == if lines == [] then [] else lines[0] + [NEWLINE] + Written(lines[1..])
  {
  }

  /** A line of the file, from its own bytes to all of its ending, holds its event and no newline. */
  lemma LineHolds<E(!new)>(c: Codec<E>, e: E, ending: Ending)
    requires Faithful(c)
    ensures c.decode(LineOf(c, e) + ending) == Some(e) && LineOf(c, e) != []
    ensures NEWLINE !in LineOf(c, e) + ending
    ensures forall tail :: tail < LineOf(c, e) ==> c.decode(tail).None?
  {
    DumpedObject(c.fields(e));
    hide Dumps, Closed;
    var line := LineOf(c, e);
    assert line + [] == line;
    forall tail | tail < line
      ensures c.decode(tail).None?
    {
      assert tail == line[..|tail|];
    }
  }

  lemma NoNewlines<E(!new)>(c: Codec<E>, ending: Ending, events: seq<E>)
    requires Faithful(c)
    ensures Newlineless(LinesOf(c, ending, events))
  {
    hide LineOf;
    forall i | 0 <= i < |events|
      ensures NEWLINE !in LinesOf(c, ending, events)[i]
    {
      LineHolds(c, events[i], ending);
    }
  }

  /** Reading on over lines that hold consecutive events. */
  lemma {:induction false} ReadWholeLines<E(!new)>(c: Codec<E>, ending: Ending, events: seq<E>, more: seq<Bytes>,
                                                   i: nat, last: int, terminated: bool)
    requires Faithful(c) && i <= |events|
    requires forall k :: 0 <= k < |events| ==> c.seqNo(events[k]) == Some(k + 1)
    ensures ReadFrom(c, LinesOf(c, ending, events) + more, i, last, terminated, events[..i])
         == ReadFrom(c, LinesOf(c, ending, events) + more, |events|, last, terminated, events)
    decreases |events| - i
  {
    hide LineOf, Faithful;
    if i < |events| {
      var lines := LinesOf(c, ending, events) + more;
      assert lines[i] == LineOf(c, events[i]) + ending;
      LineHolds(c, events[i], ending);
      assert events[..i] + [events[i]] == events[..i + 1];
      ReadWholeLines(c, ending, events, more, i + 1, last, terminated);
    } else {
      assert events[..i] == events;
    }
  }

  /** Whole lines followed by an unterminated piece of one more line. */
  lemma ReadWholeLinesAndTail<E(!new)>(c: Codec<E>, ending: Ending, events: seq<E>, tail: Bytes)
    requires Faithful(c) && NEWLINE !in tail
    requires forall k :: 0 <= k < |events| ==> c.seqNo(events[k]) == Some(k + 1)
    ensures ReadBytes(c, FileOf(c, ending, events) + tail) ==
      if tail == [] then Read(events, [])
      else if c.decode(tail).None? then Read(events, [PartialFinalLine])
      else if c.seqNo(c.decode(tail).value) != Some(|events| + 1) then SequenceBreak(|events| + 1)
      else Read(events + [c.decode(tail).value], [])
  {
    var lines, raw := LinesOf(c, ending, events), FileOf(c, ending, events) + tail;
    NoNewlines(c, ending, events);
    SplitWritten(lines, tail);
    WrittenEnds(lines);
    assert tail != [] ==> raw[|raw| - 1] in tail;
    assert events[..0] == [];
    ReadWholeLines(c, ending, events, [tail], 0, LastNonEmpty(lines + [tail]), EndsWithNewline(raw));
  }

  // ---- a damaged line in the middle -------------------------------------------------

  lemma {:induction false} SplitBehind(lines: seq<Bytes>, rest: Bytes)
    requires Newlineless(lines)
    ensures Split(Written(lines) + rest) == lines + Split(rest)
  {
    hide Split;
    if lines == [] {
      assert Written(lines) + rest == rest && lines + Split(rest) == Split(rest);
    } else {
      var more := Written(lines[1..]) + rest;
      SplitBehind(lines[1..], rest);
      assert Written(lines) + rest == lines[0] + [NEWLINE] + more;
      SplitLine(lines[0], more);
      assert lines + Split(rest) == [lines[0]] + (lines[1..] + Split(rest));
    }
  }

  /** An unterminated text has a last piece that is not empty. */
  lemma {:induction false} SplitEnd(raw: Bytes)
    requires raw != [] && !EndsWithNewline(raw)
    ensures Split(raw)[|Split(raw)| - 1] != []
    decreases |raw|
  {
    var i := FirstNewline(raw);
    if i < |raw| {
      assert raw[i + 1..] != [] && raw[i + 1..][|raw| - i - 2] == raw[|raw| - 1];
      SplitEnd(raw[i + 1..]);
    }
  }

  /**
   * A line that does not load, or holds the wrong number, with a newline behind it: an error with the number of
   * the line, whatever follows, since only an unterminated last line is forgiven.
   */
  lemma BadLineIsNamed<E(!new)>(c: Codec<E>, ending: Ending, events: seq<E>, bad: Bytes, rest: Bytes)
    requires Faithful(c) && NEWLINE !in bad && bad != []
    requires forall k :: 0 <= k < |events| ==> c.seqNo(events[k]) == Some(k + 1)
    requires c.decode(bad).Some? ==> c.seqNo(c.decode(bad).value) != Some(|events| + 1)
    ensures ReadBytes(c, FileOf(c, ending, events) + (bad + [NEWLINE] + rest))
         == if c.decode(bad).None? then MalformedLine(|events| + 1) else SequenceBreak(|events| + 1)
  {
    var lines, raw := LinesOf(c, ending, events), FileOf(c, ending, events) + (bad + [NEWLINE] + rest);
    var pieces := Split(rest);
    NoNewlines(c, ending, events);
    SplitBehind(lines, bad + [NEWLINE] + rest);
    SplitLine(bad, rest);
    assert Split(raw) == lines + ([bad] + pieces);
    LastIsLater(lines, bad, rest, raw);
    hide Split, Written, LastNonEmpty, EndsWithNewline, LinesOf;
    var last, terminated := LastNonEmpty(Split(raw)), EndsWithNewline(raw);
    assert events[..0] == [];
    ReadWholeLines(c, ending, events, [bad] + pieces, 0, last, terminated);
    assert Split(raw)[|events|] == bad;
  }

  lemma LastIsLater(lines: seq<Bytes>, bad: Bytes, rest: Bytes, raw: Bytes)
    requires raw == Written(lines) + (bad + [NEWLINE] + rest)
    ensures EndsWithNewline(raw) || LastNonEmpty(lines + ([bad] + Split(rest))) > |lines|
  {
    hide Split, Written, LastNonEmpty;
    if rest == [] {
      assert raw[|raw| - 1] == NEWLINE;
    } else {
      assert raw[|raw| - 1] == rest[|rest| - 1];
      if !EndsWithNewline(rest) {
        SplitEnd(rest);
        var all := lines + ([bad] + Split(rest));
        assert all[|all| - 1] == Split(rest)[|Split(rest)| - 1];
        LastOfAll(all);
      }
    }
  }

  lemma LastOfAll(lines: seq<Bytes>)
    requires lines != [] && lines[|lines| - 1] != []
    ensures LastNonEmpty(lines) == |lines| - 1
  {
  }

  // ---- a journal cut off anywhere ---------------------------------------------------

  /**
   * However a journal of consecutively numbered events is cut off, reading it
   * raises nothing and returns a prefix of the events: exactly those whose lines
   * survive up to, at most, the final line ending.  The partial-line warning is
   * given exactly when bytes of a further line are left over.
   */
  lemma TruncatedJournal<E(!new)>(c: Codec<E>, ending: Ending, events: seq<E>, k: nat) returns (m: nat)
    requires Faithful(c) && k <= |FileOf(c, ending, events)|
    requires forall i :: 0 <= i < |events| ==> c.seqNo(events[i]) == Some(i + 1)
    ensures m <= |events| && |FileOf(c, ending, events[..m])| <= k + |ending| + 1
    ensures m < |events| ==> k + |ending| + 1 < |FileOf(c, ending, events[..m + 1])|
    ensures ReadBytes(c, FileOf(c, ending, events)[..k]) ==
      Read(events[..m], if k > |FileOf(c, ending, events[..m])| then [PartialFinalLine] else [])
  {
    hide ReadBytes, Written, Dumps, Closed, Split, LineOf, LinesOf;
    var n, tail := CutEvents(c, ending, events, k);
    var whole := events[..n];
    ReadWholeLinesAndTail(c, ending, whole, tail);
    FileAppend(c, ending, events, n);
    m := n;
    if n < |events| {
      LineHolds(c, events[n], ending);
      var line := LineOf(c, events[n]);
      if |tail| < |line| {
        assert tail == (line + ending)[..|tail|] == line[..|tail|];
      } else {
        WholeLine(c, events[n], ending, tail);
        m := n + 1;
        assert events[..m] == whole + [events[n]];
        FileAppend(c, ending, events, m);
      }
    }
  }

  /** A line cut within its ending still holds its event. */
  lemma WholeLine<E(!new)>(c: Codec<E>, e: E, ending: Ending, tail: Bytes)
    requires Faithful(c) && tail <= LineOf(c, e) + ending && |tail| >= |LineOf(c, e)|
    ensures tail != [] && c.decode(tail) == Some(e)
  {
    LineHolds(c, e, ending);
    LineHolds(c, e, []);
    hide LineOf;
    var line := LineOf(c, e);
    assert tail == (line + ending)[..|tail|];
    assert tail == line + [] || tail == line + ending;
  }

  /** Cutting the file of these events: whole events, then a prefix of the next one's line. */
  lemma CutEvents<E(!new)>(c: Codec<E>, ending: Ending, events: seq<E>, k: nat) returns (n: nat, tail: Bytes)
    requires Faithful(c) && k <= |FileOf(c, ending, events)|
    ensures n <= |events| && FileOf(c, ending, events)[..k] == FileOf(c, ending, events[..n]) + tail
    ensures tail != [] ==> n < |events|
    ensures n < |events| ==> tail <= LineOf(c, events[n]) + ending
    ensures NEWLINE !in tail
  {
    var lines := LinesOf(c, ending, events);
    NoNewlines(c, ending, events);
    n, tail := CutFile(lines, k);
    assert LinesOf(c, ending, events[..n]) == lines[..n];
  }

  /** One more event adds its line, its ending and a newline. */
  lemma FileAppend<E(!new)>(c: Codec<E>, ending: Ending, events: seq<E>, n: nat)
    requires n <= |events|
    ensures n < |events| ==>
      FileOf(c, ending, events[..n + 1]) == FileOf(c, ending, events[..n]) + (LineOf(c, events[n]) + ending) + [NEWLINE]
      && LineOf(c, events[n]) != []
  {
    if n < |events| {
      var lines := LinesOf(c, ending, events[..n]);
      assert LinesOf(c, ending, events[..n + 1]) == lines + [LineOf(c, events[n]) + ending];
      WrittenAppend(lines, LineOf(c, events[n]) + ending);
    }
  }

  // ---- a faithful codec ----------------------------------------------------------------

  const EVENT_SEQ: seq<CodePoint> := [101, 118, 101, 110, 116, 95, 115, 101, 113]

  function DigitBytes(s: string): (r: Bytes)
    requires AllDigits(s)
    ensures |r| == |s| && forall i :: 0 <= i < |r| ==> 48 <= r[i] <= 57 && r[i] == 48 + DigitValue(s[i])
  {
    seq(|s|, i requires 0 <= i < |s| => 48 + DigitValue(s[i]))
  }

  /** The object that holds nothing but its number. */
  function NumberFields(n: nat): Fields {
    DigitsRoundTrip(n);
    Field(EVENT_SEQ, Number(DigitBytes(Digits(n))), NoFields)
  }

  function NumberLine(n: nat): Bytes { Dumps(Object(NumberFields(n))) }

  ghost predicate Holds(b: Bytes, n: nat) { b == NumberLine(n) || b == NumberLine(n) + [RETURN] }

  ghost function LoadNumber(b: Bytes): Option<nat> {
    if exists n :: Holds(b, n) then
      var n :| Holds(b, n);
      Some(n)
    else None
  }

  ghost function NumberCodec(): Codec<nat> { Codec(NumberFields, (n: nat) => Some(n), LoadNumber) }

  lemma OneField(name: seq<CodePoint>, digits: Bytes)
    ensures DumpsFields(Field(name, Number(digits), NoFields)) == Quoted(name) + [58, 32] + digits
  {
    hide Quoted;
    assert Dumps(Number(digits)) == digits && DumpsFields(NoFields) == [];
  }

  lemma NumberLineText(n: nat)
    ensures AllDigits(Digits(n))
    ensures NumberLine(n) == [123] + (Quoted(EVENT_SEQ) + [58, 32] + DigitBytes(Digits(n))) + [125]
  {
    hide Quoted, DigitBytes, Digits, DumpsFields;
    DigitsRoundTrip(n);
    OneField(EVENT_SEQ, DigitBytes(Digits(n)));
  }

  lemma SameNumber(m: nat, n: nat)
    requires NumberLine(m) == NumberLine(n)
    ensures m == n
  {
    hide Quoted, NumberLine, Value, Digits;
    NumberLineText(m);
    NumberLineText(n);
    DigitsRoundTrip(m);
    DigitsRoundTrip(n);
    var head := [123] + (Quoted(EVENT_SEQ) + [58, 32]);
    var a, b := DigitBytes(Digits(m)), DigitBytes(Digits(n));
    assert a == NumberLine(m)[|head|..|NumberLine(m)| - 1] == b;
    forall i | 0 <= i < |Digits(m)|
      ensures Digits(m)[i] == Digits(n)[i]
    {
      assert a[i] == b[i];
    }
    assert Digits(m) == Digits(n);
  }

  lemma ReturnTellsApart(m: nat, n: nat)
    ensures NumberLine(m) + [RETURN] != NumberLine(n)
  {
    hide NumberLine, Quoted;
    NumberLineText(n);
    assert NumberLine(n)[|NumberLine(n)| - 1] == 125;
    var line := NumberLine(m) + [RETURN];
    assert line[|line| - 1] == RETURN;
  }

  lemma OneNumber(b: Bytes, m: nat, n: nat)
    requires Holds(b, m) && Holds(b, n)
    ensures m == n
  {
    hide NumberLine;
    ReturnTellsApart(m, n);
    ReturnTellsApart(n, m);
    assert NumberLine(m) == NumberLine(n) by {
      if b != NumberLine(m) {
        assert NumberLine(m) == b[..|b| - 1] == NumberLine(n);
      }
    }
    SameNumber(m, n);
  }

  lemma ClosedWithReturn(line: Bytes)
    requires Closed(line)
    ensures Closed(line + [RETURN])
  {
    ScanConcat(Outside(0), line, [RETURN]);
    assert ScanAll(Outside(0), [RETURN]) == Step(Outside(0), RETURN);
  }

  lemma HeldIsClosed(b: Bytes, n: nat)
    requires Holds(b, n)
    ensures Closed(b)
  {
    hide Dumps, Closed;
    NumberValid(n);
    DumpedObject(NumberFields(n));
    ClosedWithReturn(NumberLine(n));
  }

  lemma NumberValid(n: nat)
    ensures ValidFields(NumberFields(n))
  {
    DigitsRoundTrip(n);
    var digits := DigitBytes(Digits(n));
    assert forall b :: b in digits ==> Inert(b);
    assert ValidJson(Number(digits)) && ValidFields(NoFields);
  }

  /** The promise asked of a codec can be kept: by the one for objects that hold only their number. */
  lemma FaithfulCodecExists()
    ensures Faithful(NumberCodec()) && forall n: nat :: NumberCodec().seqNo(n) == Some(n)
  {
    hide Dumps, Closed, NumberFields;
    var c := NumberCodec();
    forall n: nat
      ensures ValidFields(c.fields(n)) && c.decode(LineOf(c, n)) == Some(n) == c.decode(LineOf(c, n) + [RETURN])
    {
      NumberValid(n);
      Loads(NumberLine(n), n);
      Loads(NumberLine(n) + [RETURN], n);
    }
    forall b | c.decode(b).Some?
      ensures Closed(b)
    {
      HeldIsClosed(b, c.decode(b).value);
    }
  }

  lemma Loads(b: Bytes, n: nat)
    requires Holds(b, n)
    ensures LoadNumber(b) == Some(n)
  {
    hide Holds;
    OneNumber(b, LoadNumber(b).value, n);
  }
}
