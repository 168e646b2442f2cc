/**
 * Line framing of the capture worker's stdout (src/screen2xyz_m2/worker.py).
 *
 * `Frames` reads a complete byte stream; `ReadStdout` is the reader thread, fed
 * with the same bytes in arbitrary chunks.
 */
module Framing {
  import opened Common

  const JSON_LINE_MAX_BYTES := 96 * MIB

  /** What the reader puts on its queue: a decoded message, or the end marker. */
  datatype Item<J> = Message(json: J) | End

  /** What a line of at most the allowed length amounts to once decoded and stripped. */
  datatype Line<J> = Blank | Parsed(item: Item<J>) | Malformed

  /** Index of the first newline, or the length of the buffer when there is none. */
  function FirstNewline(s: Bytes): (i: nat)
    ensures i <= |s| && (i < |s| ==> s[i] == NEWLINE)
    ensures forall k :: 0 <= k < i ==> s[k] != NEWLINE
  {
    if s == [] || s[0] == NEWLINE then 0 else 1 + FirstNewline(s[1..])
  }

  datatype Complaint = LineTooLong | LineMalformed

  /** The items put on the queue, end markers included, and the lines noted on stderr. */
  datatype Output<J> = Output(items: seq<Item<J>>, complaints: seq<Complaint>)

  function After<J>(items: seq<Item<J>>, o: Output<J>): Output<J> {
    o.(items := items + o.items)
  }

  /** Everything the reader thread makes of a complete byte stream. */
  function Frames<J>(stream: Bytes, interpret: Bytes -> Line<J>): Output<J>
    decreases |stream|
  {
    var i := FirstNewline(stream);
    if i > JSON_LINE_MAX_BYTES then Output([End, End], [LineTooLong])
    else if i == |stream| then Output([End], [])
    else
      match interpret(stream[..i])
      case Blank => Frames(stream[i + 1..], interpret)
      case Parsed(item) => After([item], Frames(stream[i + 1..], interpret))
      case Malformed => Output([End, End], [LineMalformed])
  }

  function Concat(chunks: seq<Bytes>): Bytes {
    if chunks == [] then [] else chunks[0] + Concat(chunks[1..])
  }

  /** Reading `line`, a newline, and then `rest`. */
  lemma SplitAtNewline(line: Bytes, rest: Bytes)
    requires NEWLINE !in line
    ensures var s := line + [NEWLINE] + rest;
      FirstNewline(s) == |line| < |s| && s[..|line|] == line && s[|line| + 1..] == rest
  {
    var s := line + [NEWLINE] + rest;
    assert s[|line|] == NEWLINE;
    assert forall k :: 0 <= k < |line| ==> s[k] == line[k];
  }

  function OneLine<J>(line: Bytes, rest: Output<J>, interpret: Bytes -> Line<J>): Output<J> {
    if |line| > JSON_LINE_MAX_BYTES then Output([End, End], [LineTooLong])
    else
      match interpret(line)
      case Blank => rest
      case Parsed(item) => After([item], rest)
      case Malformed => Output([End, End], [LineMalformed])
  }

  lemma FramesOfLine<J>(line: Bytes, rest: Bytes, interpret: Bytes -> Line<J>)
    requires NEWLINE !in line
    ensures Frames(line + [NEWLINE] + rest, interpret) == OneLine(line, Frames(rest, interpret), interpret)
  {
    SplitAtNewline(line, rest);
  }

  /** An unterminated rest: too long however it continues, or nothing at end of file. */
  lemma FramesOfTail<J>(tail: Bytes, rest: Bytes, interpret: Bytes -> Line<J>)
    requires NEWLINE !in tail
    ensures |tail| > JSON_LINE_MAX_BYTES ==> Frames(tail + rest, interpret) == Output([End, End], [LineTooLong])
    ensures |tail| <= JSON_LINE_MAX_BYTES ==> Frames(tail, interpret) == Output([End], [])
  {
  }

  class StdoutReader<J> {
    const interpret: Bytes -> Line<J>
    var buffer: Bytes
    var queue: seq<Item<J>>
    var stderrLines: seq<Complaint>
    ghost var peak: nat

    constructor (interpret: Bytes -> Line<J>)
      ensures this.interpret == interpret && Idle()
    {
      this.interpret := interpret;
      buffer, queue, stderrLines, peak := [], [], [], 0;
    }

    predicate Idle()
      reads this
    {
      buffer == [] && queue == [] && stderrLines == []
    }

    /**
     * The reader thread: each element of `chunks` is one non-empty result of
     * read1, their end is end of file.  What is queued and noted depends on the
     * bytes alone, and the buffer never holds more than the cap and one chunk.
     */
    method ReadStdout(chunks: seq<Bytes>, chunkBound: nat)
      requires Idle() && peak == 0
      requires forall c :: c in chunks ==> 0 < |c| <= chunkBound
      modifies this
      ensures Output(queue, stderrLines) == Frames(Concat(chunks), interpret)
      ensures peak <= JSON_LINE_MAX_BYTES + chunkBound
    {
      hide Frames;
      ghost var whole := Frames(Concat(chunks), interpret);
      var n := 0;
      assert chunks[0..] == chunks && buffer + Concat(chunks) == Concat(chunks);
      while n < |chunks|
        invariant 0 <= n <= |chunks|
        invariant NEWLINE !in buffer && |buffer| <= JSON_LINE_MAX_BYTES
        invariant After(queue, Frames(buffer + Concat(chunks[n..]), interpret)) == whole
        invariant stderrLines == [] && peak <= JSON_LINE_MAX_BYTES + chunkBound
      {
        assert chunks[n] in chunks;
        assert chunks[n..][1..] == chunks[n + 1..];
        assert buffer + Concat(chunks[n..]) == (buffer + chunks[n]) + Concat(chunks[n + 1..]);
        buffer := buffer + chunks[n];
        peak := if |buffer| > peak then |buffer| else peak;
        n := n + 1;
        var failed := TakeLines(Concat(chunks[n..]), whole);
        if failed {
          queue := queue + [End];
          return;
        }
      }
      assert buffer + Concat(chunks[n..]) == buffer;
      FramesOfTail(buffer, [], interpret);
      queue := queue + [End];
    }

    /** The inner loop: takes complete lines off the buffer; true when the thread must stop. */
    method TakeLines(ghost rest: Bytes, ghost whole: Output<J>) returns (failed: bool)
      requires After(queue, Frames(buffer + rest, interpret)) == whole && stderrLines == []
      modifies `buffer, `queue, `stderrLines
      ensures failed ==> Output(queue + [End], stderrLines) == whole
      ensures !failed ==>
        && NEWLINE !in buffer && |buffer| <= JSON_LINE_MAX_BYTES
        && After(queue, Frames(buffer + rest, interpret)) == whole && stderrLines == []
    {
      hide Frames;
      while true
        invariant After(queue, Frames(buffer + rest, interpret)) == whole && stderrLines == []
        decreases |buffer|
      {
        var newline := FirstNewline(buffer);
        if newline == |buffer| {
          if |buffer| > JSON_LINE_MAX_BYTES {
            FramesOfTail(buffer, rest, interpret);
            stderrLines := stderrLines + [LineTooLong];
            queue := queue + [End];
            return true;
          }
          return false;
        }
        var raw := buffer[..newline];
        assert buffer + rest == raw + [NEWLINE] + (buffer[newline + 1..] + rest);
        buffer := buffer[newline + 1..];
        FramesOfLine(raw, buffer + rest, interpret);
        if |raw| > JSON_LINE_MAX_BYTES {
          stderrLines := stderrLines + [LineTooLong];
          queue := queue + [End];
          return true;
        }
        var line := interpret(raw);
        if line.Parsed? {
          queue := queue + [line.item];
        } else if line.Malformed? {
          stderrLines := stderrLines + [LineMalformed];
          queue := queue + [End];
          return true;
        }
      }
    }
  }

  // ---- what the framing means -----------------------------------------------------

  /** A writer that ends every line, and writes no newline inside one. */
  function Written(lines: seq<Bytes>): Bytes {
    if lines == [] then [] else lines[0] + [NEWLINE] + Written(lines[1..])
  }

  function Decoded<J>(lines: seq<Bytes>, interpret: Bytes -> Line<J>): seq<Item<J>> {
    if lines == [] then []
    else (if interpret(lines[0]).Parsed? then [interpret(lines[0]).item] else []) + Decoded(lines[1..], interpret)
  }

  ghost predicate Framable<J>(lines: seq<Bytes>, interpret: Bytes -> Line<J>) {
    forall l :: l in lines ==> NEWLINE !in l && |l| <= JSON_LINE_MAX_BYTES && interpret(l) != Malformed
  }

  lemma AfterAfter<J>(a: seq<Item<J>>, b: seq<Item<J>>, o: Output<J>)
    ensures After(a, After(b, o)) == After(a + b, o)
    ensures After([], o) == o
  {
  }

  /** Well-formed lines come out one by one and in order, before whatever follows them. */
  lemma {:induction false} FramesOfLines<J>(lines: seq<Bytes>, rest: Bytes, interpret: Bytes -> Line<J>)
    requires Framable(lines, interpret)
    ensures Frames(Written(lines) + rest, interpret) == After(Decoded(lines, interpret), Frames(rest, interpret))
  {
    hide Frames;
    if lines == [] {
      assert Written(lines) + rest == rest;
      assert After(Decoded(lines, interpret), Frames(rest, interpret)) == Frames(rest, interpret);
    } else {
      var l := lines[0];
      assert l in lines;
      FramesOfLines(lines[1..], rest, interpret);
      assert Written(lines) + rest == l + [NEWLINE] + (Written(lines[1..]) + rest);
      FramesOfLine(l, Written(lines[1..]) + rest, interpret);
      var first := if interpret(l).Parsed? then [interpret(l).item] else [];
      AfterAfter(first, Decoded(lines[1..], interpret), Frames(rest, interpret));
    }
  }

  /** Round trip: every line in order and one end marker; an unterminated last line is never delivered. */
  lemma FramingRoundTrip<J>(lines: seq<Bytes>, tail: Bytes, interpret: Bytes -> Line<J>)
    requires Framable(lines, interpret) && NEWLINE !in tail && |tail| <= JSON_LINE_MAX_BYTES
    ensures Frames(Written(lines) + tail, interpret) == Output(Decoded(lines, interpret) + [End], [])
  {
    FramesOfLines(lines, tail, interpret);
    FramesOfTail(tail, [], interpret);
  }

  /** The first bad line ends everything: what came before it is delivered, nothing after it is. */
  lemma BadLineStopsTheStream<J>(lines: seq<Bytes>, bad: Bytes, rest: Bytes, interpret: Bytes -> Line<J>)
    requires Framable(lines, interpret) && NEWLINE !in bad
    requires |bad| > JSON_LINE_MAX_BYTES || interpret(bad) == Malformed
    ensures Frames(Written(lines) + (bad + [NEWLINE] + rest), interpret)
         == Output(Decoded(lines, interpret) + [End, End],
                   [if |bad| > JSON_LINE_MAX_BYTES then LineTooLong else LineMalformed])
  {
    FramesOfLines(lines, bad + [NEWLINE] + rest, interpret);
    FramesOfLine(bad, rest, interpret);
  }
}
