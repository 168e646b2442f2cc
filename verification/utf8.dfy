/**
 * UTF-8, and the bounded raw text the parser keeps (`bound_raw` in
 * src/screen2xyz_m2/parsing.py).
 */
module Utf8 {
  import opened Common

  const RAW_OCR_MAX_BYTES := 4096

  /** A Unicode scalar value. */
  type CodePoint = c: int | 0 <= c < 0x11_0000 && !(0xD800 <= c < 0xE000)

  predicate IsContinuation(b: Byte) { 0x80 <= b < 0xC0 }

  function EncodeChar(c: CodePoint): (r: Bytes)
    ensures 1 <= |r| <= 4 && !IsContinuation(r[0])
    ensures forall k :: 1 <= k < |r| ==> IsContinuation(r[k])
    ensures c < 0x80 ==> r == [c]
    ensures c >= 0x80 ==> forall k :: 0 <= k < |r| ==> r[k] >= 0x80
  {
    if c < 0x80 then [c]
    else if c < 0x800 then [0xC0 + c / 64, 0x80 + c % 64]
    else if c < 0x1_0000 then [0xE0 + c / 4096, 0x80 + c / 64 % 64, 0x80 + c % 64]
    else [0xF0 + c / 262144, 0x80 + c / 4096 % 64, 0x80 + c / 64 % 64, 0x80 + c % 64]
  }

  function Encode(text: seq<CodePoint>): Bytes {
    if text == [] then [] else EncodeChar(text[0]) + Encode(text[1..])
  }

  /** Number of bytes the character starting with this byte takes. */
  function Width(lead: Byte): nat {
    if lead < 0x80 then 1 else if lead < 0xE0 then 2 else if lead < 0xF0 then 3 else 4
  }

  function DecodeChar(b: Bytes): int
    requires b != [] && |b| >= Width(b[0])
  {
    var w := Width(b[0]);
    if w == 1 then b[0]
    else if w == 2 then Join(b[0] as int - 0xC0, b[1])
    else if w == 3 then Join(Join(b[0] as int - 0xE0, b[1]), b[2])
    else Join(Join(Join(b[0] as int - 0xF0, b[1]), b[2]), b[3])
  }

  /** Six more bits from a continuation byte. */
  function Join(high: int, low: int): int { high * 64 + low - 0x80 }

  /** Strict decoding; None where Python raises UnicodeDecodeError for a cut-off character. */
  function Decode(b: Bytes): Option<seq<int>> {
    if b == [] then Some([])
    else if |b| < Width(b[0]) then None
    else
      var rest := Decode(b[Width(b[0])..]);
      if rest.None? then None else Some([DecodeChar(b)] + rest.value)
  }

  lemma Sextets(c: nat)
    ensures c == c / 64 * 64 + c % 64
    ensures c / 64 == c / 4096 * 64 + c / 64 % 64
    ensures c / 4096 == c / 262144 * 64 + c / 4096 % 64
  {
  }

  lemma DecodeAlone(c: CodePoint)
    ensures var e := EncodeChar(c); Width(e[0]) == |e| && DecodeChar(e) == c
  {
    Sextets(c);
  }

  /** What follows a character does not matter. */
  lemma DecodeAhead(e: Bytes, rest: Bytes)
    requires e != [] && |e| >= Width(e[0])
    ensures (e + rest)[0] == e[0] && DecodeChar(e + rest) == DecodeChar(e)
  {
    assert forall k :: 0 <= k < |e| ==> (e + rest)[k] == e[k];
    hide Join;
  }

  lemma DecodeEncodeChar(c: CodePoint, rest: Bytes)
    ensures var b := EncodeChar(c) + rest;
      Width(b[0]) == |EncodeChar(c)| && DecodeChar(b) == c && b[Width(b[0])..] == rest
  {
    hide DecodeChar, EncodeChar, Width;
    DecodeAlone(c);
    DecodeAhead(EncodeChar(c), rest);
  }

  lemma {:induction false} DecodeEncode(text: seq<CodePoint>)
    ensures Decode(Encode(text)) == Some(text)
  {
    hide DecodeChar, EncodeChar;
    if text != [] {
      assert text == [text[0]] + text[1..];
      DecodeEncode(text[1..]);
      DecodeEncodeChar(text[0], Encode(text[1..]));
    }
  }

  lemma {:induction false} EncodeSplit(text: seq<CodePoint>, n: nat)
    requires n <= |text|
    ensures Encode(text) == Encode(text[..n]) + Encode(text[n..])
  {
    if n > 0 {
      EncodeSplit(text[1..], n - 1);
      assert text[1..][..n - 1] == text[..n][1..];
      assert text[1..][n - 1..] == text[n..];
    }
  }

  datatype RawBound = RawBound(text: seq<int>, truncated: bool, originalBytes: nat)

  /** The longest prefix of whole characters whose encoding fits. */
  ghost predicate LongestFitting(text: seq<CodePoint>, n: nat, bound: nat) {
    && n <= |text| && |Encode(text[..n])| <= bound
    && (n < |text| ==> |Encode(text[..n + 1])| > bound)
  }

  lemma EncodeOne(c: CodePoint)
    ensures Encode([c]) == EncodeChar(c)
  {
  }

  lemma EncodeAround(text: seq<CodePoint>, n: nat)
    requires n < |text|
    ensures Encode(text) == Encode(text[..n]) + EncodeChar(text[n]) + Encode(text[n + 1..])
    ensures Encode(text[..n + 1]) == Encode(text[..n]) + EncodeChar(text[n])
  {
    hide Encode, EncodeChar;
    EncodeSplit(text, n + 1);
    EncodeSplit(text[..n + 1], n);
    HeadSplit(text, n);
    EncodeOne(text[n]);
  }

  lemma HeadSplit(s: seq<CodePoint>, n: nat)
    requires n < |s|
    ensures s[..n + 1][..n] == s[..n] && s[..n + 1][n..] == [s[n]]
  {
  }

  /** Where position `cut` falls: in the character that starts at or before it and ends after it. */
  lemma {:induction false} CharacterAt(text: seq<CodePoint>, cut: nat) returns (n: nat)
    requires cut < |Encode(text)|
    ensures n < |text| && |Encode(text[..n])| <= cut < |Encode(text[..n])| + |EncodeChar(text[n])|
  {
    var w := |EncodeChar(text[0])|;
    if cut < w {
      n := 0;
    } else {
      var m := CharacterAt(text[1..], cut - w);
      n := m + 1;
      EncodeSplit(text[..n], 1);
      assert text[..n][1..] == text[1..][..m] && text[..n][..1] == [text[0]];
      assert Encode([text[0]]) == EncodeChar(text[0]);
    }
  }

  /** Walking back over continuation bytes from inside a character ends at its first byte. */
  method WalkBack(data: Bytes, bound: nat, ghost start: nat, ghost piece: Bytes) returns (cut: nat)
    requires start <= bound < start + |piece| <= |data| && |piece| <= 4
    requires data[start..start + |piece|] == piece
    requires !IsContinuation(piece[0]) && forall k :: 1 <= k < |piece| ==> IsContinuation(piece[k])
    ensures cut == start
  {
    cut := bound;
    assert data[start] == data[start..start + |piece|][0];
    forall k | start < k < start + |piece|
      ensures IsContinuation(data[k])
    {
      assert data[k] == data[start..start + |piece|][k - start];
    }
    if IsContinuation(data[cut]) {
      while cut > 0 && IsContinuation(data[cut - 1])
        invariant start < cut <= bound
      {
        cut := cut - 1;
      }
      if cut > 0 {
        cut := cut - 1;
      }
    }
  }

  /** The parser's bounded copy: the longest prefix of whole characters within the byte bound. */
  method BoundRaw(text: seq<CodePoint>) returns (r: RawBound)
    ensures r.originalBytes == |Encode(text)| && r.truncated == (|Encode(text)| > RAW_OCR_MAX_BYTES)
    ensures r.text <= text && LongestFitting(text, |r.text|, RAW_OCR_MAX_BYTES)
  {
    var data := Encode(text);
    if |data| <= RAW_OCR_MAX_BYTES {
      assert text[..|text|] == text;
      return RawBound(text, false, |data|);
    }
    ghost var n := CharacterAt(text, RAW_OCR_MAX_BYTES);
    EncodeAround(text, n);
    ghost var before, piece := Encode(text[..n]), EncodeChar(text[n]);
    assert data[..|before|] == before;
    assert data[|before|..|before| + |piece|] == piece;
    var cut := WalkBack(data, RAW_OCR_MAX_BYTES, |before|, piece);
    DecodeEncode(text[..n]);
    var decoded := Decode(data[..cut]);
    r := RawBound(decoded.value, true, |data|);
  }

  /** Some characters and their bytes: A, e acute, the euro sign, a grinning face. */
  lemma KnownCharacters()
    ensures EncodeChar(0x41) == [0x41] && EncodeChar(0xE9) == [0xC3, 0xA9]
    ensures EncodeChar(0x20AC) == [0xE2, 0x82, 0xAC] && EncodeChar(0x1F600) == [0xF0, 0x9F, 0x98, 0x80]
  {
  }
}
