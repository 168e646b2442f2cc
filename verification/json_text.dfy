/**
 * The text json.dumps(..., ensure_ascii=False) writes for a journal event, and
 * the two facts the journal reader lives on: no raw newline inside a value
 * (section 7 of RFC 8259), and no proper prefix of an object that is closed.
 */
module JsonText {
  import opened Common
  import opened Utf8

  datatype Json =
    | Null | Boolean(b: bool)
    | Number(digits: Bytes)
    | Text(chars: seq<CodePoint>)
    | Array(items: Items)
    | Object(fields: Fields)

  datatype Items = NoItems | Item(head: Json, tail: Items)
  datatype Fields = NoFields | Field(name: seq<CodePoint>, value: Json, rest: Fields)

  const QUOTE: Byte := 34
  const BACKSLASH: Byte := 92

  /** A byte that means nothing structural outside a string. */
  predicate Inert(b: Byte) { b !in {10, 34, 91, 92, 93, 123, 125} }

  predicate ValidJson(j: Json) {
    match j
    case Number(digits) => digits != [] && forall b :: b in digits ==> Inert(b)
    case Array(items) => ValidItems(items)
    case Object(fields) => ValidFields(fields)
    case _ => true
  }

  predicate ValidItems(items: Items) { items.NoItems? || (ValidJson(items.head) && ValidItems(items.tail)) }

  predicate ValidFields(f: Fields) { f.NoFields? || (ValidJson(f.value) && ValidFields(f.rest)) }

  function Hex(n: int): Byte
    requires 0 <= n < 16
  {
    if n < 10 then 48 + n else 87 + n
  }

  function EscapeChar(c: CodePoint): Bytes {
    if c == 34 then [BACKSLASH, 34]
    else if c == 92 then [BACKSLASH, 92]
    else if c == 10 then [BACKSLASH, 110]
    else if c == 13 then [BACKSLASH, 114]
    else if c == 9 then [BACKSLASH, 116]
    else if c == 8 then [BACKSLASH, 98]
    else if c == 12 then [BACKSLASH, 102]
    else if c < 32 then [BACKSLASH, 117, 48, 48, Hex(c / 16), Hex(c % 16)]
    else EncodeChar(c)
  }

  function Escaped(chars: seq<CodePoint>): Bytes {
    if chars == [] then [] else EscapeChar(chars[0]) + Escaped(chars[1..])
  }

  function Quoted(chars: seq<CodePoint>): Bytes { [QUOTE] + Escaped(chars) + [QUOTE] }

  function Dumps(j: Json): Bytes {
    match j
    case Null => [110, 117, 108, 108]
    case Boolean(b) => if b then [116, 114, 117, 101] else [102, 97, 108, 115, 101]
    case Number(digits) => digits
    case Text(chars) => Quoted(chars)
    case Array(items) => [91] + DumpsItems(items) + [93]
    case Object(fields) => [123] + DumpsFields(fields) + [125]
  }

  function DumpsItems(items: Items): Bytes {
    match items
    case NoItems => []
    case Item(head, tail) => Dumps(head) + (if tail.NoItems? then [] else [44, 32]) + DumpsItems(tail)
  }

  function DumpsFields(fields: Fields): Bytes {
    match fields
    case NoFields => []
    case Field(name, value, rest) =>
      Quoted(name) + [58, 32] + Dumps(value) + (if rest.NoFields? then [] else [44, 32]) + DumpsFields(rest)
  }

  // ---- a bracket scanner --------------------------------------------------------

  datatype Scan = Scan(depth: int, inText: bool, escaped: bool)

  function Step(s: Scan, b: Byte): Scan {
    if s.inText then
      if s.escaped then s.(escaped := false)
      else if b == BACKSLASH then s.(escaped := true)
      else if b == QUOTE then s.(inText := false)
      else s
    else if b == QUOTE then s.(inText := true)
    else if b == 91 || b == 123 then s.(depth := s.depth + 1)
    else if b == 93 || b == 125 then s.(depth := s.depth - 1)
    else s
  }

  function ScanAll(s: Scan, b: Bytes): Scan
    decreases |b|
  {
    if b == [] then s else ScanAll(Step(s, b[0]), b[1..])
  }

  function Outside(depth: int): Scan { Scan(depth, false, false) }

  /** A text whose strings end and whose brackets match; every JSON text is closed. */
  predicate Closed(b: Bytes) { b != [] && ScanAll(Outside(0), b) == Outside(0) }

  /** Scanning `b` never leaves depth `d`, except inside a string. */
  predicate Above(s: Scan, b: Bytes, d: int)
    decreases |b|
  {
    (s.inText || s.depth >= d) && (b == [] || Above(Step(s, b[0]), b[1..], d))
  }

  /** From depth `d`, `b` stays at or above it, comes back to it, and holds no raw newline. */
  predicate Neutral(b: Bytes, d: int) {
    Above(Outside(d), b, d) && ScanAll(Outside(d), b) == Outside(d) && NEWLINE !in b
  }

  lemma {:induction false} ScanConcat(s: Scan, a: Bytes, b: Bytes)
    ensures ScanAll(s, a + b) == ScanAll(ScanAll(s, a), b)
    decreases |a|
  {
    if a == [] {
      assert a + b == b;
    } else {
      assert (a + b)[1..] == a[1..] + b;
      ScanConcat(Step(s, a[0]), a[1..], b);
    }
  }

  lemma {:induction false} AboveConcat(s: Scan, a: Bytes, b: Bytes, d: int)
    requires Above(s, a, d) && Above(ScanAll(s, a), b, d)
    ensures Above(s, a + b, d)
    decreases |a|
  {
    if a == [] {
      assert a + b == b;
    } else {
      assert (a + b)[1..] == a[1..] + b;
      AboveConcat(Step(s, a[0]), a[1..], b, d);
    }
  }

  lemma NeutralConcat(a: Bytes, b: Bytes, d: int)
    requires Neutral(a, d) && Neutral(b, d)
    ensures Neutral(a + b, d)
  {
    ScanConcat(Outside(d), a, b);
    AboveConcat(Outside(d), a, b, d);
  }

  lemma {:induction false} AbovePrefix(s: Scan, b: Bytes, d: int, k: nat)
    requires Above(s, b, d) && k <= |b|
    ensures ScanAll(s, b[..k]).inText || ScanAll(s, b[..k]).depth >= d
    decreases k
  {
    if k > 0 {
      assert b[..k][1..] == b[1..][..k - 1];
      AbovePrefix(Step(s, b[0]), b[1..], d, k - 1);
    }
  }

  lemma {:induction false} InertIsNeutral(b: Bytes, d: int)
    requires forall x :: x in b ==> Inert(x)
    ensures Neutral(b, d)
  {
    if b != [] {
      InertIsNeutral(b[1..], d);
      assert b[0] in b && b == [b[0]] + b[1..];
    }
  }

  // ---- strings -------------------------------------------------------------------

  predicate Unescaped(b: Byte) { b != NEWLINE && b != QUOTE && b != BACKSLASH }

  /** Inside a string, these bytes neither end it nor leave an escape open. */
  predicate Quiet(b: Bytes, d: int) {
    Above(Scan(d, true, false), b, d) && ScanAll(Scan(d, true, false), b) == Scan(d, true, false) && NEWLINE !in b
  }

  lemma {:induction false} PlainIsQuiet(b: Bytes, d: int)
    requires forall x :: x in b ==> Unescaped(x)
    ensures Quiet(b, d)
  {
    if b != [] {
      assert b[0] in b && b == [b[0]] + b[1..];
      PlainIsQuiet(b[1..], d);
    }
  }

  lemma QuietConcat(a: Bytes, b: Bytes, d: int)
    requires Quiet(a, d) && Quiet(b, d)
    ensures Quiet(a + b, d)
  {
    ScanConcat(Scan(d, true, false), a, b);
    AboveConcat(Scan(d, true, false), a, b, d);
  }

  /** A backslash and the byte it escapes. */
  lemma EscapePairIsQuiet(b: Byte, d: int)
    requires b != NEWLINE
    ensures Quiet([BACKSLASH, b], d)
  {
    var s := Scan(d, true, false);
    assert [BACKSLASH, b][1..] == [b] && [b][1..] == [];
    assert Above(Step(Step(s, BACKSLASH), b), [], d);
    assert Above(Step(s, BACKSLASH), [b], d);
    assert ScanAll(Step(s, BACKSLASH), [b]) == ScanAll(s, []);
  }

  lemma EscapeCharIsQuiet(c: CodePoint, d: int)
    ensures Quiet(EscapeChar(c), d)
  {
    if c in {34, 92, 10, 13, 9, 8, 12} {
      EscapePairIsQuiet(EscapeChar(c)[1], d);
    } else if c < 32 {
      EscapePairIsQuiet(117, d);
      PlainIsQuiet([48, 48, Hex(c / 16), Hex(c % 16)], d);
      QuietConcat([BACKSLASH, 117], [48, 48, Hex(c / 16), Hex(c % 16)], d);
      assert [BACKSLASH, 117] + [48, 48, Hex(c / 16), Hex(c % 16)] == EscapeChar(c);
    } else {
      PlainIsQuiet(EncodeChar(c), d);
    }
  }

  lemma {:induction false} EscapedIsQuiet(chars: seq<CodePoint>, d: int)
    ensures Quiet(Escaped(chars), d)
  {
    if chars != [] {
      EscapeCharIsQuiet(chars[0], d);
      EscapedIsQuiet(chars[1..], d);
      QuietConcat(EscapeChar(chars[0]), Escaped(chars[1..]), d);
    }
  }

  lemma QuotedIsNeutral(chars: seq<CodePoint>, d: int)
    ensures Neutral(Quoted(chars), d)
  {
    var e := Escaped(chars);
    EscapedIsQuiet(chars, d);
    ScanConcat(Scan(d, true, false), e, [QUOTE]);
    AboveConcat(Scan(d, true, false), e, [QUOTE], d);
    assert Quoted(chars)[1..] == e + [QUOTE];
  }

  // ---- values ----------------------------------------------------------------------

  /** Brackets around something neutral one level deeper. */
  lemma BracketedIsNeutral(open: Byte, inner: Bytes, close: Byte, d: int)
    requires (open == 91 && close == 93) || (open == 123 && close == 125)
    requires Neutral(inner, d + 1)
    ensures Neutral([open] + inner + [close], d)
  {
    var b := [open] + inner + [close];
    assert b[1..] == inner + [close];
    AboveLower(Outside(d + 1), inner, d + 1, d);
    ScanConcat(Outside(d + 1), inner, [close]);
    AboveConcat(Outside(d + 1), inner, [close], d);
  }

  lemma {:induction false} AboveLower(s: Scan, b: Bytes, d: int, e: int)
    requires Above(s, b, d) && e <= d
    ensures Above(s, b, e)
    decreases |b|
  {
    if b != [] {
      AboveLower(Step(s, b[0]), b[1..], d, e);
    }
  }

  lemma {:induction false} DumpsIsNeutral(j: Json, d: int)
    requires ValidJson(j)
    ensures Neutral(Dumps(j), d)
  {
    match j
    case Null => InertIsNeutral(Dumps(j), d);
    case Boolean(_) => InertIsNeutral(Dumps(j), d);
    case Number(_) => InertIsNeutral(Dumps(j), d);
    case Text(chars) => QuotedIsNeutral(chars, d);
    case Array(items) =>
      DumpsItemsIsNeutral(items, d + 1);
      BracketedIsNeutral(91, DumpsItems(items), 93, d);
    case Object(fields) =>
      DumpsFieldsIsNeutral(fields, d + 1);
      BracketedIsNeutral(123, DumpsFields(fields), 125, d);
  }

  lemma {:induction false} DumpsItemsIsNeutral(items: Items, d: int)
    requires ValidItems(items)
    ensures Neutral(DumpsItems(items), d)
  {
    if items.Item? {
      var comma: Bytes := if items.tail.NoItems? then [] else [44, 32];
      DumpsIsNeutral(items.head, d);
      InertIsNeutral(comma, d);
      DumpsItemsIsNeutral(items.tail, d);
      NeutralConcat(Dumps(items.head), comma, d);
      NeutralConcat(Dumps(items.head) + comma, DumpsItems(items.tail), d);
    }
  }

  lemma {:induction false} DumpsFieldsIsNeutral(fields: Fields, d: int)
    requires ValidFields(fields)
    ensures Neutral(DumpsFields(fields), d)
  {
    if fields.Field? {
      var comma: Bytes := if fields.rest.NoFields? then [] else [44, 32];
      QuotedIsNeutral(fields.name, d);
      InertIsNeutral([58, 32], d);
      DumpsIsNeutral(fields.value, d);
      InertIsNeutral(comma, d);
      DumpsFieldsIsNeutral(fields.rest, d);
      NeutralConcat(Quoted(fields.name), [58, 32], d);
      NeutralConcat(Quoted(fields.name) + [58, 32], Dumps(fields.value), d);
      NeutralConcat(Quoted(fields.name) + [58, 32] + Dumps(fields.value), comma, d);
      NeutralConcat(Quoted(fields.name) + [58, 32] + Dumps(fields.value) + comma, DumpsFields(fields.rest), d);
    }
  }

  /** A dumped object is closed, contains no raw newline, and no proper prefix of it is closed. */
  lemma DumpedObject(fields: Fields)
    requires ValidFields(fields)
    ensures var b := Dumps(Object(fields));
      && Closed(b) && NEWLINE !in b
      && forall k :: 0 <= k < |b| ==> !Closed(b[..k])
  {
    DumpsIsNeutral(Object(fields), 0);
    DumpsFieldsIsNeutral(fields, 1);
    hide DumpsFields, Neutral, Above;
    var b, inner := Dumps(Object(fields)), DumpsFields(fields);
    forall k | 0 <= k < |b|
      ensures !Closed(b[..k])
    {
      PrefixIsOpen(inner, k);
    }
    NeutralIsClosed(b);
  }

  lemma NeutralIsClosed(b: Bytes)
    requires b != [] && Neutral(b, 0)
    ensures Closed(b) && NEWLINE !in b
  {
  }

  lemma PrefixIsOpen(inner: Bytes, k: nat)
    requires Neutral(inner, 1) && k < |inner| + 2
    ensures !Closed(([123] + inner + [125])[..k])
  {
    hide ScanAll, Above;
    var p := ([123] + inner + [125])[..k];
    if k > 0 {
      assert p[1..] == inner[..k - 1];
      AbovePrefix(Outside(1), inner, 1, k - 1);
      ScanOne(p);
    }
  }

  lemma ScanOne(p: Bytes)
    requires p != [] && p[0] == 123
    ensures ScanAll(Outside(0), p) == ScanAll(Outside(1), p[1..])
  {
  }

  // ---- texts spelled out ------------------------------------------------------------------

  /** The characters that need an escape, and one that is hidden behind its number. */
  lemma KnownEscapes()
    ensures EscapeChar(34) == [92, 34] && EscapeChar(92) == [92, 92]
    ensures EscapeChar(8) == [92, 98] && EscapeChar(9) == [92, 116] && EscapeChar(10) == [92, 110]
    ensures EscapeChar(12) == [92, 102] && EscapeChar(13) == [92, 114]
    ensures EscapeChar(0) == [92, 117, 48, 48, 48, 48] && EscapeChar(26) == [92, 117, 48, 48, 49, 97]
    ensures EscapeChar(25) == [92, 117, 48, 48, 49, 57] && EscapeChar(31) == [92, 117, 48, 48, 49, 102]
    ensures EscapeChar(65) == [65]
  {
  }

  const NULL_TEXT: Bytes := [110, 117, 108, 108]
  const TRUE_TEXT: Bytes := [116, 114, 117, 101]
  const FALSE_TEXT: Bytes := [102, 97, 108, 115, 101]
  const COMMA: Bytes := [44, 32]

  lemma KnownList()
    ensures DumpsItems(Item(Null, Item(Boolean(true), Item(Boolean(false), NoItems))))
         == NULL_TEXT + COMMA + (TRUE_TEXT + COMMA + FALSE_TEXT)
  {
    var no := Item(Boolean(false), NoItems);
    assert DumpsItems(no) == FALSE_TEXT + [] + [];
    assert DumpsItems(Item(Boolean(true), no)) == TRUE_TEXT + COMMA + DumpsItems(no);
  }

  lemma KnownName()
    ensures Quoted([97]) == [34, 97, 34]
  {
    assert Escaped([97]) == EscapeChar(97) + Escaped([97][1..]);
  }

  lemma OneFieldText(name: seq<CodePoint>, value: Json)
    ensures Dumps(Object(Field(name, value, NoFields))) == [123] + (Quoted(name) + [58, 32] + Dumps(value)) + [125]
  {
    hide Quoted, DumpsItems;
    assert DumpsFields(Field(name, value, NoFields)) == Quoted(name) + [58, 32] + Dumps(value) + [] + [];
  }

  /** {"a": [null, true, false]} */
  lemma KnownText()
    ensures var list := Item(Null, Item(Boolean(true), Item(Boolean(false), NoItems)));
      Dumps(Object(Field([97], Array(list), NoFields)))
      == [123] + ([34, 97, 34] + [58, 32]
                  + ([91] + (NULL_TEXT + COMMA + (TRUE_TEXT + COMMA + FALSE_TEXT)) + [93])) + [125]
  {
    hide DumpsItems, DumpsFields, Quoted;
    KnownList();
    KnownName();
    OneFieldText([97], Array(Item(Null, Item(Boolean(true), Item(Boolean(false), NoItems)))));
  }
}
