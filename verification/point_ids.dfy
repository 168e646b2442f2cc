/** Fresh point ids, `PT-%04d` (`_next_point_id` in src/screen2xyz_civil/workflow.py). */
module PointIds {
  import opened Common

  function Digit(d: nat): char
    requires d < 10
  {
    ['0', '1', '2', '3', '4', '5', '6', '7', '8', '9'][d]
  }

  predicate IsDigit(c: char) { '0' <= c <= '9' }

  function DigitValue(c: char): nat
    requires IsDigit(c)
  {
    c as nat - '0' as nat
  }

  function Digits(n: nat): (s: string)
    ensures s != []
  {
    if n < 10 then [Digit(n)] else Digits(n / 10) + [Digit(n % 10)]
  }

  predicate AllDigits(s: string) { forall i :: 0 <= i < |s| ==> IsDigit(s[i]) }

  function Value(s: string): nat
    requires AllDigits(s)
  {
    if s == [] then 0 else Value(s[..|s| - 1]) * 10 + DigitValue(s[|s| - 1])
  }

  function Zeros(n: nat): (s: string)
    ensures |s| == n && forall i :: 0 <= i < n ==> s[i] == '0'
  {
    if n == 0 then "" else Zeros(n - 1) + ['0']
  }

  /** Zero-padded on the left to at least `width` characters. */
  function Padded(n: nat, width: nat): string {
    var s := Digits(n);
    if |s| < width then Zeros(width - |s|) + s else s
  }

  datatype Id = Id(text: string)

  function NumberedId(n: nat): Id { Id("PT-" + Padded(n, 4)) }

  predicate HasPrefix(id: Id) { |id.text| >= 3 && id.text[..3] == "PT-" }

  /** The number in an id made of the prefix and digits only. */
  function NumberOf(id: Id): Option<nat> {
    if HasPrefix(id) && |id.text| > 3 && AllDigits(id.text[3..]) then Some(Value(id.text[3..])) else None
  }

  function Largest(ids: seq<Id>): nat {
    if ids == [] then 0
    else
      var rest := Largest(ids[1..]);
      match NumberOf(ids[0])
      case Some(n) => if n > rest then n else rest
      case None => rest
  }

  function NextId(ids: seq<Id>): Id { NumberedId(Largest(ids) + 1) }

  /** The program's loop over the points. */
  method NextPointId(ids: seq<Id>) returns (id: Id)
    ensures id == NextId(ids)
  {
    var largest := 0;
    assert ids[0..] == ids;
    for i := 0 to |ids|
      invariant Max(largest, Largest(ids[i..])) == Largest(ids)
    {
      assert ids[i..][0] == ids[i] && ids[i..][1..] == ids[i + 1..];
      var number := NumberOf(ids[i]);
      if number.Some? {
        largest := Max(largest, number.value);
      }
    }
    id := NumberedId(largest + 1);
  }

  function Max(a: nat, b: nat): nat { if a >= b then a else b }

  // ---- the number survives formatting, so the id is new -------------------------------------------

  lemma {:induction false} DigitsRoundTrip(n: nat)
    ensures AllDigits(Digits(n)) && Value(Digits(n)) == n
  {
    if n >= 10 {
      DigitsRoundTrip(n / 10);
      assert Digits(n)[..|Digits(n)| - 1] == Digits(n / 10);
      assert DigitValue(Digit(n % 10)) == n % 10;
    } else {
      assert Digits(n)[..0] == "" && DigitValue(Digit(n)) == n;
    }
  }

  lemma {:induction false} ZerosValue(k: nat, s: string)
    requires AllDigits(s)
    ensures AllDigits(Zeros(k) + s) && Value(Zeros(k) + s) == Value(s)
  {
    var z := Zeros(k) + s;
    if s != [] {
      var shorter := s[..|s| - 1];
      ZerosValue(k, shorter);
      assert z[..|z| - 1] == Zeros(k) + shorter;
    } else if k > 0 {
      ZerosValue(k - 1, s);
      assert z[..|z| - 1] == Zeros(k - 1) == Zeros(k - 1) + s;
    }
  }

  lemma PaddedRoundTrip(n: nat, width: nat)
    ensures AllDigits(Padded(n, width)) && Padded(n, width) != [] && Value(Padded(n, width)) == n
  {
    DigitsRoundTrip(n);
    var s := Digits(n);
    if |s| < width {
      ZerosValue(width - |s|, s);
    }
  }

  lemma NumberRoundTrip(n: nat)
    ensures NumberOf(NumberedId(n)) == Some(n) && HasPrefix(NumberedId(n))
  {
    PaddedRoundTrip(n, 4);
    var text := "PT-" + Padded(n, 4);
    assert text[..3] == "PT-" && text[3..] == Padded(n, 4);
  }

  lemma {:induction false} LargestBounds(ids: seq<Id>, id: Id)
    requires id in ids && NumberOf(id).Some?
    ensures NumberOf(id).value <= Largest(ids)
  {
    hide NumberOf;
    if id != ids[0] {
      assert id in ids[1..];
      LargestBounds(ids[1..], id);
    }
  }

  /** The next id is well formed and no point has it, however the existing ids are written. */
  lemma NextIdIsFresh(ids: seq<Id>)
    ensures HasPrefix(NextId(ids)) && NextId(ids) !in ids
  {
    var id := NextId(ids);
    NumberRoundTrip(Largest(ids) + 1);
    if id in ids {
      LargestBounds(ids, id);
    }
  }

  /**
   * The number of the next id is one more than the largest number any id of the form PT-digits has, in four
   * digits at least; without such ids it is 1.
   */
  lemma NextIdIsOneMore(ids: seq<Id>) returns (n: nat)
    ensures NextId(ids).text == "PT-" + Padded(n + 1, 4)
    ensures forall digits: string :: digits != "" && AllDigits(digits) && Id("PT-" + digits) in ids ==>
      Value(digits) <= n
    ensures n == 0 || exists digits: string :: digits != "" && AllDigits(digits) && Id("PT-" + digits) in ids
                                               && Value(digits) == n
  {
    n := Largest(ids);
    forall digits: string | digits != "" && AllDigits(digits) && Id("PT-" + digits) in ids
      ensures Value(digits) <= n
    {
      NumberWritten(digits);
      LargestBounds(ids, Id("PT-" + digits));
    }
    LargestAttained(ids);
  }

  lemma NumberWritten(digits: string)
    requires digits != "" && AllDigits(digits)
    ensures NumberOf(Id("PT-" + digits)) == Some(Value(digits))
  {
    var text := "PT-" + digits;
    assert text[..3] == "PT-" && text[3..] == digits;
  }

  lemma {:induction false} LargestAttained(ids: seq<Id>)
    ensures Largest(ids) == 0 || exists digits: string :: digits != "" && AllDigits(digits) && Id("PT-" + digits) in ids
                                                          && Value(digits) == Largest(ids)
  {
    if ids != [] {
      LargestAttained(ids[1..]);
      if Largest(ids) != Largest(ids[1..]) {
        var digits := ids[0].text[3..];
        assert ids[0] == Id("PT-" + digits);
      }
    }
  }
}
