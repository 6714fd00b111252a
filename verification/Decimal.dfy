/** Bytes, and numbers written out in decimal digits. */
module Decimal {

  type Byte = b: int | 0 <= b < 256

  const NEWLINE: Byte := 10
  const SPACE: Byte := 32
  const COLON: Byte := 58
  const ZERO: Byte := 48

  /** The bytes of an ASCII text. */
  function Ascii(s: string): (r: seq<Byte>)
    requires forall i | 0 <= i < |s| :: s[i] as int < 128
    ensures |r| == |s| && forall i | 0 <= i < |s| :: r[i] == s[i] as int
  {
    seq(|s|, i requires 0 <= i < |s| => s[i] as int)
  }

  predicate IsDigit(b: Byte) {
    ZERO <= b <= ZERO + 9
  }

  predicate AllDigits(s: seq<Byte>) {
    forall i | 0 <= i < |s| :: IsDigit(s[i])
  }

  function Print(n: nat): (r: seq<Byte>)
    ensures r != [] && AllDigits(r)
  {
    if n < 10 then [ZERO + n] else Print(n / 10) + [ZERO + n % 10]
  }

  function Value(s: seq<Byte>): nat
    requires AllDigits(s)
  {
    if s == [] then 0 else 10 * Value(s[..|s| - 1]) + (s[|s| - 1] - ZERO)
  }

  /** Reading the digits back gives the number. */
  lemma {:induction false} ValuePrint(n: nat)
    ensures Value(Print(n)) == n
  {
    var r := Print(n);
    if n >= 10 {
      ValuePrint(n / 10);
      assert r[..|r| - 1] == Print(n / 10);
    } else {
      assert r[..|r| - 1] == [];
    }
  }

  /** Only the digits from 0 to 9 are printed, and none of them 0 in front of another. */
  lemma {:induction false} PrintIsPlain(n: nat)
    ensures forall i | 0 <= i < |Print(n)| :: '0' as int <= Print(n)[i] <= '9' as int
    ensures Print(n)[0] == '0' as int <==> n == 0
    ensures |Print(n)| > 1 <==> n >= 10
  {
    if n >= 10 {
      PrintIsPlain(n / 10);
    }
  }

  /** Where the digits that start at `from` end. */
  function DigitEnd(s: seq<Byte>, from: nat): (end: nat)
    requires from <= |s|
    ensures from <= end <= |s| && AllDigits(s[from..end])
    decreases |s| - from
  {
    if from == |s| || !IsDigit(s[from]) then from
    else
      var end := DigitEnd(s, from + 1);
      assert s[from..end] == [s[from]] + s[from + 1..end];
      end
  }

  lemma {:induction false} DigitEndIs(s: seq<Byte>, from: nat, end: nat)
    requires from <= end <= |s| && forall k | from <= k < end :: IsDigit(s[k])
    requires end < |s| ==> !IsDigit(s[end])
    ensures DigitEnd(s, from) == end
    decreases end - from
  {
    if from < end {
      DigitEndIs(s, from + 1, end);
    }
  }
}
