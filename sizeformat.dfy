/**
 * `humanReadableSize(bytes:)`: below 1000 bytes the exact count, otherwise
 * a scaled value in the largest decimal unit (KB, MB, GB, TB) that does not
 * exceed the count, followed by the exact count. The two-decimal rendering
 * of the scaled value (`%.02f` of a floating-point quotient) is not
 * modelled: it is the parameter `fixed`, which receives the count and the
 * chosen unit.
 */
module SizeFormat {
  import opened Wrappers

  datatype Unit = KB | MB | GB | TB

  /** The number of bytes one unit stands for. */
  function Divisor(u: Unit): nat
  {
    match u
    case KB => 1000
    case MB => 1000 * 1000
    case GB => 1000 * 1000 * 1000
    case TB => 1000 * 1000 * 1000 * 1000
  }

  function UnitName(u: Unit): string
  {
    match u
    case KB => "KB"
    case MB => "MB"
    case GB => "GB"
    case TB => "TB"
  }

  /**
   * The branch the if-chain takes: no unit below 1000 bytes, otherwise the
   * largest unit whose size does not exceed the count.
   */
  function Scale(bytes: int): (u: Option<Unit>)
    ensures u.None? <==> bytes < 1000
    ensures u.Some? ==> Divisor(u.value) <= bytes
    ensures u.Some? && u.value != TB ==> bytes < 1000 * Divisor(u.value)
  {
    if bytes < 1000 then None
    else if bytes < 1000 * 1000 then Some(KB)
    else if bytes < 1000 * 1000 * 1000 then Some(MB)
    else if bytes < 1000 * 1000 * 1000 * 1000 then Some(GB)
    else Some(TB)
  }

  /** Exactly one unit fits a count of at least 1000 bytes in the way Scale requires. */
  lemma ScaleUnique(bytes: int, u: Unit)
    requires Divisor(u) <= bytes
    requires u != TB ==> bytes < 1000 * Divisor(u)
    ensures Scale(bytes) == Some(u)
  {
  }

  predicate IsDigit(c: char)
  {
    '0' <= c <= '9'
  }

  function DigitChar(d: nat): (c: char)
    requires d < 10
    ensures IsDigit(c)
  {
    (48 + d) as char
  }

  /** The number a string of decimal digits denotes. */
  function DigitsValue(s: string): int
    decreases |s|
  {
    if s == [] then 0 else 10 * DigitsValue(s[..|s| - 1]) + (s[|s| - 1] as int - 48)
  }

  /** The decimal text of a natural number, without leading zeros. */
  function NatText(n: nat): (s: string)
    ensures |s| > 0
    ensures forall i :: 0 <= i < |s| ==> IsDigit(s[i])
    ensures DigitsValue(s) == n
    ensures s[0] == '0' <==> n == 0
    ensures n == 0 ==> s == "0"
  {
    if n < 10 then [DigitChar(n)]
    else
      var s := NatText(n / 10) + [DigitChar(n % 10)];
      assert s[..|s| - 1] == NatText(n / 10);
      s
  }

  /** String interpolation of an `Int`: a minus sign for negative numbers, then the digits. */
  function DecimalText(n: int): (s: string)
    ensures n >= 0 ==> s == NatText(n)
    ensures n < 0 ==> |s| > 1 && s[0] == '-' && s[1..] == NatText(-n)
  {
    if n < 0 then "-" + NatText(-n) else NatText(n)
  }

  function HumanReadableSize(bytes: int, fixed: (int, Unit) -> string): (r: string)
    ensures bytes < 1000 ==> r == DecimalText(bytes) + " bytes"
    ensures bytes >= 1000 ==>
              var tail := " " + UnitName(Scale(bytes).value) + " - " + DecimalText(bytes) + " bytes";
              |tail| <= |r| && r[|r| - |tail|..] == tail && r[..|r| - |tail|] == fixed(bytes, Scale(bytes).value)
  {
    match Scale(bytes)
    case None => DecimalText(bytes) + " bytes"
    case Some(u) => fixed(bytes, u) + " " + UnitName(u) + " - " + DecimalText(bytes) + " bytes"
  }
}
