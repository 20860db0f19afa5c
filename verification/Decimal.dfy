/** Integers and their decimal text, as strconv.Itoa and strconv.ParseInt have them, and
    durations as time.ParseDuration reads them. */
module Decimal {
  import opened Text

  const MAX_INT64 := 0x7fff_ffff_ffff_ffff

  function DigitChar(d: nat): char
    requires d < 10
  {
    '0' + d as char
  }

  function DigitValue(c: char): nat
    requires Digit(c)
  {
    (c - '0') as nat
  }

  function PrintNat(n: nat): (s: string)
    ensures s != "" && forall i :: 0 <= i < |s| ==> Digit(s[i])
  {
    if n < 10 then [DigitChar(n)] else PrintNat(n / 10) + [DigitChar(n % 10)]
  }

  function Itoa(n: int): string {
    if n < 0 then "-" + PrintNat(-n) else PrintNat(n)
  }

  predicate AllDigits(s: string) {
    forall i :: 0 <= i < |s| ==> Digit(s[i])
  }

  function DigitsValue(s: string): nat
    requires AllDigits(s)
  {
    if s == "" then 0 else 10 * DigitsValue(s[..|s| - 1]) + DigitValue(s[|s| - 1])
  }

  /** strconv.ParseInt in base 10 and 64 bits, on text with an optional minus sign. */
  function ParseInt64(s: string): Option<int> {
    var body := if s != "" && s[0] == '-' then s[1..] else s;
    if body == "" || !AllDigits(body) then None
    else
      var n: int := if s[0] == '-' then 0 - DigitsValue(body) else DigitsValue(body);
      if -MAX_INT64 - 1 <= n <= MAX_INT64 then Some(n) else None
  }

  lemma {:induction false} PrintNatReads(n: nat)
    ensures AllDigits(PrintNat(n)) && DigitsValue(PrintNat(n)) == n
  {
    if n >= 10 {
      PrintNatReads(n / 10);
      var s := PrintNat(n);
      assert s[..|s| - 1] == PrintNat(n / 10);
    } else {
      assert PrintNat(n)[..0] == "";
    }
  }

  lemma ItoaReads(n: int)
    requires -MAX_INT64 - 1 <= n <= MAX_INT64
    ensures ParseInt64(Itoa(n)) == Some(n)
  {
    hide PrintNat, DigitsValue;
    var digits := PrintNat(if n < 0 then -n else n);
    PrintNatReads(if n < 0 then -n else n);
    assert Digit(digits[0]);
    if n < 0 {
      assert Itoa(n) == "-" + digits && ("-" + digits)[1..] == digits;
    }
  }

  lemma DigitsAre(d: nat)
    requires d < 10
    ensures DigitChar(d) == "0123456789"[d] && DigitValue("0123456789"[d]) == d
  {
  }

  // -------------------------------------------------------------- durations

  const SECOND := 1_000_000_000

  /** 2 to the 63, the bound every partial sum of a duration is checked against. */
  const TWO_63 := 0x8000_0000_0000_0000

  /** The length of a unit in nanoseconds. */
  function Unit(u: string): Option<nat> {
    if u == "ns" then Some(1)
    else if u == "us" || u == "\U{C2}\U{B5}s" || u == "\U{CE}\U{BC}s" then Some(1000)
    else if u == "ms" then Some(1_000_000)
    else if u == "s" then Some(SECOND)
    else if u == "m" then Some(60 * SECOND)
    else if u == "h" then Some(3600 * SECOND)
    else None
  }

  /** How many characters of `s` from the front are digits, or are not. */
  function Span(s: string, digits: bool): (n: nat)
    ensures n <= |s| && forall i :: 0 <= i < n ==> Digit(s[i]) == digits
    ensures n < |s| ==> Digit(s[n]) != digits
  {
    if s == "" || Digit(s[0]) != digits then 0 else 1 + Span(s[1..], digits)
  }

  /** A run of whole numbers each followed by a unit, added to `sum`. */
  function UnitGroups(s: string, sum: nat): Option<nat>
    decreases |s|
  {
    if s == "" then Some(sum)
    else
      var n := Span(s, true);
      if n == 0 then None
      else
        var m := Span(s[n..], false);
        var value := DigitsValue(s[..n]);
        var unit := Unit(s[n..][..m]);
        if value > TWO_63 || unit.None? then None
        else if value * unit.value > TWO_63 || sum + value * unit.value > TWO_63 then None
        else if n + m == 0 then None
        else UnitGroups(s[n..][m..], sum + value * unit.value)
  }

  /** time.ParseDuration, in nanoseconds. The outcome for a text with a decimal point, which the
      library computes with floating point, is the parameter `fractional`. */
  function ParseDuration(s: string, fractional: string -> Option<int>): Option<int> {
    if '.' in s then fractional(s)
    else
      var neg := s != "" && s[0] == '-';
      var body := if s != "" && (s[0] == '-' || s[0] == '+') then s[1..] else s;
      if body == "0" then Some(0)
      else if body == "" then None
      else
        var d := UnitGroups(body, 0);
        if d.None? then None
        else if neg then Some(0 - d.value)
        else if d.value > MAX_INT64 then None
        else Some(d.value)
  }

  lemma {:induction false} SpanOf(digits: string, rest: string)
    requires AllDigits(digits) && (rest != "" ==> !Digit(rest[0]))
    ensures Span(digits + rest, true) == |digits|
  {
    if digits == "" { assert digits + rest == rest; }
    else {
      assert (digits + rest)[1..] == digits[1..] + rest;
      SpanOf(digits[1..], rest);
    }
  }

  /** The units and their lengths in nanoseconds. */
  predicate UnitOf(unit: string, length: nat) {
    || (unit == "ns" && length == 1) || (unit == "us" && length == 1_000) || (unit == "ms" && length == 1_000_000)
    || (unit == "s" && length == 1_000_000_000) || (unit == "m" && length == 60_000_000_000) || (unit == "h" && length == 3_600_000_000_000)
  }

  /** A whole number of a unit reads back, up to the range of a duration. */
  lemma UnitsReadBack(n: nat, unit: string, length: nat, fractional: string -> Option<int>)
    requires UnitOf(unit, length) && n * length <= MAX_INT64
    ensures ParseDuration(Itoa(n) + unit, fractional) == Some(n * length)
  {
    hide UnitGroups, UnitOf, PrintNat;
    var s := PrintNat(n) + unit;
    PrintNatReads(n);
    UnitIs(unit, length);
    OneGroup(n, unit, length);
    assert s[0] == PrintNat(n)[0] && s[|s| - 1] == unit[|unit| - 1];
    assert '.' !in s && s != "0" && s != "";
  }

  lemma OneGroup(n: nat, unit: string, length: nat)
    requires UnitOf(unit, length) && n * length <= MAX_INT64
    ensures UnitGroups(PrintNat(n) + unit, 0) == Some(n * length)
  {
    hide UnitOf, PrintNat;
    var digits := PrintNat(n);
    var s := digits + unit;
    PrintNatReads(n);
    UnitIs(unit, length);
    SpanOf(digits, unit);
    assert s[..|digits|] == digits && s[|digits|..] == unit && unit[..|unit|] == unit && unit[|unit|..] == "";
    hide Span, Unit, DigitsValue;
    LastGroup(s, |digits|, n, length);
  }

  /** A text that is one group: digits, then a unit up to the end. */
  lemma LastGroup(s: string, k: nat, n: nat, length: nat)
    requires 0 < k <= |s| && Span(s, true) == k && Span(s[k..], false) == |s| - k && AllDigits(s[..k]) && DigitsValue(s[..k]) == n
    requires Unit(s[k..]) == Some(length) && length > 0 && n * length <= MAX_INT64
    ensures UnitGroups(s, 0) == Some(n * length)
  {
    hide Span, Unit, DigitsValue;
    var unit := s[k..];
    assert unit[..|unit|] == unit && unit[|unit|..] == "";
    assert n <= n * length;
    assert UnitGroups("", n * length) == Some(n * length);
  }

  lemma UnitIs(unit: string, length: nat)
    requires UnitOf(unit, length)
    ensures Unit(unit) == Some(length) && length > 0 && Span(unit, false) == |unit| > 0 && '.' !in unit && !Digit(unit[0]) && !Digit(unit[|unit| - 1])
  {
    if |unit| == 2 { assert unit[1..][1..] == ""; } else { assert unit[1..] == ""; }
  }

  /** A whole number of seconds reads back, up to the range of a duration. */
  lemma SecondsReadBack(n: nat, fractional: string -> Option<int>)
    requires n * SECOND <= MAX_INT64
    ensures ParseDuration(Itoa(n) + "s", fractional) == Some(n * SECOND)
  {
    UnitsReadBack(n, "s", 1_000_000_000, fractional);
  }
}
