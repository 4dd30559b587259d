// Positional numerals as the cursors and session names print and read them.
module Numerals {
  import opened Common

  function DigitChar(d: nat): (c: char)
    requires d < 16
    ensures DigitValue(c) == Some(d)
  {
    if d < 10 then '0' + d as char else 'a' + (d - 10) as char
  }

  function DigitValue(c: char): (d: Option<nat>)
    ensures d.Some? ==> d.value < 16
  {
    if '0' <= c <= '9' then Some((c - '0') as nat)
    else if 'a' <= c <= 'f' then Some((c - 'a') as nat + 10)
    else None
  }

  predicate IsDigit(c: char) {
    DigitValue(c).Some?
  }

  datatype Base = Decimal | Hexadecimal {
    function Radix(): nat { if this == Decimal then 10 else 16 }
    function Quotient(n: nat): nat { if this == Decimal then n / 10 else n / 16 }
    function Remainder(n: nat): (d: nat) ensures d < Radix() { if this == Decimal then n % 10 else n % 16 }
    function Shift(v: nat, d: nat): nat { if this == Decimal then v * 10 + d else v * 16 + d }
  }

  /** The digits of n, most significant first, without leading zeros. */
  function Print(n: nat, base: Base): (s: string)
    ensures |s| > 0 && forall c :: c in s ==> IsDigit(c)
  {
    if n < base.Radix() then [DigitChar(n)]
    else Print(base.Quotient(n), base) + [DigitChar(base.Remainder(n))]
  }

  /**
   * The value of a digit string.  With separators, one underscore may stand
   * between two digits, as Python's int() allows.
   */
  function Read(s: string, base: Base, separators: bool): Option<nat> {
    if s == [] then None
    else
      var last := DigitValue(s[|s| - 1]);
      if last.None? || last.value >= base.Radix() then None
      else if |s| == 1 then last
      else
        var rest := s[..|s| - 1];
        var head := Read(if separators && rest[|rest| - 1] == '_' then rest[..|rest| - 1] else rest, base, separators);
        if head.None? then None else Some(base.Shift(head.value, last.value))
  }

  /** Reading one more digit shifts the value read so far. */
  lemma ReadSnoc(head: string, d: nat, base: Base, separators: bool)
    requires d < base.Radix()
    requires head != [] && IsDigit(head[|head| - 1]) && Read(head, base, separators).Some?
    ensures Read(head + [DigitChar(d)], base, separators) == Some(base.Shift(Read(head, base, separators).value, d))
  {
    var s := head + [DigitChar(d)];
    assert s[..|s| - 1] == head;
  }

  lemma {:induction false} ReadPrint(n: nat, base: Base, separators: bool)
    ensures Read(Print(n, base), base, separators) == Some(n)
  {
    if n < base.Radix() {
      assert Print(n, base) == [DigitChar(n)];
    } else {
      var head := Print(base.Quotient(n), base);
      ReadPrint(base.Quotient(n), base, separators);
      assert head[|head| - 1] in head;
      ReadSnoc(head, base.Remainder(n), base, separators);
    }
  }

  lemma PrintInjective(m: nat, n: nat, base: Base)
    requires Print(m, base) == Print(n, base)
    ensures m == n
  {
    ReadPrint(m, base, false);
    ReadPrint(n, base, false);
  }

  /** The characters str.strip() removes. */
  predicate IsSpace(c: char) {
    var v := c as int;
    9 <= v <= 13 || 28 <= v <= 32 || v == 0x85 || v == 0xA0 || v == 0x1680 || 0x2000 <= v <= 0x200A
    || v in {0x2028, 0x2029, 0x202F, 0x205F, 0x3000}
  }

  function StripLeft(s: string): string {
    if s != [] && IsSpace(s[0]) then StripLeft(s[1..]) else s
  }

  function StripRight(s: string): string {
    if s != [] && IsSpace(s[|s| - 1]) then StripRight(s[..|s| - 1]) else s
  }

  function Strip(s: string): string {
    StripRight(StripLeft(s))
  }

  /** A string that neither starts nor ends with white space. */
  predicate Trimmed(s: string) {
    s == [] || (!IsSpace(s[0]) && !IsSpace(s[|s| - 1]))
  }

  lemma {:induction false} StripLeftTrims(s: string)
    ensures StripLeft(s) == [] || !IsSpace(StripLeft(s)[0])
  {
    if s != [] && IsSpace(s[0]) {
      StripLeftTrims(s[1..]);
    }
  }

  lemma {:induction false} StripRightTrims(s: string)
    ensures StripRight(s) <= s
    ensures StripRight(s) == [] || !IsSpace(StripRight(s)[|StripRight(s)| - 1])
  {
    if s != [] && IsSpace(s[|s| - 1]) {
      StripRightTrims(s[..|s| - 1]);
    }
  }

  /** Stripping trims, and is the identity exactly on trimmed strings. */
  lemma StripTrims(s: string)
    ensures Trimmed(Strip(s))
    ensures Strip(s) == s <==> Trimmed(s)
  {
    StripLeftTrims(s);
    StripRightTrims(StripLeft(s));
  }

  ghost predicate AllSpace(s: string) {
    forall c :: c in s ==> IsSpace(c)
  }

  /** What stripping takes away is white space at the two ends, and nothing else. */
  lemma StripExactly(s: string) returns (left: string, right: string)
    ensures s == left + Strip(s) + right && AllSpace(left) && AllSpace(right) && Trimmed(Strip(s))
  {
    StripTrims(s);
    left := LeftExactly(s);
    right := RightExactly(StripLeft(s));
  }

  lemma BlankExactly(s: string)
    ensures Strip(s) == "" <==> AllSpace(s)
  {
    var left, right := StripExactly(s);
    if Strip(s) != "" {
      assert Strip(s)[0] in s;
    }
  }

  lemma {:induction false} LeftExactly(s: string) returns (left: string)
    ensures s == left + StripLeft(s) && AllSpace(left)
  {
    left := "";
    if s != [] && IsSpace(s[0]) {
      left := LeftExactly(s[1..]);
      left := [s[0]] + left;
    }
  }

  lemma {:induction false} RightExactly(s: string) returns (right: string)
    ensures s == StripRight(s) + right && AllSpace(right)
  {
    right := "";
    if s != [] && IsSpace(s[|s| - 1]) {
      right := RightExactly(s[..|s| - 1]);
      right := right + [s[|s| - 1]];
    }
  }

  /** Python's int(): optional white space, an optional sign, decimal digits. */
  function ParseInt(s: string): Option<int> {
    var t := Strip(s);
    if t == [] then None
    else
      var magnitude := Read(if t[0] in "+-" then t[1..] else t, Decimal, true);
      if magnitude.None? then None else Some(if t[0] == '-' then -(magnitude.value as int) else magnitude.value)
  }

  lemma ParseIntPrint(n: nat)
    ensures ParseInt(Print(n, Decimal)) == Some(n)
  {
    hide StripLeft, StripRight, Strip, Read, Print;
    var s := Print(n, Decimal);
    assert IsDigit(s[0]) && IsDigit(s[|s| - 1]);
    assert s[0] !in "+-";
    StripTrims(s);
    ReadPrint(n, Decimal, true);
  }
}
