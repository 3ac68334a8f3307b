/**
 Numbers as text: the digit printer, and the number reader that inverts it.
 */
module NumberText {
  import opened Basics
  import Remainder

  const LONG_MIN: int := -0x8000_0000_0000_0000
  const LONG_MAX: int := 0x7FFF_FFFF_FFFF_FFFF
  const ULONG_MOD: nat := 0x1_0000_0000_0000_0000

  // ----- Digits -----

  // The digits of num, the least significant first, as they are found.
  function Digits(num: nat, base: nat): seq<nat>
    requires base >= 2
    decreases num
  {
    Smaller(num, base);
    [num % base] + if num < base then [] else Digits(num / base, base)
  }

  lemma Smaller(num: nat, base: nat)
    requires base >= 2
    ensures 2 * (num / base) <= num && (num >= base ==> 0 < num / base < num)
    ensures num / base * base + num % base == num && (num < base ==> num % base == num)
  {
    Remainder.DivMod(num, base);
    TwoTimes(num / base, base);
    if num / base == 0 {
      assert num / base * base == 0;
    }
  }

  lemma {:induction false} TwoTimes(q: nat, base: nat)
    requires base >= 2
    ensures 2 * q <= q * base && (q > 0 ==> base <= q * base)
  {
    if q > 0 {
      TwoTimes(q - 1, base);
      assert q * base == (q - 1) * base + base;
    }
  }

  // What digits, the least significant first, stand for.
  function Value(d: seq<nat>, base: nat): nat
  {
    if d == [] then 0 else d[0] + Value(d[1..], base) * base
  }

  // The digits stand for the number, are digits, and end without a superfluous zero.
  lemma {:induction false} DigitsMean(num: nat, base: nat)
    requires base >= 2
    ensures Value(Digits(num, base), base) == num && Digits(num, base) != []
    ensures forall i | 0 <= i < |Digits(num, base)| :: Digits(num, base)[i] < base
    ensures num > 0 ==> Digits(num, base)[|Digits(num, base)| - 1] > 0
    decreases num
  {
    Smaller(num, base);
    DigitsUnfold(num, base);
    hide Digits;
    var d, q := Digits(num, base), num / base;
    if num >= base {
      DigitsMean(q, base);
      assert d[1..] == Digits(q, base);
      assert Value(d, base) == d[0] + Value(d[1..], base) * base;
    } else {
      assert d[1..] == [] && Value(d[1..], base) == 0;
    }
  }

  // Numbers below 2^k have at most k digits.
  lemma {:induction false} DigitsFit(num: nat, base: nat, k: nat)
    requires base >= 2 && k > 0 && num < Pow2(k)
    ensures |Digits(num, base)| <= k
    decreases k
  {
    DigitsUnfold(num, base);
    Smaller(num, base);
    hide Digits;
    if num >= base {
      assert k > 1 by {
        assert Pow2(1) == 2 * Pow2(0);
      }
      DigitsFit(num / base, base, k - 1);
    }
  }

  // The digits of an unsigned long long fit the buffer of 64.
  lemma BufferSuffices(num: nat, base: nat)
    requires base >= 2 && num < ULONG_MOD
    ensures |Digits(num, base)| <= 64
  {
    Pow2Words();
    DigitsFit(num, base, 64);
  }

  lemma DigitsUnfold(num: nat, base: nat)
    requires base >= 2
    ensures Digits(num, base) == [num % base] + if num < base then [] else Digits(num / base, base)
  {
  }

  // Digits above 'z', in a base above 36, go on through the characters, which are bytes.
  function DigitChar(d: nat): char
  {
    ((if d >= 10 then 'a' as int - 10 + d else '0' as int + d) % 256) as char
  }

  // The most significant digit is printed first.
  function Text(d: seq<nat>): string
  {
    if d == [] then "" else Text(d[1..]) + [DigitChar(d[0])]
  }

  function Repeat(c: char, n: int): (s: string)
    ensures |s| == if n > 0 then n else 0
    ensures forall i | 0 <= i < |s| :: s[i] == c
  {
    seq(if n > 0 then n else 0, _ => c)
  }

  // The digits, padded on the left with whatever the padding character is.
  function Number(num: nat, base: nat, width: int, padc: char): string
    requires base >= 2
  {
    Repeat(padc, width - |Digits(num, base)|) + Text(Digits(num, base))
  }

  // ----- What the text shows -----

  // The digit that a character stands for.
  function DigitOf(c: char): nat
  {
    if '0' <= c <= '9' then c as int - '0' as int
    else if 'a' <= c <= 'z' then c as int - 'a' as int + 10
    else 36
  }

  // What a string of digits stands for, read from the left.
  function Reading(s: string, base: nat): nat
  {
    if s == "" then 0 else Reading(s[..|s| - 1], base) * base + DigitOf(s[|s| - 1])
  }

  // Digits of the base, without a superfluous zero in front.
  predicate Numeral(s: string, base: nat)
  {
    && s != "" && (forall i | 0 <= i < |s| :: DigitOf(s[i]) < base)
    && (|s| > 1 ==> s[0] != '0')
  }

  // The numeral of num, behind as many padding characters as the width asks for.
  ghost predicate Shows(text: string, num: nat, base: nat, width: int, padc: char)
  {
    exists k: nat :: ShowsAt(text, num, base, width, padc, k)
  }

  predicate ShowsAt(text: string, num: nat, base: nat, width: int, padc: char, k: nat)
  {
    && k <= |text| && (forall i | 0 <= i < k :: text[i] == padc)
    && Numeral(text[k..], base) && Reading(text[k..], base) == num
    && width <= |text| && (k > 0 ==> |text| == width)
  }

  lemma DigitShown(d: nat)
    requires d < 36
    ensures DigitOf(DigitChar(d)) == d
  {
  }

  lemma {:induction false} TextReads(d: seq<nat>, base: nat)
    requires base <= 36 && forall i | 0 <= i < |d| :: d[i] < base
    ensures Reading(Text(d), base) == Value(d, base)
    decreases |d|
  {
    hide DigitChar, DigitOf;
    if d != [] {
      TextReads(d[1..], base);
      DigitShown(d[0]);
      var t := Text(d);
      assert t[..|t| - 1] == Text(d[1..]) && t[|t| - 1] == DigitChar(d[0]);
    }
  }

  lemma {:induction false} TextShows(d: seq<nat>)
    ensures |Text(d)| == |d| && forall i | 0 <= i < |d| :: Text(d)[i] == DigitChar(d[|d| - 1 - i])
    decreases |d|
  {
    hide DigitChar;
    if d != [] {
      TextShows(d[1..]);
    }
  }

  // The digit printer shows the number, in every base that has characters for its digits.
  lemma NumberShows(num: nat, base: nat, width: int, padc: char)
    requires 2 <= base <= 36
    ensures Shows(Number(num, base, width, padc), num, base, width, padc)
  {
    var d := Digits(num, base);
    var text := Number(num, base, width, padc);
    var k := |text| - |d|;
    DigitsMean(num, base);
    TextReads(d, base);
    TextShows(d);
    NoZeroInFront(num, base);
    hide Digits, DigitChar, Value, Reading;
    assert text[k..] == Text(d);
    forall i | 0 <= i < |d|
      ensures DigitOf(text[k..][i]) < base
    {
      DigitShown(d[|d| - 1 - i]);
    }
    assert ShowsAt(text, num, base, width, padc, k);
  }

  lemma NoZeroInFront(num: nat, base: nat)
    requires 2 <= base <= 36
    ensures var d := Digits(num, base);
            |d| > 1 ==> DigitChar(d[|d| - 1]) != '0'
  {
    var d := Digits(num, base);
    DigitsMean(num, base);
    DigitsUnfold(num, base);
    if |d| > 1 {
      DigitShown(d[|d| - 1]);
    }
  }

  // ----- Printing -----

  // The buffer so far and the digits still to be found.
  ghost predicate Found(buffer: seq<nat>, num: nat, base: nat, all: seq<nat>)
    requires base >= 2
  {
    buffer + Digits(num, base) == all
  }

  lemma FoundNone(num: nat, base: nat)
    requires base >= 2
    ensures Found([], num, base, Digits(num, base))
  {
  }

  lemma FoundNext(buffer: seq<nat>, buffer': seq<nat>, num: nat, base: nat, all: seq<nat>)
    requires base >= 2 && Found(buffer, num, base, all) && buffer' == buffer + [num % base]
    ensures num >= base ==> Found(buffer', num / base, base, all)
    ensures num < base ==> buffer' == all
  {
    Smaller(num, base);
  }

  // The next digit still has a place in the buffer.
  lemma MoreDigits(num: nat, base: nat, pos: nat)
    requires base >= 2 && num >= base && pos <= 64 && num < Pow2(64 - pos + 1)
    ensures pos < 64 && num / base < Pow2(64 - pos) && num / base < num
  {
    Smaller(num, base);
    assert Pow2(1) == 2 * Pow2(0);
  }

  // printnum: the digits are found from the last one on, in a buffer with room for 64.
  method Printnum(num0: nat, base: nat, width: int, padc: char) returns (out: string)
    requires num0 < ULONG_MOD && base >= 2
    ensures out == Number(num0, base, width, padc)
  {
    hide Digits, Found, Pow2, Number;
    var digs := new nat[64];
    var pos: nat := 0;
    var num: nat := num0;
    ghost var all := Digits(num0, base);
    Pow2Words();
    FoundNone(num, base);
    assert digs[..0] == [];
    while true
      invariant pos < 64 && num < Pow2(64 - pos)
      invariant Found(digs[..pos], num, base, all)
      decreases num
    {
      ghost var before := digs[..pos];
      digs[pos] := num % base;
      pos := pos + 1;
      assert digs[..pos] == before + [num % base];
      FoundNext(before, digs[..pos], num, base, all);
      if num < base {
        break;
      }
      MoreDigits(num, base, pos);
      num := num / base;
    }
    out := PutDigits(digs, pos, num0, base, width, padc);
  }

  method Pad(width0: int, pos: nat, padc: char) returns (out: string)
    ensures out == Repeat(padc, width0 - pos)
  {
    out := "";
    var width := width0;
    while width > pos
      invariant (width >= pos || width == width0) && out == Repeat(padc, width0 - width)
      decreases width
    {
      width := width - 1;
      out := out + [padc];
    }
  }

  method PutDigits(digs: array<nat>, pos0: nat, ghost num: nat, ghost base: nat, width: int, padc: char)
    returns (out: string)
    requires pos0 <= digs.Length && base >= 2 && digs[..pos0] == Digits(num, base)
    ensures out == Number(num, base, width, padc)
  {
    ghost var d := Digits(num, base);
    var pad := Pad(width, pos0, padc);
    hide Digits, Repeat, DigitChar, Value, Pow2;
    out := "";
    var pos := pos0;
    while pos > 0
      invariant 0 <= pos <= pos0 && out == Text(d[pos..])
      decreases pos
    {
      pos := pos - 1;
      assert digs[pos] == d[pos] && d[pos..][1..] == d[pos + 1..];
      out := out + [DigitChar(digs[pos])];
    }
    assert d[0..] == d;
    out := pad + out;
  }
}
