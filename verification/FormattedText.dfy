/**
 The formatter behind printf and sprintf, and the reader of decimal numbers.
 */
module FormattedText {
  import opened Basics
  import opened NumberText

  // ----- Reading a number -----

  function InLong(x: int): Option<int> { if LONG_MIN <= x <= LONG_MAX then Some(x) else None }

  // res * 10 + digit; none where a long overflows.
  function Take(res: int, c: char): Option<int>
  {
    var ten := InLong(res * 10);
    if ten.None? then None else InLong(ten.value + (c as int - '0' as int))
  }

  // Exactly where neither step leaves the 64 bits of a long.
  lemma TakeFits(res: int, c: char)
    ensures Take(res, c).Some? <==>
              -0x8000_0000_0000_0000 <= 10 * res < 0x8000_0000_0000_0000 &&
              -0x8000_0000_0000_0000 <= 10 * res + c as int - 48 < 0x8000_0000_0000_0000
    ensures Take(res, c).Some? ==> Take(res, c).value == 10 * res + c as int - 48
  {
  }

  function Taken(s: string): Option<int>
  {
    if s == "" then Some(0)
    else
      var r := Taken(s[..|s| - 1]);
      if r.None? then None else Take(r.value, s[|s| - 1])
  }

  function SkipSpaces(s: string): string { if s != "" && s[0] == ' ' then SkipSpaces(s[1..]) else s }

  // The value that atol computes; none where its arithmetic overflows, which C leaves open.
  function AtolValue(s: string): Option<int>
  {
    var t := SkipSpaces(s);
    var signed := t != "" && (t[0] == '-' || t[0] == '+');
    var r := Taken(if signed then t[1..] else t);
    if r.None? then None else if signed && t[0] == '-' then InLong(-r.value) else r
  }

  // The first place that is not a space.
  method SkipLeading(s: string) returns (i: nat)
    ensures i <= |s| && s[i..] == SkipSpaces(s)
  {
    i := 0;
    assert s[0..] == s;
    while i < |s| && s[i] == ' '
      invariant i <= |s| && SkipSpaces(s[i..]) == SkipSpaces(s)
    {
      assert s[i..][1..] == s[i + 1..];
      i := i + 1;
    }
  }

  // The digits from a place on, added up as they come.
  method TakeAll(s: string, start: nat) returns (r: Option<int>)
    requires start <= |s|
    ensures r == Taken(s[start..])
  {
    hide Take;
    ghost var digits := s[start..];
    var res, i := 0, start;
    assert digits[..0] == "";
    while i < |s|
      invariant start <= i <= |s| && Taken(digits[..i - start]) == Some(res)
    {
      ghost var k := i - start;
      assert digits[..k + 1][..k] == digits[..k] && digits[k] == s[i];
      var next := Take(res, s[i]);
      if next.None? {
        OverflowStays(digits, k + 1);
        return None;
      }
      res := next.value;
      i := i + 1;
    }
    assert digits[..|digits|] == digits;
    r := Some(res);
  }

  method Atol(s: string) returns (r: Option<int>)
    ensures r == AtolValue(s)
  {
    hide Taken, SkipSpaces, Take;
    var sign := false;
    var i := SkipLeading(s);
    ghost var t := SkipSpaces(s);
    assert t == s[i..];
    if i < |s| && (s[i] == '-' || s[i] == '+') {
      sign := s[i] == '-';
      assert t[0] == s[i] && t[1..] == s[i + 1..];
      i := i + 1;
    }
    r := TakeAll(s, i);
    if sign && r.Some? {
      r := InLong(-r.value);
    }
  }

  lemma {:induction false} OverflowStays(s: string, k: nat)
    requires k <= |s| && Taken(s[..k]).None?
    ensures Taken(s).None?
    decreases |s| - k
  {
    if k < |s| {
      assert s[..k + 1][..k] == s[..k];
      OverflowStays(s, k + 1);
    } else {
      assert s[..k] == s;
    }
  }

  // Reading back printed digits gives the number, as long as it is a long.
  lemma {:induction false} TakenText(d: seq<nat>)
    requires forall i | 0 <= i < |d| :: d[i] < 10
    ensures Taken(Text(d)) == if Value(d, 10) <= LONG_MAX then Some(Value(d, 10)) else None
  {
    if d != [] {
      TakenText(d[1..]);
      var t := Text(d);
      assert t[..|t| - 1] == Text(d[1..]) && t[|t| - 1] == DigitChar(d[0]);
      assert DigitChar(d[0]) as int - '0' as int == d[0];
      assert Value(d, 10) == d[0] + Value(d[1..], 10) * 10;
    }
  }

  // What "%ld" prints for v.
  function LongText(v: int): string
  {
    if v < 0 then "-" + Number(-v, 10, -1, ' ') else Number(v, 10, -1, ' ')
  }

  lemma NumberStarts(num: nat)
    ensures var t := Number(num, 10, -1, ' ');
            && t != "" && '0' <= t[0] <= '9'
            && Taken(t) == (if num <= LONG_MAX then Some(num) else None)
  {
    var d := Digits(num, 10);
    DigitsMean(num, 10);
    TakenText(d);
    assert Number(num, 10, -1, ' ') == Text(d);
    FirstChar(d);
  }

  lemma {:induction false} FirstChar(d: seq<nat>)
    requires d != []
    ensures |Text(d)| == |d| && Text(d)[0] == DigitChar(d[|d| - 1])
  {
    if |d| == 1 {
      assert d[1..] == [];
    } else {
      FirstChar(d[1..]);
    }
  }

  // atol undoes sprintf("%ld"), for every long but the most negative one, whose digits do
  // not fit a long before the sign is put back.
  lemma LongRoundTrip(v: int)
    requires LONG_MIN <= v <= LONG_MAX
    ensures AtolValue(LongText(v)) == Some(v) <==> v != LONG_MIN
    ensures v == LONG_MIN ==> AtolValue(LongText(v)).None?
  {
    hide Number, Taken;
    NumberStarts(if v < 0 then -v else v);
    var t := LongText(v);
    assert SkipSpaces(t) == t;
    if v < 0 {
      assert t[1..] == Number(-v, 10, -1, ' ');
    }
  }

  // Spaces in front and a plus sign change nothing, and a minus sign negates.
  lemma AtolSigns(num: nat, spaces: nat)
    requires num <= LONG_MAX
    ensures var t, front := Number(num, 10, -1, ' '), Repeat(' ', spaces);
            && AtolValue(front + t) == AtolValue(front + "+" + t) == Some(num)
            && AtolValue(front + "-" + t) == Some(-(num as int))
  {
    hide Number, Taken;
    NumberStarts(num);
    var t := Number(num, 10, -1, ' ');
    SpacesSkipped(t, spaces);
    SpacesSkipped("+" + t, spaces);
    SpacesSkipped("-" + t, spaces);
    Regroup(Repeat(' ', spaces), "+", t);
    Regroup(Repeat(' ', spaces), "-", t);
    assert ("+" + t)[1..] == t && ("-" + t)[1..] == t;
  }

  lemma {:induction false} SpacesSkipped(t: string, spaces: nat)
    requires t != "" && t[0] != ' '
    ensures SkipSpaces(Repeat(' ', spaces) + t) == t
    decreases spaces
  {
    var s := Repeat(' ', spaces) + t;
    if spaces > 0 {
      SpacesSkipped(t, spaces - 1);
      assert s[1..] == Repeat(' ', spaces - 1) + t;
    } else {
      assert s == t;
    }
  }

  // ----- Directives -----

  datatype Arg = Num(n: int) | Str(s: Option<string>)

  const NUL: char := '\0'

  // The format as it lies in memory, with its terminator; nothing behind that is read.
  function At(fmt: string, i: nat): char
    requires i <= |fmt|
  {
    if i < |fmt| then fmt[i] else NUL
  }

  predicate IsDigit(c: char) { '0' <= c <= '9' }

  lemma DigitsAre(c: char)
    ensures IsDigit(c) <==> DigitOf(c) < 10
  {
  }

  datatype Flags = Flags(padc: char, width: int, precision: int, lflag: nat) {
    // A number in the directive is the width first and the precision then.
    function WithPrecision(p: int): Flags
    {
      if width < 0 then this.(width := p, precision := -1) else this.(precision := p)
    }
  }

  // The conversion character, the place behind it, the next argument and the flags.
  datatype Parsed = Parsed(ch: char, i: nat, k: nat, f: Flags)

  function IntOf(a: Arg): int { if a.Num? then a.n else 0 }

  // A number that began with the character ch in front of place i.
  function NumberAt(fmt: string, i: nat, ch: char, acc: int): (r: (int, nat))
    requires i <= |fmt|
    ensures i <= r.1 <= |fmt|
    decreases |fmt| - i
  {
    var acc' := acc * 10 + (ch as int - '0' as int);
    if i < |fmt| && IsDigit(fmt[i]) then NumberAt(fmt, i + 1, fmt[i], acc') else (acc', i)
  }

  function Parse(fmt: string, args: nat -> Arg, i: nat, k: nat, f: Flags): (p: Parsed)
    requires i <= |fmt|
    ensures i < p.i <= |fmt| + 1 && (p.i == |fmt| + 1 ==> p.ch == NUL)
    decreases |fmt| - i
  {
    var ch := At(fmt, i);
    if i == |fmt| then Parsed(ch, i + 1, k, f)
    else if ch == '-' then Parse(fmt, args, i + 1, k, f.(padc := '-'))
    else if ch == '0' then Parse(fmt, args, i + 1, k, f.(padc := '0'))
    else if IsDigit(ch) then
      var (n, j) := NumberAt(fmt, i + 1, ch, 0);
      Parse(fmt, args, j, k, f.WithPrecision(n))
    else if ch == '*' then Parse(fmt, args, i + 1, k + 1, f.WithPrecision(IntOf(args(k))))
    else if ch == '.' then Parse(fmt, args, i + 1, k, if f.width < 0 then f.(width := 0) else f)
    else if ch == '#' then Parse(fmt, args, i + 1, k, f)
    else if ch == 'l' then Parse(fmt, args, i + 1, k, f.(lflag := f.lflag + 1))
    else Parsed(ch, i + 1, k, f)
  }

  function Start(): Flags { Flags(' ', -1, -1, 0) }

  // ----- Conversions -----

  function Unsigned(n: int, lflag: nat): nat { n % (if lflag > 0 then ULONG_MOD else 0x1_0000_0000) }

  function Signed(n: int, lflag: nat): int
  {
    var m := if lflag > 0 then ULONG_MOD else 0x1_0000_0000;
    var u := n % m;
    if u < m / 2 then u else u - m
  }

  // The part of a string that is printed.
  function Clipped(s: string, precision: int): string
  {
    if 0 <= precision < |s| then s[..precision] else s
  }

  // The string, padded to the width on the left or, with the minus flag, on the right.
  function StringText(s: string, f: Flags): string
  {
    var body := Clipped(s, f.precision);
    if f.width > 0 && f.padc != '-' then Repeat(f.padc, f.width - |body|) + body
    else body + Repeat(' ', f.width - |body|)
  }

  function StringOf(a: Arg): string
  {
    if a.Str? && a.s.Some? then a.s.value else "(null)"
  }

  // The text of a conversion that takes an argument; none if the character is not one. A signed
  // number is printed by its magnitude; for the most negative one, whose negation overflows in
  // C, this is the magnitude left by wrapping around.
  function Converted(ch: char, a: Arg, f: Flags): Option<string>
  {
    match ch
    case 'c' => Some([(IntOf(a) % 0x100) as char])
    case 's' => Some(StringText(StringOf(a), f))
    case 'd' =>
      var n := Signed(IntOf(a), f.lflag);
      Some((if n < 0 then "-" else "") + Number(if n < 0 then -n else n, 10, f.width, f.padc))
    case 'u' => Some(Number(Unsigned(IntOf(a), f.lflag), 10, f.width, f.padc))
    case 'o' => Some(Number(Unsigned(IntOf(a), f.lflag), 8, f.width, f.padc))
    case 'p' => Some("0x" + Number(Unsigned(IntOf(a), 1), 16, f.width, f.padc))
    case 'x' => Some(Number(Unsigned(IntOf(a), f.lflag), 16, f.width, f.padc))
    case _ => None
  }

  // The output from place i of the format on, with argument k next.
  function Format(fmt: string, args: nat -> Arg, i: nat, k: nat): string
    requires i <= |fmt|
    decreases |fmt| - i
  {
    if i == |fmt| then ""
    else if fmt[i] != '%' then [fmt[i]] + Format(fmt, args, i + 1, k)
    else
      var p := Parse(fmt, args, i + 1, k, Start());
      var text := Converted(p.ch, args(p.k), p.f);
      if p.i > |fmt| then "%" + Format(fmt, args, i + 1, p.k)
      else if text.Some? then text.value + Format(fmt, args, p.i, p.k + 1)
      else if p.ch == '%' then "%" + Format(fmt, args, p.i, p.k)
      else "%" + Format(fmt, args, i + 1, p.k)
  }

  // ----- What the conversions show -----

  // The values of an unsigned argument: of an int, or of a long.
  function Bound(long: bool): nat { if long then 0x1_0000_0000_0000_0000 else 0x1_0000_0000 }

  // The characters that take an argument.
  lemma ConversionLetters(ch: char, a: Arg, f: Flags)
    ensures Converted(ch, a, f).Some? <==> ch in "csduopx"
  {
    hide Number, StringText, Signed, Unsigned;
    assert "csduopx"[0] == 'c' && "csduopx"[1] == 's' && "csduopx"[2] == 'd' && "csduopx"[3] == 'u';
    assert "csduopx"[4] == 'o' && "csduopx"[5] == 'p' && "csduopx"[6] == 'x';
  }

  // An unsigned conversion shows the number m below 2^32 or 2^64 that the argument is up to
  // multiples of that.
  lemma UnsignedShown(ch: char, n: int, f: Flags) returns (m: nat)
    requires ch == 'u' || ch == 'o' || ch == 'x'
    ensures m < Bound(f.lflag > 0) && (n - m) % Bound(f.lflag > 0) == 0
    ensures Converted(ch, Num(n), f).Some?
    ensures Shows(Converted(ch, Num(n), f).value, m, if ch == 'u' then 10 else if ch == 'o' then 8 else 16,
                  f.width, f.padc)
  {
    hide Number, StringText, Shows;
    m := Unsigned(n, f.lflag);
    NumberShows(m, if ch == 'u' then 10 else if ch == 'o' then 8 else 16, f.width, f.padc);
  }

  lemma PointerShown(n: int, f: Flags) returns (m: nat)
    ensures m < Bound(true) && (n - m) % Bound(true) == 0
    ensures var text := Converted('p', Num(n), f);
            text.Some? && |text.value| > 2 && text.value[..2] == "0x" && Shows(text.value[2..], m, 16, f.width, f.padc)
  {
    hide Number, StringText;
    m := Unsigned(n, 1);
    NumberShows(m, 16, f.width, f.padc);
    assert ("0x" + Number(m, 16, f.width, f.padc))[2..] == Number(m, 16, f.width, f.padc);
  }

  lemma SignedRange(n: int, lflag: nat)
    ensures var b: int, m := Bound(lflag > 0), Signed(n, lflag);
            -b <= 2 * m < b && (n - m) % b == 0
  {
  }

  // A signed one shows the number in the signed range, its magnitude behind a minus sign.
  lemma SignedShown(n: int, f: Flags) returns (m: int)
    ensures var b: int := Bound(f.lflag > 0);
            -b <= 2 * m < b && (n - m) % b == 0
    ensures var text := Converted('d', Num(n), f);
            && text.Some?
            && (m < 0 ==> text.value != "" && text.value[0] == '-'
                          && Shows(text.value[1..], -m, 10, f.width, f.padc))
            && (m >= 0 ==> Shows(text.value, m, 10, f.width, f.padc))
  {
    hide Number, StringText, Signed, Bound, Shows;
    SignedRange(n, f.lflag);
    m := Signed(n, f.lflag);
    var k := if m < 0 then -m else m;
    NumberShows(k, 10, f.width, f.padc);
    assert ("-" + Number(k, 10, f.width, f.padc))[1..] == Number(k, 10, f.width, f.padc);
    assert "" + Number(k, 10, f.width, f.padc) == Number(k, 10, f.width, f.padc);
  }

  // A string shows its first characters, as many as the precision allows, behind padding
  // characters up to the width; with the minus flag in front of spaces.
  lemma StringShown(a: Arg, f: Flags)
    ensures var s := if a.Str? && a.s.Some? then a.s.value else "(null)";
            var c := if f.precision < 0 || |s| < f.precision then |s| else f.precision;
            var text := Converted('s', a, f);
            && text.Some? && |text.value| == (if f.width > c then f.width else c)
            && var pad := |text.value| - c;
               if f.padc == '-' then
                 text.value[..c] == s[..c] && forall i | c <= i < |text.value| :: text.value[i] == ' '
               else
                 text.value[pad..] == s[..c] && forall i | 0 <= i < pad :: text.value[i] == f.padc
  {
    var s := StringOf(a);
    var body := Clipped(s, f.precision);
    var text := StringText(s, f);
    assert body == s[..|body|];
    if f.padc == '-' {
      assert text[..|body|] == body;
    } else {
      assert text[|text| - |body|..] == body;
    }
  }

  lemma CharShown(n: int, f: Flags)
    ensures var text := Converted('c', Num(n), f);
            text.Some? && |text.value| == 1 && (text.value[0] as int - n) % 0x100 == 0 && text.value[0] as int < 0x100
  {
  }

  // ----- What the directives mean -----

  // The padding character chosen by a row of flags: the last one of '-' and '0'.
  function LastPad(s: string, c: char): char
  {
    if s == "" then c
    else if s[|s| - 1] == '#' then LastPad(s[..|s| - 1], c)
    else s[|s| - 1]
  }

  lemma {:induction false} LastPadFrom(s: string, c: char)
    requires s != ""
    ensures LastPad(s, c) == LastPad(s[1..], if s[0] == '#' then c else s[0])
    decreases |s|
  {
    var n := |s| - 1;
    if n > 0 {
      assert s[1..][..n - 1] == s[..n][1..] && s[1..][n - 1] == s[n];
      if s[n] == '#' {
        LastPadFrom(s[..n], c);
      }
    } else {
      assert s[1..] == "" && s[..0] == "";
    }
  }

  lemma {:induction false} PadsParsed(fmt: string, args: nat -> Arg, i: nat, j: nat, k: nat, f: Flags)
    requires i <= j <= |fmt| && forall x | i <= x < j :: fmt[x] == '-' || fmt[x] == '0' || fmt[x] == '#'
    ensures Parse(fmt, args, i, k, f) == Parse(fmt, args, j, k, f.(padc := LastPad(fmt[i..j], f.padc)))
    decreases j - i
  {
    if i < j {
      LastPadFrom(fmt[i..j], f.padc);
      assert fmt[i..j][1..] == fmt[i + 1..j];
      PadsParsed(fmt, args, i + 1, j, k, if fmt[i] == '#' then f else f.(padc := fmt[i]));
    } else {
      assert fmt[i..j] == "";
    }
  }

  lemma {:induction false} NumberRead(fmt: string, i: nat, x: nat, j: nat)
    requires i <= x < j <= |fmt| && (forall y | i <= y < j :: IsDigit(fmt[y])) && (j == |fmt| || !IsDigit(fmt[j]))
    ensures NumberAt(fmt, x + 1, fmt[x], Reading(fmt[i..x], 10)) == (Reading(fmt[i..j], 10), j)
    decreases j - x
  {
    var t := fmt[i..x + 1];
    assert t[..|t| - 1] == fmt[i..x] && t[|t| - 1] == fmt[x];
    assert Reading(t, 10) == Reading(fmt[i..x], 10) * 10 + DigitOf(fmt[x]);
    if x + 1 < j {
      NumberRead(fmt, i, x + 1, j);
    }
  }

  lemma DigitsParsed(fmt: string, args: nat -> Arg, i: nat, j: nat, k: nat, f: Flags)
    requires i < j <= |fmt| && (forall y | i <= y < j :: IsDigit(fmt[y])) && (j == |fmt| || !IsDigit(fmt[j]))
    requires fmt[i] != '0'
    ensures Parse(fmt, args, i, k, f) == Parse(fmt, args, j, k, f.WithPrecision(Reading(fmt[i..j], 10)))
  {
    assert fmt[i..i] == "";
    NumberRead(fmt, i, i, j);
    hide Reading;
  }

  lemma {:induction false} LongsParsed(fmt: string, args: nat -> Arg, i: nat, j: nat, k: nat, f: Flags)
    requires i <= j <= |fmt| && forall x | i <= x < j :: fmt[x] == 'l'
    ensures Parse(fmt, args, i, k, f) == Parse(fmt, args, j, k, f.(lflag := f.lflag + (j - i)))
    decreases j - i
  {
    if i < j {
      LongsParsed(fmt, args, i + 1, j, k, f.(lflag := f.lflag + 1));
    }
  }

  // The parts of a directive: flags up to a, the width up to b, a point and the precision up
  // to c, long flags up to d, and the conversion character there.
  predicate Directive(fmt: string, i: nat, a: nat, b: nat, c: nat, d: nat)
  {
    && i <= a <= b <= c <= d < |fmt|
    && (forall x | i <= x < a :: fmt[x] == '-' || fmt[x] == '0' || fmt[x] == '#')
    && (forall x | a <= x < b :: IsDigit(fmt[x])) && (a < b ==> fmt[a] != '0')
    && (b < c ==> fmt[b] == '.' && (forall x | b < x < c :: IsDigit(fmt[x])) && (b + 1 < c ==> fmt[b + 1] != '0'))
    && (forall x | c <= x < d :: fmt[x] == 'l')
    && !IsDigit(fmt[d]) && fmt[d] !in "-#*.l"
  }

  // The flags that it stands for.
  function FlagsOf(fmt: string, i: nat, a: nat, b: nat, c: nat, d: nat): Flags
    requires Directive(fmt, i, a, b, c, d)
  {
    Flags(LastPad(fmt[i..a], ' '),
          if a < b then Reading(fmt[a..b], 10) else if b < c then 0 else -1,
          if b + 1 < c then Reading(fmt[b + 1..c], 10) else -1,
          d - c)
  }

  lemma DirectiveParsed(fmt: string, args: nat -> Arg, i: nat, a: nat, b: nat, c: nat, d: nat, k: nat)
    requires Directive(fmt, i, a, b, c, d)
    ensures Parse(fmt, args, i, k, Start()) == Parsed(fmt[d], d + 1, k, FlagsOf(fmt, i, a, b, c, d))
  {
    hide Reading, LastPad, Parse;
    var f := Start();
    PadsParsed(fmt, args, i, a, k, f);
    f := f.(padc := LastPad(fmt[i..a], ' '));
    if a < b {
      DigitsParsed(fmt, args, a, b, k, f);
      f := f.WithPrecision(Reading(fmt[a..b], 10));
    }
    if b < c {
      PointParsed(fmt, args, b, k, f);
      f := if f.width < 0 then f.(width := 0) else f;
      if b + 1 < c {
        DigitsParsed(fmt, args, b + 1, c, k, f);
        f := f.WithPrecision(Reading(fmt[b + 1..c], 10));
      }
    }
    LongsParsed(fmt, args, c, d, k, f);
    f := f.(lflag := d - c);
    EndParsed(fmt, args, d, k, f);
  }

  lemma PointParsed(fmt: string, args: nat -> Arg, i: nat, k: nat, f: Flags)
    requires i < |fmt| && fmt[i] == '.'
    ensures Parse(fmt, args, i, k, f) == Parse(fmt, args, i + 1, k, if f.width < 0 then f.(width := 0) else f)
  {
  }

  lemma EndParsed(fmt: string, args: nat -> Arg, i: nat, k: nat, f: Flags)
    requires i < |fmt| && !IsDigit(fmt[i]) && fmt[i] !in "-#*.l"
    ensures Parse(fmt, args, i, k, f) == Parsed(fmt[i], i + 1, k, f)
  {
    assert "-#*.l"[0] == '-' && "-#*.l"[1] == '#' && "-#*.l"[2] == '*' && "-#*.l"[3] == '.' && "-#*.l"[4] == 'l';
  }

  // A directive is replaced by the text of its conversion, and the rest of the format follows,
  // with the next argument.
  lemma DirectiveFormatted(fmt: string, args: nat -> Arg, i: nat, a: nat, b: nat, c: nat, d: nat, k: nat)
    requires i < |fmt| && fmt[i] == '%' && Directive(fmt, i + 1, a, b, c, d)
    requires Converted(fmt[d], args(k), FlagsOf(fmt, i + 1, a, b, c, d)).Some?
    ensures Format(fmt, args, i, k)
            == Converted(fmt[d], args(k), FlagsOf(fmt, i + 1, a, b, c, d)).value + Format(fmt, args, d + 1, k + 1)
  {
    hide Parse, Converted, FlagsOf, Directive;
    assert d < |fmt| by {
      DirectiveEnds(fmt, i + 1, a, b, c, d);
    }
    DirectiveParsed(fmt, args, i + 1, a, b, c, d, k);
  }

  lemma DirectiveEnds(fmt: string, i: nat, a: nat, b: nat, c: nat, d: nat)
    requires Directive(fmt, i, a, b, c, d)
    ensures d < |fmt|
  {
  }

  // Any other directive is left as it stands, from the percent sign on.
  lemma UnknownFormatted(fmt: string, args: nat -> Arg, i: nat, a: nat, b: nat, c: nat, d: nat, k: nat)
    requires i < |fmt| && fmt[i] == '%' && Directive(fmt, i + 1, a, b, c, d)
    requires fmt[d] !in "csduopx%"
    ensures Format(fmt, args, i, k) == "%" + Format(fmt, args, i + 1, k)
  {
    hide Parse, Converted, FlagsOf, Directive;
    assert d < |fmt| by {
      DirectiveEnds(fmt, i + 1, a, b, c, d);
    }
    DirectiveParsed(fmt, args, i + 1, a, b, c, d, k);
    NotALetter(fmt[d]);
    ConversionLetters(fmt[d], args(k), FlagsOf(fmt, i + 1, a, b, c, d));
  }

  lemma NotALetter(ch: char)
    requires ch !in "csduopx%"
    ensures ch !in "csduopx" && ch != '%'
  {
    assert "csduopx%"[7] == '%' && "csduopx%"[..7] == "csduopx";
    assert forall i | 0 <= i < 7 :: "csduopx"[i] == "csduopx%"[i];
  }

  // A star takes the width from an argument of its own.
  lemma StarFormatted(fmt: string, args: nat -> Arg, i: nat, k: nat)
    requires i + 2 < |fmt| && fmt[i..i + 2] == "%*" && args(k).Num?
    requires !IsDigit(fmt[i + 2]) && fmt[i + 2] !in "-#*.l"
    requires Converted(fmt[i + 2], args(k + 1), Flags(' ', args(k).n, -1, 0)).Some?
    ensures Format(fmt, args, i, k)
            == Converted(fmt[i + 2], args(k + 1), Flags(' ', args(k).n, -1, 0)).value
               + Format(fmt, args, i + 3, k + 2)
  {
    hide Converted;
    assert fmt[i] == fmt[i..i + 2][0] && fmt[i + 1] == fmt[i..i + 2][1];
    EndParsed(fmt, args, i + 2, k + 1, Flags(' ', args(k).n, -1, 0));
  }

  // A doubled percent sign is one percent sign, and takes no argument.
  lemma PercentFormatted(fmt: string, args: nat -> Arg, i: nat, k: nat)
    requires i + 1 < |fmt| && fmt[i] == '%' == fmt[i + 1]
    ensures Format(fmt, args, i, k) == "%" + Format(fmt, args, i + 2, k)
  {
    hide Number, StringText;
    assert Parse(fmt, args, i + 1, k, Start()) == Parsed('%', i + 2, k, Start());
  }

  // ----- The formatter -----

  method ParseDirective(fmt: string, args: nat -> Arg, i0: nat, k0: nat) returns (p: Parsed)
    requires i0 <= |fmt|
    ensures p == Parse(fmt, args, i0, k0, Start())
  {
    var i, k, f := i0, k0, Start();
    while true
      invariant i <= |fmt| && Parse(fmt, args, i, k, f) == Parse(fmt, args, i0, k0, Start())
      decreases |fmt| - i
    {
      var ch := At(fmt, i);
      if i == |fmt| {
        return Parsed(ch, i + 1, k, f);
      }
      i := i + 1;
      if ch == '-' || ch == '0' {
        f := f.(padc := ch);
      } else if IsDigit(ch) {
        var precision := 0;
        ghost var start, first := i, ch;
        precision := precision * 10 + (ch as int - '0' as int);
        while i < |fmt| && IsDigit(fmt[i])
          invariant start <= i <= |fmt|
          invariant NumberAt(fmt, start, first, 0) ==
                      if i < |fmt| && IsDigit(fmt[i]) then NumberAt(fmt, i + 1, fmt[i], precision) else (precision, i)
        {
          precision := precision * 10 + (fmt[i] as int - '0' as int);
          i := i + 1;
        }
        f := f.WithPrecision(precision);
      } else if ch == '*' {
        f := f.WithPrecision(IntOf(args(k)));
        k := k + 1;
      } else if ch == '.' {
        if f.width < 0 {
          f := f.(width := 0);
        }
      } else if ch == '#' {
      } else if ch == 'l' {
        f := f.(lflag := f.lflag + 1);
      } else {
        return Parsed(ch, i, k, f);
      }
    }
  }

  method PutString(p: string, f: Flags) returns (out: string)
    ensures out == StringText(p, f)
  {
    out := "";
    var width, precision := f.width, f.precision;
    if width > 0 && f.padc != '-' {
      width := width - |Clipped(p, precision)|;
      ghost var w := width;
      while width > 0
        invariant (width >= 0 || width == w) && out == Repeat(f.padc, w - width)
      {
        out := out + [f.padc];
        width := width - 1;
      }
    }
    ghost var pad, w := out, width;
    var i := 0;
    while i < |p| && (precision < 0 || precision - 1 >= 0)
      invariant 0 <= i <= |p| && width == w - i && out == pad + p[..i]
      invariant if f.precision < 0 then precision < 0 else precision == f.precision - i && 0 <= precision
    {
      precision := precision - 1;
      out := out + [p[i]];
      i := i + 1;
      width := width - 1;
    }
    ghost var body := out;
    assert p[..i] == Clipped(p, f.precision);
    ghost var left := width;
    while width > 0
      invariant (width >= 0 || width == left) && out == body + Repeat(' ', left - width)
    {
      out := out + [' '];
      width := width - 1;
    }
  }

  // vprintfmt: the whole output, whatever the format; every access to the format is at or in
  // front of its terminator.
  method Vprintfmt(fmt: string, args: nat -> Arg) returns (out: string)
    ensures out == Format(fmt, args, 0, 0)
  {
    hide Parse, Number, StringText;
    out := "";
    var i: nat, k: nat := 0, 0;
    while i < |fmt|
      invariant i <= |fmt| && out + Format(fmt, args, i, k) == Format(fmt, args, 0, 0)
      decreases |fmt| - i
    {
      var text, i', k' := Piece(fmt, args, i, k);
      Regroup(out, text, Format(fmt, args, i', k'));
      out := out + text;
      i, k := i', k';
    }
  }

  // One plain character or one directive.
  method Piece(fmt: string, args: nat -> Arg, i: nat, k: nat) returns (text: string, i': nat, k': nat)
    requires i < |fmt|
    ensures i < i' <= |fmt| && Format(fmt, args, i, k) == text + Format(fmt, args, i', k')
  {
    hide Parse, Converted;
    if fmt[i] != '%' {
      return [fmt[i]], i + 1, k;
    }
    var p := ParseDirective(fmt, args, i + 1, k);
    var known := false;
    if p.i <= |fmt| {
      known, text := Convert(p.ch, args(p.k), p.f);
    }
    if known {
      i', k' := p.i, p.k + 1;
    } else if p.i <= |fmt| && p.ch == '%' {
      text, i', k' := "%", p.i, p.k;
    } else {
      text, i', k' := "%", i + 1, p.k;
    }
  }

  method Convert(ch: char, a: Arg, f: Flags) returns (known: bool, text: string)
    ensures known <==> Converted(ch, a, f).Some?
    ensures known ==> text == Converted(ch, a, f).value
  {
    hide Number, StringText;
    known, text := true, "";
    if ch == 'c' {
      text := [(IntOf(a) % 0x100) as char];
    } else if ch == 's' {
      text := PutString(StringOf(a), f);
    } else if ch == 'd' {
      var num := Signed(IntOf(a), f.lflag);
      var sign := "";
      if num < 0 {
        sign, num := "-", -num;
      }
      text := Printnum(num, 10, f.width, f.padc);
      text := sign + text;
    } else if ch == 'u' {
      text := Printnum(Unsigned(IntOf(a), f.lflag), 10, f.width, f.padc);
    } else if ch == 'o' {
      text := Printnum(Unsigned(IntOf(a), f.lflag), 8, f.width, f.padc);
    } else if ch == 'p' {
      text := Printnum(Unsigned(IntOf(a), 1), 16, f.width, f.padc);
      text := "0x" + text;
    } else if ch == 'x' {
      text := Printnum(Unsigned(IntOf(a), f.lflag), 16, f.width, f.padc);
    } else {
      known := false;
    }
  }

  // sprintf("%ld", v) followed by atol.
  lemma FormatLong(v: int, args: nat -> Arg)
    requires LONG_MIN <= v <= LONG_MAX && args(0) == Num(v)
    ensures Format("%ld", args, 0, 0) == LongText(v)
    ensures AtolValue(Format("%ld", args, 0, 0)) == Some(v) <==> v != LONG_MIN
  {
    hide Number;
    var fmt := "%ld";
    assert Parse(fmt, args, 2, 0, Start().(lflag := 1)) == Parsed('d', 3, 0, Start().(lflag := 1));
    assert Parse(fmt, args, 1, 0, Start()) == Parsed('d', 3, 0, Start().(lflag := 1));
    assert Signed(v, 1) == v;
    assert Format(fmt, args, 3, 1) == "";
    LongRoundTrip(v);
  }

  // The same for "%d" and every int.
  lemma FormatInt(v: int, args: nat -> Arg)
    requires -0x8000_0000 <= v < 0x8000_0000 && args(0) == Num(v)
    ensures Format("%d", args, 0, 0) == LongText(v) && AtolValue(Format("%d", args, 0, 0)) == Some(v)
  {
    hide Number;
    var fmt := "%d";
    assert Parse(fmt, args, 1, 0, Start()) == Parsed('d', 2, 0, Start());
    assert Signed(v, 0) == v;
    assert Format(fmt, args, 2, 1) == "";
    LongRoundTrip(v);
  }

  // A format without directives is printed as it stands.
  lemma {:induction false} PlainFormat(fmt: string, args: nat -> Arg, i: nat, k: nat)
    requires i <= |fmt| && forall j | i <= j < |fmt| :: fmt[j] != '%'
    ensures Format(fmt, args, i, k) == fmt[i..]
    decreases |fmt| - i
  {
    if i < |fmt| {
      PlainFormat(fmt, args, i + 1, k);
    }
  }
}
