/**
 The checksum program: a CRC-32 that works bit by bit on reversed words, most significant
 bit first, against the byte-wise table form of section 8 of RFC 1952.
 */
module Checksum {

  // ----- Reversing words -----

  // Reverses the bits of a word by swapping ever larger groups.
  function Reverse(x: bv32): bv32
  {
    var x1 := ((x & 0x5555_5555) << 1) | ((x >> 1) & 0x5555_5555);
    var x2 := ((x1 & 0x3333_3333) << 2) | ((x1 >> 2) & 0x3333_3333);
    var x3 := ((x2 & 0x0F0F_0F0F) << 4) | ((x2 >> 4) & 0x0F0F_0F0F);
    (x3 << 24) | ((x3 & 0xFF00) << 8) | ((x3 >> 8) & 0xFF00) | (x3 >> 24)
  }

  // The bit of weight 2^i.
  function BitAt(x: bv32, i: bv32): bv32
    requires i < 32
  {
    (x >> i) & 1
  }

  // Each bit goes to the mirrored place.
  lemma ReverseMirrors(x: bv32, i: bv32)
    requires i < 32
    ensures BitAt(Reverse(x), i) == BitAt(x, 31 - i)
  {
  }

  lemma ReverseTwice(x: bv32)
    ensures Reverse(Reverse(x)) == x
  {
  }

  lemma ReverseXor(x: bv32, y: bv32)
    ensures Reverse(Xor(x, y)) == Xor(Reverse(x), Reverse(y))
  {
  }

  lemma ReverseShift(x: bv32)
    ensures Reverse(x << 1) == Reverse(x) >> 1
  {
  }

  lemma ReverseDouble(x: bv32)
    ensures Reverse(Double(x)) == Half(Reverse(x))
  {
    hide Reverse;
    ReverseShift(x);
  }

  lemma ReverseFlipped(x: bv32)
    ensures Reverse(!x) == Reverse(x) ^ 0xFFFF_FFFF
  {
  }

  lemma ReverseNot(x: bv32)
    ensures Reverse(Not(x)) == Xor(Reverse(x), ALL_ONES)
  {
    hide Reverse;
    ReverseFlipped(x);
  }

  lemma ReverseTop(x: bv32)
    ensures Negative(x) <==> Odd(Reverse(x))
  {
  }

  lemma ReverseConstants()
    ensures Reverse(POLYNOMIAL) == REFLECTED && Reverse(ALL_ONES) == ALL_ONES
  {
  }

  // ----- Word operations -----

  const POLYNOMIAL: bv32 := 0x04C1_1DB7
  const REFLECTED: bv32 := 0xEDB8_8320
  const ALL_ONES: bv32 := 0xFFFF_FFFF

  function Xor(x: bv32, y: bv32): bv32 { x ^ y }

  function Not(x: bv32): bv32 { !x }

  function Half(x: bv32): bv32 { x >> 1 }

  function Double(x: bv32): bv32 { x << 1 }

  function Widen(m: bv8): bv32 { m as bv32 }

  predicate Odd(x: bv32) { x & 1 == 1 }

  // (int) x < 0
  predicate Negative(x: bv32) { x & 0x8000_0000 != 0 }

  function LowByte(x: bv32): bv32 { x & 0xFF }

  function DropByte(x: bv32): bv32 { x >> 8 }

  lemma XorAssociates(x: bv32, y: bv32, z: bv32)
    ensures Xor(Xor(x, y), z) == Xor(x, Xor(y, z))
  {
  }

  lemma XorCommutes(x: bv32, y: bv32)
    ensures Xor(x, y) == Xor(y, x)
  {
  }

  lemma XorCancels(x: bv32, y: bv32)
    ensures Xor(Xor(x, y), y) == x && Xor(x, 0) == x && Xor(x, x) == 0
  {
  }

  lemma HalfXor(x: bv32, y: bv32)
    ensures Half(Xor(x, y)) == Xor(Half(x), Half(y))
  {
  }

  lemma OddXor(x: bv32, y: bv32)
    ensures Odd(Xor(x, y)) <==> Odd(x) != Odd(y)
  {
  }

  // ----- Bit by bit, most significant bit first -----

  function StepMsb(crc: bv32, byte: bv32): bv32
  {
    if Negative(Xor(crc, byte)) then Xor(Double(crc), POLYNOMIAL) else Double(crc)
  }

  // k steps, with the bits of the byte moving up.
  function StepsMsb(crc: bv32, byte: bv32, k: nat): bv32
    decreases k
  {
    if k == 0 then crc else StepsMsb(StepMsb(crc, byte), Double(byte), k - 1)
  }

  function BytesMsb(crc: bv32, message: seq<bv8>): bv32
    decreases |message|
  {
    if message == [] then crc
    else BytesMsb(StepsMsb(crc, Reverse(Widen(message[0])), 8), message[1..])
  }

  // The eight steps of one byte.
  method FeedByte(crc0: bv32, byte0: bv32) returns (crc: bv32)
    ensures crc == StepsMsb(crc0, byte0, 8)
  {
    hide *;
    crc := crc0;
    var byte := byte0;
    var j := 0;
    while j <= 7
      invariant 0 <= j <= 8 && StepsMsb(crc, byte, 8 - j) == StepsMsb(crc0, byte0, 8)
    {
      StepsUnfold(crc, byte, 8 - j);
      if Negative(Xor(crc, byte)) {
        crc := Xor(Double(crc), POLYNOMIAL);
      } else {
        crc := Double(crc);
      }
      byte := Double(byte);
      j := j + 1;
    }
    StepsEnd(crc, byte);
  }

  method Crc32a(message: seq<bv8>) returns (r: bv32)
    ensures r == Rfc1952(message)
  {
    hide *;
    var i := 0;
    var crc := ALL_ONES;
    assert message[0..] == message;
    while i < |message|
      invariant 0 <= i <= |message|
      invariant BytesMsb(crc, message[i..]) == BytesMsb(ALL_ONES, message)
    {
      BytesUnfold(crc, message[i..]);
      crc := FeedByte(crc, Reverse(Widen(message[i])));
      i := i + 1;
    }
    BytesEnd(crc);
    r := Reverse(Not(crc));
    MatchesRfc(message);
  }

  lemma StepsUnfold(crc: bv32, byte: bv32, k: nat)
    requires k > 0
    ensures StepsMsb(crc, byte, k) ==
              StepsMsb(if Negative(Xor(crc, byte)) then Xor(Double(crc), POLYNOMIAL) else Double(crc), Double(byte),
                       k - 1)
  {
    hide Xor, Double, Negative;
  }

  lemma StepsEnd(crc: bv32, byte: bv32)
    ensures StepsMsb(crc, byte, 0) == crc
  {
  }

  lemma BytesUnfold(crc: bv32, message: seq<bv8>)
    requires message != []
    ensures BytesMsb(crc, message) == BytesMsb(StepsMsb(crc, Reverse(Widen(message[0])), 8), message[1..])
  {
    hide Reverse, StepsMsb;
  }

  lemma BytesEnd(crc: bv32)
    ensures BytesMsb(crc, []) == crc
  {
  }

  // ----- The table form of section 8 of RFC 1952 -----

  function StepLsb(c: bv32): bv32
  {
    if Odd(c) then Xor(REFLECTED, Half(c)) else Half(c)
  }

  function StepsLsb(c: bv32, k: nat): bv32
    decreases k
  {
    if k == 0 then c else StepsLsb(StepLsb(c), k - 1)
  }

  // Entry n of the table of the CRCs of all bytes.
  function TableEntry(n: bv32): bv32 { StepsLsb(n, 8) }

  // The register after the bytes of buf.
  function Register(c: bv32, buf: seq<bv8>): bv32
    decreases |buf|
  {
    if buf == [] then c else Register(RegisterStep(c, buf[0]), buf[1..])
  }

  function RegisterStep(c: bv32, b: bv8): bv32
  {
    Xor(TableEntry(LowByte(Xor(c, Widen(b)))), DropByte(c))
  }

  function UpdateCrc(crc: bv32, buf: seq<bv8>): bv32
  {
    Xor(Register(Xor(crc, ALL_ONES), buf), ALL_ONES)
  }

  function Rfc1952(buf: seq<bv8>): bv32 { UpdateCrc(0, buf) }

  // ----- The two forms agree -----

  // A step on the words is a step on the reversed words, in which the part of the byte that
  // has not been used yet still has to be added.
  lemma StepReversed(crc: bv32, byte: bv32)
    ensures Reverse(StepMsb(crc, byte)) == Xor(StepLsb(Xor(Reverse(crc), Reverse(byte))), Half(Reverse(byte)))
  {
    hide Reverse, Xor, Half, Double, Odd, Negative;
    var d, e := Reverse(crc), Reverse(byte);
    ReverseXor(crc, byte);
    ReverseTop(Xor(crc, byte));
    ReverseDouble(crc);
    ReverseXor(Double(crc), POLYNOMIAL);
    ReverseConstants();
    HalfXor(d, e);
    XorAssociates(REFLECTED, Xor(Half(d), Half(e)), Half(e));
    XorCancels(Half(d), Half(e));
    XorCommutes(Half(d), REFLECTED);
  }

  lemma {:induction false} StepsReversed(crc: bv32, byte: bv32, k: nat)
    ensures Reverse(StepsMsb(crc, byte, k))
            == Xor(StepsLsb(Xor(Reverse(crc), Reverse(byte)), k), Down(Reverse(byte), k))
    decreases k
  {
    hide Reverse, StepMsb, StepLsb, Xor, Half, Double;
    var d, e := Reverse(crc), Reverse(byte);
    XorCancels(d, e);
    if k > 0 {
      StepsReversed(StepMsb(crc, byte), Double(byte), k - 1);
      StepReversed(crc, byte);
      ReverseDouble(byte);
      XorCancels(StepLsb(Xor(d, e)), Half(e));
    }
  }

  // x >> k, one place at a time.
  function Down(x: bv32, k: nat): bv32
    decreases k
  {
    if k == 0 then x else Down(Half(x), k - 1)
  }

  lemma DownEight(x: bv32)
    ensures Down(x, 8) == DropByte(x)
  {
    hide Half, DropByte;
    var x2 := Half(Half(x));
    var x4 := Half(Half(x2));
    var x6 := Half(Half(x4));
    assert Down(x, 8) == Down(x2, 6);
    assert Down(x2, 6) == Down(x4, 4);
    assert Down(x4, 4) == Down(x6, 2);
    assert Down(x6, 2) == Half(Half(x6));
    HalvesAreShift(x);
  }

  lemma HalvesAreShift(x: bv32)
    ensures Half(Half(Half(Half(Half(Half(Half(Half(x)))))))) == DropByte(x)
  {
  }

  lemma StepXor(x: bv32, y: bv32)
    ensures StepLsb(Xor(x, y)) == Xor(StepLsb(x), StepLsb(y))
  {
    hide Xor, Half, Odd;
    var hx, hy := Half(x), Half(y);
    OddXor(x, y);
    HalfXor(x, y);
    XorAssociates(REFLECTED, hx, hy);
    XorCommutes(REFLECTED, hx);
    XorCommutes(REFLECTED, hy);
    XorAssociates(hx, REFLECTED, hy);
    XorAssociates(hx, hy, REFLECTED);
    XorAssociates(hx, REFLECTED, Xor(REFLECTED, hy));
    XorAssociates(REFLECTED, REFLECTED, hy);
    XorCommutes(0, hy);
    XorCancels(REFLECTED, REFLECTED);
    XorCancels(hy, 0);
    XorCommutes(Xor(hx, hy), REFLECTED);
  }

  lemma {:induction false} StepsXor(x: bv32, y: bv32, k: nat)
    ensures StepsLsb(Xor(x, y), k) == Xor(StepsLsb(x, k), StepsLsb(y, k))
    decreases k
  {
    hide StepLsb, Xor;
    if k > 0 {
      StepXor(x, y);
      StepsXor(StepLsb(x), StepLsb(y), k - 1);
    }
  }

  // While the bits that leave are zero, a step is a shift.
  lemma {:induction false} StepsShift(y: bv32, k: nat)
    requires Zeros(y, k)
    ensures StepsLsb(y, k) == Down(y, k)
    decreases k
  {
    hide Half, Odd;
    if k > 0 {
      StepsShift(Half(y), k - 1);
    }
  }

  // The lowest k bits are clear.
  predicate Zeros(y: bv32, k: nat)
    decreases k
  {
    k == 0 || (!Odd(y) && Zeros(Half(y), k - 1))
  }

  // The part of a word above its lowest byte.
  function Upper(x: bv32): bv32 { x & 0xFFFF_FF00 }

  lemma UpperParts(x: bv32)
    ensures x == Xor(LowByte(x), Upper(x)) && DropByte(Upper(x)) == DropByte(x)
  {
  }

  lemma UpperZeros(x: bv32)
    ensures Zeros(Upper(x), 8)
  {
    var y0 := Upper(x);
    UpperEven(y0);
    hide Half, Odd, Upper;
    var y2 := Half(Half(y0));
    var y4 := Half(Half(y2));
    var y6 := Half(Half(y4));
    assert Zeros(Half(Half(y6)), 0);
    assert Zeros(y6, 2);
    assert Zeros(y4, 4);
    assert Zeros(y2, 6);
  }

  lemma UpperEven(y: bv32)
    requires y & 0xFF == 0
    ensures !Odd(y) && !Odd(Half(y)) && !Odd(Half(Half(y))) && !Odd(Half(Half(Half(y))))
            && !Odd(Half(Half(Half(Half(y)))))
    ensures !Odd(Half(Half(Half(Half(Half(y))))))
    ensures !Odd(Half(Half(Half(Half(Half(Half(y)))))))
    ensures !Odd(Half(Half(Half(Half(Half(Half(Half(y))))))))
  {
  }

  lemma TableSplit(x: bv32)
    ensures StepsLsb(x, 8) == Xor(TableEntry(LowByte(x)), DropByte(x))
  {
    UpperParts(x);
    hide StepsLsb, Xor, LowByte, Upper, DropByte, Down, Zeros;
    StepsXor(LowByte(x), Upper(x), 8);
    UpperZeros(x);
    StepsShift(Upper(x), 8);
    DownEight(Upper(x));
  }

  // Eight steps on the reversed byte are one step of the table form.
  lemma ByteMatches(crc: bv32, m: bv8)
    ensures Reverse(StepsMsb(crc, Reverse(Widen(m)), 8)) == RegisterStep(Reverse(crc), m)
  {
    ByteAbove(Reverse(crc), m);
    hide Reverse, StepsLsb, StepsMsb, Down, TableEntry, Xor, LowByte, DropByte;
    var d, e := Reverse(crc), Widen(m);
    ReverseTwice(e);
    StepsReversed(crc, Reverse(e), 8);
    TableSplit(Xor(d, e));
    DownEight(e);
    XorCancels(RegisterStep(d, m), 0);
  }

  lemma ByteAbove(d: bv32, m: bv8)
    ensures DropByte(Widen(m)) == 0 && DropByte(Xor(d, Widen(m))) == DropByte(d)
  {
  }

  lemma {:induction false} RegistersMatch(crc: bv32, message: seq<bv8>)
    ensures Reverse(BytesMsb(crc, message)) == Register(Reverse(crc), message)
    decreases |message|
  {
    hide Reverse, StepsMsb, RegisterStep;
    if message != [] {
      ByteMatches(crc, message[0]);
      RegistersMatch(StepsMsb(crc, Reverse(Widen(message[0])), 8), message[1..]);
    }
  }

  // The program computes the CRC of RFC 1952.
  lemma MatchesRfc(message: seq<bv8>)
    ensures Reverse(Not(BytesMsb(ALL_ONES, message))) == Rfc1952(message)
  {
    assert Xor(0, ALL_ONES) == ALL_ONES;
    hide Reverse, BytesMsb, Register, Xor, Not;
    RegistersMatch(ALL_ONES, message);
    ReverseNot(BytesMsb(ALL_ONES, message));
    ReverseConstants();
  }

  // Feeding a message in pieces gives the CRC of the whole, which is how the debugger test
  // computes the value it expects.
  lemma {:induction false} RegisterConcat(c: bv32, s: seq<bv8>, t: seq<bv8>)
    ensures Register(c, s + t) == Register(Register(c, s), t)
    decreases |s|
  {
    hide RegisterStep;
    if s == [] {
      assert s + t == t;
    } else {
      RegisterConcat(RegisterStep(c, s[0]), s[1..], t);
      assert (s + t)[1..] == s[1..] + t;
    }
  }

  lemma InPieces(crc: bv32, s: seq<bv8>, t: seq<bv8>)
    ensures UpdateCrc(crc, s + t) == UpdateCrc(UpdateCrc(crc, s), t)
  {
    hide Register, Xor;
    var c := Xor(crc, ALL_ONES);
    RegisterConcat(c, s, t);
    XorCancels(Register(c, s), ALL_ONES);
  }
}
