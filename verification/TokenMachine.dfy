/**
 The state machine of the benchmark that classifies tokens as integers, decimal numbers,
 numbers with an exponent, or neither.
 */
module TokenMachine {

  datatype State = Start | Invalid | S1 | S2 | Int | Float | Exponent | Scientific

  const NUM_STATES := 8

  const COMMA: bv8 := 44
  const PLUS: bv8 := 43
  const MINUS: bv8 := 45
  const POINT: bv8 := 46

  // The state's place among the counters.
  function Number(s: State): (n: nat)
    ensures n < NUM_STATES
  {
    match s
    case Start => 0 case Invalid => 1 case S1 => 2 case S2 => 3
    case Int => 4 case Float => 5 case Exponent => 6 case Scientific => 7
  }

  predicate IsDigit(c: bv8) { 48 <= c <= 57 }

  predicate IsSign(c: bv8) { c == PLUS || c == MINUS }

  predicate IsE(c: bv8) { c == 69 || c == 101 }

  function Step(s: State, c: bv8): State
  {
    match s
    case Start => if IsDigit(c) then Int else if IsSign(c) then S1 else if c == POINT then Float else Invalid
    case S1 => if IsDigit(c) then Int else if c == POINT then Float else Invalid
    case Int => if c == POINT then Float else if !IsDigit(c) then Invalid else Int
    case Float => if IsE(c) then S2 else if !IsDigit(c) then Invalid else Float
    case S2 => if IsSign(c) then Exponent else Invalid
    case Exponent => if IsDigit(c) then Scientific else Invalid
    case Scientific => if !IsDigit(c) then Invalid else Scientific
    case Invalid => Invalid
  }

  // The states in the order of their counters.
  const STATES := [Start, Invalid, S1, S2, Int, Float, Exponent, Scientific]

  lemma NumbersInOrder(s: State, i: nat)
    ensures |STATES| == NUM_STATES && STATES[Number(s)] == s
    ensures i < NUM_STATES ==> Number(STATES[i]) == i
  {
  }

  // One counter goes up.
  function Bump(counts: seq<nat>, s: State): (r: seq<nat>)
    requires |counts| == NUM_STATES
    ensures |r| == NUM_STATES
    ensures forall q :: r[Number(q)] == counts[Number(q)] + (if q == s then 1 else 0)
  {
    counts[Number(s) := counts[Number(s)] + 1]
  }

  // The transitions counted: leaving a state, and some of the ways of going wrong.
  function Track(counts: seq<nat>, s: State, c: bv8): (r: seq<nat>)
    requires |counts| == NUM_STATES
    ensures |r| == NUM_STATES
  {
    match s
    case Start => Bump(if Step(s, c) == Invalid then Bump(counts, Invalid) else counts, Start)
    case S1 => Bump(counts, S1)
    case Int => if Step(s, c) != Int then Bump(counts, Int) else counts
    case Float => if Step(s, c) != Float then Bump(counts, Float) else counts
    case S2 => Bump(counts, S2)
    case Exponent => Bump(counts, Exponent)
    case Scientific => if Step(s, c) == Invalid then Bump(counts, Invalid) else counts
    case Invalid => counts
  }

  // ----- What is counted -----

  // How often a state is left in reading the token t, ...
  function Departures(t: seq<bv8>, s: State): nat
    decreases |t|
  {
    if t == [] then 0
    else
      var t0 := t[..|t| - 1];
      Departures(t0, s) + (if After(t0) == s && After(t) != s then 1 else 0)
  }

  // ... and how often it turns out to be no number at the very first character or in the digits
  // of its exponent.
  function Failures(t: seq<bv8>): nat
    decreases |t|
  {
    if t == [] then 0
    else
      var t0 := t[..|t| - 1];
      Failures(t0) + (if (After(t0) == Start || After(t0) == Scientific) && After(t) == Invalid then 1 else 0)
  }

  // What a token adds to the counter of a state.
  function Added(t: seq<bv8>, s: State): nat
  {
    match s
    case Scientific => 0
    case Invalid => Failures(t)
    case _ => Departures(t, s)
  }

  // What one transition adds.
  function Gain(s: State, s': State, q: State): nat
  {
    match q
    case Scientific => 0
    case Invalid => if (s == Start || s == Scientific) && s' == Invalid then 1 else 0
    case _ => if s == q && s' != q then 1 else 0
  }

  lemma AfterSnoc(t: seq<bv8>, c: bv8)
    ensures After(t + [c]) == Step(After(t), c)
  {
    assert (t + [c])[..|t|] == t;
  }

  lemma AddedSnoc(t: seq<bv8>, c: bv8, q: State)
    ensures Added(t + [c], q) == Added(t, q) + Gain(After(t), Step(After(t), c), q)
  {
    hide After, Step;
    AfterSnoc(t, c);
    assert (t + [c])[..|t|] == t;
  }

  // The counters move as the transitions say.
  lemma TrackGains(counts: seq<nat>, s: State, c: bv8, q: State)
    requires |counts| == NUM_STATES && s != Invalid
    ensures Track(counts, s, c)[Number(q)] == counts[Number(q)] + Gain(s, Step(s, c), q)
  {
    hide IsDigit, IsSign, IsE, Number;
  }

  // One more character.
  lemma TrackAdds(counts: seq<nat>, t: seq<bv8>, c: bv8, q: State)
    requires |counts| == NUM_STATES && After(t) != Invalid
    ensures Track(counts, After(t), c)[Number(q)] + Added(t, q) == counts[Number(q)] + Added(t + [c], q)
  {
    hide Track, Number, Added, After, Step, Gain;
    AddedSnoc(t, c, q);
    TrackGains(counts, After(t), c, q);
  }

  // ----- What the states mean -----

  predicate Digits(t: seq<bv8>) { forall i | 0 <= i < |t| :: IsDigit(t[i]) }

  // t without a sign in front.
  function Unsigned(t: seq<bv8>): seq<bv8> { if t != [] && IsSign(t[0]) then t[1..] else t }

  // Sign, digits.
  predicate Integer(t: seq<bv8>) { Unsigned(t) != [] && Digits(Unsigned(t)) }

  // Sign, digits, point at place k, digits.
  predicate DecimalAt(t: seq<bv8>, k: nat)
  {
    var u := Unsigned(t);
    k < |u| && Digits(u[..k]) && u[k] == POINT && Digits(u[k + 1..])
  }

  ghost predicate Decimal(t: seq<bv8>) { exists k: nat :: DecimalAt(t, k) }

  // A decimal, E at place m, and the part of the exponent that has been read.
  ghost predicate DecimalE(t: seq<bv8>, m: nat)
  {
    m < |t| && IsE(t[m]) && Decimal(t[..m])
  }

  ghost predicate WithE(t: seq<bv8>) { t != [] && DecimalE(t, |t| - 1) }

  ghost predicate WithSign(t: seq<bv8>) { t != [] && IsSign(t[|t| - 1]) && WithE(t[..|t| - 1]) }

  // Decimal, E, sign, digits.
  ghost predicate ScientificAt(t: seq<bv8>, m: nat)
  {
    m + 2 < |t| && DecimalE(t, m) && IsSign(t[m + 1]) && Digits(t[m + 2..])
  }

  ghost predicate ScientificNumber(t: seq<bv8>) { exists m: nat :: ScientificAt(t, m) }

  // The state reached after the token t.
  function After(t: seq<bv8>): State
    decreases |t|
  {
    if t == [] then Start else Step(After(t[..|t| - 1]), t[|t| - 1])
  }

  ghost predicate Means(s: State, t: seq<bv8>)
  {
    match s
    case Start => t == []
    case S1 => |t| == 1 && IsSign(t[0])
    case Int => Integer(t)
    case Float => Decimal(t)
    case S2 => WithE(t)
    case Exponent => WithSign(t)
    case Scientific => ScientificNumber(t)
    case Invalid => true
  }

  lemma UnsignedSnoc(t: seq<bv8>, c: bv8)
    requires t != []
    ensures Unsigned(t + [c]) == Unsigned(t) + [c]
  {
    if IsSign(t[0]) {
      assert (t + [c])[1..] == t[1..] + [c];
    }
  }

  lemma DecimalSnoc(t: seq<bv8>, c: bv8)
    requires Decimal(t) && IsDigit(c)
    ensures Decimal(t + [c])
  {
    var k: nat :| DecimalAt(t, k);
    UnsignedSnoc(t, c);
    var u, u' := Unsigned(t), Unsigned(t + [c]);
    assert u'[..k] == u[..k] && u'[k + 1..] == u[k + 1..] + [c];
    assert DecimalAt(t + [c], k);
  }

  lemma PointMakesDecimal(t: seq<bv8>)
    requires t == [] || (|t| == 1 && IsSign(t[0])) || Integer(t)
    ensures Decimal(t + [POINT])
  {
    var u' := Unsigned(t + [POINT]);
    if t == [] {
      assert DecimalAt([POINT], 0);
      assert t + [POINT] == [POINT];
    } else {
      UnsignedSnoc(t, POINT);
      var k := |Unsigned(t)|;
      assert u'[..k] == Unsigned(t) && u'[k + 1..] == [];
      assert DecimalAt(t + [POINT], k);
    }
  }

  lemma IntegerSnoc(t: seq<bv8>, c: bv8)
    requires IsDigit(c) && (t == [] || (|t| == 1 && IsSign(t[0])) || Integer(t))
    ensures Integer(t + [c])
  {
    if t == [] {
      assert t + [c] == [c];
    } else {
      UnsignedSnoc(t, c);
    }
  }

  // One more character, forwards.
  lemma MeansStep(s: State, t: seq<bv8>, c: bv8)
    requires s != Invalid && Means(s, t) && Step(s, c) != Invalid
    ensures Means(Step(s, c), t + [c])
  {
    var t' := t + [c];
    assert t'[..|t|] == t;
    match s {
      case Start =>
        if IsDigit(c) { IntegerSnoc(t, c); } else if c == POINT { PointMakesDecimal(t); }
      case S1 =>
        if IsDigit(c) { IntegerSnoc(t, c); } else { PointMakesDecimal(t); }
      case Int =>
        if IsDigit(c) { IntegerSnoc(t, c); } else { PointMakesDecimal(t); }
      case Float =>
        if !IsE(c) { DecimalSnoc(t, c); }
      case S2 =>
      case Exponent =>
        var m := |t| - 2;
        assert t[..|t| - 1][..m] == t[..m] == t'[..m];
        assert DecimalE(t', m) && t'[m + 2..] == [c];
        assert ScientificAt(t', m);
      case Scientific =>
        var m: nat :| ScientificAt(t, m);
        assert t'[..m] == t[..m] && t'[m + 2..] == t[m + 2..] + [c];
        assert ScientificAt(t', m);
    }
  }

  // The meaning of a state is the meaning of one before it, backwards.
  lemma MeansBefore(s: State, t: seq<bv8>) returns (s': State)
    requires s != Invalid && s != Start && Means(s, t)
    ensures t != [] && s' != Invalid && Means(s', t[..|t| - 1]) && Step(s', t[|t| - 1]) == s
  {
    var n := |t| - 1;
    var t0, c := t[..n], t[n];
    assert t == t0 + [c];
    match s {
      case S1 => s' := Start;
      case Int => s' := IntegerBefore(t0, c);
      case Float => s' := DecimalBefore(t0, c);
      case S2 => s' := Float;
      case Exponent => s' := S2;
      case Scientific => s' := ScientificBefore(t0, c);
    }
  }

  lemma DigitsSnoc(w: seq<bv8>, c: bv8)
    ensures Digits(w + [c]) <==> Digits(w) && IsDigit(c)
  {
    var w' := w + [c];
    if Digits(w') {
      assert IsDigit(w'[|w|]);
      forall i | 0 <= i < |w|
        ensures IsDigit(w[i])
      {
        assert IsDigit(w'[i]);
      }
    }
  }

  lemma IntegerBefore(t: seq<bv8>, c: bv8) returns (s: State)
    requires Integer(t + [c])
    ensures s != Invalid && Means(s, t) && Step(s, c) == Int
  {
    if t == [] {
      assert t + [c] == [c];
      s := Start;
    } else {
      UnsignedSnoc(t, c);
      var u, u' := Unsigned(t), Unsigned(t + [c]);
      assert u'[|u|] == c && forall i | 0 <= i < |u| :: u[i] == u'[i];
      s := if u == [] then S1 else Int;
    }
  }

  lemma DecimalBefore(t: seq<bv8>, c: bv8) returns (s: State)
    requires Decimal(t + [c])
    ensures s != Invalid && Means(s, t) && Step(s, c) == Float
  {
    var k: nat :| DecimalAt(t + [c], k);
    if t == [] {
      assert t + [c] == [c];
      s := Start;
    } else {
      UnsignedSnoc(t, c);
      var u, u' := Unsigned(t), Unsigned(t + [c]);
      assert u' == u + [c];
      if k == |u| {
        assert u'[..k] == u;
        s := if u == [] then S1 else Int;
      } else {
        assert u'[..k] == u[..k] && u'[k + 1..] == u[k + 1..] + [c];
        DigitsSnoc(u[k + 1..], c);
        assert DecimalAt(t, k);
        s := Float;
      }
    }
  }

  lemma ScientificBefore(t: seq<bv8>, c: bv8) returns (s: State)
    requires ScientificNumber(t + [c])
    ensures s != Invalid && Means(s, t) && Step(s, c) == Scientific
  {
    hide Decimal, IsE, Unsigned;
    var t' := t + [c];
    var m: nat :| ScientificAt(t', m);
    if m + 2 < |t'| - 1 {
      assert t'[m + 2..] == t[m + 2..] + [c];
      DigitsSnoc(t[m + 2..], c);
    } else {
      assert t'[m + 2..] == [c] && t'[m + 2..][0] == c;
    }
    if m + 3 == |t'| {
      assert t[..|t| - 1] == t'[..m + 1];
      assert t'[..m + 1][..m] == t'[..m];
      s := Exponent;
    } else {
      assert t[..m] == t'[..m];
      assert ScientificAt(t, m);
      s := Scientific;
    }
  }

  // The machine recognises the numbers: it ends in a state exactly on the tokens that the
  // state stands for.
  lemma {:induction false} Recognises(t: seq<bv8>, s: State)
    requires s != Invalid
    ensures After(t) == s <==> Means(s, t)
    decreases |t|
  {
    hide Means, Step;
    var n := |t| - 1;
    if After(t) == s {
      if t == [] {
        assert Means(Start, t) by { NothingRead(t); }
      } else {
        StaysInvalid(t[n]);
        Recognises(t[..n], After(t[..n]));
        MeansStep(After(t[..n]), t[..n], t[n]);
        assert t == t[..n] + [t[n]];
      }
    }
    if Means(s, t) {
      if s == Start {
        NothingRead(t);
      } else {
        var s' := MeansBefore(s, t);
        Recognises(t[..n], s');
      }
    }
  }

  lemma NothingRead(t: seq<bv8>)
    ensures Means(Start, t) <==> t == []
  {
  }

  lemma StaysInvalid(c: bv8)
    ensures Step(Invalid, c) == Invalid
  {
  }
}
