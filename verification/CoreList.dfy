/**
 The linked list of the benchmark: list cells that point at data items, and the two
 comparison functions. Comparing rewrites the items: one comparison caches a computed
 value in the low byte, the other puts the low byte back from the copy in the high byte.
 */
module CoreList {
  type int16 = x: int | -0x8000 <= x < 0x8000

  class ListData {
    var data16: bv16
    var idx: int16

    constructor (data16: bv16, idx: int16)
      ensures this.data16 == data16 && this.idx == idx
    {
      this.data16, this.idx := data16, idx;
    }
  }

  class ListHead {
    var next: ListHead?
    var info: ListData

    constructor (info: ListData)
      ensures this.info == info && next == null
    {
      this.info, next := info, null;
    }
  }

  // The running state shared by the comparisons. The two benchmark kernels and the check
  // sum step belong to other files; here they are arbitrary functions of their arguments.
  class CoreResults {
    var crc: bv16
    var crcstate: bv16
    var crcmatrix: bv16
    const benchState: (bv16, bv16) -> bv16
    const benchMatrix: (bv16, bv16) -> bv16
    const crcu16: (bv16, bv16) -> bv16

    constructor (benchState: (bv16, bv16) -> bv16, benchMatrix: (bv16, bv16) -> bv16, crcu16: (bv16, bv16) -> bv16)
    {
      crc, crcstate, crcmatrix := 0, 0, 0;
      this.benchState, this.benchMatrix, this.crcu16 := benchState, benchMatrix, crcu16;
    }
  }

  // ----- The parts of a data word -----

  function HighByte(d: bv16): bv16 { d >> 8 }

  predicate Cached(d: bv16) { d & 0x80 != 0 }

  function Value(d: bv16): bv16 { d & 0x7f }

  function WithValue(d: bv16, v: bv16): bv16 { (d & 0xff00) | 0x80 | (v & 0x7f) }

  function Restored(d: bv16): bv16 { (d & 0xff00) | (0xff & (d >> 8)) }

  // A data word is its high byte, the mark of a computed value, and the value.
  lemma DataParts(d: bv16)
    ensures d == (HighByte(d) << 8) | (if Cached(d) then 0x80 else 0) | Value(d)
    ensures HighByte(d) < 0x100 && Value(d) < 0x80
  {
  }

  lemma WithValueParts(d: bv16, v: bv16)
    ensures Cached(WithValue(d, v)) && Value(WithValue(d, v)) == v & 0x7f
    ensures HighByte(WithValue(d, v)) == HighByte(d)
  {
  }

  lemma RestoredParts(d: bv16)
    ensures HighByte(Restored(d)) == HighByte(d) && Restored(Restored(d)) == Restored(d)
    ensures Restored(d) & 0xff == HighByte(d)
  {
  }

  // Restoring depends on the high byte alone, so it undoes anything done to the low byte.
  lemma RestoredFrom(d: bv16, e: bv16)
    requires HighByte(d) == HighByte(e)
    ensures Restored(d) == Restored(e)
  {
  }

  // ----- Comparing -----

  datatype Comparator = CmpComplex | CmpIdx

  // Whether an item already has the form that a comparison leaves it in; `restoring` says
  // that the comparison by index is the one that rebuilds the low byte.
  predicate Settled(cmp: Comparator, restoring: bool, d: bv16)
  {
    match cmp
    case CmpComplex => Cached(d)
    case CmpIdx => !restoring || d == Restored(d)
  }

  // Whether the key of an item is known before it is compared: it is the cached value, or the
  // item is of a type whose value is its own low bits, or the key is the index.
  predicate Fixed(cmp: Comparator, d: bv16)
  {
    match cmp
    case CmpComplex => Cached(d) || OwnValue(d)
    case CmpIdx => true
  }

  // The types that no kernel is run for.
  predicate OwnValue(d: bv16) { d & 0x7 != 0 && d & 0x7 != 1 }

  function Key(cmp: Comparator, d: bv16, idx: int16): int
  {
    match cmp
    case CmpComplex => Value(d) as int
    case CmpIdx => idx
  }

  // The operand of the kernels: bits 3 to 6, doubled to a byte.
  function Operand(d: bv16): bv16
  {
    var dtype := (d >> 3) & 0xf;
    dtype | (dtype << 4)
  }

  // Both halves of the operand are the upper four bits of the value, whose lower three are
  // the type.
  lemma OperandHalves(d: bv16)
    ensures Operand(d) & 0xf == Operand(d) >> 4 == Value(d) >> 3
    ensures OwnValue(d) <==> Value(d) - ((Value(d) >> 3) << 3) >= 2
  {
  }

  // The value computed for an item that is not cached.
  ghost function Computed(d: bv16, res: CoreResults, crc: bv16): bv16
  {
    if OwnValue(d) then d
    else if d & 0x7 == 0 then res.benchState(if Operand(d) < 0x22 then 0x22 else Operand(d), crc)
    else res.benchMatrix(Operand(d), crc)
  }

  // The kernels get the operand; the first kernel gets no less than 0x22.
  lemma ComputedBy(d: bv16, res: CoreResults, crc: bv16) returns (seed: bv16)
    ensures seed >= Operand(d) && seed >= 0x22 && (seed == Operand(d) || seed == 0x22)
    ensures d & 0x7 == 0 ==> Computed(d, res, crc) == res.benchState(seed, crc)
    ensures d & 0x7 == 1 ==> Computed(d, res, crc) == res.benchMatrix(Operand(d), crc)
    ensures d & 0x7 > 1 ==> Computed(d, res, crc) == d
  {
    seed := if Operand(d) < 0x22 then 0x22 else Operand(d);
  }

  method CalcFunc(pdata: ListData, res: CoreResults) returns (val: bv16)
    modifies pdata`data16, res
    ensures Fixed(CmpComplex, old(pdata.data16)) ==> val == Value(old(pdata.data16))
    ensures Cached(pdata.data16) && val == Value(pdata.data16)
    ensures HighByte(pdata.data16) == HighByte(old(pdata.data16))
    ensures Cached(old(pdata.data16)) ==> pdata.data16 == old(pdata.data16) && unchanged(res)
    ensures !Cached(old(pdata.data16)) ==>
              var v := Computed(old(pdata.data16), res, old(res.crc));
              && pdata.data16 == WithValue(old(pdata.data16), v)
              && res.crc == res.crcu16(v, old(res.crc))
              && res.crcstate == (if old(pdata.data16) & 0x7 == 0 && old(res.crcstate) == 0 then v
                                  else old(res.crcstate))
              && res.crcmatrix == (if old(pdata.data16) & 0x7 == 1 && old(res.crcmatrix) == 0 then v
                                   else old(res.crcmatrix))
  {
    var data := pdata.data16;
    if Cached(data) {
      val := Value(data);
    } else {
      var flag := data & 0x7;
      var dtype := Operand(data);
      var retval: bv16;
      if flag == 0 {
        if dtype < 0x22 {
          dtype := 0x22;
        }
        retval := res.benchState(dtype, res.crc);
        if res.crcstate == 0 {
          res.crcstate := retval;
        }
      } else if flag == 1 {
        retval := res.benchMatrix(dtype, res.crc);
        if res.crcmatrix == 0 {
          res.crcmatrix := retval;
        }
      } else {
        retval := data;
      }
      assert OwnValue(data) ==> retval & 0x7f == Value(data);
      res.crc := res.crcu16(retval, res.crc);
      WithValueParts(data, retval);
      pdata.data16 := WithValue(data, retval);
      val := retval & 0x7f;
    }
  }

  ghost function ResultState(res: CoreResults?): set<CoreResults>
  {
    if res == null then {} else {res}
  }

  // Comparing settles both items, leaves settled items and every high byte alone, and
  // answers the difference of the keys as they are from then on.
  method Compare(cmp: Comparator, a: ListData, b: ListData, res: CoreResults?) returns (r: int)
    requires cmp.CmpComplex? ==> res != null
    modifies a`data16, b`data16, ResultState(res)
    ensures Settled(cmp, res == null, a.data16) && Settled(cmp, res == null, b.data16)
    ensures Settled(cmp, res == null, old(a.data16)) ==> a.data16 == old(a.data16)
    ensures Settled(cmp, res == null, old(b.data16)) ==> b.data16 == old(b.data16)
    ensures Fixed(cmp, old(a.data16)) ==>
              Fixed(cmp, a.data16) && Key(cmp, a.data16, a.idx) == Key(cmp, old(a.data16), a.idx)
    ensures Fixed(cmp, old(b.data16)) ==>
              Fixed(cmp, b.data16) && Key(cmp, b.data16, b.idx) == Key(cmp, old(b.data16), b.idx)
    ensures HighByte(a.data16) == HighByte(old(a.data16)) && HighByte(b.data16) == HighByte(old(b.data16))
    ensures r == Key(cmp, a.data16, a.idx) - Key(cmp, b.data16, b.idx)
  {
    hide Cached, Value, Restored, HighByte, WithValue, Computed;
    match cmp {
      case CmpComplex =>
        var val1 := CalcFunc(a, res);
        var val2 := CalcFunc(b, res);
        r := val1 as int - val2 as int;
      case CmpIdx =>
        if res == null {
          RestoredParts(a.data16);
          a.data16 := Restored(a.data16);
          RestoredParts(b.data16);
          b.data16 := Restored(b.data16);
        }
        r := a.idx - b.idx;
    }
  }
}
