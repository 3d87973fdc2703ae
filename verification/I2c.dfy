/** I2C registers: packing logical data into a transfer, and reading and writing bit fields. */
module I2c {
  import opened Wrappers
  import opened Bits
  import opened Rounding

  datatype I2cError =
    | KeyError(key: string)
    | NotRegisterDevice
    | BadAddressWidth
    | AddressOverflow
    | BadTransferWidth
    | ValueOverflow
    | ValueOutOfRange
    | NegativeShift
    | NoAnswer
    | ZeroGain
    | NotInvertible

  // ---- Data formats ----

  /** Between data and physical units; the inverse of a custom scaling is optional. */
  datatype Scaling =
    | Linear(gain: real, offset: real)
    | Custom(toPhysical: int -> real, toRaw: Option<real -> int>)

  datatype DataFormat = DataFormat(
    transferBits: nat,
    dataWidthBits: Option<nat>,
    dataLsb: nat,
    signed: bool,
    scaling: Option<Scaling>)

  /** A width of zero counts as no width: the whole transfer. */
  function LogicalWidth(f: DataFormat): nat {
    if f.dataWidthBits.Some? && f.dataWidthBits.value != 0 then f.dataWidthBits.value else f.transferBits
  }

  function SignExtend(value: int, width: nat): int {
    if width == 0 then 0
    else Xor(And(value, Ones(width)), Pow2(width - 1)) - Pow2(width - 1)
  }

  function FieldMask(width: nat, lsb: nat): nat {
    Shl(Ones(width), lsb)
  }

  function Slice(transfer: int, width: nat, lsb: nat): nat {
    Shr(And(transfer, FieldMask(width, lsb)), lsb)
  }

  function ExtractData(f: DataFormat, transfer: int): int {
    var raw := Slice(transfer, LogicalWidth(f), f.dataLsb);
    if f.signed then SignExtend(raw, LogicalWidth(f)) else raw
  }

  function PackData(f: DataFormat, data: int): Result<nat, I2cError> {
    var width := LogicalWidth(f);
    if f.signed && width == 0 then Err(NegativeShift)
    else
      var low, high := if f.signed then -Pow2(width - 1) else 0, if f.signed then Pow2(width - 1) - 1 else Pow2(width) - 1;
      if data < low || data > high then Err(ValueOutOfRange)
      else Ok(And(Shl(And(data, Ones(width)), f.dataLsb), Ones(f.transferBits)))
  }

  lemma SliceBits(transfer: int, width: nat, lsb: nat, k: nat)
    ensures Bit(Slice(transfer, width, lsb), k) <==> k < width && Bit(transfer, k + lsb)
  {
    BitOfShr(And(transfer, FieldMask(width, lsb)), lsb, k);
    BitOfAnd(transfer, FieldMask(width, lsb), k + lsb);
    BitOfShl(Ones(width), lsb, k + lsb);
    BitOfOnes(width, k);
  }

  lemma SliceIsSmall(transfer: int, width: nat, lsb: nat)
    ensures Slice(transfer, width, lsb) < Pow2(width)
  {
    forall k: nat | width <= k ensures !Bit(Slice(transfer, width, lsb), k) {
      SliceBits(transfer, width, lsb, k);
    }
    BoundedByBits(Slice(transfer, width, lsb), width);
  }

  lemma EvenSum(v: nat, half: nat)
    ensures (v + 2 * half) % 2 == v % 2 && (2 * half) / 2 == half
  {}

  lemma XorOfEven(v: nat, p: nat, half: nat)
    requires p == 2 * half
    ensures Xor(v, p) == v % 2 + 2 * Xor(v / 2, half)
  {
    EvenSum(v, half);
    if v == 0 {
      assert Xor(0, p) == p && Xor(0, half) == half;
    } else {
      assert Xor(v, p) == (v + p) % 2 + 2 * Xor(v / 2, p / 2);
    }
  }

  lemma {:induction false} XorTop(v: nat, width: nat)
    requires width > 0 && v < Pow2(width)
    ensures Xor(v, Pow2(width - 1)) == if v >= Pow2(width - 1) then v - Pow2(width - 1) else v + Pow2(width - 1)
  {
    if width > 1 {
      XorTop(v / 2, width - 1);
      XorOfEven(v, Pow2(width - 1), Pow2(width - 2));
    }
  }

  /** Sign extension reads a `width`-bit number as two's complement. */
  lemma SignExtendIsTwosComplement(v: nat, width: nat)
    requires width > 0 && v < Pow2(width)
    ensures SignExtend(v, width) == if v >= Pow2(width - 1) then v - Pow2(width) else v
  {
    AndOnesOfSmall(v, width);
    XorTop(v, width);
  }

  lemma PackedBits(f: DataFormat, data: int, k: nat)
    requires PackData(f, data).Ok?
    ensures Bit(PackData(f, data).value, k) <==>
            k < f.transferBits && f.dataLsb <= k < f.dataLsb + LogicalWidth(f) && Bit(data, k - f.dataLsb)
  {
    var width := LogicalWidth(f);
    var inner := And(data, Ones(width));
    BitOfAnd(Shl(inner, f.dataLsb), Ones(f.transferBits), k);
    BitOfOnes(f.transferBits, k);
    BitOfShl(inner, f.dataLsb, k);
    if f.dataLsb <= k {
      BitOfAnd(data, Ones(width), k - f.dataLsb);
      BitOfOnes(width, k - f.dataLsb);
    }
  }

  /** Extraction sees the low bits of the packed data, cut off at the end of the transfer. */
  lemma SliceOfPacked(f: DataFormat, data: int, k: nat)
    requires PackData(f, data).Ok?
    ensures Bit(Slice(PackData(f, data).value, LogicalWidth(f), f.dataLsb), k) <==>
            k < LogicalWidth(f) && k + f.dataLsb < f.transferBits && Bit(data, k)
  {
    SliceBits(PackData(f, data).value, LogicalWidth(f), f.dataLsb, k);
    PackedBits(f, data, k + f.dataLsb);
  }

  /** Data that is accepted for packing comes back from extraction, and the packed value fits
      the transfer, when the field fits the transfer. */
  lemma PackThenExtract(f: DataFormat, data: int)
    requires f.dataLsb + LogicalWidth(f) <= f.transferBits
    requires PackData(f, data).Ok?
    ensures ExtractData(f, PackData(f, data).value) == data
    ensures PackData(f, data).value < Pow2(f.transferBits)
  {
    var width, packed := LogicalWidth(f), PackData(f, data).value;
    var raw := Slice(packed, width, f.dataLsb);
    forall k: nat ensures Bit(raw, k) <==> Bit(And(data, Ones(width)), k) {
      SliceOfPacked(f, data, k);
      BitOfAnd(data, Ones(width), k);
      BitOfOnes(width, k);
    }
    SameBits(raw, And(data, Ones(width)));
    if width > 0 {
      MaskedValue(data, width, f.signed);
      SliceIsSmall(packed, width, f.dataLsb);
      if f.signed {
        SignExtendIsTwosComplement(raw, width);
      }
    }
  }

  lemma MaskedValue(data: int, width: nat, signed: bool)
    requires width > 0
    requires if signed then -Pow2(width - 1) <= data < Pow2(width - 1) else 0 <= data < Pow2(width)
    ensures And(data, Ones(width)) == if data < 0 then data + Pow2(width) else data
  {
    if data >= 0 {
      AndOnesOfSmall(data, width);
    } else {
      var up := data + Pow2(width);
      forall k: nat ensures Bit(And(data, Ones(width)), k) <==> Bit(And(up, Ones(width)), k) {
        BitOfAnd(data, Ones(width), k);
        BitOfAnd(up, Ones(width), k);
        BitOfOnes(width, k);
        if k < width {
          BitBelowPow2(up, width, k);
        }
      }
      SameBits(And(data, Ones(width)), And(up, Ones(width)));
      AndOnesOfSmall(up, width);
    }
  }

  ghost predicate RoundTrips(f: DataFormat) {
    forall data :: PackData(f, data).Ok? ==> ExtractData(f, PackData(f, data).value) == data
  }

  /** A format packs without loss exactly when its field lies inside the transfer. */
  lemma RoundTripsIffFieldFits(f: DataFormat)
    requires LogicalWidth(f) > 0
    ensures RoundTrips(f) <==> f.dataLsb + LogicalWidth(f) <= f.transferBits
  {
    if f.dataLsb + LogicalWidth(f) <= f.transferBits {
      forall data | PackData(f, data).Ok? ensures ExtractData(f, PackData(f, data).value) == data {
        PackThenExtract(f, data);
      }
    } else {
      FieldTooWideLosesTopBit(f);
    }
  }

  /** The value whose bits are all ones loses its top bit when the field sticks out. */
  lemma FieldTooWideLosesTopBit(f: DataFormat)
    requires LogicalWidth(f) > 0 && f.dataLsb + LogicalWidth(f) > f.transferBits
    ensures var data := if f.signed then -1 else Ones(LogicalWidth(f));
            PackData(f, data).Ok? && ExtractData(f, PackData(f, data).value) != data
  {
    var width := LogicalWidth(f);
    var data := if f.signed then -1 else Ones(width);
    var raw := Slice(PackData(f, data).value, width, f.dataLsb);
    forall k: nat | width - 1 <= k ensures !Bit(raw, k) {
      SliceOfPacked(f, data, k);
    }
    BoundedByBits(raw, width - 1);
    if f.signed {
      SignExtendIsTwosComplement(raw, width);
    }
  }

  /** Packing what was extracted gives back the transfer restricted to the field. */
  lemma ExtractThenPack(f: DataFormat, transfer: int)
    requires LogicalWidth(f) > 0
    ensures PackData(f, ExtractData(f, transfer)) ==
            Ok(And(And(transfer, FieldMask(LogicalWidth(f), f.dataLsb)), Ones(f.transferBits)))
  {
    var width := LogicalWidth(f);
    var raw, mask := Slice(transfer, width, f.dataLsb), FieldMask(width, f.dataLsb);
    var data := ExtractData(f, transfer);
    SliceIsSmall(transfer, width, f.dataLsb);
    if f.signed {
      SignExtendIsTwosComplement(raw, width);
    }
    MaskedValue(data, width, f.signed);
    assert And(data, Ones(width)) == raw;
    forall k: nat ensures Bit(Shl(raw, f.dataLsb), k) <==> Bit(And(transfer, mask), k) {
      BitOfShl(raw, f.dataLsb, k);
      BitOfAnd(transfer, mask, k);
      BitOfShl(Ones(width), f.dataLsb, k);
      if f.dataLsb <= k {
        SliceBits(transfer, width, f.dataLsb, k - f.dataLsb);
        BitOfOnes(width, k - f.dataLsb);
      }
    }
    SameBits(Shl(raw, f.dataLsb), And(transfer, mask));
  }

  // ---- Physical units ----

  function LinearToPhysical(gain: real, offset: real, raw: int): real {
    offset + gain * raw as real
  }

  function LinearToRaw(gain: real, offset: real, physical: real): int
    requires gain != 0.0
  {
    Round((physical - offset) / gain)
  }

  function ToPhysical(f: DataFormat, data: int): real {
    match f.scaling
    case None => data as real
    case Some(Linear(gain, offset)) => LinearToPhysical(gain, offset, data)
    case Some(Custom(toPhysical, _)) => toPhysical(data)
  }

  function FloatFromRaw(f: DataFormat, transfer: int): real {
    ToPhysical(f, ExtractData(f, transfer))
  }

  /** Without a scaling the value is taken as unsigned, whatever the format says. */
  function DataFromFloat(f: DataFormat, physical: real): Result<int, I2cError> {
    match f.scaling
    case None =>
      var data := Round(physical);
      if data < 0 || data > Pow2(LogicalWidth(f)) - 1 then Err(ValueOutOfRange) else Ok(data)
    case Some(Linear(gain, offset)) =>
      if gain == 0.0 then Err(ZeroGain) else Ok(LinearToRaw(gain, offset, physical))
    case Some(Custom(_, toRaw)) => if toRaw.None? then Err(NotInvertible) else Ok(toRaw.value(physical))
  }

  function RawFromFloat(f: DataFormat, physical: real): Result<nat, I2cError> {
    match DataFromFloat(f, physical)
    case Err(e) => Err(e)
    case Ok(data) => PackData(f, data)
  }

  lemma {:induction false} ShrIsDivision(a: int, k: nat)
    ensures Shr(a, k) == a / Pow2(k)
    decreases k
  {
    if k > 0 {
      ShrIsDivision(a / 2, k - 1);
      DivideTwice(a, Pow2(k - 1));
    }
  }

  /** A field of `width` bits from bit `lsb` on is the number's digits there: divided, then taken
      modulo. */
  lemma SliceIsDivision(transfer: int, width: nat, lsb: nat)
    ensures Slice(transfer, width, lsb) == transfer / Pow2(lsb) % Pow2(width)
  {
    var shifted := Shr(transfer, lsb);
    forall k: nat ensures Bit(Slice(transfer, width, lsb), k) <==> Bit(And(shifted, Ones(width)), k) {
      SliceBits(transfer, width, lsb, k);
      BitOfAnd(shifted, Ones(width), k);
      BitOfShr(transfer, lsb, k);
      BitOfOnes(width, k);
    }
    SameBits(Slice(transfer, width, lsb), And(shifted, Ones(width)));
    AndOnesIsMod(shifted, width);
    ShrIsDivision(transfer, lsb);
  }

  /** The number in bits `lsb` to `lsb + width`, unsigned or two's complement. */
  function Digits(transfer: nat, width: nat, lsb: nat, signed: bool): int
    requires width > 0
  {
    var raw := transfer / Pow2(lsb) % Pow2(width);
    if signed && raw >= Pow2(width - 1) then raw - Pow2(width) else raw
  }

  lemma DataIsDigits(f: DataFormat, transfer: nat)
    requires LogicalWidth(f) > 0
    ensures ExtractData(f, transfer) == Digits(transfer, LogicalWidth(f), f.dataLsb, f.signed)
  {
    var width := LogicalWidth(f);
    SliceIsDivision(transfer, width, f.dataLsb);
    SliceIsSmall(transfer, width, f.dataLsb);
    SignExtendIsTwosComplement(Slice(transfer, width, f.dataLsb), width);
  }

  /** A register reads as the digits of its data field; scaled linearly, as the gain times that
      number plus the offset. */
  lemma RegisterReads(f: DataFormat, transfer: nat)
    requires LogicalWidth(f) > 0
    ensures var data := Digits(transfer, LogicalWidth(f), f.dataLsb, f.signed);
            && (f.scaling.None? ==> FloatFromRaw(f, transfer) == data as real)
            && (f.scaling.Some? && f.scaling.value.Linear? ==>
                  FloatFromRaw(f, transfer) == f.scaling.value.gain * data as real + f.scaling.value.offset)
  {
    DataIsDigits(f, transfer);
  }

  /** The scaling, and the unsigned reading of a value without one, lose nothing of `data`. */
  predicate ScalesBack(f: DataFormat, data: int) {
    match f.scaling
    case None => data >= 0
    case Some(Linear(gain, _)) => gain != 0.0
    case Some(Custom(toPhysical, toRaw)) => toRaw.Some? && toRaw.value(toPhysical(data)) == data
  }

  lemma LinearInverse(gain: real, offset: real, data: int)
    requires gain != 0.0
    ensures LinearToRaw(gain, offset, LinearToPhysical(gain, offset, data)) == data
  {
    assert (gain * data as real) / gain == data as real;
    RoundOfInt(data);
  }

  lemma PackIsInjective(f: DataFormat, a: int, b: int)
    requires f.dataLsb + LogicalWidth(f) <= f.transferBits
    requires PackData(f, a).Ok? && PackData(f, a) == PackData(f, b)
    ensures a == b
  {
    PackThenExtract(f, a);
    PackThenExtract(f, b);
  }

  lemma PackableIsBelow(f: DataFormat, data: int)
    requires PackData(f, data).Ok?
    ensures data <= Pow2(LogicalWidth(f)) - 1
  {
    if f.signed {
      assert Pow2(LogicalWidth(f)) == 2 * Pow2(LogicalWidth(f) - 1);
    }
  }

  lemma ScalesBackIff(f: DataFormat, data: int)
    requires data <= Pow2(LogicalWidth(f)) - 1
    ensures DataFromFloat(f, ToPhysical(f, data)) == Ok(data) <==> ScalesBack(f, data)
  {
    match f.scaling
    case None => RoundOfInt(data);
    case Some(Linear(gain, offset)) =>
      if gain != 0.0 {
        LinearInverse(gain, offset, data);
      }
    case Some(Custom(_, _)) =>
  }

  /** Accepted data read out in physical units converts back to the same transfer exactly when its
      scaling can be inverted at it; without a scaling, exactly when it is not negative, so a
      signed format without scaling reads values that it does not take. */
  lemma PhysicalRoundTripIff(f: DataFormat, data: int)
    requires f.dataLsb + LogicalWidth(f) <= f.transferBits
    requires PackData(f, data).Ok?
    ensures var packed := PackData(f, data);
            && FloatFromRaw(f, packed.value) == ToPhysical(f, data)
            && (RawFromFloat(f, FloatFromRaw(f, packed.value)) == packed <==> ScalesBack(f, data))
  {
    PackThenExtract(f, data);
    PackableIsBelow(f, data);
    ScalesBackIff(f, data);
    var back := DataFromFloat(f, ToPhysical(f, data));
    if back.Ok? && PackData(f, back.value) == PackData(f, data) {
      PackIsInjective(f, data, back.value);
    }
  }

  // ---- Bit fields of a register value ----

  datatype FieldDef = FieldDef(name: string, lsb: nat, widthBits: nat)

  function ReadField(register: int, field: FieldDef): nat {
    Slice(register, field.widthBits, field.lsb)
  }

  /** Clears the field, then inserts the low bits of `value`. */
  function InsertField(current: nat, value: int, field: FieldDef): nat {
    var mask := FieldMask(field.widthBits, field.lsb);
    Or(And(Not(mask), current), And(Shl(value, field.lsb), mask))
  }

  /** Inside the field the new register holds the bits of the value, outside it the old bits. */
  lemma InsertFieldBits(current: nat, value: int, field: FieldDef, k: nat)
    ensures Bit(InsertField(current, value, field), k) <==>
            if field.lsb <= k < field.lsb + field.widthBits then Bit(value, k - field.lsb) else Bit(current, k)
  {
    var mask := FieldMask(field.widthBits, field.lsb);
    BitOfOr(And(Not(mask), current), And(Shl(value, field.lsb), mask), k);
    BitOfAnd(Not(mask), current, k);
    BitOfNot(mask, k);
    BitOfAnd(Shl(value, field.lsb), mask, k);
    BitOfShl(value, field.lsb, k);
    BitOfShl(Ones(field.widthBits), field.lsb, k);
    if field.lsb <= k {
      BitOfOnes(field.widthBits, k - field.lsb);
    }
  }

  lemma InsertThenReadField(current: nat, value: int, field: FieldDef)
    ensures ReadField(InsertField(current, value, field), field) == value % Pow2(field.widthBits)
  {
    var register := InsertField(current, value, field);
    forall k: nat ensures Bit(ReadField(register, field), k) <==> Bit(And(value, Ones(field.widthBits)), k) {
      SliceBits(register, field.widthBits, field.lsb, k);
      InsertFieldBits(current, value, field, k + field.lsb);
      BitOfAnd(value, Ones(field.widthBits), k);
      BitOfOnes(field.widthBits, k);
    }
    SameBits(ReadField(register, field), And(value, Ones(field.widthBits)));
    AndOnesIsMod(value, field.widthBits);
  }

  predicate Disjoint(f: FieldDef, g: FieldDef) {
    f.lsb + f.widthBits <= g.lsb || g.lsb + g.widthBits <= f.lsb
  }

  lemma InsertKeepsOtherField(current: nat, value: int, field: FieldDef, other: FieldDef)
    requires Disjoint(field, other)
    ensures ReadField(InsertField(current, value, field), other) == ReadField(current, other)
  {
    var register := InsertField(current, value, field);
    forall k: nat ensures Bit(ReadField(register, other), k) <==> Bit(ReadField(current, other), k) {
      SliceBits(register, other.widthBits, other.lsb, k);
      SliceBits(current, other.widthBits, other.lsb, k);
      InsertFieldBits(current, value, field, k + other.lsb);
    }
    SameBits(ReadField(register, other), ReadField(current, other));
  }

  /** The bits of `value` that the field would put at position `n` or above are all clear. */
  ghost predicate FitsBelow(value: int, field: FieldDef, n: nat) {
    forall k: nat :: k < field.widthBits && n <= k + field.lsb ==> !Bit(value, k)
  }

  /** A register of `n` bits still fits in `n` bits exactly when the inserted bits do. */
  lemma InsertFits(current: nat, value: int, field: FieldDef, n: nat)
    requires current < Pow2(n)
    ensures InsertField(current, value, field) < Pow2(n) <==> FitsBelow(value, field, n)
  {
    var register := InsertField(current, value, field);
    BoundedByBits(register, n);
    BoundedByBits(current, n);
    if register < Pow2(n) {
      forall k: nat | k < field.widthBits && n <= k + field.lsb ensures !Bit(value, k) {
        InsertFieldBits(current, value, field, k + field.lsb);
      }
    }
    if FitsBelow(value, field, n) {
      forall k: nat | n <= k ensures !Bit(register, k) {
        InsertFieldBits(current, value, field, k);
        if field.lsb <= k < field.lsb + field.widthBits {
          var j: nat := k - field.lsb;
          assert !Bit(value, j);
        }
      }
      assert ClearFrom(register, n);
    }
  }
}
