/** A Modbus register definition: scaling, the checks made when a configuration is loaded, and
    the checks and conversions made when a value is written. */
module ModbusRegister {
  import opened Wrappers
  import opened Rounding
  import opened ModbusCodec

  /** A number as the caller passes it. */
  datatype PyValue = Int(n: int) | Float(x: real) | Boolean(b: bool)

  function Number(v: PyValue): real {
    match v
    case Int(n) => n as real
    case Float(x) => x
    case Boolean(b) => if b then 1.0 else 0.0
  }

  function Abs(x: real): real {
    if x < 0.0 then -x else x
  }

  const TOLERANCE := 0.000001

  // ---- Scaling ----

  datatype LinearScale = LinearScale(gain: real, offset: real)

  function ToPhysical(s: LinearScale, raw: real): real {
    s.offset + s.gain * raw
  }

  function ToRaw(s: LinearScale, physical: real): real
    requires s.gain != 0.0
  {
    (physical - s.offset) / s.gain
  }

  // ---- Definitions ----

  datatype RegisterType = Holding | Input | Coil | Discrete

  datatype BitDef = BitDef(name: string, bitIndex: nat)

  datatype RegisterDef = RegisterDef(
    name: string,
    startingAddress: nat,
    registerType: RegisterType,
    dataType: DataType,
    swaps: Swaps,
    scale: Option<LinearScale>,
    bitmap: Option<seq<BitDef>>,
    poll: bool,
    writeMin: Option<real>,
    writeMax: Option<real>,
    writeValueMap: Option<map<string, PyValue>>,
    readGroup: Option<string>)

  predicate IsBitType(t: RegisterType) {
    t.Coil? || t.Discrete?
  }

  predicate ValidScale(r: RegisterDef) {
    r.scale.Some? ==> r.scale.value.gain != 0.0
  }

  /** Addresses a register occupies in its address space. */
  function Span(r: RegisterDef): (n: nat)
    ensures n >= 1
  {
    if IsBitType(r.registerType) then 1 else RegisterCount(r.dataType)
  }

  function BitsOf(r: RegisterDef): seq<BitDef> {
    if r.bitmap.Some? then r.bitmap.value else []
  }

  // ---- Writing: checks and conversions ----

  datatype WriteError =
    | UnknownAlias | NoValueMap | UnknownLabel
    | ReadOnly | BelowMin | AboveMax
    | NotABool | BoolForInteger | BoolForFloat | FractionalValue | FractionalRaw
    | OutOfRange | PackOverflow

  predicate IsBoolRegister(r: RegisterDef) {
    r.dataType.Bool? || r.registerType.Coil?
  }

  function ValidateWriteValue(v: PyValue, r: RegisterDef): Option<WriteError> {
    if r.registerType.Input? || r.registerType.Discrete? then Some(ReadOnly)
    else if r.writeMin.Some? && Number(v) < r.writeMin.value then Some(BelowMin)
    else if r.writeMax.Some? && Number(v) > r.writeMax.value then Some(AboveMax)
    else if IsBoolRegister(r) then
      if v.Boolean? || (v.Int? && (v.n == 0 || v.n == 1)) then None else Some(NotABool)
    else if IsInteger(r.dataType) then
      if v.Boolean? then Some(BoolForInteger)
      else if r.scale.None? && v.Float? && v.x != Truncate(v.x) as real then Some(FractionalValue)
      else if r.scale.None? && !InRange(Truncate(Number(v)), r.dataType) then Some(OutOfRange)
      else None
    else if v.Boolean? then Some(BoolForFloat)
    else None
  }

  function RawValue(v: PyValue, r: RegisterDef): PyValue
    requires ValidScale(r)
  {
    if r.scale.Some? then Float(ToRaw(r.scale.value, Number(v))) else v
  }

  function ValidateRawValue(raw: PyValue, r: RegisterDef): Result<PyValue, WriteError> {
    if !IsInteger(r.dataType) then Ok(raw)
    else if r.scale.Some? && raw.Float? && Abs(raw.x - Round(raw.x) as real) > TOLERANCE then Err(FractionalRaw)
    else
      var rounded := if r.scale.Some? && raw.Float? then Int(Round(raw.x)) else raw;
      if InRange(Truncate(Number(rounded)), r.dataType) then Ok(rounded) else Err(OutOfRange)
  }

  /** The raw value a write sends, or why it is refused. */
  function Prepare(v: PyValue, r: RegisterDef): Result<PyValue, WriteError>
    requires ValidScale(r)
  {
    match ValidateWriteValue(v, r)
    case Some(e) => Err(e)
    case None => ValidateRawValue(RawValue(v, r), r)
  }

  /** Floating-point packing is opaque: it turns a number into a bit pattern, or overflows. */
  datatype FloatCodec = FloatCodec(pack: (DataType, real) -> Option<nat>, unpack: (DataType, nat) -> real)

  /** The registers of a raw value. */
  function EncodeValue(floats: FloatCodec, raw: PyValue, r: RegisterDef): Result<seq<Word>, WriteError> {
    if r.dataType.Bool? then Ok([if Number(raw) != 0.0 then 1 else 0])
    else if IsInteger(r.dataType) then
      var n := if raw.Float? then Round(raw.x) else Truncate(Number(raw));
      match EncodeInt(n, r.dataType, r.swaps)
      case None => Err(PackOverflow)
      case Some(ws) => Ok(ws)
    else
      match floats.pack(r.dataType, Number(raw))
      case None => Err(PackOverflow)
      case Some(bits) => if bits < Modulus(r.dataType) then Ok(EncodeBits(bits, r.dataType, r.swaps)) else Err(PackOverflow)
  }

  function DecodeRegisters(floats: FloatCodec, ws: seq<Word>, r: RegisterDef): PyValue
    requires ws != []
  {
    if r.dataType.Bool? then Int(if ws[0] != 0 then 1 else 0)
    else if IsInteger(r.dataType) then Int(DecodeInt(ws, r.dataType, r.swaps))
    else Float(floats.unpack(r.dataType, DecodeBits(ws, r.swaps)))
  }

  function ApplyScaling(raw: PyValue, r: RegisterDef): PyValue {
    if r.scale.Some? then Float(ToPhysical(r.scale.value, Number(raw))) else raw
  }

  // ---- Loading: what the configuration accepts ----

  function RawLimit(r: RegisterDef, limit: real): real
    requires ValidScale(r)
  {
    if r.scale.Some? then ToRaw(r.scale.value, limit) else limit
  }

  predicate LimitInRange(r: RegisterDef, limit: Option<real>)
    requires ValidScale(r) && IsInteger(r.dataType)
  {
    limit.Some? ==> MinValue(r.dataType) as real <= RawLimit(r, limit.value) <= MaxValue(r.dataType) as real
  }

  predicate LimitsAccepted(r: RegisterDef)
    requires ValidScale(r)
  {
    && (r.writeMin.Some? || r.writeMax.Some? ==> r.registerType.Holding?)
    && (r.writeMin.Some? && r.writeMax.Some? ==> r.writeMin.value <= r.writeMax.value)
    && (IsInteger(r.dataType) ==> LimitInRange(r, r.writeMin) && LimitInRange(r, r.writeMax))
  }

  /** One entry of a write value map. */
  predicate EntryAccepted(v: PyValue, r: RegisterDef)
    requires ValidScale(r)
  {
    && (IsBoolRegister(r) ==> v.Boolean? || (v.Int? && (v.n == 0 || v.n == 1)))
    && (!IsBoolRegister(r) ==> !v.Boolean?)
    && (!IsBoolRegister(r) && IsInteger(r.dataType) ==>
          var raw := if r.scale.Some? then ToRaw(r.scale.value, Number(v)) else Number(v);
          && (r.scale.None? && v.Float? ==> v.x == Truncate(v.x) as real)
          && (r.scale.Some? ==> Abs(raw - Round(raw) as real) <= TOLERANCE)
          && InRange(Round(raw), r.dataType))
    && (r.writeMin.Some? ==> Number(v) >= r.writeMin.value)
    && (r.writeMax.Some? ==> Number(v) <= r.writeMax.value)
  }

  predicate ValueMapAccepted(r: RegisterDef)
    requires ValidScale(r)
  {
    r.writeValueMap.Some? ==>
      var m := r.writeValueMap.value;
      && r.registerType.Holding?
      && (forall key :: key in m ==> EntryAccepted(m[key], r))
      && (forall a, b :: a in m && b in m && a != b ==> Number(m[a]) != Number(m[b]))
  }

  predicate BitmapAccepted(r: RegisterDef) {
    r.bitmap.Some? ==>
      && r.dataType.Uint16?
      && (r.registerType.Holding? || r.registerType.Input?)
      && (forall b :: b in BitsOf(r) ==> b.bitIndex <= 15)
      && (forall i, j :: 0 <= i < j < |BitsOf(r)| ==> BitsOf(r)[i].bitIndex != BitsOf(r)[j].bitIndex)
  }

  predicate SwapsAccepted(r: RegisterDef) {
    && (r.swaps.wordSwap ==> !r.dataType.Uint16? && !r.dataType.Int16? && !r.dataType.Bool?)
    && (r.swaps.longSwap ==> r.dataType.Uint64? || r.dataType.Int64? || r.dataType.Float64?)
  }

  predicate RegisterAccepted(r: RegisterDef) {
    && ValidScale(r)
    && (IsBitType(r.registerType) ==> r.scale.None?)
    && r.startingAddress + RegisterCount(r.dataType) <= 0x1_0000
    && SwapsAccepted(r)
    && LimitsAccepted(r)
    && ValueMapAccepted(r)
    && BitmapAccepted(r)
  }

  // ---- Rounding ----

  lemma RoundStaysBetween(x: real, low: int, high: int)
    requires low as real <= x <= high as real
    ensures low <= Round(x) <= high
  {}

  lemma RoundOfWhole(x: real)
    requires x == Truncate(x) as real
    ensures Round(x) == Truncate(x)
  {
    RoundOfInt(Truncate(x));
  }

  // ---- Load-time and run-time checks agree ----

  /** For integer and bool holding registers, a value-map entry is accepted when the
      configuration is loaded exactly when writing it passes every check and encodes. */
  lemma EntryAcceptedIffWritable(floats: FloatCodec, v: PyValue, r: RegisterDef)
    requires ValidScale(r) && r.registerType.Holding?
    requires IsInteger(r.dataType) || r.dataType.Bool?
    ensures EntryAccepted(v, r) <==> Prepare(v, r).Ok? && EncodeValue(floats, Prepare(v, r).value, r).Ok?
  {
    if IsInteger(r.dataType) && r.scale.None? {
      if v.Int? {
        RoundOfInt(v.n);
      } else if v.Float? && v.x == Truncate(v.x) as real {
        RoundOfWhole(v.x);
      }
    } else if IsInteger(r.dataType) {
      RoundOfInt(Round(ToRaw(r.scale.value, Number(v))));
    }
  }

  lemma DivideMonotone(a: real, b: real, g: real)
    requires a <= b && g != 0.0
    ensures g > 0.0 ==> a / g <= b / g
    ensures g < 0.0 ==> b / g <= a / g
  {
    assert (b - a) / g == b / g - a / g;
  }

  /** With both write limits set and accepted, every value between them maps to a raw value in
      range, whichever way the gain points; a write of it can only fail for being fractional
      or for being a bool. */
  lemma LimitsPreventOverflow(v: PyValue, r: RegisterDef)
    requires ValidScale(r) && LimitsAccepted(r) && IsInteger(r.dataType)
    requires r.writeMin.Some? && r.writeMax.Some? && r.writeMin.value <= Number(v) <= r.writeMax.value
    ensures MinValue(r.dataType) as real <= RawLimit(r, Number(v)) <= MaxValue(r.dataType) as real
    ensures InRange(Round(RawLimit(r, Number(v))), r.dataType)
    ensures Prepare(v, r).Err? ==>
              Prepare(v, r).error.BoolForInteger? || Prepare(v, r).error.FractionalValue? || Prepare(v, r).error.FractionalRaw?
  {
    var low, high := MinValue(r.dataType), MaxValue(r.dataType);
    if r.scale.Some? {
      var g, o := r.scale.value.gain, r.scale.value.offset;
      DivideMonotone(r.writeMin.value - o, Number(v) - o, g);
      DivideMonotone(Number(v) - o, r.writeMax.value - o, g);
    }
    var raw := RawLimit(r, Number(v));
    RoundStaysBetween(raw, low, high);
    RoundOfInt(Round(raw));
    if v.Int? {
      RoundOfInt(v.n);
    }
  }

  predicate RawInRange(r: RegisterDef, x: real)
    requires ValidScale(r) && IsInteger(r.dataType)
  {
    MinValue(r.dataType) as real <= RawLimit(r, x) <= MaxValue(r.dataType) as real
  }

  lemma BetweenLimits(r: RegisterDef, low: real, x: real, high: real)
    requires ValidScale(r) && IsInteger(r.dataType) && low <= x <= high && RawInRange(r, low) && RawInRange(r, high)
    ensures RawInRange(r, x)
  {
    if r.scale.Some? {
      DivideMonotone(low - r.scale.value.offset, x - r.scale.value.offset, r.scale.value.gain);
      DivideMonotone(x - r.scale.value.offset, high - r.scale.value.offset, r.scale.value.gain);
    }
  }

  /** The two limits of an integer register are accepted exactly when they are in order and every
      value between them has a raw value in range, whichever way the gain points. */
  lemma LimitsAcceptedIff(r: RegisterDef, low: real, high: real)
    requires ValidScale(r) && r.registerType.Holding? && IsInteger(r.dataType)
    requires r.writeMin == Some(low) && r.writeMax == Some(high)
    ensures LimitsAccepted(r) <==> low <= high && forall x :: low <= x <= high ==> RawInRange(r, x)
  {
    if low <= high && forall x :: low <= x <= high ==> RawInRange(r, x) {
      assert RawInRange(r, low) && RawInRange(r, high);
    }
    if LimitsAccepted(r) {
      forall x | low <= x <= high ensures RawInRange(r, x) {
        BetweenLimits(r, low, x, high);
      }
    }
  }

  // ---- Write and read back ----

  /** What reading a register of these words returns. */
  function ReadBack(floats: FloatCodec, ws: seq<Word>, r: RegisterDef): PyValue
    requires ws != []
  {
    ApplyScaling(DecodeRegisters(floats, ws, r), r)
  }

  /** An integer written without scaling reads back exactly. */
  lemma UnscaledRoundTrip(floats: FloatCodec, v: PyValue, r: RegisterDef)
    requires r.registerType.Holding? && IsInteger(r.dataType) && r.scale.None?
    requires Prepare(v, r).Ok?
    ensures var encoded := EncodeValue(floats, Prepare(v, r).value, r);
            && encoded.Ok? && |encoded.value| == RegisterCount(r.dataType)
            && ReadBack(floats, encoded.value, r).Int? && Number(ReadBack(floats, encoded.value, r)) == Number(v)
  {
    var n := Truncate(Number(v));
    if v.Int? {
      RoundOfInt(v.n);
    } else {
      RoundOfWhole(v.x);
    }
    DecodeOfEncodeInt(n, r.dataType, r.swaps);
  }

  lemma DivideAndMultiply(a: real, g: real)
    requires g != 0.0
    ensures g * (a / g) == a
  {}

  lemma ScaleError(g: real, d: real)
    requires Abs(d) <= TOLERANCE
    ensures Abs(g * d) <= Abs(g) * TOLERANCE
  {
    if g >= 0.0 {
      assert g * d <= g * TOLERANCE && g * d >= g * -TOLERANCE;
    } else {
      assert g * d <= g * -TOLERANCE && g * d >= g * TOLERANCE;
    }
  }

  /** A value written through a scale reads back to within the gain times one millionth. */
  lemma ScaledRoundTrip(floats: FloatCodec, v: PyValue, r: RegisterDef)
    requires r.registerType.Holding? && IsInteger(r.dataType) && r.scale.Some? && ValidScale(r)
    requires Prepare(v, r).Ok?
    ensures var encoded := EncodeValue(floats, Prepare(v, r).value, r);
            && encoded.Ok? && |encoded.value| == RegisterCount(r.dataType)
            && Abs(Number(ReadBack(floats, encoded.value, r)) - Number(v)) <= Abs(r.scale.value.gain) * TOLERANCE
  {
    var s := r.scale.value;
    var x := ToRaw(s, Number(v));
    var n := Round(x);
    RoundOfInt(n);
    DecodeOfEncodeInt(n, r.dataType, r.swaps);
    BackFromRaw(s, Number(v), n);
  }

  lemma BackFromRaw(s: LinearScale, physical: real, n: int)
    requires s.gain != 0.0 && Abs(ToRaw(s, physical) - n as real) <= TOLERANCE
    ensures Abs(ToPhysical(s, n as real) - physical) <= Abs(s.gain) * TOLERANCE
  {
    var x := ToRaw(s, physical);
    DivideAndMultiply(physical - s.offset, s.gain);
    ScaleError(s.gain, n as real - x);
    assert s.gain * (n as real - x) == s.gain * n as real - s.gain * x;
  }
}
