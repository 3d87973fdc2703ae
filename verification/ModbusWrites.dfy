/** Which values a write to a Modbus register takes, and what it leaves in the tables, in plain
    numbers. */
module ModbusWrites {
  import opened Wrappers
  import opened Rounding
  import opened ModbusCodec
  import opened ModbusRegister
  import opened ModbusAccess
  import opened ModbusLayout

  predicate WithinLimits(v: PyValue, r: RegisterDef) {
    && (r.writeMin.Some? ==> r.writeMin.value <= Number(v))
    && (r.writeMax.Some? ==> Number(v) <= r.writeMax.value)
  }

  /** The integer `k` in the register stands for `v`: it is `v`, or within a millionth of what `v`
      scales to. */
  predicate StandsFor(k: int, v: PyValue, r: RegisterDef)
    requires ValidScale(r)
  {
    if r.scale.None? then Number(v) == k as real
    else
      var raw := (Number(v) - r.scale.value.offset) / r.scale.value.gain;
      -0.000001 <= raw - k as real <= 0.000001
  }

  lemma RoundOfNear(x: real, k: int)
    requires -0.000001 <= x - k as real <= 0.000001
    ensures Round(x) == k
  {}

  lemma WholeIsTruncated(x: real, k: int)
    requires x == k as real
    ensures Truncate(x) == k
  {
    RoundOfInt(k);
  }

  lemma TakesInteger(v: PyValue, r: RegisterDef, k: int)
    requires RegisterAccepted(r) && r.registerType.Holding? && IsInteger(r.dataType) && InRange(k, r.dataType)
    requires !v.Boolean? && WithinLimits(v, r) && StandsFor(k, v, r)
    ensures ValidateWriteValue(v, r).None? && Prepare(v, r).Ok?
  {
    if r.scale.None? {
      WholeIsTruncated(Number(v), k);
    } else {
      RoundOfNear(ToRaw(r.scale.value, Number(v)), k);
      RoundOfInt(k);
    }
  }

  lemma TakesOnlyIntegers(v: PyValue, r: RegisterDef) returns (k: int)
    requires RegisterAccepted(r) && r.registerType.Holding? && IsInteger(r.dataType) && Prepare(v, r).Ok?
    ensures !v.Boolean? && WithinLimits(v, r) && InRange(k, r.dataType) && StandsFor(k, v, r)
  {
    if r.scale.None? {
      k := Truncate(Number(v));
      if v.Int? {
        RoundOfInt(v.n);
      }
    } else {
      k := Round(ToRaw(r.scale.value, Number(v)));
      RoundOfInt(k);
    }
  }

  lemma SentInteger(floats: FloatCodec, v: PyValue, r: RegisterDef, k: int)
    requires RegisterAccepted(r) && r.registerType.Holding? && IsInteger(r.dataType) && InRange(k, r.dataType)
    requires Prepare(v, r).Ok? && StandsFor(k, v, r)
    ensures var encoded := EncodeValue(floats, Prepare(v, r).value, r);
            encoded.Ok? && EncodeInt(k, r.dataType, r.swaps) == Some(encoded.value)
  {
    if r.scale.None? {
      WholeIsTruncated(Number(v), k);
      if v.Float? {
        RoundOfWhole(v.x);
      }
    } else {
      RoundOfNear(ToRaw(r.scale.value, Number(v)), k);
      RoundOfInt(k);
    }
  }

  /** Only the words of the register differ, and they hold `k`. */
  ghost predicate PutsInteger(floats: FloatCodec, m: Memory, after: Memory, r: RegisterDef, k: int)
    requires ValidMemory(m) && ValidMemory(after) && Fits(r)
  {
    RawIs(floats, after, r, Int(k)) && LeavesOthers(m, after, r)
  }

  ghost predicate LeavesOthers(m: Memory, after: Memory, r: RegisterDef)
    requires ValidMemory(m) && ValidMemory(after) && Fits(r)
  {
    && after.input == m.input && after.coils == m.coils && after.discrete == m.discrete
    && forall i :: 0 <= i < ADDRESSES && !(r.startingAddress <= i < r.startingAddress + RegisterCount(r.dataType)) ==>
         after.holding[i] == m.holding[i]
  }

  lemma StoreLeavesOthers(floats: FloatCodec, m: Memory, r: RegisterDef, raw: PyValue)
    requires ValidMemory(m) && Fits(r) && r.registerType.Holding? && EncodeValue(floats, raw, r).Ok?
    ensures Store(floats, m, r, raw).Ok? && LeavesOthers(m, Store(floats, m, r, raw).value, r)
  {
    EncodedLength(floats, raw, r);
  }

  lemma ReadsStored(floats: FloatCodec, after: Memory, r: RegisterDef, ws: seq<Word>, k: int)
    requires ValidMemory(after) && Fits(r) && r.registerType.Holding? && IsInteger(r.dataType) && InRange(k, r.dataType)
    requires EncodeInt(k, r.dataType, r.swaps) == Some(ws)
    requires after.holding[r.startingAddress..r.startingAddress + RegisterCount(r.dataType)] == ws
    ensures ReadRaw(floats, after, r) == Int(k)
  {
    DecodeOfEncodeInt(k, r.dataType, r.swaps);
  }

  lemma StoredInteger(floats: FloatCodec, m: Memory, r: RegisterDef, raw: PyValue, k: int)
    requires ValidMemory(m) && Fits(r) && r.registerType.Holding? && IsInteger(r.dataType) && InRange(k, r.dataType)
    requires EncodeValue(floats, raw, r).Ok? && EncodeInt(k, r.dataType, r.swaps) == Some(EncodeValue(floats, raw, r).value)
    ensures Store(floats, m, r, raw).Ok? && PutsInteger(floats, m, Store(floats, m, r, raw).value, r, k)
  {
    StoredWords(floats, m, r, raw);
    StoreLeavesOthers(floats, m, r, raw);
    var after := Store(floats, m, r, raw).value;
    ReadsStored(floats, after, r, EncodeValue(floats, raw, r).value, k);
    ReadsRaw(floats, after, r);
  }

  /** A holding register of an integer type takes exactly the numbers within its limits that stand
      for an integer of its range; and then that integer is in its words, and nothing else has
      changed. */
  lemma IntegerWriteLaw(floats: FloatCodec, m: Memory, r: RegisterDef, v: PyValue)
    requires ValidMemory(m) && Fits(r) && RegisterAccepted(r) && r.registerType.Holding? && IsInteger(r.dataType)
    ensures WriteRegister(floats, m, r, Value(v)).result.Ok? <==>
            !v.Boolean? && WithinLimits(v, r) && exists k :: InRange(k, r.dataType) && StandsFor(k, v, r)
    ensures var o := WriteRegister(floats, m, r, Value(v));
            o.result.Ok? ==> o.result == Ok(v) && exists k :: StandsFor(k, v, r) && PutsInteger(floats, m, o.memory, r, k)
  {
    if !v.Boolean? && WithinLimits(v, r) && exists k :: InRange(k, r.dataType) && StandsFor(k, v, r) {
      var k :| InRange(k, r.dataType) && StandsFor(k, v, r);
      TakesInteger(v, r, k);
    }
    if Prepare(v, r).Ok? {
      var k := TakesOnlyIntegers(v, r);
      SentInteger(floats, v, r, k);
      StoredInteger(floats, m, r, Prepare(v, r).value, k);
    }
  }

  /** What the register should hold for `v`, before it is packed. */
  function Unscaled(v: PyValue, r: RegisterDef): real
    requires ValidScale(r)
  {
    if r.scale.None? then Number(v) else (Number(v) - r.scale.value.offset) / r.scale.value.gain
  }

  lemma StoredBits(floats: FloatCodec, m: Memory, r: RegisterDef, raw: PyValue)
    requires ValidMemory(m) && Fits(r) && r.registerType.Holding? && (r.dataType.Float32? || r.dataType.Float64?)
    requires EncodeValue(floats, raw, r).Ok?
    ensures var res, packed := Store(floats, m, r, raw), floats.pack(r.dataType, Number(raw));
            && res.Ok? && packed.Some? && LeavesOthers(m, res.value, r)
            && Weighed(Arranged(WordsOf(res.value, r), r.swaps)) == packed.value
  {
    StoredWords(floats, m, r, raw);
    StoreLeavesOthers(floats, m, r, raw);
    DecodeOfEncodeBits(floats.pack(r.dataType, Number(raw)).value, r.dataType, r.swaps);
    DecodedValue(WordsOf(Store(floats, m, r, raw).value, r), r.swaps);
  }

  lemma PreparedFloat(v: PyValue, r: RegisterDef)
    requires RegisterAccepted(r) && r.registerType.Holding? && (r.dataType.Float32? || r.dataType.Float64?)
    ensures Prepare(v, r).Ok? <==> !v.Boolean? && WithinLimits(v, r)
    ensures Prepare(v, r).Ok? ==> Number(Prepare(v, r).value) == Unscaled(v, r)
  {}

  /** A floating-point holding register takes exactly the numbers within its limits that can be
      packed, and then its words, in their order, make up the packed bits. */
  lemma FloatWriteLaw(floats: FloatCodec, m: Memory, r: RegisterDef, v: PyValue)
    requires ValidMemory(m) && Fits(r) && RegisterAccepted(r) && r.registerType.Holding?
    requires r.dataType.Float32? || r.dataType.Float64?
    ensures var o, packed := WriteRegister(floats, m, r, Value(v)), floats.pack(r.dataType, Unscaled(v, r));
            && (o.result.Ok? <==> !v.Boolean? && WithinLimits(v, r) && packed.Some? && packed.value < Modulus(r.dataType))
            && (o.result.Ok? ==>
                  && o.result == Ok(v) && LeavesOthers(m, o.memory, r)
                  && Weighed(Arranged(WordsOf(o.memory, r), r.swaps)) == packed.value)
  {
    PreparedFloat(v, r);
    if Prepare(v, r).Ok? && EncodeValue(floats, Prepare(v, r).value, r).Ok? {
      StoredBits(floats, m, r, Prepare(v, r).value);
    }
  }

  /** A truth-valued holding register takes booleans, zero and one within its limits, and holds one
      unless what the value scales to is zero. */
  lemma BoolWriteLaw(floats: FloatCodec, m: Memory, r: RegisterDef, v: PyValue)
    requires ValidMemory(m) && Fits(r) && RegisterAccepted(r) && r.registerType.Holding? && r.dataType.Bool?
    ensures var o := WriteRegister(floats, m, r, Value(v));
            && (o.result.Ok? <==> (v.Boolean? || v == Int(0) || v == Int(1)) && WithinLimits(v, r))
            && (o.result.Ok? ==>
                  && o.result == Ok(v) && LeavesOthers(m, o.memory, r)
                  && o.memory.holding[r.startingAddress] == if Unscaled(v, r) == 0.0 then 0 else 1)
  {
    if Prepare(v, r).Ok? {
      StoreLeavesOthers(floats, m, r, Prepare(v, r).value);
    }
  }

  /** A coil takes exactly booleans, zero and one, and then only that coil has changed; input
      registers and discrete inputs take nothing; limits are checked first, the lower one before
      the upper one. */
  lemma OtherWriteLaws(floats: FloatCodec, m: Memory, r: RegisterDef, v: PyValue)
    requires ValidMemory(m) && Fits(r) && RegisterAccepted(r)
    ensures var o := WriteRegister(floats, m, r, Value(v));
            && (r.registerType.Coil? ==>
                  if v.Boolean? || v == Int(0) || v == Int(1) then
                    o.result == Ok(v) && o.memory == m.(coils := m.coils[r.startingAddress := v == Boolean(true) || v == Int(1)])
                  else o == WriteOutcome(m, Err(NotABool)))
            && (r.registerType.Input? || r.registerType.Discrete? ==> o == WriteOutcome(m, Err(ReadOnly)))
            && (r.registerType.Holding? && r.writeMin.Some? && Number(v) < r.writeMin.value ==> o == WriteOutcome(m, Err(BelowMin)))
            && (r.registerType.Holding? && WithinLimits(v, r.(writeMax := None)) && !WithinLimits(v, r) ==>
                  o == WriteOutcome(m, Err(AboveMax)))
  {}

  /** A label is written as the value it stands for; an unknown one is refused. */
  lemma LabelWriteLaw(floats: FloatCodec, m: Memory, r: RegisterDef, text: string)
    requires ValidMemory(m) && Fits(r) && RegisterAccepted(r)
    ensures var o := WriteRegister(floats, m, r, Label(text));
            if r.writeValueMap.None? then o == WriteOutcome(m, Err(NoValueMap))
            else if text !in r.writeValueMap.value then o == WriteOutcome(m, Err(UnknownLabel))
            else o == WriteRegister(floats, m, r, Value(r.writeValueMap.value[text]))
  {}
}
