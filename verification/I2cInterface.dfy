/** Register access over I2C: resolving names, and the read-modify-write of a bit field. */
module I2cInterface {
  import opened Wrappers
  import opened Bits
  import opened Bytes
  import opened I2c

  datatype Endianness = Little | Big

  datatype RegisterDef = RegisterDef(
    alias: string,
    register: nat,
    format: DataFormat,
    endianness: Endianness,
    fields: map<string, FieldDef>)

  datatype Device =
    | RegisterDevice(name: string, address: nat, addrWidthBytes: nat, registers: map<string, RegisterDef>)
    | CommandDevice(name: string, address: nat)

  /** A register on the bus: the device address and the register index as it is sent. */
  datatype Location = Location(address: nat, prefix: seq<Byte>)

  /** The bytes each device register holds. */
  type Registers = map<Location, seq<Byte>>

  datatype Target = Target(location: Location, reg: RegisterDef)

  // ---- Numbers and byte strings ----

  function ToBytes(n: int, len: nat, endianness: Endianness): Result<seq<Byte>, I2cError> {
    if n < 0 || n >= Pow2(8 * len) then Err(ValueOverflow)
    else Ok(if endianness.Big? then ToBig(n, len) else Reverse(ToBig(n, len)))
  }

  function FromBytes(s: seq<Byte>, endianness: Endianness): nat {
    FromBig(if endianness.Big? then s else Reverse(s))
  }

  lemma FromBytesOfToBytes(n: int, len: nat, endianness: Endianness)
    requires ToBytes(n, len, endianness).Ok?
    ensures var s := ToBytes(n, len, endianness).value; |s| == len && FromBytes(s, endianness) == n
  {
    FromBigOfToBig(n, len);
    ReverseTwice(ToBig(n, len));
  }

  lemma FromBytesIsBounded(s: seq<Byte>, endianness: Endianness)
    ensures FromBytes(s, endianness) < Pow2(8 * |s|)
  {
    ToBigOfFromBig(if endianness.Big? then s else Reverse(s));
  }

  /** Big-endian registers have their first byte as the most significant one, little-endian ones
      as the least significant one. */
  lemma ByteOfRegister(s: seq<Byte>, endianness: Endianness, i: nat)
    requires i < |s|
    ensures FromBytes(s, endianness) / Pow2(8 * i) % 256 == if endianness.Big? then s[|s| - 1 - i] else s[i]
  {
    if endianness.Big? {
      ByteOfBig(s, |s| - 1 - i);
    } else {
      ByteOfBig(Reverse(s), |s| - 1 - i);
    }
  }

  /** So of two bytes the first counts 256 times, or the second. */
  lemma TwoByteRegister(a: Byte, b: Byte)
    ensures FromBytes([a], Big) == FromBytes([a], Little) == a
    ensures FromBytes([a, b], Big) == 256 * a + b && FromBytes([a, b], Little) == 256 * b + a
  {
    OneByte(a);
    OneByte(b);
    assert Reverse([a]) == [a] && Reverse([a, b]) == [b, a];
    assert [a, b][..1] == [a] && [b, a][..1] == [b];
  }

  lemma OneByte(a: Byte)
    ensures FromBig([a]) == a
  {
    assert [a][..0] == [];
    assert FromBig([a]) == FromBig([a][..0]) * 256 + a;
  }

  // ---- Name resolution ----

  function AddrPrefix(width: nat, register: nat): Result<seq<Byte>, I2cError> {
    if width == 1 then Ok([register % 256])
    else if width == 2 then (if register < 0x1_0000 then Ok(ToBig(register, 2)) else Err(AddressOverflow))
    else Err(BadAddressWidth)
  }

  /** Two-byte register indices never collide; one-byte indices collide exactly modulo 256. */
  lemma PrefixesCollideIff(width: nat, a: nat, b: nat)
    requires AddrPrefix(width, a).Ok? && AddrPrefix(width, b).Ok?
    ensures AddrPrefix(width, a) == AddrPrefix(width, b) <==> if width == 1 then a % 256 == b % 256 else a == b
  {
    if width == 2 {
      assert Pow2(16) == 0x1_0000 by {
        assert Pow2(8) == 256 by {
          assert Pow2(4) == 16;
        }
        assert Pow2(12) == 16 * Pow2(8);
        assert Pow2(16) == 16 * Pow2(12);
      }
      FromBigOfToBig(a, 2);
      FromBigOfToBig(b, 2);
    }
  }

  /** A two-byte index is sent high byte first, a one-byte index loses its high bits. */
  lemma PrefixBytes(register: nat)
    ensures AddrPrefix(1, register) == Ok([register % 256])
    ensures AddrPrefix(2, register) == if register < 0x1_0000 then Ok([register / 256, register % 256]) else Err(AddressOverflow)
  {
    if register < 0x1_0000 {
      var high := register / 256;
      assert high < 256 && high % 256 == high;
      assert ToBig(high, 1) == ToBig(high / 256, 0) + [high % 256] == [high];
      assert ToBig(register, 2) == ToBig(high, 1) + [register % 256] == [high, register % 256];
    }
  }

  function Resolve(devices: map<string, Device>, peripheral: string, alias: string): Result<Target, I2cError> {
    if peripheral !in devices then Err(KeyError(peripheral))
    else
      var device := devices[peripheral];
      if !device.RegisterDevice? then Err(NotRegisterDevice)
      else if alias !in device.registers then Err(KeyError(alias))
      else
        var reg := device.registers[alias];
        match AddrPrefix(device.addrWidthBytes, reg.register)
        case Err(e) => Err(e)
        case Ok(prefix) => Ok(Target(Location(device.address, prefix), reg))
  }

  function WidthBytes(reg: RegisterDef): Result<nat, I2cError> {
    if reg.format.transferBits % 8 != 0 then Err(BadTransferWidth) else Ok(reg.format.transferBits / 8)
  }

  // ---- What reading and writing a register do to the bus ----

  /** The register as a number; a device that does not hold it does not answer. */
  function Fetch(bus: Registers, t: Target): Result<nat, I2cError> {
    match WidthBytes(t.reg)
    case Err(e) => Err(e)
    case Ok(len) =>
      if t.location !in bus || |bus[t.location]| != len then Err(NoAnswer)
      else Ok(FromBytes(bus[t.location], t.reg.endianness))
  }

  function Store(bus: Registers, t: Target, data: int): Result<Registers, I2cError> {
    match WidthBytes(t.reg)
    case Err(e) => Err(e)
    case Ok(len) =>
      match ToBytes(data, len, t.reg.endianness)
      case Err(e) => Err(e)
      case Ok(payload) => if t.location !in bus then Err(NoAnswer) else Ok(bus[t.location := payload])
  }

  /** What `Read` returns: the bits of a field, or the data of the register in physical units. */
  function ReadSpec(bus: Registers, t: Target, field: string): Result<real, I2cError> {
    match Fetch(bus, t)
    case Err(e) => Err(e)
    case Ok(response) =>
      if field == "" then Ok(FloatFromRaw(t.reg.format, response))
      else if field !in t.reg.fields then Err(KeyError(field))
      else Ok(ReadField(response, t.reg.fields[field]) as real)
  }

  /** The bus after `Write`, or the error that leaves it untouched. */
  function WriteSpec(bus: Registers, t: Target, value: int, field: string): Result<Registers, I2cError> {
    if field == "" then Store(bus, t, value)
    else if field !in t.reg.fields then Err(KeyError(field))
    else
      match Fetch(bus, t)
      case Err(e) => Err(e)
      case Ok(current) => Store(bus, t, InsertField(current, value, t.reg.fields[field]))
  }

  // ---- The bytes behind an alias ----

  /** The bytes with which a device selects a register, said without reference to their encoding. */
  function IndexBytes(width: nat, register: nat): seq<Byte> {
    if width == 1 then [register % 256] else [register / 256 % 256, register % 256]
  }

  /** The bus holds `s` under the index of this alias, as many bytes as the register's transfer. */
  ghost predicate HoldsBytes(devices: map<string, Device>, bus: Registers, peripheral: string, alias: string, s: seq<Byte>) {
    && peripheral in devices && devices[peripheral].RegisterDevice? && alias in devices[peripheral].registers
    && var device := devices[peripheral];
       var reg := device.registers[alias];
       var location := Location(device.address, IndexBytes(device.addrWidthBytes, reg.register));
       && (device.addrWidthBytes == 1 || (device.addrWidthBytes == 2 && reg.register < 0x1_0000))
       && location in bus && bus[location] == s && 8 * |s| == reg.format.transferBits
  }

  /** What a read of the alias answers when the bus holds `s` for it. */
  function Answer(reg: RegisterDef, s: seq<Byte>, field: string): Result<real, I2cError> {
    if field == "" then Ok(FloatFromRaw(reg.format, FromBytes(s, reg.endianness)))
    else if field !in reg.fields then Err(KeyError(field))
    else Ok(ReadField(FromBytes(s, reg.endianness), reg.fields[field]) as real)
  }

  lemma ReadsItsBytes(devices: map<string, Device>, bus: Registers, peripheral: string, alias: string, field: string, s: seq<Byte>)
    requires HoldsBytes(devices, bus, peripheral, alias, s)
    ensures var reg := devices[peripheral].registers[alias];
            && Resolve(devices, peripheral, alias).Ok?
            && ReadSpec(bus, Resolve(devices, peripheral, alias).value, field) == Answer(reg, s, field)
  {
    PrefixBytes(devices[peripheral].registers[alias].register);
  }

  /** The number a write sends to a register that holds `s`. */
  function Sent(reg: RegisterDef, s: seq<Byte>, value: int, field: string): int {
    if field == "" || field !in reg.fields then value
    else InsertField(FromBytes(s, reg.endianness), value, reg.fields[field])
  }

  /** A write puts the bytes of the number it sends on the bus under the alias's own index, and
      touches nothing else. */
  ghost predicate PutsBytes(devices: map<string, Device>, bus: Registers, after: Registers, peripheral: string, alias: string,
                            payload: seq<Byte>)
    requires peripheral in devices && devices[peripheral].RegisterDevice? && alias in devices[peripheral].registers
  {
    var device := devices[peripheral];
    after == bus[Location(device.address, IndexBytes(device.addrWidthBytes, device.registers[alias].register)) := payload]
  }

  lemma WritesItsBytes(devices: map<string, Device>, bus: Registers, peripheral: string, alias: string, value: int, field: string,
                       s: seq<Byte>, payload: seq<Byte>)
    requires HoldsBytes(devices, bus, peripheral, alias, s) && |payload| == |s|
    requires var reg := devices[peripheral].registers[alias];
             (field == "" || field in reg.fields) && FromBytes(payload, reg.endianness) == Sent(reg, s, value, field)
    ensures Resolve(devices, peripheral, alias).Ok?
    ensures var w := WriteSpec(bus, Resolve(devices, peripheral, alias).value, value, field);
            w.Ok? && PutsBytes(devices, bus, w.value, peripheral, alias, payload)
  {
    PrefixBytes(devices[peripheral].registers[alias].register);
    ToBytesOfFromBytes(payload, devices[peripheral].registers[alias].endianness);
  }

  lemma ToBytesOfFromBytes(s: seq<Byte>, endianness: Endianness)
    ensures ToBytes(FromBytes(s, endianness), |s|, endianness) == Ok(s)
  {
    ToBigOfFromBig(if endianness.Big? then s else Reverse(s));
    ReverseTwice(s);
  }

  class I2CInterface {
    const devices: map<string, Device>
    var bus: Registers

    constructor (devices: map<string, Device>, bus: Registers)
      ensures this.devices == devices && this.bus == bus
    {
      this.devices, this.bus := devices, bus;
    }

    method Read(peripheral: string, alias: string, field: string) returns (r: Result<real, I2cError>)
      ensures r == match Resolve(devices, peripheral, alias)
                   case Err(e) => Err(e)
                   case Ok(t) => ReadSpec(bus, t, field)
      ensures forall s :: HoldsBytes(devices, bus, peripheral, alias, s) ==>
                r == Answer(devices[peripheral].registers[alias], s, field)
    {
      forall s | HoldsBytes(devices, bus, peripheral, alias, s)
        ensures Resolve(devices, peripheral, alias).Ok?
        ensures ReadSpec(bus, Resolve(devices, peripheral, alias).value, field) ==
                Answer(devices[peripheral].registers[alias], s, field)
      {
        ReadsItsBytes(devices, bus, peripheral, alias, field, s);
      }
      var resolved := Resolve(devices, peripheral, alias);
      if resolved.Err? {
        return Err(resolved.error);
      }
      var reg := resolved.value.reg;
      var response := Fetch(bus, resolved.value);
      if response.Err? {
        return Err(response.error);
      }
      if field != "" {
        if field !in reg.fields {
          return Err(KeyError(field));
        }
        var fieldDef := reg.fields[field];
        r := Ok(Shr(And(response.value, FieldMask(fieldDef.widthBits, fieldDef.lsb)), fieldDef.lsb) as real);
      } else {
        r := Ok(FloatFromRaw(reg.format, response.value));
      }
    }

    method Write(peripheral: string, alias: string, value: int, field: string) returns (r: Result<(), I2cError>)
      modifies this`bus
      ensures match Resolve(devices, peripheral, alias)
              case Err(e) => r == Err(e) && bus == old(bus)
              case Ok(t) =>
                match WriteSpec(old(bus), t, value, field)
                case Err(e) => r == Err(e) && bus == old(bus)
                case Ok(written) => r == Ok(()) && bus == written
      ensures forall s, payload :: HoldsBytes(devices, old(bus), peripheral, alias, s) && |payload| == |s| ==>
                var reg := devices[peripheral].registers[alias];
                (field == "" || field in reg.fields) && FromBytes(payload, reg.endianness) == Sent(reg, s, value, field) ==>
                  r == Ok(()) && PutsBytes(devices, old(bus), bus, peripheral, alias, payload)
    {
      forall s, payload | HoldsBytes(devices, bus, peripheral, alias, s) && |payload| == |s|
        ensures var reg := devices[peripheral].registers[alias];
                (field == "" || field in reg.fields) && FromBytes(payload, reg.endianness) == Sent(reg, s, value, field) ==>
                  Resolve(devices, peripheral, alias).Ok?
                  && var w := WriteSpec(bus, Resolve(devices, peripheral, alias).value, value, field);
                     w.Ok? && PutsBytes(devices, bus, w.value, peripheral, alias, payload)
      {
        var reg := devices[peripheral].registers[alias];
        if (field == "" || field in reg.fields) && FromBytes(payload, reg.endianness) == Sent(reg, s, value, field) {
          WritesItsBytes(devices, bus, peripheral, alias, value, field, s, payload);
        }
      }
      var resolved := Resolve(devices, peripheral, alias);
      if resolved.Err? {
        return Err(resolved.error);
      }
      var target := resolved.value;
      var data := value;
      if field != "" {
        if field !in target.reg.fields {
          return Err(KeyError(field));
        }
        var fieldDef := target.reg.fields[field];
        var current := Fetch(bus, target);
        if current.Err? {
          return Err(current.error);
        }
        var mask := FieldMask(fieldDef.widthBits, fieldDef.lsb);
        data := And(Not(mask), current.value);
        data := Or(data, And(Shl(value, fieldDef.lsb), mask));
      }
      var written := Store(bus, target, data);
      if written.Err? {
        return Err(written.error);
      }
      bus := written.value;
      r := Ok(());
    }
  }

  // ---- Results ----

  lemma FetchOfStore(bus: Registers, t: Target, data: int)
    requires Store(bus, t, data).Ok?
    ensures Fetch(Store(bus, t, data).value, t) == Ok(data)
  {
    FromBytesOfToBytes(data, WidthBytes(t.reg).value, t.reg.endianness);
  }

  /** A field that was written reads back as the value modulo `2^width`, whatever the register
      width and byte order. */
  lemma WriteThenReadField(bus: Registers, t: Target, value: int, field: string)
    requires field != "" && WriteSpec(bus, t, value, field).Ok?
    ensures ReadSpec(WriteSpec(bus, t, value, field).value, t, field) ==
            Ok((value % Pow2(t.reg.fields[field].widthBits)) as real)
  {
    var current := Fetch(bus, t).value;
    FetchOfStore(bus, t, InsertField(current, value, t.reg.fields[field]));
    InsertThenReadField(current, value, t.reg.fields[field]);
  }

  /** Writing a field leaves every other bit of the register, every disjoint field, and every
      other register as they were. */
  lemma WriteFieldKeepsTheRest(bus: Registers, t: Target, value: int, field: string)
    requires field != "" && WriteSpec(bus, t, value, field).Ok?
    ensures var after, f := WriteSpec(bus, t, value, field).value, t.reg.fields[field];
            && Fetch(bus, t).Ok? && Fetch(after, t).Ok?
            && (forall k: nat :: !(f.lsb <= k < f.lsb + f.widthBits) ==>
                  (Bit(Fetch(after, t).value, k) <==> Bit(Fetch(bus, t).value, k)))
            && (forall other :: other != "" && other in t.reg.fields && Disjoint(f, t.reg.fields[other]) ==>
                  ReadSpec(after, t, other) == ReadSpec(bus, t, other))
            && (forall u: Target :: u.location != t.location ==> Fetch(after, u) == Fetch(bus, u))
  {
    var current, f := Fetch(bus, t).value, t.reg.fields[field];
    FetchOfStore(bus, t, InsertField(current, value, f));
    forall k: nat | !(f.lsb <= k < f.lsb + f.widthBits)
      ensures Bit(InsertField(current, value, f), k) <==> Bit(current, k)
    {
      InsertFieldBits(current, value, f, k);
    }
    forall other | other in t.reg.fields && Disjoint(f, t.reg.fields[other])
      ensures ReadField(InsertField(current, value, f), t.reg.fields[other]) == ReadField(current, t.reg.fields[other])
    {
      InsertKeepsOtherField(current, value, f, t.reg.fields[other]);
    }
  }

  /** A field write on a register that answers fails exactly when the value has a bit that the
      field would put beyond the register; a field inside the register takes every value. */
  lemma WriteFieldSucceedsIff(bus: Registers, t: Target, value: int, field: string)
    requires field != "" && field in t.reg.fields && Fetch(bus, t).Ok?
    ensures var f, bits := t.reg.fields[field], t.reg.format.transferBits;
            && (WriteSpec(bus, t, value, field).Ok? <==> FitsBelow(value, f, bits))
            && (f.lsb + f.widthBits <= bits ==> WriteSpec(bus, t, value, field).Ok?)
  {
    var f, bits := t.reg.fields[field], t.reg.format.transferBits;
    var len := WidthBytes(t.reg).value;
    assert 8 * len == bits;
    FromBytesIsBounded(bus[t.location], t.reg.endianness);
    InsertFits(Fetch(bus, t).value, value, f, bits);
  }

  // ---- Two registers of one device ----

  /** Two aliases of a device stand for one register of the bus exactly when their indices are
      equal, modulo 256 when the device sends one byte of them. */
  lemma SameRegisterIff(devices: map<string, Device>, peripheral: string, alias: string, other: string)
    requires Resolve(devices, peripheral, alias).Ok? && Resolve(devices, peripheral, other).Ok?
    ensures var device := devices[peripheral];
            var a, b := device.registers[alias].register, device.registers[other].register;
            Resolve(devices, peripheral, alias).value.location == Resolve(devices, peripheral, other).value.location <==>
            if device.addrWidthBytes == 1 then a % 256 == b % 256 else a == b
  {
    var device := devices[peripheral];
    PrefixesCollideIff(device.addrWidthBytes, device.registers[alias].register, device.registers[other].register);
  }

  predicate SameLayout(a: RegisterDef, b: RegisterDef) {
    a.format.transferBits == b.format.transferBits && a.endianness == b.endianness
  }

  lemma WriteSetsItsLocation(bus: Registers, t: Target, value: int, field: string, u: Target)
    requires WriteSpec(bus, t, value, field).Ok?
    ensures var after := WriteSpec(bus, t, value, field).value;
            && (u.location != t.location ==> Fetch(after, u) == Fetch(bus, u))
            && (u.location == t.location && SameLayout(u.reg, t.reg) ==> Fetch(after, u) == Fetch(after, t))
  {}

  /** A write to one alias of a device leaves what every other alias reads alone when their
      indices differ, modulo 256 where one byte of them is sent. Otherwise the two are one
      register, and aliases of one width and byte order then read the same bits. */
  lemma WriteAndOtherAlias(devices: map<string, Device>, bus: Registers, peripheral: string, alias: string, value: int,
                           field: string, other: string, otherField: string)
    requires Resolve(devices, peripheral, alias).Ok? && Resolve(devices, peripheral, other).Ok?
    requires WriteSpec(bus, Resolve(devices, peripheral, alias).value, value, field).Ok?
    ensures var t, u := Resolve(devices, peripheral, alias).value, Resolve(devices, peripheral, other).value;
            var after := WriteSpec(bus, t, value, field).value;
            var apart := if devices[peripheral].addrWidthBytes == 1 then t.reg.register % 256 != u.reg.register % 256
                         else t.reg.register != u.reg.register;
            && (apart ==> ReadSpec(after, u, otherField) == ReadSpec(bus, u, otherField))
            && (!apart && SameLayout(u.reg, t.reg) ==> Fetch(after, u) == Fetch(after, t))
  {
    SameRegisterIff(devices, peripheral, alias, other);
    var t, u := Resolve(devices, peripheral, alias).value, Resolve(devices, peripheral, other).value;
    WriteSetsItsLocation(bus, t, value, field, u);
  }

  // ---- Whole registers ----

  /** A whole-register write succeeds exactly for the values that fit the transfer, and the value
      then reads back as its data in physical units. */
  lemma WriteThenReadRegister(bus: Registers, t: Target, value: int)
    requires t.reg.format.transferBits % 8 == 0 && t.location in bus
    ensures WriteSpec(bus, t, value, "").Ok? <==> 0 <= value < Pow2(t.reg.format.transferBits)
    ensures WriteSpec(bus, t, value, "").Ok? ==>
              ReadSpec(WriteSpec(bus, t, value, "").value, t, "") == Ok(FloatFromRaw(t.reg.format, value))
  {
    assert 8 * WidthBytes(t.reg).value == t.reg.format.transferBits;
    if WriteSpec(bus, t, value, "").Ok? {
      FetchOfStore(bus, t, value);
    }
  }

  /** So data packed for a register whose data field fits its transfer survives a write, and
      reads back in physical units. */
  lemma WritePackedThenRead(bus: Registers, t: Target, data: int)
    requires t.reg.format.dataLsb + LogicalWidth(t.reg.format) <= t.reg.format.transferBits
    requires t.reg.format.transferBits % 8 == 0 && t.location in bus
    requires PackData(t.reg.format, data).Ok?
    ensures var packed := PackData(t.reg.format, data).value;
            && WriteSpec(bus, t, packed, "").Ok?
            && ReadSpec(WriteSpec(bus, t, packed, "").value, t, "") == Ok(ToPhysical(t.reg.format, data))
  {
    PackThenExtract(t.reg.format, data);
    WriteThenReadRegister(bus, t, PackData(t.reg.format, data).value);
  }
}
