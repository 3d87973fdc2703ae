/** What reads and writes of a configured Modbus device do to its tables and publish. */
module ModbusAccess {
  import opened Wrappers
  import opened Rounding
  import opened Bits
  import opened ModbusCodec
  import opened ModbusRegister
  import opened ModbusConfig

  const ADDRESSES := 0x1_0000

  // ---- Device tables ----

  datatype Memory = Memory(holding: seq<Word>, input: seq<Word>, coils: seq<bool>, discrete: seq<bool>)

  predicate ValidMemory(m: Memory) {
    |m.holding| == |m.input| == |m.coils| == |m.discrete| == ADDRESSES
  }

  predicate Fits(r: RegisterDef) {
    r.startingAddress + RegisterCount(r.dataType) <= ADDRESSES
  }

  function WordTable(m: Memory, t: RegisterType): seq<Word>
    requires !IsBitType(t)
  {
    if t.Holding? then m.holding else m.input
  }

  function BitTable(m: Memory, t: RegisterType): seq<bool>
    requires IsBitType(t)
  {
    if t.Coil? then m.coils else m.discrete
  }

  function ReadRaw(floats: FloatCodec, m: Memory, r: RegisterDef): PyValue
    requires ValidMemory(m) && Fits(r)
  {
    var start := r.startingAddress;
    if IsBitType(r.registerType) then Int(if BitTable(m, r.registerType)[start] then 1 else 0)
    else DecodeRegisters(floats, WordTable(m, r.registerType)[start..start + RegisterCount(r.dataType)], r)
  }

  // ---- Channels ----

  type Channels = map<string, PyValue>

  function Key(prefix: string, name: string): string {
    prefix + "." + name
  }

  function KeysOf(prefix: string, names: seq<string>): set<string> {
    set n | n in names :: Key(prefix, n)
  }

  lemma KeyIsInjective(prefix: string, a: string, b: string)
    requires Key(prefix, a) == Key(prefix, b)
    ensures a == b
  {
    assert a == Key(prefix, a)[|prefix| + 1..];
    assert b == Key(prefix, b)[|prefix| + 1..];
  }

  lemma KeysOfAppend(prefix: string, a: seq<string>, b: seq<string>)
    ensures KeysOf(prefix, a + b) == KeysOf(prefix, a) + KeysOf(prefix, b)
    ensures (forall x :: x in a ==> x !in b) ==> KeysOf(prefix, a) !! KeysOf(prefix, b)
  {
    if forall x :: x in a ==> x !in b {
      forall k | k in KeysOf(prefix, a) && k in KeysOf(prefix, b) ensures false {
        var x :| x in a && k == Key(prefix, x);
        var y :| y in b && k == Key(prefix, y);
        KeyIsInjective(prefix, x, y);
      }
    }
  }

  function BitValue(n: int, k: nat): int {
    And(Shr(n, k), 1)
  }

  lemma BitValueIsBit(n: int, k: nat)
    ensures BitValue(n, k) == if Bit(n, k) then 1 else 0
  {
    BitOfShr(n, k, 0);
    BitOfAnd(Shr(n, k), 1, 0);
  }

  function AddBits(channels: Channels, prefix: string, n: int, bits: seq<BitDef>): Channels {
    if bits == [] then channels
    else
      var last := bits[|bits| - 1];
      AddBits(channels, prefix, n, bits[..|bits| - 1])[Key(prefix, last.name) := Int(BitValue(n, last.bitIndex))]
  }

  function ChannelsOf(prefix: string, r: RegisterDef, raw: PyValue, scaled: PyValue): Channels {
    AddBits(map[Key(prefix, r.name) := scaled], prefix, Truncate(Number(raw)), BitsOf(r))
  }

  method BuildRegisterChannels(prefix: string, r: RegisterDef, raw: PyValue, scaled: PyValue)
    returns (channels: Channels)
    ensures channels == ChannelsOf(prefix, r, raw, scaled)
  {
    channels := map[Key(prefix, r.name) := scaled];
    ghost var first := channels;
    var n := Truncate(Number(raw));
    var bits := BitsOf(r);
    for i := 0 to |bits|
      invariant channels == AddBits(first, prefix, n, bits[..i])
    {
      assert bits[..i + 1][..i] == bits[..i];
      channels := channels[Key(prefix, bits[i].name) := Int(BitValue(n, bits[i].bitIndex))];
    }
    assert bits[..|bits|] == bits;
  }

  /** What reading one register publishes. */
  function Reading(prefix: string, floats: FloatCodec, m: Memory, r: RegisterDef): Channels
    requires ValidMemory(m) && Fits(r)
  {
    var raw := ReadRaw(floats, m, r);
    ChannelsOf(prefix, r, raw, ApplyScaling(raw, r))
  }

  /** The channels are keyed by exactly these names, one channel a name. */
  predicate KeyedBy(channels: Channels, prefix: string, names: seq<string>) {
    channels.Keys == KeysOf(prefix, names) && |channels| == |names|
  }

  /** `part` is in `whole`, unchanged. */
  predicate Keeps(whole: Channels, part: Channels) {
    forall k :: k in part ==> k in whole && whole[k] == part[k]
  }

  predicate ShowsBit(channels: Channels, prefix: string, n: int, b: BitDef) {
    var k := Key(prefix, b.name);
    k in channels && channels[k] == Int(if Bit(n, b.bitIndex) then 1 else 0)
  }

  lemma OneMoreKey(prefix: string, names: seq<string>, name: string)
    ensures KeysOf(prefix, names + [name]) == KeysOf(prefix, names) + {Key(prefix, name)}
    ensures name !in names ==> Key(prefix, name) !in KeysOf(prefix, names)
  {
    KeysOfAppend(prefix, names, [name]);
    assert name in [name];
    assert KeysOf(prefix, [name]) == {Key(prefix, name)};
  }

  lemma OneMoreChannel(channels: Channels, prefix: string, names: seq<string>, name: string, v: PyValue)
    requires KeyedBy(channels, prefix, names) && name !in names
    ensures Key(prefix, name) !in channels
    ensures KeyedBy(channels[Key(prefix, name) := v], prefix, names + [name])
  {
    OneMoreKey(prefix, names, name);
    assert channels[Key(prefix, name) := v].Keys == channels.Keys + {Key(prefix, name)};
  }

  predicate ShowsBits(channels: Channels, prefix: string, n: int, bits: seq<BitDef>) {
    forall b :: b in bits ==> ShowsBit(channels, prefix, n, b)
  }

  lemma OneMoreBit(channels: Channels, part: Channels, prefix: string, n: int, names: seq<string>, bits: seq<BitDef>, last: BitDef)
    requires KeyedBy(channels, prefix, names) && last.name !in names
    requires Keeps(channels, part) && ShowsBits(channels, prefix, n, bits)
    ensures var more := channels[Key(prefix, last.name) := Int(BitValue(n, last.bitIndex))];
            && KeyedBy(more, prefix, names + [last.name])
            && Keeps(more, part) && ShowsBits(more, prefix, n, bits + [last])
  {
    OneMoreChannel(channels, prefix, names, last.name, Int(BitValue(n, last.bitIndex)));
    BitValueIsBit(n, last.bitIndex);
    var more := channels[Key(prefix, last.name) := Int(BitValue(n, last.bitIndex))];
    forall b | b in bits + [last] ensures ShowsBit(more, prefix, n, b) {
      assert b == last || ShowsBit(channels, prefix, n, b);
    }
  }

  lemma LastNameIsNew(names: seq<string>, bits: seq<BitDef>)
    requires bits != [] && NoDuplicates(names + BitNames(bits))
    ensures var before := names + BitNames(bits[..|bits| - 1]);
            var last := bits[|bits| - 1].name;
            names + BitNames(bits) == before + [last] && NoDuplicates(before) && last !in before
  {
    var init, last := BitNames(bits[..|bits| - 1]), bits[|bits| - 1].name;
    AppendIsAssociative(names, init, [last]);
    WithoutTheLast(names + init, last);
  }

  lemma WithoutTheLast(names: seq<string>, last: string)
    requires NoDuplicates(names + [last])
    ensures NoDuplicates(names) && last !in names
  {
    NoDuplicatesAppend(names, [last]);
    assert last in [last];
  }

  lemma {:induction false} AddedBits(channels: Channels, prefix: string, n: int, names: seq<string>, bits: seq<BitDef>)
    requires KeyedBy(channels, prefix, names) && NoDuplicates(names + BitNames(bits))
    ensures var r := AddBits(channels, prefix, n, bits);
            KeyedBy(r, prefix, names + BitNames(bits)) && Keeps(r, channels) && ShowsBits(r, prefix, n, bits)
  {
    if bits == [] {
      AppendNothing(names);
    } else {
      var init, last := bits[..|bits| - 1], bits[|bits| - 1];
      LastNameIsNew(names, bits);
      AddedBits(channels, prefix, n, names, init);
      OneMoreBit(AddBits(channels, prefix, n, init), channels, prefix, n, names + BitNames(init), init, last);
      InitAndLast(bits);
    }
  }

  lemma AppendNothing<T>(s: seq<T>)
    ensures s + [] == s
  {}

  lemma InitAndLast<T>(s: seq<T>)
    requires s != []
    ensures s[..|s| - 1] + [s[|s| - 1]] == s
  {}

  /** A reading publishes the scaled value under the register's name and, for a bitmap, each
      listed bit of the raw value under its own name, and nothing else. */
  lemma ReadingChannels(prefix: string, floats: FloatCodec, m: Memory, r: RegisterDef)
    requires ValidMemory(m) && Fits(r) && NoDuplicates(NamesOf(r))
    ensures KeyedBy(Reading(prefix, floats, m, r), prefix, NamesOf(r))
    ensures Key(prefix, r.name) in Reading(prefix, floats, m, r)
    ensures Reading(prefix, floats, m, r)[Key(prefix, r.name)] == ApplyScaling(ReadRaw(floats, m, r), r)
    ensures ShowsBits(Reading(prefix, floats, m, r), prefix, Truncate(Number(ReadRaw(floats, m, r))), BitsOf(r))
  {
    var raw := ReadRaw(floats, m, r);
    var first: Channels := map[Key(prefix, r.name) := ApplyScaling(raw, r)];
    assert r.name in [r.name];
    assert first.Keys == KeysOf(prefix, [r.name]);
    AddedBits(first, prefix, Truncate(Number(raw)), [r.name], BitsOf(r));
    assert Key(prefix, r.name) in first;
  }

  lemma NoDuplicatesAppend(a: seq<string>, b: seq<string>)
    ensures NoDuplicates(a + b) <==> NoDuplicates(a) && NoDuplicates(b) && forall x :: x in a ==> x !in b
  {
    var s := a + b;
    assert forall i :: 0 <= i < |a| ==> s[i] == a[i];
    assert forall j :: 0 <= j < |b| ==> s[|a| + j] == b[j];
    if NoDuplicates(s) {
      forall x | x in a ensures x !in b {
        var i :| 0 <= i < |a| && a[i] == x;
        forall j | 0 <= j < |b| ensures b[j] != x {
          assert s[i] != s[|a| + j];
        }
      }
    }
    if NoDuplicates(a) && NoDuplicates(b) && forall x :: x in a ==> x !in b {
      forall i, j | 0 <= i < j < |s| ensures s[i] != s[j] {
        if i < |a| <= j {
          assert s[i] == a[i] && s[j] == b[j - |a|] && a[i] in a && b[j - |a|] in b;
        }
      }
    }
  }

  // ---- Reading several registers ----

  predicate AllFit(s: seq<RegisterDef>) {
    forall r :: r in s ==> Fits(r)
  }

  /** Reads each register by itself, one after the other, into one set of channels. */
  function Merged(prefix: string, floats: FloatCodec, m: Memory, s: seq<RegisterDef>): Channels
    requires ValidMemory(m) && AllFit(s)
  {
    if s == [] then map[]
    else Merged(prefix, floats, m, s[..|s| - 1]) + Reading(prefix, floats, m, s[|s| - 1])
  }

  lemma JoinDisjoint(a: Channels, b: Channels, prefix: string, namesA: seq<string>, namesB: seq<string>)
    requires KeyedBy(a, prefix, namesA) && KeyedBy(b, prefix, namesB) && NoDuplicates(namesA + namesB)
    ensures KeyedBy(a + b, prefix, namesA + namesB)
    ensures Keeps(a + b, a) && Keeps(a + b, b)
  {
    NoDuplicatesAppend(namesA, namesB);
    KeysOfAppend(prefix, namesA, namesB);
    assert (a + b).Keys == a.Keys + b.Keys;
    assert |a.Keys + b.Keys| == |a.Keys| + |b.Keys|;
  }

  /** Registers of distinct names never overwrite each other's channels: all readings survive,
      and there is one channel for every name. */
  lemma {:induction false} MergedKeepsEveryReading(prefix: string, floats: FloatCodec, m: Memory, s: seq<RegisterDef>)
    requires ValidMemory(m) && AllFit(s) && NoDuplicates(AllNames(s))
    ensures KeyedBy(Merged(prefix, floats, m, s), prefix, AllNames(s))
    ensures forall r :: r in s ==> Keeps(Merged(prefix, floats, m, s), Reading(prefix, floats, m, r))
  {
    if s != [] {
      var init, last := s[..|s| - 1], s[|s| - 1];
      assert s == init + [last];
      NoDuplicatesAppend(AllNames(init), NamesOf(last));
      MergedKeepsEveryReading(prefix, floats, m, init);
      ReadingChannels(prefix, floats, m, last);
      JoinDisjoint(Merged(prefix, floats, m, init), Reading(prefix, floats, m, last), prefix, AllNames(init), NamesOf(last));
    }
  }

  // ---- Names of part of a configuration ----

  function Sum(f: RegisterDef -> nat, s: seq<RegisterDef>): nat {
    if s == [] then 0 else f(s[0]) + Sum(f, s[1..])
  }

  lemma {:induction false} SumOfLast(f: RegisterDef -> nat, s: seq<RegisterDef>)
    requires s != []
    ensures Sum(f, s) == Sum(f, s[..|s| - 1]) + f(s[|s| - 1])
  {
    if |s| > 1 {
      SumOfLast(f, s[1..]);
      assert s[1..][..|s| - 2] == s[..|s| - 1][1..];
    }
  }

  lemma {:induction false} SumOfInsert(f: RegisterDef -> nat, r: RegisterDef, s: seq<RegisterDef>)
    ensures Sum(f, Insert(r, s)) == f(r) + Sum(f, s)
  {
    if s == [] || r.startingAddress <= s[0].startingAddress {
      assert ([r] + s)[1..] == s;
    } else {
      SumOfInsert(f, r, s[1..]);
      assert Insert(r, s)[1..] == Insert(r, s[1..]);
    }
  }

  lemma {:induction false} SumOfSorted(f: RegisterDef -> nat, s: seq<RegisterDef>)
    ensures Sum(f, SortByAddress(s)) == Sum(f, s)
  {
    if s != [] {
      SumOfSorted(f, s[1..]);
      SumOfInsert(f, s[0], SortByAddress(s[1..]));
    }
  }

  lemma {:induction false} SumOfMembers(f: RegisterDef -> nat, regs: seq<RegisterDef>, g: string)
    ensures Sum(f, Members(regs, g)) <= Sum(f, regs)
  {
    if regs != [] {
      var init := regs[..|regs| - 1];
      SumOfMembers(f, init, g);
      SumOfLast(f, regs);
      if regs[|regs| - 1].readGroup == Some(g) {
        SumOfLast(f, Members(regs, g));
        assert Members(regs, g)[..|Members(regs, g)| - 1] == Members(init, g);
      }
    }
  }

  function UsesOf(n: string): RegisterDef -> nat {
    r => multiset(NamesOf(r))[n]
  }

  lemma {:induction false} NameUses(s: seq<RegisterDef>, n: string)
    ensures multiset(AllNames(s))[n] == Sum(UsesOf(n), s)
  {
    if s != [] {
      NameUses(s[..|s| - 1], n);
      SumOfLast(UsesOf(n), s);
    }
  }

  lemma GroupNamesAreDistinct(regs: seq<RegisterDef>, g: string)
    requires NoDuplicates(AllNames(regs))
    ensures NoDuplicates(AllNames(Group(regs, g)))
  {
    DuplicatesByCount(AllNames(regs));
    DuplicatesByCount(AllNames(Group(regs, g)));
    forall n ensures multiset(AllNames(Group(regs, g)))[n] <= 1 {
      NameUses(regs, n);
      NameUses(Group(regs, g), n);
      SumOfMembers(UsesOf(n), regs, g);
      SumOfSorted(UsesOf(n), Members(regs, g));
    }
  }

  lemma GroupFits(regs: seq<RegisterDef>, g: string)
    requires ConfigAccepted(regs)
    ensures AllFit(Group(regs, g))
  {
    forall r | r in Group(regs, g) ensures Fits(r) {
      GroupMembers(regs, g, r);
      assert RegisterAccepted(r);
    }
  }

  // ---- One span read instead of many reads ----

  /** The reply to one read of a whole group. */
  datatype Reply = WordReply(words: seq<Word>) | BitReply(bits: seq<bool>)

  function ReadSpan(m: Memory, t: RegisterType, start: nat, count: nat): Reply
    requires ValidMemory(m) && start + count <= ADDRESSES
  {
    if IsBitType(t) then BitReply(BitTable(m, t)[start..start + count]) else WordReply(WordTable(m, t)[start..start + count])
  }

  /** The part of the reply that belongs to `r` decodes to what reading `r` by itself returns. */
  lemma SliceOfSpan(floats: FloatCodec, m: Memory, r: RegisterDef, start: nat, count: nat)
    requires ValidMemory(m) && Fits(r) && start + count <= ADDRESSES
    requires start <= r.startingAddress && r.startingAddress + Span(r) <= start + count
    ensures var offset := r.startingAddress - start;
            var reply := ReadSpan(m, r.registerType, start, count);
            if IsBitType(r.registerType) then
              reply.BitReply? && offset < |reply.bits| && ReadRaw(floats, m, r) == Int(if reply.bits[offset] then 1 else 0)
            else
              var n := RegisterCount(r.dataType);
              reply.WordReply? && offset + n <= |reply.words|
              && ReadRaw(floats, m, r) == DecodeRegisters(floats, reply.words[offset..offset + n], r)
  {
    if !IsBitType(r.registerType) {
      var table, offset, n := WordTable(m, r.registerType), r.startingAddress - start, RegisterCount(r.dataType);
      SliceOfSlice(table, start, start + count, offset, offset + n);
    }
  }

  lemma SliceOfSlice<T>(s: seq<T>, a: nat, b: nat, c: nat, d: nat)
    requires a <= b <= |s| && c <= d <= b - a
    ensures s[a..b][c..d] == s[a + c..a + d]
  {
    var part := s[a..b];
    forall i | c <= i < d ensures part[i] == s[a + i] {}
    assert forall i :: 0 <= i < d - c ==> part[c..d][i] == s[a + c..a + d][i];
  }

  /** What one read of a whole group publishes: the channels of every member, each as a read of
      that member alone would give them, with nothing overwritten and nothing else. */
  lemma GroupReadIsUnion(prefix: string, floats: FloatCodec, m: Memory, regs: seq<RegisterDef>, g: string)
    requires ValidMemory(m) && ConfigAccepted(regs) && AllFit(Group(regs, g))
    ensures KeyedBy(Merged(prefix, floats, m, Group(regs, g)), prefix, AllNames(Group(regs, g)))
    ensures forall r :: r in regs && r.readGroup == Some(g) ==>
              Fits(r) && Keeps(Merged(prefix, floats, m, Group(regs, g)), Reading(prefix, floats, m, r))
  {
    var s := Group(regs, g);
    GroupNamesAreDistinct(regs, g);
    MergedKeepsEveryReading(prefix, floats, m, s);
    forall r | r in regs && r.readGroup == Some(g)
      ensures Fits(r) && Keeps(Merged(prefix, floats, m, s), Reading(prefix, floats, m, r))
    {
      GroupMembers(regs, g, r);
    }
  }

  // ---- Finding registers ----

  /** The last register of that name, as the name index keeps it. */
  function Find(regs: seq<RegisterDef>, alias: string): (r: Option<RegisterDef>)
    ensures r.Some? ==> r.value in regs && r.value.name == alias
  {
    if regs == [] then None
    else if regs[|regs| - 1].name == alias then Some(regs[|regs| - 1])
    else Find(regs[..|regs| - 1], alias)
  }

  lemma {:induction false} NameIsListed(regs: seq<RegisterDef>, r: RegisterDef)
    requires r in regs
    ensures r.name in AllNames(regs)
  {
    var last := regs[|regs| - 1];
    assert regs == regs[..|regs| - 1] + [last];
    if r != last {
      NameIsListed(regs[..|regs| - 1], r);
    } else {
      assert NamesOf(r)[0] == r.name;
    }
  }

  /** With distinct names, every register is found under its own name. */
  lemma {:induction false} FindsEveryRegister(regs: seq<RegisterDef>, r: RegisterDef)
    requires r in regs && NoDuplicates(AllNames(regs))
    ensures Find(regs, r.name) == Some(r)
  {
    var init, last := regs[..|regs| - 1], regs[|regs| - 1];
    assert regs == init + [last];
    NoDuplicatesAppend(AllNames(init), NamesOf(last));
    assert NamesOf(last)[0] == last.name;
    if r != last {
      NameIsListed(init, r);
      FindsEveryRegister(init, r);
    }
  }

  lemma {:induction false} OwnNamesAreDistinct(regs: seq<RegisterDef>, r: RegisterDef)
    requires r in regs && NoDuplicates(AllNames(regs))
    ensures NoDuplicates(NamesOf(r))
  {
    var init, last := regs[..|regs| - 1], regs[|regs| - 1];
    InitAndLast(regs);
    NoDuplicatesAppend(AllNames(init), NamesOf(last));
    if r != last {
      OwnNamesAreDistinct(init, r);
    }
  }

  // ---- Writes ----

  datatype WriteInput = Value(v: PyValue) | Label(text: string)

  function Resolve(r: RegisterDef, input: WriteInput): Result<PyValue, WriteError> {
    match input
    case Value(v) => Ok(v)
    case Label(text) =>
      if r.writeValueMap.None? then Err(NoValueMap)
      else if text !in r.writeValueMap.value then Err(UnknownLabel)
      else Ok(r.writeValueMap.value[text])
  }

  lemma EncodedLength(floats: FloatCodec, raw: PyValue, r: RegisterDef)
    requires EncodeValue(floats, raw, r).Ok?
    ensures |EncodeValue(floats, raw, r).value| == RegisterCount(r.dataType)
  {
    if IsInteger(r.dataType) {
      DecodeOfEncodeInt(if raw.Float? then Round(raw.x) else Truncate(Number(raw)), r.dataType, r.swaps);
    } else if !r.dataType.Bool? {
      DecodeOfEncodeBits(floats.pack(r.dataType, Number(raw)).value, r.dataType, r.swaps);
    }
  }

  function Splice<T>(s: seq<T>, at: nat, part: seq<T>): (r: seq<T>)
    requires at + |part| <= |s|
    ensures |r| == |s|
    ensures forall i :: 0 <= i < |s| ==> r[i] == if at <= i < at + |part| then part[i - at] else s[i]
  {
    s[..at] + part + s[at + |part|..]
  }

  /** The tables after a raw value is sent to a register. */
  function Store(floats: FloatCodec, m: Memory, r: RegisterDef, raw: PyValue): (res: Result<Memory, WriteError>)
    requires ValidMemory(m) && Fits(r)
    ensures res.Ok? ==> ValidMemory(res.value)
  {
    match r.registerType
    case Holding =>
      (match EncodeValue(floats, raw, r)
       case Err(e) => Err(e)
       case Ok(words) =>
         EncodedLength(floats, raw, r);
         Ok(m.(holding := Splice(m.holding, r.startingAddress, words))))
    case Coil => Ok(m.(coils := m.coils[r.startingAddress := Number(raw) != 0.0]))
    case _ => Err(ReadOnly)
  }

  datatype WriteOutcome = WriteOutcome(memory: Memory, result: Result<PyValue, WriteError>)

  function WriteRegister(floats: FloatCodec, m: Memory, r: RegisterDef, input: WriteInput): (o: WriteOutcome)
    requires ValidMemory(m) && Fits(r) && ValidScale(r)
    ensures ValidMemory(o.memory)
    ensures o.result.Err? ==> o.memory == m
  {
    match Resolve(r, input)
    case Err(e) => WriteOutcome(m, Err(e))
    case Ok(v) =>
      match Prepare(v, r)
      case Err(e) => WriteOutcome(m, Err(e))
      case Ok(raw) =>
        match Store(floats, m, r, raw)
        case Err(e) => WriteOutcome(m, Err(e))
        case Ok(m') => WriteOutcome(m', Ok(v))
  }

  function Write(floats: FloatCodec, m: Memory, regs: seq<RegisterDef>, alias: string, input: WriteInput): (o: WriteOutcome)
    requires ValidMemory(m) && ConfigAccepted(regs)
    ensures ValidMemory(o.memory)
    ensures o.result.Err? ==> o.memory == m
  {
    match Find(regs, alias)
    case None => WriteOutcome(m, Err(UnknownAlias))
    case Some(r) =>
      assert RegisterAccepted(r);
      WriteRegister(floats, m, r, input)
  }

  // ---- Writing and reading back ----

  /** The words a successful write to a holding register leaves there. */
  lemma StoredWords(floats: FloatCodec, m: Memory, r: RegisterDef, raw: PyValue)
    requires ValidMemory(m) && Fits(r) && r.registerType.Holding? && EncodeValue(floats, raw, r).Ok?
    ensures Store(floats, m, r, raw).Ok?
    ensures var n := RegisterCount(r.dataType);
            Store(floats, m, r, raw).value.holding[r.startingAddress..r.startingAddress + n] == EncodeValue(floats, raw, r).value
  {
    EncodedLength(floats, raw, r);
  }

  /** What the written register reads as, in physical units. */
  function ReadsAs(floats: FloatCodec, m: Memory, r: RegisterDef): PyValue
    requires ValidMemory(m) && Fits(r)
  {
    ApplyScaling(ReadRaw(floats, m, r), r)
  }

  /** The value a write has to come back as: exactly the written one where the register holds it
      exactly, within the rounding tolerance where it is scaled, and the unpacking of the packed
      bits for floating point. A scaled bool keeps its value only if it scales to zero or one. */
  predicate ComesBack(floats: FloatCodec, r: RegisterDef, v: PyValue, back: PyValue)
    requires ValidScale(r)
  {
    if r.registerType.Coil? then Number(back) == Number(v)
    else if r.dataType.Bool? then
      Number(back) == Number(v) <==> (r.scale.None? || ToRaw(r.scale.value, Number(v)) == 0.0 || ToRaw(r.scale.value, Number(v)) == 1.0)
    else if IsInteger(r.dataType) then
      if r.scale.None? then back.Int? && Number(back) == Number(v)
      else Abs(Number(back) - Number(v)) <= Abs(r.scale.value.gain) * TOLERANCE
    else
      var packed := floats.pack(r.dataType, Number(RawValue(v, r)));
      packed.Some? && back == ApplyScaling(Float(floats.unpack(r.dataType, packed.value)), r)
  }

  /** A successful write followed by a read of the same register, over unchanged tables. */
  lemma WriteThenRead(floats: FloatCodec, m: Memory, r: RegisterDef, input: WriteInput)
    requires ValidMemory(m) && Fits(r) && RegisterAccepted(r)
    requires WriteRegister(floats, m, r, input).result.Ok?
    ensures var o := WriteRegister(floats, m, r, input);
            ComesBack(floats, r, o.result.value, ReadsAs(floats, o.memory, r))
  {
    var v := Resolve(r, input).value;
    var raw := Prepare(v, r).value;
    if r.registerType.Holding? {
      StoredWords(floats, m, r, raw);
      if IsInteger(r.dataType) {
        if r.scale.None? {
          UnscaledRoundTrip(floats, v, r);
        } else {
          ScaledRoundTrip(floats, v, r);
        }
      } else if r.dataType.Bool? {
        if r.scale.Some? {
          ScaledBool(r.scale.value, Number(v));
        }
      } else {
        DecodeOfEncodeBits(floats.pack(r.dataType, Number(raw)).value, r.dataType, r.swaps);
      }
    }
  }

  lemma ScaledBool(s: LinearScale, v: real)
    requires s.gain != 0.0
    ensures ToPhysical(s, if ToRaw(s, v) != 0.0 then 1.0 else 0.0) == v <==> ToRaw(s, v) == 0.0 || ToRaw(s, v) == 1.0
  {
    DivideAndMultiply(v - s.offset, s.gain);
  }

  // ---- A write touches nothing else ----

  lemma StoreKeepsOthers(floats: FloatCodec, m: Memory, r: RegisterDef, raw: PyValue, q: RegisterDef)
    requires ValidMemory(m) && Fits(r) && Fits(q) && Store(floats, m, r, raw).Ok?
    requires r.registerType == q.registerType ==> !Overlaps(r, q)
    ensures ReadRaw(floats, Store(floats, m, r, raw).value, q) == ReadRaw(floats, m, q)
  {
    var m' := Store(floats, m, r, raw).value;
    if r.registerType.Holding? && q.registerType.Holding? {
      EncodedLength(floats, raw, r);
      var n := RegisterCount(q.dataType);
      assert m'.holding[q.startingAddress..q.startingAddress + n] == m.holding[q.startingAddress..q.startingAddress + n];
    }
  }

  lemma DistinctRegistersAreClear(regs: seq<RegisterDef>, a: RegisterDef, b: RegisterDef)
    requires NoOverlap(regs) && a in regs && b in regs && a != b && a.registerType == b.registerType
    ensures !Overlaps(a, b)
  {
    var i :| 0 <= i < |regs| && regs[i] == a;
    var j :| 0 <= j < |regs| && regs[j] == b;
    assert i < j || j < i;
  }

  /** Whatever a write does, every other register of the configuration reads as before. */
  lemma WriteKeepsOtherReadings(prefix: string, floats: FloatCodec, m: Memory, regs: seq<RegisterDef>, alias: string,
                                input: WriteInput, q: RegisterDef)
    requires ValidMemory(m) && ConfigAccepted(regs) && q in regs && q.name != alias && Fits(q)
    ensures var m' := Write(floats, m, regs, alias, input).memory;
            Reading(prefix, floats, m', q) == Reading(prefix, floats, m, q)
  {
    if Write(floats, m, regs, alias, input).result.Ok? {
      var r := Find(regs, alias).value;
      assert RegisterAccepted(r);
      if r.registerType == q.registerType {
        DistinctRegistersAreClear(regs, r, q);
      }
      var v := Resolve(r, input).value;
      StoreKeepsOthers(floats, m, r, Prepare(v, r).value, q);
    }
  }

  /** Every label of an accepted value map can be written, whatever the tables hold. */
  lemma LabelsAreWritable(floats: FloatCodec, m: Memory, r: RegisterDef, text: string)
    requires ValidMemory(m) && Fits(r) && RegisterAccepted(r)
    requires IsInteger(r.dataType) || r.dataType.Bool?
    requires r.writeValueMap.Some? && text in r.writeValueMap.value
    ensures WriteRegister(floats, m, r, Label(text)).result == Ok(r.writeValueMap.value[text])
  {
    var v := r.writeValueMap.value[text];
    assert EntryAccepted(v, r);
    EntryAcceptedIffWritable(floats, v, r);
    StoredWords(floats, m, r, Prepare(v, r).value);
  }
}
