/** The Modbus device object: polling plan, reads and writes by alias, and reads of a whole group. */
module ModbusDevice {
  import opened Wrappers
  import opened ModbusCodec
  import opened ModbusRegister
  import opened ModbusConfig
  import opened ModbusAccess

  // ---- The polling plan ----

  /** One call the background daemon makes in every round. */
  datatype PollCall = PollGroup(group: string) | PollRegister(alias: string)

  predicate Covers(call: PollCall, r: RegisterDef) {
    match call
    case PollGroup(g) => r.readGroup == Some(g)
    case PollRegister(alias) => r.name == alias
  }

  /** How many calls of the plan read `r`. */
  function TimesRead(plan: seq<PollCall>, r: RegisterDef): nat {
    if plan == [] then 0
    else TimesRead(plan[..|plan| - 1], r) + (if Covers(plan[|plan| - 1], r) then 1 else 0)
  }

  function GroupCalls(names: seq<string>): seq<PollCall> {
    if names == [] then [] else GroupCalls(names[..|names| - 1]) + [PollGroup(names[|names| - 1])]
  }

  function SingleCalls(regs: seq<RegisterDef>): seq<PollCall> {
    if regs == [] then []
    else
      var init, last := SingleCalls(regs[..|regs| - 1]), regs[|regs| - 1];
      if last.poll && last.readGroup.None? then init + [PollRegister(last.name)] else init
  }

  /** Groups first, then the polled registers that belong to none. */
  function Plan(regs: seq<RegisterDef>): seq<PollCall> {
    GroupCalls(GroupNames(regs)) + SingleCalls(regs)
  }

  lemma {:induction false} TimesReadAppend(a: seq<PollCall>, b: seq<PollCall>, r: RegisterDef)
    ensures TimesRead(a + b, r) == TimesRead(a, r) + TimesRead(b, r)
  {
    if b == [] {
      AppendNothing(a);
    } else {
      TimesReadAppend(a, b[..|b| - 1], r);
      assert (a + b)[..|a + b| - 1] == a + b[..|b| - 1];
    }
  }

  lemma {:induction false} TimesReadInGroups(names: seq<string>, r: RegisterDef)
    requires NoDuplicates(names)
    ensures TimesRead(GroupCalls(names), r) == if r.readGroup.Some? && r.readGroup.value in names then 1 else 0
  {
    if names != [] {
      var init, last := names[..|names| - 1], names[|names| - 1];
      InitAndLast(names);
      WithoutTheLast(init, last);
      TimesReadInGroups(init, r);
      assert GroupCalls(names)[..|GroupCalls(names)| - 1] == GroupCalls(init);
    }
  }

  lemma {:induction false} TimesReadAlone(regs: seq<RegisterDef>, r: RegisterDef)
    requires NoDuplicates(AllNames(regs))
    ensures r in regs ==> TimesRead(SingleCalls(regs), r) == if r.poll && r.readGroup.None? then 1 else 0
    ensures r.name !in AllNames(regs) ==> TimesRead(SingleCalls(regs), r) == 0
  {
    if regs != [] {
      var init, last := regs[..|regs| - 1], regs[|regs| - 1];
      InitAndLast(regs);
      NoDuplicatesAppend(AllNames(init), NamesOf(last));
      assert last.name == NamesOf(last)[0];
      TimesReadAlone(init, r);
      if r in init {
        NameIsListed(init, r);
      }
      if last.poll && last.readGroup.None? {
        var calls := SingleCalls(regs);
        assert calls[..|calls| - 1] == SingleCalls(init);
      }
    }
  }

  /** Every round reads each polled register exactly once, alone or in its group, and no other. */
  lemma EachPolledRegisterOnce(regs: seq<RegisterDef>, r: RegisterDef)
    requires ConfigAccepted(regs) && r in regs
    ensures TimesRead(Plan(regs), r) == if r.poll then 1 else 0
  {
    TimesReadAppend(GroupCalls(GroupNames(regs)), SingleCalls(regs), r);
    TimesReadInGroups(GroupNames(regs), r);
    TimesReadAlone(regs, r);
    if r.readGroup.Some? {
      NamedIff(regs, r.readGroup.value);
      var i :| 0 <= i < |regs| && regs[i] == r;
      assert regs[i].poll;
    }
  }

  function NameSet(s: seq<RegisterDef>): set<string> {
    set x | x in s :: x.name
  }

  /** Names of the registers that the listed groups read. */
  function GroupedNames(regs: seq<RegisterDef>, order: seq<string>): set<string> {
    if order == [] then {} else GroupedNames(regs, order[..|order| - 1]) + NameSet(Group(regs, order[|order| - 1]))
  }

  lemma {:induction false} GroupedNameIff(regs: seq<RegisterDef>, order: seq<string>, n: string)
    ensures n in GroupedNames(regs, order) <==>
            exists x :: x in regs && x.readGroup.Some? && x.readGroup.value in order && x.name == n
  {
    if order != [] {
      var init, last := order[..|order| - 1], order[|order| - 1];
      GroupedNameIff(regs, init, n);
      InitAndLast(order);
      forall x ensures x in Group(regs, last) <==> x in regs && x.readGroup == Some(last) {
        GroupMembers(regs, last, x);
      }
    }
  }

  /** With distinct names, the name test of the daemon finds exactly the grouped registers. */
  lemma GroupedIff(regs: seq<RegisterDef>, r: RegisterDef)
    requires ConfigAccepted(regs) && r in regs
    ensures r.name in GroupedNames(regs, GroupNames(regs)) <==> r.readGroup.Some?
  {
    GroupedNameIff(regs, GroupNames(regs), r.name);
    if x :| x in regs && x.readGroup.Some? && x.name == r.name {
      FindsEveryRegister(regs, x);
      FindsEveryRegister(regs, r);
    }
    if r.readGroup.Some? {
      NamedIff(regs, r.readGroup.value);
    }
  }

  // ---- The device ----

  datatype ReadError = NoSuchRegister | NoSuchGroup

  function ReadAlias(prefix: string, floats: FloatCodec, m: Memory, regs: seq<RegisterDef>, alias: string): Result<Channels, ReadError>
    requires ValidMemory(m) && AllFit(regs)
  {
    match Find(regs, alias)
    case None => Err(NoSuchRegister)
    case Some(r) => Ok(Reading(prefix, floats, m, r))
  }

  lemma AcceptedFit(regs: seq<RegisterDef>)
    requires ConfigAccepted(regs)
    ensures AllFit(regs)
  {
    forall r | r in regs ensures Fits(r) {
      assert RegisterAccepted(r);
    }
  }

  /** Writing by alias and then reading by the same alias: the channel of that name shows the value
      that was written, as exactly as the register can hold it. */
  lemma WriteAliasThenReadAlias(prefix: string, floats: FloatCodec, m: Memory, regs: seq<RegisterDef>, alias: string, input: WriteInput)
    requires ValidMemory(m) && ConfigAccepted(regs) && AllFit(regs)
    requires Write(floats, m, regs, alias, input).result.Ok?
    ensures var o := Write(floats, m, regs, alias, input);
            var read := ReadAlias(prefix, floats, o.memory, regs, alias);
            && Find(regs, alias).Some? && ValidScale(Find(regs, alias).value)
            && read.Ok? && Key(prefix, alias) in read.value
            && ComesBack(floats, Find(regs, alias).value, o.result.value, read.value[Key(prefix, alias)])
  {
    var r := Find(regs, alias).value;
    assert RegisterAccepted(r);
    OwnNamesAreDistinct(regs, r);
    WriteThenRead(floats, m, r, input);
    ReadingChannels(prefix, floats, Write(floats, m, regs, alias, input).memory, r);
  }

  class ModbusDevice {
    const prefix: string
    const regs: seq<RegisterDef>
    const groups: map<string, seq<RegisterDef>>
    const floats: FloatCodec
    var plan: seq<PollCall>
    var memory: Memory

    ghost predicate Valid()
      reads this
    {
      && ConfigAccepted(regs)
      && ValidMemory(memory)
      && plan == Plan(regs)
      && (forall g :: g in groups <==> g in GroupNames(regs))
      && (forall g :: g in groups ==> groups[g] == Group(regs, g))
    }

    constructor (prefix: string, regs: seq<RegisterDef>, floats: FloatCodec, memory: Memory)
      requires ConfigAccepted(regs) && ValidMemory(memory)
      ensures Valid()
      ensures this.prefix == prefix && this.regs == regs && this.floats == floats && this.memory == memory
    {
      var order, index := BuildGroupIndex(regs);
      this.prefix := prefix;
      this.regs := regs;
      this.floats := floats;
      this.memory := memory;
      this.groups := index;
      this.plan := [];
      new;
      DefineBackgroundDaemon(order);
    }

    method DefineBackgroundDaemon(order: seq<string>)
      requires ConfigAccepted(regs) && plan == [] && order == GroupNames(regs)
      requires forall g :: g in groups <==> g in order
      requires forall g :: g in groups ==> groups[g] == Group(regs, g)
      modifies this`plan
      ensures plan == Plan(regs)
    {
      var grouped := AddGroupCalls(order);
      AddSingleCalls(grouped);
    }

    method AddGroupCalls(order: seq<string>) returns (grouped: set<string>)
      requires plan == []
      requires forall g :: g in order ==> g in groups && groups[g] == Group(regs, g)
      modifies this`plan
      ensures plan == GroupCalls(order) && grouped == GroupedNames(regs, order)
    {
      grouped := {};
      for i := 0 to |order|
        invariant plan == GroupCalls(order[..i])
        invariant grouped == GroupedNames(regs, order[..i])
      {
        var g := order[i];
        assert order[..i + 1][..i] == order[..i];
        plan := plan + [PollGroup(g)];
        grouped := grouped + NameSet(groups[g]);
      }
      assert order[..|order|] == order;
    }

    method AddSingleCalls(grouped: set<string>)
      requires ConfigAccepted(regs) && grouped == GroupedNames(regs, GroupNames(regs))
      modifies this`plan
      ensures plan == old(plan) + SingleCalls(regs)
    {
      ghost var before := plan;
      for i := 0 to |regs|
        invariant plan == before + SingleCalls(regs[..i])
      {
        assert regs[..i + 1][..i] == regs[..i];
        GroupedIff(regs, regs[i]);
        CallsAssociate(before, SingleCalls(regs[..i]), [PollRegister(regs[i].name)]);
        if regs[i].poll && regs[i].name !in grouped {
          plan := plan + [PollRegister(regs[i].name)];
        }
      }
      assert regs[..|regs|] == regs;
    }

    method Read(alias: string) returns (r: Result<Channels, ReadError>)
      requires Valid()
      ensures AllFit(regs) && r == ReadAlias(prefix, floats, memory, regs, alias)
    {
      AcceptedFit(regs);
      var found := Find(regs, alias);
      if found.None? {
        return Err(NoSuchRegister);
      }
      var raw := ReadRaw(floats, memory, found.value);
      var channels := BuildRegisterChannels(prefix, found.value, raw, ApplyScaling(raw, found.value));
      r := Ok(channels);
    }

    /** One transaction for the whole group, cut up afterwards: it publishes exactly what reading
        the members one by one would. */
    method ReadGroup(group: string) returns (r: Result<Channels, ReadError>)
      requires Valid()
      ensures AllFit(Group(regs, group))
      ensures group !in GroupNames(regs) ==> r == Err(NoSuchGroup)
      ensures group in GroupNames(regs) ==> r == Ok(Merged(prefix, floats, memory, Group(regs, group)))
    {
      GroupFits(regs, group);
      if group !in groups {
        return Err(NoSuchGroup);
      }
      var members := groups[group];
      GroupLayout(regs, group);
      GroupIsUnscaled(regs, group);
      var channels := ReadMembers(members);
      r := Ok(channels);
    }

    method ReadMembers(members: seq<RegisterDef>) returns (channels: Channels)
      requires ValidMemory(memory) && members != [] && AllFit(members)
      requires OneType(members, members[0].registerType) && SpanCovers(members) && BitsUnscaled(members)
      requires 0 < GroupCount(members) <= ADDRESSES - members[0].startingAddress
      ensures channels == Merged(prefix, floats, memory, members)
    {
      var first := members[0];
      var start, count := first.startingAddress, GroupCount(members);
      var reply := ReadSpan(memory, first.registerType, start, count);
      channels := map[];
      for i := 0 to |members|
        invariant channels == Merged(prefix, floats, memory, members[..i])
      {
        assert members[..i + 1][..i] == members[..i];
        var more := CutMember(prefix, floats, reply, start, members[i], memory, count);
        channels := channels + more;
      }
      assert members[..|members|] == members;
    }

    method Write(alias: string, input: WriteInput) returns (r: Result<PyValue, WriteError>)
      requires Valid()
      modifies this`memory
      ensures Valid()
      ensures memory == ModbusAccess.Write(floats, old(memory), regs, alias, input).memory
      ensures r == ModbusAccess.Write(floats, old(memory), regs, alias, input).result
    {
      var found := Find(regs, alias);
      if found.None? {
        return Err(UnknownAlias);
      }
      var reg := found.value;
      assert RegisterAccepted(reg);
      var value := Resolve(reg, input);
      if value.Err? {
        return value;
      }
      var invalid := ValidateWriteValue(value.value, reg);
      if invalid.Some? {
        return Err(invalid.value);
      }
      var raw := ValidateRawValue(RawValue(value.value, reg), reg);
      if raw.Err? {
        return Err(raw.error);
      }
      var stored := Store(floats, memory, reg, raw.value);
      if stored.Err? {
        return Err(stored.error);
      }
      memory := stored.value;
      r := value;
    }
  }

  lemma CallsAssociate(a: seq<PollCall>, b: seq<PollCall>, c: seq<PollCall>)
    ensures (a + b) + c == a + (b + c)
  {}

  /** Single-bit registers carry no scale, so their raw value is what a read publishes. */
  predicate BitsUnscaled(s: seq<RegisterDef>) {
    forall i :: 0 <= i < |s| && IsBitType(s[i].registerType) ==> s[i].scale.None?
  }

  lemma GroupIsUnscaled(regs: seq<RegisterDef>, g: string)
    requires ConfigAccepted(regs)
    ensures BitsUnscaled(Group(regs, g))
  {
    var s := Group(regs, g);
    forall i | 0 <= i < |s| && IsBitType(s[i].registerType) ensures s[i].scale.None? {
      GroupMembers(regs, g, s[i]);
      assert RegisterAccepted(s[i]);
    }
  }

  /** Cuts one member out of the reply to a group read. */
  method CutMember(prefix: string, floats: FloatCodec, reply: Reply, start: nat, reg: RegisterDef, ghost m: Memory, ghost count: nat)
    returns (channels: Channels)
    requires ValidMemory(m) && Fits(reg) && start + count <= ADDRESSES
    requires start <= reg.startingAddress && reg.startingAddress + Span(reg) <= start + count
    requires reply == ReadSpan(m, reg.registerType, start, count)
    requires IsBitType(reg.registerType) ==> reg.scale.None?
    ensures channels == Reading(prefix, floats, m, reg)
  {
    SliceOfSpan(floats, m, reg, start, count);
    var offset := reg.startingAddress - start;
    var raw: PyValue;
    var scaled: PyValue;
    if IsBitType(reg.registerType) {
      raw := Int(if reply.bits[offset] then 1 else 0);
      scaled := raw;
    } else {
      raw := DecodeRegisters(floats, reply.words[offset..offset + RegisterCount(reg.dataType)], reg);
      scaled := ApplyScaling(raw, reg);
    }
    channels := BuildRegisterChannels(prefix, reg, raw, scaled);
  }
}
