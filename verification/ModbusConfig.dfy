/** A Modbus configuration: the checks across registers, and the index of read groups. */
module ModbusConfig {
  import opened Wrappers
  import opened ModbusCodec
  import opened ModbusRegister

  const MAX_REGISTERS_PER_READ := 125
  const MAX_COILS_PER_READ := 2000

  // ---- Names ----

  function BitNames(bits: seq<BitDef>): seq<string> {
    if bits == [] then [] else BitNames(bits[..|bits| - 1]) + [bits[|bits| - 1].name]
  }

  /** The channel names a register publishes under. */
  function NamesOf(r: RegisterDef): seq<string> {
    [r.name] + BitNames(BitsOf(r))
  }

  function AllNames(regs: seq<RegisterDef>): seq<string> {
    if regs == [] then [] else AllNames(regs[..|regs| - 1]) + NamesOf(regs[|regs| - 1])
  }

  function RegisterNames(regs: seq<RegisterDef>): seq<string> {
    if regs == [] then [] else RegisterNames(regs[..|regs| - 1]) + [regs[|regs| - 1].name]
  }

  function AllBitNames(regs: seq<RegisterDef>): seq<string> {
    if regs == [] then [] else AllBitNames(regs[..|regs| - 1]) + BitNames(BitsOf(regs[|regs| - 1]))
  }

  predicate NoDuplicates(names: seq<string>) {
    forall i, j :: 0 <= i < j < |names| ==> names[i] != names[j]
  }

  lemma {:induction false} DuplicatesByCount(names: seq<string>)
    ensures NoDuplicates(names) <==> forall n :: multiset(names)[n] <= 1
  {
    if names != [] {
      var init, last := names[..|names| - 1], names[|names| - 1];
      DuplicatesByCount(init);
      assert names == init + [last];
      assert last in init <==> multiset(init)[last] >= 1;
      if forall n :: multiset(names)[n] <= 1 {
        assert multiset(names)[last] == multiset(init)[last] + 1;
        assert forall n :: multiset(init)[n] <= multiset(names)[n];
      }
    }
  }

  lemma {:induction false} NamesRegrouped(regs: seq<RegisterDef>)
    ensures multiset(RegisterNames(regs) + AllBitNames(regs)) == multiset(AllNames(regs))
  {
    if regs != [] {
      NamesRegrouped(regs[..|regs| - 1]);
    }
  }

  lemma OneMoreName(names: seq<string>, i: nat)
    requires i < |names|
    ensures NoDuplicates(names[..i + 1]) <==> NoDuplicates(names[..i]) && names[i] !in names[..i]
  {
    assert names[..i + 1] == names[..i] + [names[i]];
  }

  method HasNoDuplicates(names: seq<string>) returns (ok: bool)
    ensures ok <==> NoDuplicates(names)
  {
    var seen: set<string> := {};
    ok := true;
    for i := 0 to |names|
      invariant forall n :: n in seen <==> n in names[..i]
      invariant ok <==> NoDuplicates(names[..i])
    {
      OneMoreName(names, i);
      if names[i] in seen {
        ok := false;
      }
      seen := seen + {names[i]};
    }
    assert names[..|names|] == names;
  }

  method ValidateNames(regs: seq<RegisterDef>) returns (ok: bool)
    ensures ok <==> NoDuplicates(AllNames(regs))
  {
    var names: seq<string> := [];
    for i := 0 to |regs|
      invariant names == RegisterNames(regs[..i])
    {
      assert regs[..i + 1][..i] == regs[..i];
      names := names + [regs[i].name];
    }
    assert regs[..|regs|] == regs;
    for i := 0 to |regs|
      invariant names == RegisterNames(regs) + AllBitNames(regs[..i])
    {
      assert regs[..i + 1][..i] == regs[..i];
      AppendIsAssociative(RegisterNames(regs), AllBitNames(regs[..i]), BitNames(BitsOf(regs[i])));
      names := names + BitNames(BitsOf(regs[i]));
    }
    NamesRegrouped(regs);
    DuplicatesByCount(names);
    DuplicatesByCount(AllNames(regs));
    ok := HasNoDuplicates(names);
  }

  lemma AppendIsAssociative(a: seq<string>, b: seq<string>, c: seq<string>)
    ensures (a + b) + c == a + (b + c)
  {}

  // ---- Overlap ----

  predicate Overlaps(a: RegisterDef, b: RegisterDef) {
    a.startingAddress < b.startingAddress + Span(b) && b.startingAddress < a.startingAddress + Span(a)
  }

  /** Registers of one type, in the order of the configuration. */
  function OfType(regs: seq<RegisterDef>, t: RegisterType): seq<RegisterDef> {
    if regs == [] then []
    else if regs[0].registerType == t then [regs[0]] + OfType(regs[1..], t)
    else OfType(regs[1..], t)
  }

  predicate ClearOf(r: RegisterDef, s: seq<RegisterDef>) {
    forall x :: x in s ==> !Overlaps(r, x)
  }

  /** No two registers of the sequence overlap. */
  predicate Apart(s: seq<RegisterDef>) {
    s == [] || (ClearOf(s[0], s[1..]) && Apart(s[1..]))
  }

  predicate NoOverlap(regs: seq<RegisterDef>) {
    forall i, j :: 0 <= i < j < |regs| && regs[i].registerType == regs[j].registerType ==> !Overlaps(regs[i], regs[j])
  }

  // ---- Sorting by address ----

  function Insert(r: RegisterDef, s: seq<RegisterDef>): seq<RegisterDef> {
    if s == [] || r.startingAddress <= s[0].startingAddress then [r] + s
    else [s[0]] + Insert(r, s[1..])
  }

  /** Stable sort by starting address. */
  function SortByAddress(s: seq<RegisterDef>): seq<RegisterDef> {
    if s == [] then [] else Insert(s[0], SortByAddress(s[1..]))
  }

  predicate Sorted(s: seq<RegisterDef>) {
    forall i, j :: 0 <= i < j < |s| ==> s[i].startingAddress <= s[j].startingAddress
  }

  lemma SameMembers(a: seq<RegisterDef>, b: seq<RegisterDef>)
    requires multiset(a) == multiset(b)
    ensures forall x :: x in a <==> x in b
  {
    forall x ensures x in a <==> x in b {
      assert multiset(a)[x] == multiset(b)[x];
    }
  }

  lemma {:induction false} InsertPermutes(r: RegisterDef, s: seq<RegisterDef>)
    ensures multiset(Insert(r, s)) == multiset([r] + s)
  {
    if s != [] && r.startingAddress > s[0].startingAddress {
      InsertPermutes(r, s[1..]);
      assert s == [s[0]] + s[1..];
    }
  }

  lemma {:induction false} InsertSorts(r: RegisterDef, s: seq<RegisterDef>)
    requires Sorted(s)
    ensures Sorted(Insert(r, s))
  {
    if s != [] && r.startingAddress > s[0].startingAddress {
      var rest := s[1..];
      InsertSorts(r, rest);
      InsertPermutes(r, rest);
      SameMembers(Insert(r, rest), [r] + rest);
      forall j | 0 <= j < |Insert(r, rest)| ensures s[0].startingAddress <= Insert(r, rest)[j].startingAddress {
        var x := Insert(r, rest)[j];
        assert x in [r] + rest;
        if x in rest {
          var i :| 0 <= i < |rest| && rest[i] == x;
          assert s[i + 1] == x;
        }
      }
    }
  }

  lemma {:induction false} InsertKeepsApart(r: RegisterDef, s: seq<RegisterDef>)
    ensures Apart(Insert(r, s)) <==> ClearOf(r, s) && Apart(s)
  {
    if s == [] || r.startingAddress <= s[0].startingAddress {
      assert ([r] + s)[1..] == s;
    } else {
      var rest := s[1..];
      InsertKeepsApart(r, rest);
      InsertPermutes(r, rest);
      SameMembers(Insert(r, rest), [r] + rest);
      ClearOfInserted(s[0], r, rest, Insert(r, rest));
      assert s == [s[0]] + rest;
      assert ClearOf(r, s) <==> !Overlaps(r, s[0]) && ClearOf(r, rest);
      assert Insert(r, s)[1..] == Insert(r, rest);
    }
  }

  lemma ClearOfInserted(first: RegisterDef, r: RegisterDef, rest: seq<RegisterDef>, inserted: seq<RegisterDef>)
    requires forall x :: x in inserted <==> x in [r] + rest
    ensures ClearOf(first, inserted) <==> !Overlaps(first, r) && ClearOf(first, rest)
  {
    assert r in [r] + rest;
    assert forall x :: x in rest ==> x in [r] + rest;
  }

  lemma {:induction false} SortFacts(s: seq<RegisterDef>)
    ensures multiset(SortByAddress(s)) == multiset(s)
    ensures Sorted(SortByAddress(s))
    ensures Apart(SortByAddress(s)) <==> Apart(s)
  {
    if s != [] {
      var rest := s[1..];
      SortFacts(rest);
      InsertPermutes(s[0], SortByAddress(rest));
      InsertSorts(s[0], SortByAddress(rest));
      InsertKeepsApart(s[0], SortByAddress(rest));
      SameMembers(SortByAddress(rest), rest);
      assert s == [s[0]] + rest;
    }
  }

  lemma {:induction false} OfTypeMembers(regs: seq<RegisterDef>, t: RegisterType, x: RegisterDef)
    ensures x in OfType(regs, t) <==> x in regs && x.registerType == t
  {
    if regs != [] {
      OfTypeMembers(regs[1..], t, x);
    }
  }

  lemma NoOverlapOfRest(regs: seq<RegisterDef>)
    requires regs != []
    ensures NoOverlap(regs) <==>
            NoOverlap(regs[1..]) && forall x :: x in regs[1..] && x.registerType == regs[0].registerType ==> !Overlaps(regs[0], x)
  {
    var rest := regs[1..];
    assert forall i :: 0 <= i < |rest| ==> rest[i] == regs[i + 1];
    if NoOverlap(regs) {
      forall x | x in rest && x.registerType == regs[0].registerType ensures !Overlaps(regs[0], x) {
        var i :| 0 <= i < |rest| && rest[i] == x;
        assert regs[i + 1] == x;
      }
    }
    if NoOverlap(rest) && forall x :: x in rest && x.registerType == regs[0].registerType ==> !Overlaps(regs[0], x) {
      forall i, j | 0 <= i < j < |regs| && regs[i].registerType == regs[j].registerType ensures !Overlaps(regs[i], regs[j]) {
        assert regs[j] == rest[j - 1];
        if i > 0 {
          assert regs[i] == rest[i - 1];
        } else {
          assert regs[j] in rest;
        }
      }
    }
  }

  ghost predicate ApartByType(regs: seq<RegisterDef>) {
    forall t: RegisterType :: Apart(OfType(regs, t))
  }

  lemma ApartOfRest(regs: seq<RegisterDef>)
    requires regs != []
    ensures ApartByType(regs) <==>
            ApartByType(regs[1..]) && ClearOf(regs[0], OfType(regs[1..], regs[0].registerType))
  {
    var first, rest := regs[0], regs[1..];
    forall t: RegisterType
      ensures Apart(OfType(regs, t)) <==> Apart(OfType(rest, t)) && (t == first.registerType ==> ClearOf(first, OfType(rest, t)))
    {
      if t == first.registerType {
        assert OfType(regs, t)[1..] == OfType(rest, t);
      }
    }
    if ApartByType(regs) {
      assert Apart(OfType(regs, first.registerType));
      assert forall t: RegisterType :: Apart(OfType(regs, t)) ==> Apart(OfType(rest, t));
    }
  }

  /** Checking each type by itself is checking all pairs of one type. */
  lemma {:induction false} NoOverlapByType(regs: seq<RegisterDef>)
    ensures NoOverlap(regs) <==> ApartByType(regs)
  {
    if regs != [] {
      var first, rest := regs[0], regs[1..];
      NoOverlapByType(rest);
      NoOverlapOfRest(regs);
      ApartOfRest(regs);
      forall x ensures x in OfType(rest, first.registerType) <==> x in rest && x.registerType == first.registerType {
        OfTypeMembers(rest, first.registerType, x);
      }
    }
  }

  method IsClear(r: RegisterDef, others: seq<RegisterDef>) returns (clear: bool)
    ensures clear <==> ClearOf(r, others)
  {
    for j := 0 to |others|
      invariant ClearOf(r, others[..j])
    {
      assert others[..j + 1] == others[..j] + [others[j]];
      if Overlaps(r, others[j]) {
        return false;
      }
    }
    assert others[..|others|] == others;
    clear := true;
  }

  method ValidatePairs(regs: seq<RegisterDef>) returns (ok: bool)
    ensures ok <==> Apart(regs)
  {
    ok := true;
    var i := |regs|;
    while i > 0
      invariant 0 <= i <= |regs|
      invariant ok <==> Apart(regs[i..])
    {
      i := i - 1;
      assert regs[i..][0] == regs[i] && regs[i..][1..] == regs[i + 1..];
      var clear := IsClear(regs[i], regs[i + 1..]);
      ok := ok && clear;
    }
    assert regs[0..] == regs;
  }

  method ValidateType(regs: seq<RegisterDef>, t: RegisterType) returns (ok: bool)
    ensures ok <==> Apart(OfType(regs, t))
  {
    SortFacts(OfType(regs, t));
    ok := ValidatePairs(SortByAddress(OfType(regs, t)));
  }

  method ValidateNoOverlap(regs: seq<RegisterDef>) returns (ok: bool)
    ensures ok <==> NoOverlap(regs)
  {
    NoOverlapByType(regs);
    var holding := ValidateType(regs, Holding);
    var input := ValidateType(regs, Input);
    var coil := ValidateType(regs, Coil);
    var discrete := ValidateType(regs, Discrete);
    ok := holding && input && coil && discrete;
    if ok {
      forall t: RegisterType ensures Apart(OfType(regs, t)) {
        match t
        case Holding =>
        case Input =>
        case Coil =>
        case Discrete =>
      }
    }
  }

  // ---- Read groups ----

  /** Every register of a group is polled, and a group holds registers of one type. */
  predicate GroupsAccepted(regs: seq<RegisterDef>) {
    && (forall i :: 0 <= i < |regs| && regs[i].readGroup.Some? ==> regs[i].poll)
    && (forall i, j :: 0 <= i < j < |regs| && regs[i].readGroup.Some? && regs[i].readGroup == regs[j].readGroup ==>
          regs[i].registerType == regs[j].registerType)
  }

  method ValidateGroups(regs: seq<RegisterDef>) returns (ok: bool)
    ensures ok <==> GroupsAccepted(regs)
  {
    var groups: map<string, RegisterType> := map[];
    for i := 0 to |regs|
      invariant GroupsAccepted(regs[..i])
      invariant forall g :: g in groups ==> exists k :: 0 <= k < i && regs[k].readGroup == Some(g)
      invariant forall k :: 0 <= k < i && regs[k].readGroup.Some? ==>
                  regs[k].readGroup.value in groups && groups[regs[k].readGroup.value] == regs[k].registerType
    {
      var reg := regs[i];
      assert forall k :: 0 <= k < i ==> regs[..i][k] == regs[k];
      assert forall k :: 0 <= k <= i ==> regs[..i + 1][k] == regs[k];
      if reg.readGroup.None? {
        continue;
      }
      var g := reg.readGroup.value;
      if !reg.poll {
        return false;
      }
      if g in groups {
        if groups[g] != reg.registerType {
          return false;
        }
      } else {
        groups := groups[g := reg.registerType];
      }
    }
    assert regs[..|regs|] == regs;
    ok := true;
  }

  /** The registers of a group, in the order of the configuration. */
  function Members(regs: seq<RegisterDef>, g: string): seq<RegisterDef> {
    if regs == [] then []
    else
      var init, last := regs[..|regs| - 1], regs[|regs| - 1];
      if last.readGroup == Some(g) then Members(init, g) + [last] else Members(init, g)
  }

  /** The groups, in the order of their first register. */
  function GroupNames(regs: seq<RegisterDef>): (names: seq<string>)
    ensures NoDuplicates(names)
  {
    if regs == [] then []
    else
      var init, last := GroupNames(regs[..|regs| - 1]), regs[|regs| - 1].readGroup;
      if last.Some? && last.value !in init then init + [last.value] else init
  }

  lemma {:induction false} NamedIff(regs: seq<RegisterDef>, n: string)
    ensures n in GroupNames(regs) <==> exists r :: r in regs && r.readGroup == Some(n)
  {
    if regs != [] {
      NamedIff(regs[..|regs| - 1], n);
      assert regs == regs[..|regs| - 1] + [regs[|regs| - 1]];
    }
  }

  /** What a read of the group works on: its registers by address. */
  function Group(regs: seq<RegisterDef>, g: string): seq<RegisterDef> {
    SortByAddress(Members(regs, g))
  }

  lemma {:induction false} MembersOf(regs: seq<RegisterDef>, g: string, x: RegisterDef)
    ensures x in Members(regs, g) <==> x in regs && x.readGroup == Some(g)
  {
    if regs != [] {
      MembersOf(regs[..|regs| - 1], g, x);
      assert regs == regs[..|regs| - 1] + [regs[|regs| - 1]];
    }
  }

  lemma GroupMembers(regs: seq<RegisterDef>, g: string, x: RegisterDef)
    ensures x in Group(regs, g) <==> x in regs && x.readGroup == Some(g)
  {
    SortFacts(Members(regs, g));
    SameMembers(Group(regs, g), Members(regs, g));
    MembersOf(regs, g, x);
  }

  lemma NamedGroupIsNotEmpty(regs: seq<RegisterDef>, g: string)
    requires g in GroupNames(regs)
    ensures Members(regs, g) != [] && Group(regs, g) != []
  {
    NamedIff(regs, g);
    var r :| r in regs && r.readGroup == Some(g);
    MembersOf(regs, g, r);
    SortFacts(Members(regs, g));
    SameMembers(Group(regs, g), Members(regs, g));
  }

  lemma MemberNamesItsGroup(regs: seq<RegisterDef>, g: string)
    requires Members(regs, g) != []
    ensures g in GroupNames(regs)
  {
    var x := Members(regs, g)[0];
    MembersOf(regs, g, x);
    NamedIff(regs, g);
  }

  method CollectGroups(regs: seq<RegisterDef>) returns (order: seq<string>, index: map<string, seq<RegisterDef>>)
    ensures order == GroupNames(regs)
    ensures forall g :: g in index <==> g in order
    ensures forall g :: g in index ==> index[g] == Members(regs, g)
  {
    order, index := [], map[];
    for i := 0 to |regs|
      invariant order == GroupNames(regs[..i])
      invariant forall g :: g in index <==> g in order
      invariant forall g :: g in index ==> index[g] == Members(regs[..i], g)
    {
      assert regs[..i + 1][..i] == regs[..i];
      if regs[i].readGroup.Some? {
        var g := regs[i].readGroup.value;
        if g !in index {
          assert Members(regs[..i], g) == [] by {
            if Members(regs[..i], g) != [] {
              MemberNamesItsGroup(regs[..i], g);
            }
          }
          order := order + [g];
          index := index[g := []];
        }
        index := index[g := index[g] + [regs[i]]];
      }
    }
    assert regs[..|regs|] == regs;
  }

  /** Builds the index: group names in order, and each group's registers by address. */
  method BuildGroupIndex(regs: seq<RegisterDef>) returns (order: seq<string>, index: map<string, seq<RegisterDef>>)
    ensures order == GroupNames(regs)
    ensures forall g :: g in index <==> g in order
    ensures forall g :: g in index ==> index[g] == Group(regs, g)
  {
    order, index := CollectGroups(regs);
    for i := 0 to |order|
      invariant forall g :: g in index <==> g in order
      invariant forall k :: 0 <= k < i ==> index[order[k]] == Group(regs, order[k])
      invariant forall k :: i <= k < |order| ==> index[order[k]] == Members(regs, order[k])
    {
      var g := order[i];
      assert forall k :: 0 <= k < |order| && k != i ==> order[k] != g;
      assert Group(regs, g) == SortByAddress(index[g]);
      index := index[g := SortByAddress(index[g])];
    }
  }

  /** Registers or bits that one read of a sorted group asks for. */
  function GroupCount(s: seq<RegisterDef>): int
    requires s != []
  {
    var first, last := s[0], s[|s| - 1];
    (if IsBitType(first.registerType) then last.startingAddress + 1 else last.startingAddress + RegisterCount(last.dataType))
    - first.startingAddress
  }

  predicate SpanAccepted(s: seq<RegisterDef>)
    requires s != []
  {
    GroupCount(s) <= if IsBitType(s[0].registerType) then MAX_COILS_PER_READ else MAX_REGISTERS_PER_READ
  }

  predicate GroupSpanAccepted(regs: seq<RegisterDef>, g: string) {
    Group(regs, g) != [] && SpanAccepted(Group(regs, g))
  }

  predicate SpansAccepted(regs: seq<RegisterDef>) {
    forall g :: g in GroupNames(regs) ==> GroupSpanAccepted(regs, g)
  }

  // ---- The whole configuration ----

  predicate ConfigAccepted(regs: seq<RegisterDef>) {
    && (forall r :: r in regs ==> RegisterAccepted(r))
    && NoDuplicates(AllNames(regs))
    && NoOverlap(regs)
    && GroupsAccepted(regs)
    && SpansAccepted(regs)
  }

  method ValidateSpan(regs: seq<RegisterDef>, g: string, s: seq<RegisterDef>) returns (ok: bool)
    requires g in GroupNames(regs) && s == Group(regs, g)
    ensures ok <==> GroupSpanAccepted(regs, g)
  {
    NamedGroupIsNotEmpty(regs, g);
    ok := SpanAccepted(s);
  }

  method ValidateSpans(regs: seq<RegisterDef>) returns (ok: bool)
    ensures ok <==> SpansAccepted(regs)
  {
    var order, index := BuildGroupIndex(regs);
    for i := 0 to |order|
      invariant forall k :: 0 <= k < i ==> GroupSpanAccepted(regs, order[k])
    {
      ok := ValidateSpan(regs, order[i], index[order[i]]);
      if !ok {
        return;
      }
    }
    ok := true;
  }

  method Validate(regs: seq<RegisterDef>) returns (ok: bool)
    requires forall r :: r in regs ==> RegisterAccepted(r)
    ensures ok <==> ConfigAccepted(regs)
  {
    ok := ValidateNames(regs);
    if ok {
      ok := ValidateNoOverlap(regs);
    }
    if ok {
      ok := ValidateGroups(regs);
    }
    if ok {
      ok := ValidateSpans(regs);
    }
  }

  lemma {:induction false} MembersApart(regs: seq<RegisterDef>, g: string)
    requires NoOverlap(regs) && GroupsAccepted(regs)
    ensures PairwiseClear(Members(regs, g))
  {
    if regs != [] {
      var init, last := regs[..|regs| - 1], regs[|regs| - 1];
      MembersApart(init, g);
      if last.readGroup == Some(g) {
        var s := Members(init, g);
        forall i | 0 <= i < |s| ensures !Overlaps(s[i], last) {
          MembersOf(init, g, s[i]);
          var k :| 0 <= k < |init| && init[k] == s[i];
          assert regs[k] == s[i];
        }
      }
    }
  }

  predicate PairwiseClear(s: seq<RegisterDef>) {
    forall i, j :: 0 <= i < j < |s| ==> !Overlaps(s[i], s[j])
  }

  lemma {:induction false} ApartIsPairwise(s: seq<RegisterDef>)
    ensures Apart(s) <==> PairwiseClear(s)
  {
    if s != [] {
      var rest := s[1..];
      ApartIsPairwise(rest);
      assert forall i :: 0 <= i < |rest| ==> rest[i] == s[i + 1];
      if Apart(s) {
        forall i, j | 0 <= i < j < |s| ensures !Overlaps(s[i], s[j]) {
          assert s[j] == rest[j - 1] && s[j] in rest;
          if i > 0 {
            assert s[i] == rest[i - 1];
          }
        }
      }
      if PairwiseClear(s) {
        forall x | x in rest ensures !Overlaps(s[0], x) {
          var k :| 0 <= k < |rest| && rest[k] == x;
          assert s[k + 1] == x;
        }
      }
    }
  }

  /** Each register ends before the next one starts. */
  predicate InOrder(s: seq<RegisterDef>) {
    forall i, j :: 0 <= i < j < |s| ==> s[i].startingAddress + Span(s[i]) <= s[j].startingAddress
  }

  predicate OneType(s: seq<RegisterDef>, t: RegisterType) {
    forall i :: 0 <= i < |s| ==> s[i].registerType == t
  }

  /** The span read for the group holds every address of every member. */
  predicate SpanCovers(s: seq<RegisterDef>)
    requires s != []
  {
    forall i :: 0 <= i < |s| ==>
      s[0].startingAddress <= s[i].startingAddress
      && s[i].startingAddress + Span(s[i]) <= s[0].startingAddress + GroupCount(s)
  }

  lemma ClearAndSorted(s: seq<RegisterDef>)
    requires Sorted(s) && PairwiseClear(s)
    ensures InOrder(s)
  {
    forall i, j | 0 <= i < j < |s| ensures s[i].startingAddress + Span(s[i]) <= s[j].startingAddress {
      assert !Overlaps(s[i], s[j]);
    }
  }

  lemma OrderedMeansCovered(s: seq<RegisterDef>)
    requires s != [] && InOrder(s) && OneType(s, s[0].registerType)
    ensures SpanCovers(s)
  {
    forall i | 0 <= i < |s|
      ensures s[0].startingAddress <= s[i].startingAddress
      ensures s[i].startingAddress + Span(s[i]) <= s[0].startingAddress + GroupCount(s)
    {
      assert i == 0 || s[0].startingAddress + Span(s[0]) <= s[i].startingAddress;
      assert i == |s| - 1 || s[i].startingAddress + Span(s[i]) <= s[|s| - 1].startingAddress;
    }
  }

  lemma GroupIsInOrder(regs: seq<RegisterDef>, g: string)
    requires NoOverlap(regs) && GroupsAccepted(regs)
    ensures InOrder(Group(regs, g))
  {
    var members := Members(regs, g);
    SortFacts(members);
    MembersApart(regs, g);
    ApartIsPairwise(members);
    ApartIsPairwise(SortByAddress(members));
    ClearAndSorted(SortByAddress(members));
  }

  lemma GroupHasOneType(regs: seq<RegisterDef>, g: string)
    requires GroupsAccepted(regs) && Group(regs, g) != []
    ensures OneType(Group(regs, g), Group(regs, g)[0].registerType)
  {
    var s := Group(regs, g);
    forall i | 0 <= i < |s| ensures s[i].registerType == s[0].registerType {
      GroupMembers(regs, g, s[i]);
      GroupMembers(regs, g, s[0]);
      SameTypeInGroup(regs, s[i], s[0]);
    }
  }

  /** The read of a group: no two members share an address, the read covers every member, and it
      stays within the protocol's limit and the address space. */
  lemma GroupLayout(regs: seq<RegisterDef>, g: string)
    requires ConfigAccepted(regs) && g in GroupNames(regs)
    ensures Group(regs, g) != []
    ensures var s := Group(regs, g);
            && InOrder(s) && OneType(s, s[0].registerType) && SpanCovers(s)
            && 0 < GroupCount(s) <= (if IsBitType(s[0].registerType) then MAX_COILS_PER_READ else MAX_REGISTERS_PER_READ)
            && s[0].startingAddress + GroupCount(s) <= 0x1_0000
  {
    NamedGroupIsNotEmpty(regs, g);
    GroupIsInOrder(regs, g);
    GroupHasOneType(regs, g);
    var s := Group(regs, g);
    OrderedMeansCovered(s);
    LastIsAccepted(regs, g);
    assert GroupSpanAccepted(regs, g);
  }

  lemma LastIsAccepted(regs: seq<RegisterDef>, g: string)
    requires Group(regs, g) != [] && forall r :: r in regs ==> RegisterAccepted(r)
    ensures var last := Group(regs, g)[|Group(regs, g)| - 1]; last.startingAddress + RegisterCount(last.dataType) <= 0x1_0000
  {
    var last := Group(regs, g)[|Group(regs, g)| - 1];
    GroupMembers(regs, g, last);
    assert RegisterAccepted(last);
  }

  lemma SameTypeInGroup(regs: seq<RegisterDef>, a: RegisterDef, b: RegisterDef)
    requires GroupsAccepted(regs) && a in regs && b in regs
    requires a.readGroup.Some? && a.readGroup == b.readGroup
    ensures a.registerType == b.registerType
  {
    var i :| 0 <= i < |regs| && regs[i] == a;
    var j :| 0 <= j < |regs| && regs[j] == b;
    assert i == j || i < j || j < i;
  }

  // ---- The checks in plain addresses ----

  predicate Occupies(r: RegisterDef, address: int) {
    r.startingAddress <= address < r.startingAddress + Span(r)
  }

  /** Two registers overlap exactly when some address belongs to both. */
  lemma OverlapsIff(a: RegisterDef, b: RegisterDef)
    ensures Overlaps(a, b) <==> exists x :: Occupies(a, x) && Occupies(b, x)
  {
    if Overlaps(a, b) {
      var x := if a.startingAddress <= b.startingAddress then b.startingAddress else a.startingAddress;
      assert Occupies(a, x) && Occupies(b, x);
    }
  }

  /** One read from the start of `a` to the end of `b` is within the protocol's limit. */
  predicate WithinOneRead(a: RegisterDef, b: RegisterDef) {
    b.startingAddress + Span(b) - a.startingAddress <= if IsBitType(a.registerType) then 2000 else 125
  }

  predicate MembersWithinOneRead(regs: seq<RegisterDef>, g: string) {
    forall a, b :: a in regs && b in regs && a.readGroup == b.readGroup == Some(g) ==> WithinOneRead(a, b)
  }

  lemma FarthestMembers(s: seq<RegisterDef>, a: RegisterDef, b: RegisterDef)
    requires s != [] && OneType(s, s[0].registerType) && SpanCovers(s) && a in s && b in s
    ensures SpanAccepted(s) ==> WithinOneRead(a, b)
    ensures WithinOneRead(s[0], s[|s| - 1]) <==> SpanAccepted(s)
  {}

  lemma GroupSpanAcceptedIff(regs: seq<RegisterDef>, g: string)
    requires NoOverlap(regs) && GroupsAccepted(regs) && g in GroupNames(regs)
    ensures GroupSpanAccepted(regs, g) <==> MembersWithinOneRead(regs, g)
  {
    var s := Group(regs, g);
    NamedGroupIsNotEmpty(regs, g);
    GroupIsInOrder(regs, g);
    GroupHasOneType(regs, g);
    OrderedMeansCovered(s);
    GroupMembers(regs, g, s[0]);
    GroupMembers(regs, g, s[|s| - 1]);
    FarthestMembers(s, s[0], s[|s| - 1]);
    forall a, b | a in regs && b in regs && a.readGroup == b.readGroup == Some(g)
      ensures SpanAccepted(s) ==> WithinOneRead(a, b)
    {
      GroupMembers(regs, g, a);
      GroupMembers(regs, g, b);
      FarthestMembers(s, a, b);
    }
  }

  /** The groups are accepted exactly when no two registers of a group lie further apart than one
      read reaches: 125 registers, or 2000 bits. */
  lemma SpansAcceptedIff(regs: seq<RegisterDef>)
    requires NoOverlap(regs) && GroupsAccepted(regs)
    ensures SpansAccepted(regs) <==> forall g :: g in GroupNames(regs) ==> MembersWithinOneRead(regs, g)
  {
    forall g | g in GroupNames(regs) ensures GroupSpanAccepted(regs, g) <==> MembersWithinOneRead(regs, g) {
      GroupSpanAcceptedIff(regs, g);
    }
  }
}
