/** The command table of the simulated supply, and what a received line is dispatched to. */
module ScpiCommands {
  import opened Wrappers
  import opened Text
  import opened Scpi

  datatype Keyword =
    | IDN | RST | CLS | SYSTem | ERRor | OUTPut | STATe | PROTection | CLEar | TRIPped
    | MEASure | VOLTage | CURRent | SOURce | LEVel | IMMediate | AMPLitude | SENSe

  /** The capitals of a keyword: its short form. */
  function Short(k: Keyword): string {
    match k
    case IDN => "*IDN"
    case RST => "*RST"
    case CLS => "*CLS"
    case SYSTem => "SYST"
    case ERRor => "ERR"
    case OUTPut => "OUTP"
    case STATe => "STAT"
    case PROTection => "PROT"
    case CLEar => "CLE"
    case TRIPped => "TRIP"
    case MEASure => "MEAS"
    case VOLTage => "VOLT"
    case CURRent => "CURR"
    case SOURce => "SOUR"
    case LEVel => "LEV"
    case IMMediate => "IMM"
    case AMPLitude => "AMPL"
    case SENSe => "SENS"
  }

  /** The rest of a keyword, as it is capitalized in the long form. */
  function LongTail(k: Keyword): string {
    match k
    case IDN => ""
    case RST => ""
    case CLS => ""
    case SYSTem => "EM"
    case ERRor => "OR"
    case OUTPut => "UT"
    case STATe => "E"
    case PROTection => "ECTION"
    case CLEar => "AR"
    case TRIPped => "PED"
    case MEASure => "URE"
    case VOLTage => "AGE"
    case CURRent => "ENT"
    case SOURce => "CE"
    case LEVel => "EL"
    case IMMediate => "EDIATE"
    case AMPLitude => "ITUDE"
    case SENSe => "E"
  }

  function LowerTail(k: Keyword): string {
    match k
    case IDN => ""
    case RST => ""
    case CLS => ""
    case SYSTem => "em"
    case ERRor => "or"
    case OUTPut => "ut"
    case STATe => "e"
    case PROTection => "ection"
    case CLEar => "ar"
    case TRIPped => "ped"
    case MEASure => "ure"
    case VOLTage => "age"
    case CURRent => "ent"
    case SOURce => "ce"
    case LEVel => "el"
    case IMMediate => "ediate"
    case AMPLitude => "itude"
    case SENSe => "e"
  }

  /** A keyword as the pattern spells it, such as `VOLTage`. */
  function Spelling(k: Keyword): string {
    Short(k) + LowerTail(k)
  }

  function Spellings(ks: seq<Keyword>): (r: seq<string>)
    ensures |r| == |ks|
    ensures forall i :: 0 <= i < |r| ==> r[i] == Spelling(ks[i])
  {
    seq(|ks|, i requires 0 <= i < |ks| => Spelling(ks[i]))
  }

  /** The keyword a form belongs to: two characters tell them apart. */
  function Decode(w: string): Option<Keyword> {
    if |w| < 2 then None
    else if w[0] == '*' then Some(if w[1] == 'I' then IDN else if w[1] == 'R' then RST else CLS)
    else if w[0] == 'S' then Some(if w[1] == 'Y' then SYSTem else if w[1] == 'O' then SOURce else if w[1] == 'T' then STATe else SENSe)
    else if w[0] == 'C' then Some(if w[1] == 'L' then CLEar else CURRent)
    else if w[0] == 'E' then Some(ERRor)
    else if w[0] == 'O' then Some(OUTPut)
    else if w[0] == 'P' then Some(PROTection)
    else if w[0] == 'T' then Some(TRIPped)
    else if w[0] == 'M' then Some(MEASure)
    else if w[0] == 'V' then Some(VOLTage)
    else if w[0] == 'L' then Some(LEVel)
    else if w[0] == 'I' then Some(IMMediate)
    else if w[0] == 'A' then Some(AMPLitude)
    else None
  }

  lemma {:induction false} ShortFormOfTail(caps: string, tail: string)
    requires forall i :: 0 <= i < |caps| ==> !IsLower(caps[i])
    requires forall i :: 0 <= i < |tail| ==> IsLower(tail[i])
    ensures ShortForm(caps + tail) == caps
  {
    var s := caps + tail;
    if tail != [] {
      assert s[..|s| - 1] == caps + tail[..|tail| - 1];
      ShortFormOfTail(caps, tail[..|tail| - 1]);
    } else if caps != [] {
      assert s[..|s| - 1] == caps[..|caps| - 1] + [];
      ShortFormOfTail(caps[..|caps| - 1], []);
    }
  }

  function LongForm(k: Keyword): string {
    Short(k) + LongTail(k)
  }

  lemma TailsMatch(k: Keyword)
    ensures |LowerTail(k)| == |LongTail(k)|
    ensures forall i :: 0 <= i < |LowerTail(k)| ==> IsLower(LowerTail(k)[i]) && UpperChar(LowerTail(k)[i]) == LongTail(k)[i]
  {}

  lemma ShortHasNoLower(k: Keyword)
    ensures forall i :: 0 <= i < |Short(k)| ==> !IsLower(Short(k)[i]) && Short(k)[i] != ':'
    ensures forall i :: 0 <= i < |LongTail(k)| ==> LongTail(k)[i] != ':'
  {}

  lemma DecodeByPrefix(k: Keyword, w: string)
    requires Short(k) <= w
    ensures Decode(w) == Some(k)
  {
    assert w[0] == Short(k)[0] && w[1] == Short(k)[1];
  }

  /** The two forms of a keyword are its capitals, and its capitals with the tail in capitals. */
  lemma FormsOfKeyword(k: Keyword)
    ensures ShortForm(Spelling(k)) == Short(k) && Upper(Spelling(k)) == LongForm(k)
  {
    TailsMatch(k);
    ShortHasNoLower(k);
    ShortFormOfTail(Short(k), LowerTail(k));
  }

  // ---- The command table ----

  datatype Handler =
    | GetId | Reset | ClearStatus | GetError
    | SetOutput | QueryOutput | ClearProtectionLatch | QueryProtectionTripped
    | MeasureVoltage | MeasureCurrent
    | SetVoltage | QueryVoltage | SetCurrent | QueryCurrent
    | SetOcpLevel | QueryOcpLevel | SetOcpState | QueryOcpState
    | SetOvpLevel | QueryOvpLevel | SetOvpState | QueryOvpState
    | SetRemoteSense | QueryRemoteSense

  datatype Command = Command(
    prefix: seq<Keyword>, required: seq<Keyword>, suffix: seq<Keyword>, write: Option<Handler>, query: Option<Handler>)

  const COMMAND_COUNT: nat := 16

  function CommandAt(i: nat): Command
    requires i < COMMAND_COUNT
  {
    if i == 0 then Command([], [IDN], [], None, Some(GetId))
    else if i == 1 then Command([], [RST], [], Some(Reset), None)
    else if i == 2 then Command([], [CLS], [], Some(ClearStatus), None)
    else if i == 3 then Command([], [SYSTem, ERRor], [], None, Some(GetError))
    else if i == 4 then Command([], [OUTPut], [STATe], Some(SetOutput), Some(QueryOutput))
    else if i == 5 then Command([], [OUTPut, PROTection, CLEar], [], Some(ClearProtectionLatch), None)
    else if i == 6 then Command([], [OUTPut, PROTection, TRIPped], [], None, Some(QueryProtectionTripped))
    else if i == 7 then Command([], [MEASure, VOLTage], [], None, Some(MeasureVoltage))
    else if i == 8 then Command([], [MEASure, CURRent], [], None, Some(MeasureCurrent))
    else if i == 9 then Command([SOURce], [VOLTage], [LEVel, IMMediate, AMPLitude], Some(SetVoltage), Some(QueryVoltage))
    else if i == 10 then Command([SOURce], [CURRent], [LEVel, IMMediate, AMPLitude], Some(SetCurrent), Some(QueryCurrent))
    else if i == 11 then Command([SOURce], [CURRent, PROTection], [LEVel], Some(SetOcpLevel), Some(QueryOcpLevel))
    else if i == 12 then Command([SOURce], [CURRent, PROTection, STATe], [], Some(SetOcpState), Some(QueryOcpState))
    else if i == 13 then Command([SOURce], [VOLTage, PROTection], [LEVel], Some(SetOvpLevel), Some(QueryOvpLevel))
    else if i == 14 then Command([SOURce], [VOLTage, PROTection, STATe], [], Some(SetOvpState), Some(QueryOvpState))
    else Command([], [SYSTem, SENSe], [STATe], Some(SetRemoteSense), Some(QueryRemoteSense))
  }

  function LayoutOf(c: Command): Layout {
    Layout(Spellings(c.prefix), Spellings(c.required), Spellings(c.suffix))
  }

  /** What registering each command in turn writes under a key. */
  function Entries(key: string): (r: seq<Option<Handler>>)
    ensures |r| == COMMAND_COUNT
    ensures forall i: nat :: i < |r| ==> r[i] == Registered(CommandAt(i), key)
  {
    seq(COMMAND_COUNT, i requires 0 <= i < COMMAND_COUNT => Registered(CommandAt(i), key))
  }

  /** A later registration overwrites an earlier one. */
  function LastSome(entries: seq<Option<Handler>>): Option<Handler> {
    if entries == [] then None
    else if entries[|entries| - 1].Some? then entries[|entries| - 1]
    else LastSome(entries[..|entries| - 1])
  }

  /** The table has one key space: a header for writing, a header and a question mark for asking. */
  function Lookup(key: string): Option<Handler> {
    LastSome(Entries(key))
  }

  predicate EndsWithQuery(s: string) {
    s != [] && s[|s| - 1] == '?'
  }

  /** The entry that registering one command makes under a key. */
  function Registered(c: Command, key: string): Option<Handler> {
    if c.write.Some? && key in Headers(LayoutOf(c)) then c.write
    else if EndsWithQuery(key) && key[..|key| - 1] in Headers(LayoutOf(c)) then c.query
    else None
  }

  /** The command a keyword list belongs to. */
  function Owner(ks: seq<Keyword>): nat {
    var rest := if ks != [] && ks[0] == SOURce then ks[1..] else ks;
    if rest == [] then COMMAND_COUNT
    else match rest[0]
      case IDN => 0
      case RST => 1
      case CLS => 2
      case SYSTem => if |rest| > 1 && rest[1] == ERRor then 3 else 15
      case OUTPut =>
        if |rest| < 3 then 4 else if rest[2] == CLEar then 5 else 6
      case MEASure => if |rest| > 1 && rest[1] == VOLTage then 7 else 8
      case VOLTage =>
        if |rest| == 1 || rest[1] != PROTection then 9 else if |rest| > 2 && rest[2] == STATe then 14 else 13
      case CURRent =>
        if |rest| == 1 || rest[1] != PROTection then 10 else if |rest| > 2 && rest[2] == STATe then 12 else 11
      case _ => COMMAND_COUNT
  }

  function KeywordChoice(c: Command, withPrefix: bool, count: nat): seq<Keyword>
    requires count <= |c.suffix|
  {
    (if withPrefix then c.prefix else []) + c.required + c.suffix[..count]
  }

  lemma OwnerWithoutPrefix(i: nat, count: nat)
    requires i < COMMAND_COUNT && count <= |CommandAt(i).suffix|
    ensures var c := CommandAt(i); Owner(c.required + c.suffix[..count]) == i && c.required[0] != SOURce
  {}

  lemma OwnerIgnoresSource(ks: seq<Keyword>)
    requires ks != [] && ks[0] != SOURce
    ensures Owner([SOURce] + ks) == Owner(ks)
  {
    assert ([SOURce] + ks)[1..] == ks;
  }

  lemma PrefixIsSource(i: nat)
    requires i < COMMAND_COUNT
    ensures CommandAt(i).prefix == [] || CommandAt(i).prefix == [SOURce]
  {}

  /** No keyword list belongs to two commands. */
  lemma OwnerOfChoice(i: nat, withPrefix: bool, count: nat)
    requires i < COMMAND_COUNT && count <= |CommandAt(i).suffix|
    ensures Owner(KeywordChoice(CommandAt(i), withPrefix, count)) == i
  {
    var c := CommandAt(i);
    var ks := c.required + c.suffix[..count];
    OwnerWithoutPrefix(i, count);
    PrefixIsSource(i);
    if withPrefix && c.prefix == [SOURce] {
      OwnerIgnoresSource(ks);
      assert KeywordChoice(c, withPrefix, count) == [SOURce] + ks;
    } else {
      assert KeywordChoice(c, withPrefix, count) == ks;
    }
  }

  // ---- No header stands for two commands ----

  ghost predicate Decodes(path: seq<string>, ks: seq<Keyword>) {
    |path| == |ks| && forall i :: 0 <= i < |path| ==> Decode(path[i]) == Some(ks[i]) && ':' !in path[i]
  }

  lemma SpellingDecodes(path: seq<string>, ks: seq<Keyword>)
    requires Spells(path, Spellings(ks))
    ensures Decodes(path, ks)
  {
    forall i | 0 <= i < |path| ensures Decode(path[i]) == Some(ks[i]) && ':' !in path[i] {
      FormsOfKeyword(ks[i]);
      ShortHasNoLower(ks[i]);
      DecodeByPrefix(ks[i], path[i]);
    }
  }

  lemma ChoiceOfSpellings(c: Command, withPrefix: bool, count: nat)
    requires count <= |c.suffix|
    ensures Choice(LayoutOf(c), withPrefix, count) == Spellings(KeywordChoice(c, withPrefix, count))
  {}

  lemma PathChoice(c: Command, path: seq<string>) returns (withPrefix: bool, count: nat)
    requires StandsFor(LayoutOf(c), path) && c.required != []
    ensures count <= |c.suffix| && Decodes(path, KeywordChoice(c, withPrefix, count)) && path != []
  {
    withPrefix, count :| count <= |c.suffix| && Spells(path, Choice(LayoutOf(c), withPrefix, count));
    ChoiceOfSpellings(c, withPrefix, count);
    SpellingDecodes(path, KeywordChoice(c, withPrefix, count));
  }

  lemma PathOwner(i: nat, path: seq<string>) returns (ks: seq<Keyword>)
    requires i < COMMAND_COUNT && StandsFor(LayoutOf(CommandAt(i)), path)
    ensures Decodes(path, ks) && Owner(ks) == i && path != []
  {
    OwnerWithoutPrefix(i, 0);
    var withPrefix, count := PathChoice(CommandAt(i), path);
    ks := KeywordChoice(CommandAt(i), withPrefix, count);
    OwnerOfChoice(i, withPrefix, count);
  }

  lemma DecodingIsUnique(path: seq<string>, ks: seq<Keyword>, ls: seq<Keyword>)
    requires Decodes(path, ks) && Decodes(path, ls)
    ensures ks == ls
  {
    assert forall i :: 0 <= i < |path| ==> Some(ks[i]) == Decode(path[i]) == Some(ls[i]);
  }

  /** A header registered by one command is registered by no other. */
  lemma HeadersAreDisjoint(i: nat, j: nat, header: string)
    requires i < COMMAND_COUNT && j < COMMAND_COUNT
    requires header in Headers(LayoutOf(CommandAt(i))) && header in Headers(LayoutOf(CommandAt(j)))
    ensures i == j
  {
    HeadersAreExact(LayoutOf(CommandAt(i)), header);
    HeadersAreExact(LayoutOf(CommandAt(j)), header);
    var p :| StandsFor(LayoutOf(CommandAt(i)), p) && header == Join(p, ':');
    var q :| StandsFor(LayoutOf(CommandAt(j)), q) && header == Join(q, ':');
    var ks := PathOwner(i, p);
    var ls := PathOwner(j, q);
    SplitOfJoin(p, ':');
    SplitOfJoin(q, ':');
    DecodingIsUnique(p, ks, ls);
  }

  lemma {:induction false} LastSomeOfOne(entries: seq<Option<Handler>>, i: nat)
    requires i < |entries| && entries[i].Some?
    requires forall j: nat :: j < |entries| && entries[j].Some? ==> j == i
    ensures LastSome(entries) == entries[i]
  {
    if i < |entries| - 1 {
      LastSomeOfOne(entries[..|entries| - 1], i);
    }
  }

  lemma {:induction false} LastSomeIsThere(entries: seq<Option<Handler>>)
    requires LastSome(entries).Some?
    ensures LastSome(entries) in entries
  {
    if entries[|entries| - 1].None? {
      LastSomeIsThere(entries[..|entries| - 1]);
    }
  }

  lemma NoQuestionMark(k: Keyword)
    ensures '?' !in Short(k) && '?' !in LongTail(k)
  {}

  lemma {:induction false} JoinWithout(parts: seq<string>, c: char, sep: char)
    requires c != sep && forall p :: p in parts ==> c !in p
    ensures c !in Join(parts, sep)
  {
    if |parts| > 1 {
      JoinWithout(parts[..|parts| - 1], c, sep);
    }
  }

  /** No header contains a question mark, so a key for writing is never one for asking. */
  lemma HeadersHaveNoQuestionMark(i: nat, header: string)
    requires i < COMMAND_COUNT && header in Headers(LayoutOf(CommandAt(i)))
    ensures '?' !in header
  {
    var c := CommandAt(i);
    HeadersAreExact(LayoutOf(c), header);
    var path :| StandsFor(LayoutOf(c), path) && header == Join(path, ':');
    var withPrefix: bool, count: nat :| count <= |c.suffix| && Spells(path, Choice(LayoutOf(c), withPrefix, count));
    ChoiceOfSpellings(c, withPrefix, count);
    SpellingHasNoQuestionMark(path, KeywordChoice(c, withPrefix, count));
    JoinWithout(path, '?', ':');
  }

  lemma SpellingHasNoQuestionMark(path: seq<string>, ks: seq<Keyword>)
    requires Spells(path, Spellings(ks))
    ensures forall w :: w in path ==> '?' !in w
  {
    forall j | 0 <= j < |path| ensures '?' !in path[j] {
      FormsOfKeyword(ks[j]);
      NoQuestionMark(ks[j]);
    }
  }

  lemma EntriesHaveOneOwner(key: string, i: nat)
    requires i < COMMAND_COUNT && Entries(key)[i].Some?
    ensures forall j: nat :: j < COMMAND_COUNT && Entries(key)[j].Some? ==> j == i
  {
    forall j: nat | j < COMMAND_COUNT && Entries(key)[j].Some? ensures j == i {
      OneOwner(key, i, j);
    }
  }

  lemma OneOwner(key: string, i: nat, j: nat)
    requires i < COMMAND_COUNT && j < COMMAND_COUNT
    requires Registered(CommandAt(i), key).Some? && Registered(CommandAt(j), key).Some?
    ensures i == j
  {
    var a, b := Headers(LayoutOf(CommandAt(i))), Headers(LayoutOf(CommandAt(j)));
    if key in a && key in b {
      HeadersAreDisjoint(i, j, key);
    } else if key in a {
      HeadersHaveNoQuestionMark(i, key);
    } else if key in b {
      HeadersHaveNoQuestionMark(j, key);
    } else {
      HeadersAreDisjoint(i, j, key[..|key| - 1]);
    }
  }

  /** Some command registers `handler` under `key`: for writing under one of its headers, or for
      asking under one of its headers and a question mark. */
  predicate RegistersUnder(i: nat, key: string, handler: Handler)
    requires i < COMMAND_COUNT
  {
    var c := CommandAt(i);
    || (c.write == Some(handler) && key in Headers(LayoutOf(c)))
    || (c.query == Some(handler) && EndsWithQuery(key) && key[..|key| - 1] in Headers(LayoutOf(c)))
  }

  lemma RegisteredIff(i: nat, key: string, handler: Handler)
    requires i < COMMAND_COUNT
    ensures Registered(CommandAt(i), key) == Some(handler) <==> RegistersUnder(i, key, handler)
  {
    if key in Headers(LayoutOf(CommandAt(i))) {
      HeadersHaveNoQuestionMark(i, key);
    }
  }

  /** A key is looked up to a handler exactly when some command registered it under that key, in
      whatever order the commands are registered. */
  lemma LookupIff(key: string, handler: Handler)
    ensures Lookup(key) == Some(handler) <==> exists i: nat :: i < COMMAND_COUNT && RegistersUnder(i, key, handler)
  {
    if Lookup(key) == Some(handler) {
      LastSomeIsThere(Entries(key));
      var i: nat :| i < |Entries(key)| && Entries(key)[i] == Some(handler);
      RegisteredIff(i, key, handler);
    }
    if i: nat :| i < COMMAND_COUNT && RegistersUnder(i, key, handler) {
      RegisteredIff(i, key, handler);
      FoundAt(key, i);
    }
  }

  lemma FoundAt(key: string, i: nat)
    requires i < COMMAND_COUNT && Registered(CommandAt(i), key).Some?
    ensures Lookup(key) == Registered(CommandAt(i), key)
  {
    EntriesHaveOneOwner(key, i);
    LastSomeOfOne(Entries(key), i);
  }
}
