/** How a received line is dispatched, and the lines the simulated supply's client sends. */
module ScpiClient {
  import opened Wrappers
  import opened Text
  import opened Scpi
  import opened ScpiCommands
  import Decimal

  datatype DispatchError = UndefinedHeader | ParameterNotAllowed

  /** A blank line is ignored; a refused line reports an error; the rest call a handler. */
  datatype Dispatched =
    | Ignored
    | Refused(error: DispatchError)
    | Call(handler: Handler, channel: nat, args: seq<string>)

  // ---- Receiving ----

  predicate IsSpace(c: char) {
    c == ' ' || '\t' <= c <= '\r' || '\U{1C}' <= c <= '\U{1F}'
  }

  function StripLeft(s: string): string {
    if s != [] && IsSpace(s[0]) then StripLeft(s[1..]) else s
  }

  function StripRight(s: string): string {
    if s != [] && IsSpace(s[|s| - 1]) then StripRight(s[..|s| - 1]) else s
  }

  function Strip(s: string): string {
    StripRight(StripLeft(s))
  }

  /** The non-blank arguments of a comma-separated list. */
  function Arguments(parts: seq<string>): seq<string> {
    if parts == [] then []
    else
      var front, last := Arguments(parts[..|parts| - 1]), Strip(parts[|parts| - 1]);
      if last == [] then front else front + [last]
  }

  function Partition(s: string): (string, string) {
    match SplitOnce(s, ' ')
    case None => (s, [])
    case Some(parts) => parts
  }

  function Dispatch(line: string): Dispatched {
    var cmd := Strip(line);
    if cmd == [] then Ignored
    else
      var (raw, after) := Partition(cmd);
      DispatchHeader(raw, Strip(after))
  }

  /** The header as it is looked up, without a question mark at its very end. */
  function HeaderOf(raw: string): Header {
    var header := if EndsWithQuery(raw) then raw[..|raw| - 1] else raw;
    NormalizeParts(Split(RemovePrefix(header, ':'), ':'))
  }

  function KeyOf(raw: string): string {
    Join(HeaderOf(raw).canonical, ':') + if EndsWithQuery(raw) then "?" else ""
  }

  function ArgumentsOf(rest: string): seq<string> {
    if rest == [] then [] else Arguments(Split(rest, ','))
  }

  function DispatchHeader(raw: string, rest: string): Dispatched {
    match Lookup(KeyOf(raw))
    case None => Refused(UndefinedHeader)
    case Some(handler) =>
      if EndsWithQuery(raw) && ArgumentsOf(rest) != [] then Refused(ParameterNotAllowed)
      else Call(handler, HeaderOf(raw).channel, ArgumentsOf(rest))
  }

  // ---- When a query takes arguments ----

  lemma HeaderWithMark(h: string)
    ensures HeaderOf(h + ['?']) == NormalizeParts(Split(RemovePrefix(h, ':'), ':'))
    ensures KeyOf(h + ['?']) == Join(HeaderOf(h + ['?']).canonical, ':') + "?"
  {
    assert (h + ['?'])[..|h|] == h;
  }

  lemma HeaderWithoutMark(h: string)
    requires !EndsWithQuery(h)
    ensures HeaderOf(h) == NormalizeParts(Split(RemovePrefix(h, ':'), ':'))
    ensures KeyOf(h) == Join(HeaderOf(h).canonical, ':') + ""
  {}

  lemma JoinEndsLikeLast(parts: seq<string>, c: char)
    requires parts != [] && Join(parts, c) != []
    ensures var s, last := Join(parts, c), parts[|parts| - 1];
            s[|s| - 1] == if last != [] then last[|last| - 1] else c
  {}

  lemma LastCharOfSplit(s: string, c: char)
    requires var parts := Split(s, c); parts[|parts| - 1] != []
    ensures var parts := Split(s, c);
            var last := parts[|parts| - 1];
            s != [] && s[|s| - 1] == last[|last| - 1]
  {
    if s != [] && s[|s| - 1] != c {
      LastOfGrown(Split(s[..|s| - 1], c), s[|s| - 1]);
    }
  }

  lemma LastOfGrown(parts: seq<string>, ch: char)
    requires parts != []
    ensures var last := GrowLast(parts, [ch])[|parts| - 1]; last != [] && last[|last| - 1] == ch
  {}

  /** A part whose stem ends in a question mark ends in one itself, or in a digit. */
  lemma EndOfStem(part: string)
    requires EndsWithQuery(BaseOf(Upper(part)))
    ensures part != [] && (EndsWithQuery(part) || Decimal.IsDigit(part[|part| - 1]))
  {
    var upper := Upper(part);
    var base := BaseOf(upper);
    var suffix := upper[|base|..];
    if suffix != [] {
      assert Decimal.IsDigit(suffix[|suffix| - 1]);
      assert upper[|upper| - 1] == suffix[|suffix| - 1] == UpperChar(part[|part| - 1]);
    } else {
      assert upper == base;
    }
  }

  lemma LastStem(parts: seq<string>)
    requires parts != []
    ensures var canonical := NormalizeParts(parts).canonical;
            |canonical| == |parts| && canonical[|parts| - 1] == BaseOf(Upper(parts[|parts| - 1]))
  {
    LengthOfCanonical(parts);
  }

  lemma {:induction false} LengthOfCanonical(parts: seq<string>)
    ensures |NormalizeParts(parts).canonical| == |parts|
  {
    if parts != [] {
      LengthOfCanonical(parts[..|parts| - 1]);
    }
  }

  /** A key for asking comes from a raw header with a question mark at its very end, or with a
      question mark before the digits at its end. */
  lemma KeyForAsking(raw: string)
    requires EndsWithQuery(KeyOf(raw)) && !EndsWithQuery(raw)
    ensures raw != [] && Decimal.IsDigit(raw[|raw| - 1])
  {
    var text := RemovePrefix(raw, ':');
    var parts := Split(text, ':');
    var last := parts[|parts| - 1];
    assert Join(HeaderOf(raw).canonical, ':') + "" == Join(HeaderOf(raw).canonical, ':');
    MarkInLastStem(parts);
    EndOfStem(last);
    LastCharOfSplit(text, ':');
  }

  lemma MarkInLastStem(parts: seq<string>)
    requires parts != [] && EndsWithQuery(Join(NormalizeParts(parts).canonical, ':'))
    ensures EndsWithQuery(BaseOf(Upper(parts[|parts| - 1])))
  {
    LastStem(parts);
    JoinEndsLikeLast(NormalizeParts(parts).canonical, ':');
  }

  /** The command table asks with one set of handlers and writes with another. */
  predicate Asks(h: Handler) {
    h in {GetId, GetError, QueryOutput, QueryProtectionTripped, MeasureVoltage, MeasureCurrent, QueryVoltage, QueryCurrent,
          QueryOcpLevel, QueryOcpState, QueryOvpLevel, QueryOvpState, QueryRemoteSense}
  }

  lemma AskingHandlers(i: nat)
    requires i < COMMAND_COUNT
    ensures CommandAt(i).query.Some? ==> Asks(CommandAt(i).query.value)
    ensures CommandAt(i).write.Some? ==> !Asks(CommandAt(i).write.value)
  {}

  /** A line with arguments reaches a handler that asks exactly when its header ends in a digit
      that follows the question mark: the check for arguments looks for the question mark at the
      very end of the header only. */
  lemma QueryTakesArgumentsIff(raw: string, rest: string, handler: Handler)
    requires Lookup(KeyOf(raw)) == Some(handler) && Asks(handler) && ArgumentsOf(rest) != []
    ensures DispatchHeader(raw, rest) ==
            if raw != [] && Decimal.IsDigit(raw[|raw| - 1]) then Call(handler, HeaderOf(raw).channel, ArgumentsOf(rest))
            else Refused(ParameterNotAllowed)
  {
    LookupIff(KeyOf(raw), handler);
    var i: nat :| i < COMMAND_COUNT && RegistersUnder(i, KeyOf(raw), handler);
    AskingHandlers(i);
    if !EndsWithQuery(raw) {
      KeyForAsking(raw);
    }
  }

  /** A part of a header that normalizing keeps. */
  predicate IsPart(w: string) {
    IsStem(w) && ':' !in w
  }

  lemma NoDigitsBefore(front: seq<string>, stem: string, digits: string)
    requires (forall w :: w in front ==> IsPart(w)) && IsStem(stem) && digits != [] && Decimal.AllDigits(digits)
    ensures NormalizeParts(front + [stem + digits]) == Header(front + [stem], Decimal.Value(digits))
  {
    var none: seq<string> := seq(|front|, i => "");
    var stems, suffixes := front + [stem], none + [digits];
    NormalizeStems(stems, suffixes);
    assert forall i :: 0 <= i < |front| ==> front[i] + [] == front[i];
    assert Suffixed(stems, suffixes) == front + [stem + digits];
    assert suffixes[|suffixes| - 1] == digits;
  }

  lemma LastPartSplits(front: seq<string>, part: string)
    requires (forall w :: w in front ==> IsPart(w)) && part != [] && ':' !in part
    ensures Split(RemovePrefix(Join(front + [part], ':'), ':'), ':') == front + [part]
    ensures EndsWithQuery(Join(front + [part], ':')) <==> EndsWithQuery(part)
  {
    var parts := front + [part];
    forall p | p in parts ensures ':' !in p && p != [] {
      assert p in front || p == part;
    }
    SplitOfJoin(parts, ':');
    StartsWithoutColon(parts);
    JoinEndsLikeLast(parts, ':');
  }

  lemma HiddenKey(front: seq<string>, last: string, digits: string)
    requires (forall w :: w in front ==> IsPart(w)) && IsPart(last) && digits != [] && Decimal.AllDigits(digits)
    ensures var raw := Join(front + [last + "?" + digits], ':');
            && !EndsWithQuery(raw) && HeaderOf(raw).channel == Decimal.Value(digits)
            && KeyOf(raw) == Join(front + [last], ':') + "?"
  {
    MarkedPart(last, digits);
    LastPartSplits(front, last + "?" + digits);
    NoDigitsBefore(front, last + "?", digits);
    JoinLonger(front, last, "?");
    assert Join(front + [last + "?"], ':') + "" == Join(front + [last + "?"], ':');
  }

  lemma MarkedPart(last: string, digits: string)
    requires IsPart(last) && digits != [] && Decimal.AllDigits(digits)
    ensures var part := last + "?" + digits;
            part != [] && ':' !in part && !EndsWithQuery(part) && IsStem(last + "?")
  {
    assert Decimal.IsDigit(digits[|digits| - 1]);
    assert forall i :: 0 <= i < |digits| ==> Decimal.IsDigit(digits[i]);
  }

  lemma DispatchByKey(raw: string, key: string, rest: string, handler: Handler)
    requires KeyOf(raw) == key && Lookup(key) == Some(handler) && !EndsWithQuery(raw)
    ensures DispatchHeader(raw, rest) == Call(handler, HeaderOf(raw).channel, ArgumentsOf(rest))
  {}

  lemma KeywordsAreParts(k: Keyword)
    ensures IsPart(Short(k)) && IsPart(LongForm(k))
  {
    TailIsPlain(k);
  }

  lemma TailIsPlain(k: Keyword)
    ensures IsPart(Short(k)) && forall i :: 0 <= i < |LongTail(k)| ==> IsUpper(LongTail(k)[i])
  {}

  lemma HeaderIsParts(c: Command, header: string) returns (path: seq<string>)
    requires header in Headers(LayoutOf(c)) && c.required != []
    ensures path != [] && header == Join(path, ':') && forall w :: w in path ==> IsPart(w)
  {
    HeadersAreExact(LayoutOf(c), header);
    path :| StandsFor(LayoutOf(c), path) && header == Join(path, ':');
    var withPrefix: bool, count: nat :| count <= |c.suffix| && Spells(path, Choice(LayoutOf(c), withPrefix, count));
    ChoiceOfSpellings(c, withPrefix, count);
    SpellingIsParts(path, KeywordChoice(c, withPrefix, count));
  }

  lemma SpellingIsParts(path: seq<string>, ks: seq<Keyword>)
    requires Spells(path, Spellings(ks))
    ensures forall w :: w in path ==> IsPart(w)
  {
    forall j | 0 <= j < |path| ensures IsPart(path[j]) {
      FormsOfKeyword(ks[j]);
      KeywordsAreParts(ks[j]);
    }
  }

  lemma QueryIsFound(i: nat, header: string)
    requires i < COMMAND_COUNT && CommandAt(i).query.Some? && header in Headers(LayoutOf(CommandAt(i)))
    ensures Lookup(header + "?") == CommandAt(i).query
  {
    assert (header + "?")[..|header|] == header;
    LookupIff(header + "?", CommandAt(i).query.value);
    assert RegistersUnder(i, header + "?", CommandAt(i).query.value);
  }

  lemma EveryCommandRequires(i: nat)
    requires i < COMMAND_COUNT
    ensures CommandAt(i).required != []
  {}

  /** Such lines exist for every header of every query, `*IDN?` among them: the channel number may
      follow the question mark. */
  lemma QuestionMarkBeforeTheNumber(i: nat, header: string, digits: string, rest: string)
    requires i < COMMAND_COUNT && CommandAt(i).query.Some? && header in Headers(LayoutOf(CommandAt(i)))
    requires digits != [] && Decimal.AllDigits(digits)
    ensures DispatchHeader(header + "?" + digits, rest) ==
            Call(CommandAt(i).query.value, Decimal.Value(digits), ArgumentsOf(rest))
  {
    EveryCommandRequires(i);
    QueryIsFound(i, header);
    var path := HeaderIsParts(CommandAt(i), header);
    HiddenInPath(path, header, digits);
    DispatchByKey(header + "?" + digits, header + "?", rest, CommandAt(i).query.value);
  }

  lemma HiddenInPath(path: seq<string>, header: string, digits: string)
    requires path != [] && header == Join(path, ':') && forall w :: w in path ==> IsPart(w)
    requires digits != [] && Decimal.AllDigits(digits)
    ensures var raw := header + "?" + digits;
            !EndsWithQuery(raw) && HeaderOf(raw).channel == Decimal.Value(digits) && KeyOf(raw) == header + "?"
  {
    var front, last := path[..|path| - 1], path[|path| - 1];
    assert path == front + [last];
    HiddenKey(front, last, digits);
    MarkedText(front, last, digits);
  }

  lemma MarkedText(front: seq<string>, last: string, digits: string)
    ensures Join(front + [last + "?" + digits], ':') == Join(front + [last], ':') + "?" + digits
  {
    JoinLonger(front, last, "?");
    JoinLonger(front, last + "?", digits);
  }

  lemma JoinLonger(front: seq<string>, last: string, more: string)
    ensures Join(front + [last + more], ':') == Join(front + [last], ':') + more
  {
    assert (front + [last])[..|front|] == front && (front + [last + more])[..|front|] == front;
    if front != [] {
      assert Join(front, ':') + [':'] + (last + more) == Join(front, ':') + [':'] + last + more;
    }
  }

  lemma {:induction false} StartsWithoutColon(words: seq<string>)
    requires words != [] && forall w :: w in words ==> w != [] && ':' !in w
    ensures Join(words, ':') != [] && Join(words, ':')[0] != ':'
  {
    assert words[0] in words && words[0][0] in words[0];
    if |words| > 1 {
      var front := words[..|words| - 1];
      assert forall w :: w in front ==> w in words;
      StartsWithoutColon(front);
    }
  }

  // ---- Sending ----

  datatype ClientMethod =
    | PutVoltage | AskVoltage | PutCurrentLimit | AskCurrent
    | PutOutput | AskOutput
    | PutOvpLevel | AskOvpLevel | PutOvpEnabled | AskOvpEnabled
    | PutOcpLevel | AskOcpLevel | PutOcpEnabled | AskOcpEnabled
    | PutRemoteSense | AskRemoteSense
    | CheckErrors  // sent after every other line

  /** The channel number as a client method prints it; the error query has none. */
  function ChannelDigits(m: ClientMethod, channel: nat): (digits: string)
    ensures Decimal.AllDigits(digits)
  {
    if m.CheckErrors? then "" else Decimal.Print(channel)
  }

  /** The header a client method sends, with the channel number on its first keyword. */
  function LineHeader(m: ClientMethod, channel: nat): string {
    var n := ChannelDigits(m, channel);
    match m
    case PutVoltage => "SOUR" + n + ":" + "VOLT"
    case AskVoltage => "MEAS" + n + ":" + "VOLT"
    case PutCurrentLimit => "SOUR" + n + ":" + "CURR"
    case AskCurrent => "MEAS" + n + ":" + "CURR"
    case PutOutput => "OUTP" + n + ":" + "STAT"
    case AskOutput => "OUTP" + n + ":" + "STAT"
    case PutOvpLevel => "SOUR" + n + ":" + "VOLT" + ":" + "PROT"
    case AskOvpLevel => "SOUR" + n + ":" + "VOLT" + ":" + "PROT" + ":" + "LEV"
    case PutOvpEnabled => "SOUR" + n + ":" + "VOLT" + ":" + "PROT" + ":" + "STAT"
    case AskOvpEnabled => "SOUR" + n + ":" + "VOLT" + ":" + "PROT" + ":" + "STAT"
    case PutOcpLevel => "SOUR" + n + ":" + "CURR" + ":" + "PROT"
    case AskOcpLevel => "SOUR" + n + ":" + "CURR" + ":" + "PROT" + ":" + "LEV"
    case PutOcpEnabled => "SOUR" + n + ":" + "CURR" + ":" + "PROT" + ":" + "STAT"
    case AskOcpEnabled => "SOUR" + n + ":" + "CURR" + ":" + "PROT" + ":" + "STAT"
    case PutRemoteSense => "SYST" + n + ":" + "SENS"
    case AskRemoteSense => "SYST" + n + ":" + "SENS"
    case CheckErrors => "SYST" + n + ":" + "ERR"
  }

  /** The line a client method sends; `value` is the formatted argument, which queries do not have. */
  function Line(m: ClientMethod, channel: nat, value: string): string {
    ":" + LineHeader(m, channel) + if IsQuery(m) then "?" else " " + value
  }

  predicate IsQuery(m: ClientMethod) {
    m in {AskVoltage, AskCurrent, AskOutput, AskOvpLevel, AskOvpEnabled, AskOcpLevel, AskOcpEnabled, AskRemoteSense,
          CheckErrors}
  }

  /** What each client method means the supply to do. */
  function Intended(m: ClientMethod): Handler {
    match m
    case PutVoltage => SetVoltage
    case AskVoltage => MeasureVoltage
    case PutCurrentLimit => SetCurrent
    case AskCurrent => MeasureCurrent
    case PutOutput => SetOutput
    case AskOutput => QueryOutput
    case PutOvpLevel => SetOvpLevel
    case AskOvpLevel => QueryOvpLevel
    case PutOvpEnabled => SetOvpState
    case AskOvpEnabled => QueryOvpState
    case PutOcpLevel => SetOcpLevel
    case AskOcpLevel => QueryOcpLevel
    case PutOcpEnabled => SetOcpState
    case AskOcpEnabled => QueryOcpState
    case PutRemoteSense => SetRemoteSense
    case AskRemoteSense => QueryRemoteSense
    case CheckErrors => GetError
  }

  // ---- Every line reaches the intended handler ----

  /** The command a method's header belongs to, and how its header spells the command. */
  datatype Route = Route(command: nat, withPrefix: bool, count: nat)

  function RouteOf(m: ClientMethod): Route {
    match m
    case PutVoltage => Route(9, true, 0)
    case AskVoltage => Route(7, false, 0)
    case PutCurrentLimit => Route(10, true, 0)
    case AskCurrent => Route(8, false, 0)
    case PutOutput => Route(4, false, 1)
    case AskOutput => Route(4, false, 1)
    case PutOvpLevel => Route(13, true, 0)
    case AskOvpLevel => Route(13, true, 1)
    case PutOvpEnabled => Route(14, true, 0)
    case AskOvpEnabled => Route(14, true, 0)
    case PutOcpLevel => Route(11, true, 0)
    case AskOcpLevel => Route(11, true, 1)
    case PutOcpEnabled => Route(12, true, 0)
    case AskOcpEnabled => Route(12, true, 0)
    case PutRemoteSense => Route(15, false, 0)
    case AskRemoteSense => Route(15, false, 0)
    case CheckErrors => Route(3, false, 0)
  }

  lemma RouteIsIntended(m: ClientMethod)
    ensures var r := RouteOf(m);
            && r.command < COMMAND_COUNT && r.count <= |CommandAt(r.command).suffix|
            && (if IsQuery(m) then CommandAt(r.command).query else CommandAt(r.command).write) == Some(Intended(m))
  {}

  function Keywords(m: ClientMethod): seq<Keyword> {
    match m
    case PutVoltage => [SOURce, VOLTage]
    case AskVoltage => [MEASure, VOLTage]
    case PutCurrentLimit => [SOURce, CURRent]
    case AskCurrent => [MEASure, CURRent]
    case PutOutput => [OUTPut, STATe]
    case AskOutput => [OUTPut, STATe]
    case PutOvpLevel => [SOURce, VOLTage, PROTection]
    case AskOvpLevel => [SOURce, VOLTage, PROTection, LEVel]
    case PutOvpEnabled => [SOURce, VOLTage, PROTection, STATe]
    case AskOvpEnabled => [SOURce, VOLTage, PROTection, STATe]
    case PutOcpLevel => [SOURce, CURRent, PROTection]
    case AskOcpLevel => [SOURce, CURRent, PROTection, LEVel]
    case PutOcpEnabled => [SOURce, CURRent, PROTection, STATe]
    case AskOcpEnabled => [SOURce, CURRent, PROTection, STATe]
    case PutRemoteSense => [SYSTem, SENSe]
    case AskRemoteSense => [SYSTem, SENSe]
    case CheckErrors => [SYSTem, ERRor]
  }

  lemma KeywordsOfRoute(m: ClientMethod)
    ensures var r := RouteOf(m);
            && r.command < COMMAND_COUNT && r.count <= |CommandAt(r.command).suffix|
            && Keywords(m) == KeywordChoice(CommandAt(r.command), r.withPrefix, r.count)
  {}

  function Shorts(ks: seq<Keyword>): (r: seq<string>)
    ensures |r| == |ks|
    ensures forall i :: 0 <= i < |r| ==> r[i] == Short(ks[i])
  {
    seq(|ks|, i requires 0 <= i < |ks| => Short(ks[i]))
  }

  /** A header with its channel number on the first keyword. */
  function NumberedHeader(words: seq<string>, digits: string): string
    requires words != []
  {
    Join([words[0] + digits] + words[1..], ':')
  }

  /** An argument the client can format: no comma, and no space at either end. */
  predicate IsArgument(value: string) {
    value != [] && ',' !in value && !IsSpace(value[0]) && !IsSpace(value[|value| - 1])
  }

  lemma SpelledHeaderIsFound(i: nat, withPrefix: bool, count: nat, isQuery: bool, handler: Handler)
    requires i < COMMAND_COUNT && count <= |CommandAt(i).suffix|
    requires (if isQuery then CommandAt(i).query else CommandAt(i).write) == Some(handler)
    ensures Lookup(Join(Shorts(KeywordChoice(CommandAt(i), withPrefix, count)), ':') + if isQuery then "?" else "") == Some(handler)
  {
    var c := CommandAt(i);
    var ks := KeywordChoice(c, withPrefix, count);
    var header := Join(Shorts(ks), ':');
    forall j | 0 <= j < |ks| ensures Shorts(ks)[j] == ShortForm(Spellings(ks)[j]) {
      FormsOfKeyword(ks[j]);
    }
    ChoiceOfSpellings(c, withPrefix, count);
    assert StandsFor(LayoutOf(c), Shorts(ks));
    HeadersAreExact(LayoutOf(c), header);
    assert (header + "?")[..|header|] == header && header + "" == header;
    assert RegistersUnder(i, header + if isQuery then "?" else "", handler);
    LookupIff(header + if isQuery then "?" else "", handler);
  }

  lemma NumberedHeaderSplits(words: seq<string>, digits: string)
    requires words != [] && (forall w :: w in words ==> IsWord(w)) && Decimal.AllDigits(digits)
    ensures Split(RemovePrefix([':'] + NumberedHeader(words, digits), ':'), ':') == [words[0] + digits] + words[1..]
  {
    var parts := [words[0] + digits] + words[1..];
    assert ([':'] + Join(parts, ':'))[1..] == Join(parts, ':');
    forall p | p in parts ensures ':' !in p {
      NoSeparators(words, digits, p, ':');
    }
    SplitOfJoin(parts, ':');
  }

  lemma NumberedWordsNormalize(words: seq<string>, digits: string)
    requires words != [] && (forall w :: w in words ==> IsWord(w)) && Decimal.AllDigits(digits)
    ensures NormalizeParts([words[0] + digits] + words[1..]) == Header(words, if digits == [] then 1 else Decimal.Value(digits))
  {
    var suffixes := FirstOnly(digits, |words|);
    forall w | w in words ensures IsStem(w) {
      WordIsStem(w);
    }
    NormalizeStems(words, suffixes);
    FirstOnlyNames(digits, suffixes);
    SuffixedFirst(words, digits, suffixes);
  }

  lemma SuffixedFirst(words: seq<string>, digits: string, suffixes: seq<string>)
    requires words != [] && |suffixes| == |words|
    requires suffixes[0] == digits && forall i :: 0 < i < |suffixes| ==> suffixes[i] == []
    ensures Suffixed(words, suffixes) == [words[0] + digits] + words[1..]
  {
    forall i | 0 <= i < |words| ensures Suffixed(words, suffixes)[i] == ([words[0] + digits] + words[1..])[i] {
      if i > 0 {
        assert words[i] + [] == words[i];
      }
    }
  }

  lemma NumberedHeaderNormalizes(words: seq<string>, digits: string)
    requires words != [] && (forall w :: w in words ==> IsWord(w)) && Decimal.AllDigits(digits)
    ensures NormalizeParts(Split(RemovePrefix([':'] + NumberedHeader(words, digits), ':'), ':')) ==
            Header(words, if digits == [] then 1 else Decimal.Value(digits))
  {
    NumberedHeaderSplits(words, digits);
    NumberedWordsNormalize(words, digits);
  }

  lemma NoSeparators(words: seq<string>, digits: string, p: string, c: char)
    requires words != [] && forall w :: w in words ==> IsWord(w)
    requires p in [words[0] + digits] + words[1..]
    requires Decimal.AllDigits(digits) && !IsUpper(c) && !Decimal.IsDigit(c)
    ensures c !in p
  {
    assert IsWord(words[0]);
    if p in words[1..] {
      assert p in words;
    }
  }

  lemma HeaderWithout(words: seq<string>, digits: string, c: char)
    requires words != [] && forall w :: w in words ==> IsWord(w)
    requires Decimal.AllDigits(digits) && !IsUpper(c) && !Decimal.IsDigit(c) && c != ':'
    ensures c !in NumberedHeader(words, digits)
  {
    var parts := [words[0] + digits] + words[1..];
    forall p | p in parts ensures c !in p {
      NoSeparators(words, digits, p, c);
    }
    JoinWithout(parts, c, ':');
  }

  lemma StripNothing(s: string)
    requires s != [] && !IsSpace(s[0]) && !IsSpace(s[|s| - 1])
    ensures Strip(s) == s
  {}

  lemma DispatchOfQuery(h: string)
    requires ' ' !in h
    ensures Dispatch([':'] + h + ['?']) == DispatchHeader([':'] + h + ['?'], [])
  {
    var line := [':'] + h + ['?'];
    StripNothing(line);
    assert ' ' !in line;
    assert SplitOnce(line, ' ').None?;
    assert line[..|line| - 1] == [':'] + h;
  }

  lemma DispatchOfWrite(h: string, value: string)
    requires ' ' !in h && '?' !in h && IsArgument(value)
    ensures Dispatch([':'] + h + [' '] + value) == DispatchHeader([':'] + h, value)
  {
    var line := [':'] + h + [' '] + value;
    StripNothing(line);
    StripNothing(value);
    SplitOnceAt([':'] + h, ' ', value);
    assert !EndsWithQuery([':'] + h);
  }

  lemma OneArgument(value: string)
    requires IsArgument(value)
    ensures Arguments(Split(value, ',')) == [value]
  {
    SplitAppend([], value, ',');
    assert [] + value == value;
    StripNothing(value);
    assert [value][..0] == [];
  }

  lemma WordsOf(m: ClientMethod)
    ensures Keywords(m) != [] && forall k :: k in Keywords(m) ==> k != IDN && k != RST && k != CLS
  {}

  lemma ShortsAreWords(ks: seq<Keyword>)
    requires forall k :: k in ks ==> k != IDN && k != RST && k != CLS
    ensures forall w :: w in Shorts(ks) ==> IsWord(w)
  {
    forall w | w in Shorts(ks) ensures IsWord(w) {
      var i :| 0 <= i < |ks| && Shorts(ks)[i] == w;
      assert ks[i] in ks;
      ShortIsWord(ks[i]);
    }
  }

  lemma ShortIsWord(k: Keyword)
    requires k != IDN && k != RST && k != CLS
    ensures IsWord(Short(k))
  {}

  lemma JoinOfTwo(a: string, b: string)
    ensures Join([a, b], ':') == a + ":" + b
  {
    assert [a, b][..1] == [a];
  }

  lemma JoinOfThree(a: string, b: string, c: string)
    ensures Join([a, b, c], ':') == a + ":" + b + ":" + c
  {
    JoinOfTwo(a, b);
    assert [a, b, c][..2] == [a, b];
  }

  lemma JoinOfFour(a: string, b: string, c: string, d: string)
    ensures Join([a, b, c, d], ':') == a + ":" + b + ":" + c + ":" + d
  {
    JoinOfThree(a, b, c);
    assert [a, b, c, d][..3] == [a, b, c];
  }

  lemma HeaderOfTwo(a: Keyword, b: Keyword, digits: string)
    ensures NumberedHeader(Shorts([a, b]), digits) == Short(a) + digits + ":" + Short(b)
  {
    var head := Short(a) + digits;
    assert [head] + Shorts([a, b])[1..] == [head, Short(b)];
    JoinOfTwo(Short(a) + digits, Short(b));
  }

  lemma HeaderOfThree(a: Keyword, b: Keyword, c: Keyword, digits: string)
    ensures NumberedHeader(Shorts([a, b, c]), digits) ==
            Short(a) + digits + ":" + Short(b) + ":" + Short(c)
  {
    var head := Short(a) + digits;
    assert [head] + Shorts([a, b, c])[1..] == [head, Short(b), Short(c)];
    JoinOfThree(Short(a) + digits, Short(b), Short(c));
  }

  lemma HeaderOfFour(a: Keyword, b: Keyword, c: Keyword, d: Keyword, digits: string)
    ensures NumberedHeader(Shorts([a, b, c, d]), digits) ==
            Short(a) + digits + ":" + Short(b) + ":" + Short(c) + ":" + Short(d)
  {
    var head := Short(a) + digits;
    assert [head] + Shorts([a, b, c, d])[1..] == [head, Short(b), Short(c), Short(d)];
    JoinOfFour(Short(a) + digits, Short(b), Short(c), Short(d));
  }

  lemma HeaderOfShortMethod(m: ClientMethod, channel: nat)
    requires |Keywords(m)| == 2
    ensures LineHeader(m, channel) == Short(Keywords(m)[0]) + ChannelDigits(m, channel) + ":" + Short(Keywords(m)[1])
  {}

  lemma HeaderOfMediumMethod(m: ClientMethod, channel: nat)
    requires |Keywords(m)| == 3
    ensures LineHeader(m, channel) ==
            Short(Keywords(m)[0]) + ChannelDigits(m, channel) + ":" + Short(Keywords(m)[1]) + ":" + Short(Keywords(m)[2])
  {}

  lemma HeaderOfLongMethod(m: ClientMethod, channel: nat)
    requires |Keywords(m)| == 4
    ensures LineHeader(m, channel) ==
            Short(Keywords(m)[0]) + ChannelDigits(m, channel) + ":" + Short(Keywords(m)[1]) + ":" + Short(Keywords(m)[2])
            + ":" + Short(Keywords(m)[3])
  {}

  lemma HeaderOfMethod(m: ClientMethod, channel: nat, h: string, ks: seq<Keyword>)
    requires h == LineHeader(m, channel) && ks == Keywords(m)
    ensures ks != [] && h == NumberedHeader(Shorts(ks), ChannelDigits(m, channel))
  {
    assert 2 <= |ks| <= 4;
    if |ks| == 2 {
      HeaderOfShortMethod(m, channel);
      HeaderOfTwo(ks[0], ks[1], ChannelDigits(m, channel));
      assert ks == [ks[0], ks[1]];
    } else if |ks| == 3 {
      HeaderOfMediumMethod(m, channel);
      HeaderOfThree(ks[0], ks[1], ks[2], ChannelDigits(m, channel));
      assert ks == [ks[0], ks[1], ks[2]];
    } else {
      HeaderOfLongMethod(m, channel);
      HeaderOfFour(ks[0], ks[1], ks[2], ks[3], ChannelDigits(m, channel));
      assert ks == [ks[0], ks[1], ks[2], ks[3]];
    }
  }

  lemma QueryReachesHandler(words: seq<string>, digits: string, handler: Handler)
    requires words != [] && (forall w :: w in words ==> IsWord(w)) && Decimal.AllDigits(digits)
    requires Lookup(Join(words, ':') + "?") == Some(handler)
    ensures Dispatch([':'] + NumberedHeader(words, digits) + ['?']) ==
            Call(handler, if digits == [] then 1 else Decimal.Value(digits), [])
  {
    HeaderWithout(words, digits, ' ');
    NumberedHeaderNormalizes(words, digits);
    DispatchOfQuery(NumberedHeader(words, digits));
    HeaderWithMark([':'] + NumberedHeader(words, digits));
  }

  lemma WriteReachesHandler(words: seq<string>, digits: string, value: string, handler: Handler)
    requires words != [] && (forall w :: w in words ==> IsWord(w)) && Decimal.AllDigits(digits)
    requires Lookup(Join(words, ':') + "") == Some(handler) && IsArgument(value)
    ensures Dispatch([':'] + NumberedHeader(words, digits) + [' '] + value) ==
            Call(handler, if digits == [] then 1 else Decimal.Value(digits), [value])
  {
    HeaderWithout(words, digits, ' ');
    HeaderWithout(words, digits, '?');
    NumberedHeaderNormalizes(words, digits);
    OneArgument(value);
    DispatchOfWrite(NumberedHeader(words, digits), value);
    HeaderWithoutMark([':'] + NumberedHeader(words, digits));
  }

  lemma MethodIsRegistered(m: ClientMethod)
    ensures var words := Shorts(Keywords(m));
            && words != [] && (forall w :: w in words ==> IsWord(w))
            && Lookup(Join(words, ':') + if IsQuery(m) then "?" else "") == Some(Intended(m))
  {
    var r := RouteOf(m);
    WordsOf(m);
    ShortsAreWords(Keywords(m));
    KeywordsOfRoute(m);
    RouteIsIntended(m);
    SpelledHeaderIsFound(r.command, r.withPrefix, r.count, IsQuery(m), Intended(m));
  }

  /** Every line the client sends, for every channel number, normalizes to the canonical header
      and that channel, and is dispatched to the intended handler with its argument; the error
      query, which names no channel, goes to the first one. */
  lemma ClientLinesAreUnderstood(m: ClientMethod, channel: nat, value: string)
    requires IsArgument(value)
    ensures Dispatch(Line(m, channel, value)) ==
            Call(Intended(m), if m.CheckErrors? then 1 else channel, if IsQuery(m) then [] else [value])
  {
    HeaderOfMethod(m, channel, LineHeader(m, channel), Keywords(m));
    MethodIsRegistered(m);
    LineOfHeader(m, channel, value, LineHeader(m, channel));
    Decimal.ValueOfPrint(channel);
    if IsQuery(m) {
      QueryReachesHandler(Shorts(Keywords(m)), ChannelDigits(m, channel), Intended(m));
    } else {
      WriteReachesHandler(Shorts(Keywords(m)), ChannelDigits(m, channel), value, Intended(m));
    }
  }

  lemma LineOfHeader(m: ClientMethod, channel: nat, value: string, h: string)
    requires h == LineHeader(m, channel)
    ensures Line(m, channel, value) == if IsQuery(m) then [':'] + h + ['?'] else [':'] + h + [' '] + value
  {
    assert [':'] + h + ([' '] + value) == [':'] + h + [' '] + value;
  }
}
