/** Whole lines as a client may type them: spaces around them, any case, several arguments; and the
    command table in plain words. */
module ScpiLines {
  import opened Wrappers
  import opened Text
  import opened Scpi
  import opened ScpiCommands
  import opened ScpiClient
  import Decimal

  // ---- Spaces ----

  predicate AllSpaces(s: string) {
    forall i :: 0 <= i < |s| ==> IsSpace(s[i])
  }

  /** Text without a space at either end. */
  predicate Trimmed(s: string) {
    s != [] ==> !IsSpace(s[0]) && !IsSpace(s[|s| - 1])
  }

  lemma {:induction false} StripLeftOf(left: string, s: string)
    requires AllSpaces(left) && (s != [] ==> !IsSpace(s[0]))
    ensures StripLeft(left + s) == s
  {
    if left == [] {
      assert left + s == s;
    } else {
      StripLeftOf(left[1..], s);
      assert (left + s)[1..] == left[1..] + s;
    }
  }

  lemma {:induction false} StripRightOf(s: string, right: string)
    requires AllSpaces(right) && (s != [] ==> !IsSpace(s[|s| - 1]))
    ensures StripRight(s + right) == s
  {
    if right == [] {
      assert s + right == s;
    } else {
      var k := |right| - 1;
      StripRightOf(s, right[..k]);
      assert (s + right)[..|s + right| - 1] == s + right[..k];
    }
  }

  /** Stripping takes away exactly the spaces at both ends. */
  lemma StripTakesSpaces(left: string, core: string, right: string)
    requires AllSpaces(left) && AllSpaces(right) && Trimmed(core)
    ensures Strip(left + core + right) == core
  {
    if core == [] {
      StripLeftOf(left + right, []);
      assert left + core + right == left + right + [];
    } else {
      StripLeftOf(left, core + right);
      StripRightOf(core, right);
      assert left + core + right == left + (core + right);
    }
  }

  // ---- Arguments ----

  lemma {:induction false} ArgumentsAppend(a: seq<string>, b: seq<string>)
    ensures Arguments(a + b) == Arguments(a) + Arguments(b)
  {
    if b == [] {
      assert a + b == a;
    } else {
      var k := |b| - 1;
      assert (a + b)[..|a + b| - 1] == a + b[..k];
      ArgumentsAppend(a, b[..k]);
    }
  }

  /** The parts of a list are the arguments, in their order, without the spaces around them; a blank
      part counts for nothing. */
  lemma ArgumentsOfParts(before: seq<string>, left: string, core: string, right: string, rest: seq<string>)
    requires AllSpaces(left) && AllSpaces(right) && Trimmed(core)
    ensures Arguments(before + [left + core + right] + rest) ==
            Arguments(before) + (if core == [] then [] else [core]) + Arguments(rest)
  {
    var part := left + core + right;
    StripTakesSpaces(left, core, right);
    ArgumentsAppend(before, [part]);
    ArgumentsAppend(before + [part], rest);
    assert [part][..0] == [];
  }

  lemma {:induction false} TrimmedArguments(tokens: seq<string>)
    requires forall t :: t in tokens ==> IsArgument(t)
    ensures Arguments(tokens) == tokens
  {
    if tokens != [] {
      var k := |tokens| - 1;
      assert forall t :: t in tokens[..k] ==> t in tokens;
      TrimmedArguments(tokens[..k]);
      assert tokens[k] in tokens;
      StripNothing(tokens[k]);
      assert tokens == tokens[..k] + [tokens[k]];
    }
  }

  /** A list of arguments between commas. */
  function ListOf(tokens: seq<string>): string {
    Join(tokens, ',')
  }

  lemma {:induction false} ListIsTrimmed(tokens: seq<string>)
    requires tokens != [] && forall t :: t in tokens ==> IsArgument(t)
    ensures ListOf(tokens) != [] && Trimmed(ListOf(tokens))
  {
    assert tokens[|tokens| - 1] in tokens;
    if |tokens| > 1 {
      assert forall t :: t in tokens[..|tokens| - 1] ==> t in tokens;
      ListIsTrimmed(tokens[..|tokens| - 1]);
    }
  }

  lemma ArgumentsOfList(tokens: seq<string>)
    requires tokens != [] && forall t :: t in tokens ==> IsArgument(t)
    ensures ArgumentsOf(ListOf(tokens)) == tokens
  {
    ListIsTrimmed(tokens);
    SplitOfJoin(tokens, ',');
    TrimmedArguments(tokens);
  }

  // ---- Lines ----

  /** How a header and its arguments are answered: refused when no command has the key, or when a
      query is given arguments; handed to the handler with all its arguments otherwise. */
  function Handled(raw: string, tokens: seq<string>): Dispatched {
    match Lookup(KeyOf(raw))
    case None => Refused(UndefinedHeader)
    case Some(h) => if EndsWithQuery(raw) && tokens != [] then Refused(ParameterNotAllowed) else Call(h, HeaderOf(raw).channel, tokens)
  }

  predicate IsRaw(raw: string) {
    raw != [] && ' ' !in raw && Trimmed(raw)
  }

  /** A line with arguments, whatever spaces are around it and after its header. */
  lemma LineWithArguments(left: string, raw: string, gap: string, tokens: seq<string>, right: string)
    requires AllSpaces(left) && AllSpaces(gap) && AllSpaces(right) && IsRaw(raw)
    requires tokens != [] && forall t :: t in tokens ==> IsArgument(t)
    ensures Dispatch(left + (raw + " " + gap + ListOf(tokens)) + right) == Handled(raw, tokens)
  {
    var list := ListOf(tokens);
    ListIsTrimmed(tokens);
    StripTakesSpaces(left, raw + " " + gap + list, right);
    assert raw + " " + gap + list == raw + [' '] + (gap + list);
    SplitOnceAt(raw, ' ', gap + list);
    StripTakesSpaces(gap, list, []);
    assert gap + list + [] == gap + list;
    ArgumentsOfList(tokens);
  }

  /** A line without arguments. */
  lemma LineWithoutArguments(left: string, raw: string, right: string)
    requires AllSpaces(left) && AllSpaces(right) && IsRaw(raw)
    ensures Dispatch(left + raw + right) == Handled(raw, [])
  {
    StripTakesSpaces(left, raw, right);
    assert SplitOnce(raw, ' ').None?;
  }

  /** A line of spaces is ignored. */
  lemma BlankLine(line: string)
    requires AllSpaces(line)
    ensures Dispatch(line) == Ignored
  {
    StripTakesSpaces(line, [], []);
    assert line + [] + [] == line;
  }

  // ---- Case ----

  function Uppers(parts: seq<string>): (r: seq<string>)
    ensures |r| == |parts| && forall i :: 0 <= i < |r| ==> r[i] == Upper(parts[i])
  {
    seq(|parts|, i requires 0 <= i < |parts| => Upper(parts[i]))
  }

  lemma UpperOfLast(s: string)
    requires s != []
    ensures Upper(s) == Upper(s[..|s| - 1]) + [UpperChar(s[|s| - 1])]
  {}

  lemma UppersOfGrown(parts: seq<string>, ch: char)
    requires parts != []
    ensures Uppers(GrowLast(parts, [ch])) == GrowLast(Uppers(parts), [UpperChar(ch)])
  {
    var last := parts[|parts| - 1];
    UpperOfLast(last + [ch]);
    assert (last + [ch])[..|last|] == last;
  }

  lemma {:induction false} SplitOfUpper(s: string)
    ensures Split(Upper(s), ':') == Uppers(Split(s, ':'))
  {
    if s != [] {
      var k := |s| - 1;
      UpperOfLast(s);
      SplitOfUpper(s[..k]);
      assert Upper(s)[..k] == Upper(s[..k]);
      if s[k] == ':' {
        assert Uppers(Split(s[..k], ':') + [[]]) == Uppers(Split(s[..k], ':')) + [[]];
      } else {
        UppersOfGrown(Split(s[..k], ':'), s[k]);
      }
    }
  }

  lemma {:induction false} NormalizeUppers(parts: seq<string>)
    ensures NormalizeParts(Uppers(parts)) == NormalizeParts(parts)
  {
    if parts != [] {
      var k := |parts| - 1;
      NormalizeUppers(parts[..k]);
      assert Uppers(parts)[..k] == Uppers(parts[..k]);
      assert Upper(Upper(parts[k])) == Upper(parts[k]);
    }
  }

  /** What is split of a header as it was received. */
  function TextOf(raw: string): string {
    RemovePrefix(if EndsWithQuery(raw) then raw[..|raw| - 1] else raw, ':')
  }

  lemma UpperKeepsMark(raw: string)
    ensures EndsWithQuery(Upper(raw)) == EndsWithQuery(raw)
    ensures EndsWithQuery(raw) ==> Upper(raw)[..|raw| - 1] == Upper(raw[..|raw| - 1])
  {}

  lemma UpperKeepsPrefix(s: string)
    ensures RemovePrefix(Upper(s), ':') == Upper(RemovePrefix(s, ':'))
  {}

  lemma HeaderOfUpper(raw: string)
    ensures HeaderOf(Upper(raw)) == HeaderOf(raw)
  {
    UpperKeepsMark(raw);
    UpperKeepsPrefix(if EndsWithQuery(raw) then raw[..|raw| - 1] else raw);
    assert TextOf(Upper(raw)) == Upper(TextOf(raw));
    SplitOfUpper(TextOf(raw));
    NormalizeUppers(Split(TextOf(raw), ':'));
    HeaderOfText(raw);
    HeaderOfText(Upper(raw));
  }

  lemma HeaderOfText(raw: string)
    ensures HeaderOf(raw) == NormalizeParts(Split(TextOf(raw), ':'))
  {}

  /** Headers may be written in any case: two that differ in case alone are handled alike. */
  lemma CaseDoesNotMatter(a: string, b: string, tokens: seq<string>)
    requires Upper(a) == Upper(b)
    ensures Handled(a, tokens) == Handled(b, tokens)
  {
    HeaderOfUpper(a);
    HeaderOfUpper(b);
    UpperKeepsMark(a);
    UpperKeepsMark(b);
  }

  lemma UpperInWords()
    ensures Upper("volt:prot?") == "VOLT:PROT?" && Upper("azAZ09*") == "AZAZ09*"
  {}

  // ---- The command table in words ----

  lemma ShortsOfOne(a: Keyword)
    ensures Join(Shorts([a]), ':') == Short(a)
  {
    assert Shorts([a]) == [Short(a)];
  }

  lemma ShortsOfTwo(a: Keyword, b: Keyword)
    ensures Join(Shorts([a, b]), ':') == Short(a) + ":" + Short(b)
  {
    assert Shorts([a, b]) == [Short(a), Short(b)];
    JoinOfTwo(Short(a), Short(b));
  }

  lemma ShortsOfThree(a: Keyword, b: Keyword, c: Keyword)
    ensures Join(Shorts([a, b, c]), ':') == Short(a) + ":" + Short(b) + ":" + Short(c)
  {
    assert Shorts([a, b, c]) == [Short(a), Short(b), Short(c)];
    JoinOfThree(Short(a), Short(b), Short(c));
  }

  /** A command in its shortest spelling, with what it does when written and when asked. */
  datatype Entry = Entry(name: string, write: Option<Handler>, query: Option<Handler>)

  function EntryAt(i: nat): Entry {
    match i
    case 0 => Entry("*IDN", None, Some(GetId))
    case 1 => Entry("*RST", Some(Reset), None)
    case 2 => Entry("*CLS", Some(ClearStatus), None)
    case 3 => Entry("SYST:ERR", None, Some(GetError))
    case 4 => Entry("OUTP", Some(SetOutput), Some(QueryOutput))
    case 5 => Entry("OUTP:PROT:CLE", Some(ClearProtectionLatch), None)
    case 6 => Entry("OUTP:PROT:TRIP", None, Some(QueryProtectionTripped))
    case 7 => Entry("MEAS:VOLT", None, Some(MeasureVoltage))
    case 8 => Entry("MEAS:CURR", None, Some(MeasureCurrent))
    case 9 => Entry("VOLT", Some(SetVoltage), Some(QueryVoltage))
    case 10 => Entry("CURR", Some(SetCurrent), Some(QueryCurrent))
    case 11 => Entry("CURR:PROT", Some(SetOcpLevel), Some(QueryOcpLevel))
    case 12 => Entry("CURR:PROT:STAT", Some(SetOcpState), Some(QueryOcpState))
    case 13 => Entry("VOLT:PROT", Some(SetOvpLevel), Some(QueryOvpLevel))
    case 14 => Entry("VOLT:PROT:STAT", Some(SetOvpState), Some(QueryOvpState))
    case _ => Entry("SYST:SENS", Some(SetRemoteSense), Some(QueryRemoteSense))
  }

  lemma NameOfOne(a: Keyword, ks: seq<Keyword>)
    requires ks == [a]
    ensures Join(Shorts(ks), ':') == Short(a)
  {
    ShortsOfOne(a);
  }

  lemma NameOfTwo(a: Keyword, b: Keyword, ks: seq<Keyword>, name: string)
    requires ks == [a, b] && name == Short(a) + ":" + Short(b)
    ensures Join(Shorts(ks), ':') == name
  {
    ShortsOfTwo(a, b);
  }

  lemma NameOfThree(a: Keyword, b: Keyword, c: Keyword, ks: seq<Keyword>, name: string)
    requires ks == [a, b, c] && name == Short(a) + ":" + Short(b) + ":" + Short(c)
    ensures Join(Shorts(ks), ':') == name
  {
    ShortsOfThree(a, b, c);
  }

  lemma ShortEntry(i: nat)
    requires i < COMMAND_COUNT && |CommandAt(i).required| == 1
    ensures EntryAt(i).name == Short(CommandAt(i).required[0])
  {}

  lemma MediumEntry(i: nat)
    requires i < COMMAND_COUNT && |CommandAt(i).required| == 2
    ensures EntryAt(i).name == Short(CommandAt(i).required[0]) + ":" + Short(CommandAt(i).required[1])
  {}

  lemma LongSpellings()
    ensures "OUTP" + ":" + "PROT" + ":" + "CLE" == "OUTP:PROT:CLE"
    ensures "OUTP" + ":" + "PROT" + ":" + "TRIP" == "OUTP:PROT:TRIP"
    ensures "CURR" + ":" + "PROT" + ":" + "STAT" == "CURR:PROT:STAT"
    ensures "VOLT" + ":" + "PROT" + ":" + "STAT" == "VOLT:PROT:STAT"
  {}

  lemma LongEntry(i: nat)
    requires i < COMMAND_COUNT && |CommandAt(i).required| == 3
    ensures EntryAt(i).name ==
            Short(CommandAt(i).required[0]) + ":" + Short(CommandAt(i).required[1]) + ":" + Short(CommandAt(i).required[2])
  {
    LongSpellings();
    assert i == 5 || i == 6 || i == 12 || i == 14;
  }

  lemma EntryLength(i: nat)
    requires i < COMMAND_COUNT
    ensures 1 <= |CommandAt(i).required| <= 3
  {}

  lemma EntryName(i: nat, ks: seq<Keyword>, name: string)
    requires i < COMMAND_COUNT && ks == CommandAt(i).required && name == EntryAt(i).name
    ensures Join(Shorts(ks), ':') == name
  {
    EntryLength(i);
    if |ks| == 1 {
      ShortEntry(i);
      NameOfOne(ks[0], ks);
    } else if |ks| == 2 {
      MediumEntry(i);
      NameOfTwo(ks[0], ks[1], ks, name);
    } else {
      LongEntry(i);
      NameOfThree(ks[0], ks[1], ks[2], ks, name);
    }
  }

  lemma EntryHandlers(i: nat)
    requires i < COMMAND_COUNT
    ensures CommandAt(i).write == EntryAt(i).write && CommandAt(i).query == EntryAt(i).query
  {}

  /** Every command of the table reaches its handler under its name. */
  lemma TableInWords(i: nat)
    requires i < COMMAND_COUNT
    ensures EntryAt(i).write.Some? ==> Lookup(EntryAt(i).name) == EntryAt(i).write
    ensures EntryAt(i).query.Some? ==> Lookup(EntryAt(i).name + "?") == EntryAt(i).query
  {
    var c, name := CommandAt(i), EntryAt(i).name;
    EntryName(i, c.required, name);
    EntryHandlers(i);
    assert KeywordChoice(c, false, 0) == c.required;
    assert name + "" == name;
    if c.write.Some? {
      SpelledHeaderIsFound(i, false, 0, false, c.write.value);
    }
    if c.query.Some? {
      SpelledHeaderIsFound(i, false, 0, true, c.query.value);
    }
  }
}
