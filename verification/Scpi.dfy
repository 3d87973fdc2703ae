/** SCPI headers: the patterns a supply registers, the headers they stand for, and how a
    received header is brought to canonical form. Text is ASCII. */
module Scpi {
  import opened Wrappers
  import opened Text
  import Decimal

  // ---- Normalizing a received header ----

  function RemovePrefix(s: string, c: char): string {
    if s != [] && s[0] == c then s[1..] else s
  }

  /** The part of `s` before its trailing digits. */
  function BaseOf(s: string): (base: string)
    ensures base <= s && Decimal.AllDigits(s[|base|..])
    ensures base != [] ==> !Decimal.IsDigit(base[|base| - 1])
  {
    if s == [] || !Decimal.IsDigit(s[|s| - 1]) then s else BaseOf(s[..|s| - 1])
  }

  datatype Header = Header(canonical: seq<string>, channel: nat)

  /** Each part loses its numeric suffix; the last suffix there is names the channel. */
  function NormalizeParts(parts: seq<string>): Header {
    if parts == [] then Header([], 1)
    else
      var front := NormalizeParts(parts[..|parts| - 1]);
      var upper := Upper(parts[|parts| - 1]);
      var base := BaseOf(upper);
      var suffix := upper[|base|..];
      Header(front.canonical + [base], if suffix != [] then Decimal.Value(suffix) else front.channel)
  }

  method NormalizeHeader(header: string) returns (canonical: string, channel: nat)
    ensures var h := NormalizeParts(Split(RemovePrefix(header, ':'), ':'));
            canonical == Join(h.canonical, ':') && channel == h.channel
  {
    channel := 1;
    var bases: seq<string> := [];
    var raws := Split(RemovePrefix(header, ':'), ':');
    for i := 0 to |raws|
      invariant Header(bases, channel) == NormalizeParts(raws[..i])
    {
      assert raws[..i + 1][..i] == raws[..i];
      var upper := Upper(raws[i]);
      var base := BaseOf(upper);
      var suffix := upper[|base|..];
      if suffix != [] {
        channel := Decimal.Value(suffix);
      }
      bases := bases + [base];
    }
    assert raws[..|raws|] == raws;
    canonical := Join(bases, ':');
  }

  /** A keyword in a form that is matched: upper-case letters only. */
  predicate IsWord(w: string) {
    w != [] && forall i :: 0 <= i < |w| ==> IsUpper(w[i])
  }

  /** Text that normalizing keeps: no lower-case letters, and no digit at the end. */
  predicate IsStem(w: string) {
    w != [] && !Decimal.IsDigit(w[|w| - 1]) && forall i :: 0 <= i < |w| ==> !IsLower(w[i])
  }

  /** Each stem with its numeric suffix, which may be empty. */
  function Suffixed(stems: seq<string>, suffixes: seq<string>): (parts: seq<string>)
    requires |stems| == |suffixes|
    ensures |parts| == |stems|
    ensures forall i :: 0 <= i < |parts| ==> parts[i] == stems[i] + suffixes[i]
  {
    seq(|stems|, i requires 0 <= i < |stems| => stems[i] + suffixes[i])
  }

  /** The channel that the last suffix names; one when there is none. */
  function NamedChannel(suffixes: seq<string>): nat
    requires forall d :: d in suffixes ==> Decimal.AllDigits(d)
  {
    if suffixes == [] then 1
    else
      var last := suffixes[|suffixes| - 1];
      if last != [] then Decimal.Value(last) else NamedChannel(suffixes[..|suffixes| - 1])
  }

  lemma {:induction false} BaseOfSuffixed(w: string, digits: string)
    requires IsStem(w) && Decimal.AllDigits(digits)
    ensures Upper(w + digits) == w + digits && BaseOf(w + digits) == w
  {
    assert forall i :: 0 <= i < |digits| ==> Decimal.IsDigit(digits[i]) && !IsLower(digits[i]);
    if digits == [] {
      assert w + digits == w;
    } else {
      var k := |digits| - 1;
      BaseOfSuffixed(w, digits[..k]);
      assert (w + digits)[..|w + digits| - 1] == w + digits[..k];
    }
  }

  /** Normalizing strips every suffix, and the last one that is there names the channel. */
  lemma {:induction false} NormalizeStems(stems: seq<string>, suffixes: seq<string>)
    requires |stems| == |suffixes|
    requires forall w :: w in stems ==> IsStem(w)
    requires forall d :: d in suffixes ==> Decimal.AllDigits(d)
    ensures NormalizeParts(Suffixed(stems, suffixes)) == Header(stems, NamedChannel(suffixes))
  {
    if stems != [] {
      var k := |stems| - 1;
      var parts := Suffixed(stems, suffixes);
      NormalizeStems(stems[..k], suffixes[..k]);
      assert parts[..k] == Suffixed(stems[..k], suffixes[..k]);
      BaseOfSuffixed(stems[k], suffixes[k]);
      assert parts[k][|stems[k]|..] == suffixes[k];
      assert stems[..k] + [stems[k]] == stems;
    }
  }

  /** No suffix but a first one. */
  function FirstOnly(digits: string, count: nat): (suffixes: seq<string>)
    requires count > 0 && Decimal.AllDigits(digits)
    ensures |suffixes| == count
    ensures forall d :: d in suffixes ==> Decimal.AllDigits(d)
    ensures suffixes[0] == digits && forall i :: 0 < i < count ==> suffixes[i] == []
  {
    [digits] + seq(count - 1, i => "")
  }

  lemma {:induction false} FirstOnlyNames(digits: string, suffixes: seq<string>)
    requires suffixes != [] && suffixes[0] == digits && forall i :: 0 < i < |suffixes| ==> suffixes[i] == []
    requires forall d :: d in suffixes ==> Decimal.AllDigits(d)
    ensures NamedChannel(suffixes) == if digits == [] then 1 else Decimal.Value(digits)
  {
    if |suffixes| > 1 {
      FirstOnlyNames(digits, suffixes[..|suffixes| - 1]);
    } else {
      assert suffixes[..0] == [];
    }
  }

  lemma WordIsStem(w: string)
    requires IsWord(w)
    ensures IsStem(w)
  {
    assert IsUpper(w[|w| - 1]);
  }

  // ---- Header patterns ----

  /** One keyword of a pattern, with its short form in capitals, and whether it was in brackets. */
  datatype Segment = Segment(text: string, optional: bool)

  datatype Layout = Layout(prefix: seq<string>, required: seq<string>, suffix: seq<string>)

  function Texts(segments: seq<Segment>): (r: seq<string>)
    ensures |r| == |segments|
    ensures forall i :: 0 <= i < |r| ==> r[i] == segments[i].text
  {
    seq(|segments|, i requires 0 <= i < |segments| => segments[i].text)
  }

  /** Optional keywords, then at least one required one, then optional keywords. */
  ghost predicate Shaped(segments: seq<Segment>, start: nat, stop: nat) {
    && start < stop <= |segments|
    && (forall i :: 0 <= i < start ==> segments[i].optional)
    && (forall i :: start <= i < stop ==> !segments[i].optional)
    && (forall i :: stop <= i < |segments| ==> segments[i].optional)
  }

  lemma ShapeIsUnique(segments: seq<Segment>, a: nat, b: nat, start: nat, stop: nat)
    requires Shaped(segments, a, b) && Shaped(segments, start, stop)
    ensures a == start && b == stop
  {
    assert !segments[a].optional && !segments[start].optional;
    assert !segments[b - 1].optional && !segments[stop - 1].optional;
  }

  lemma NotShaped(segments: seq<Segment>, first: nat, i: nat, stop: nat)
    requires first < i < stop <= |segments|
    requires !segments[first].optional && segments[i].optional && !segments[stop - 1].optional
    ensures !exists a: nat, b: nat :: Shaped(segments, a, b)
  {
    forall a: nat, b: nat ensures !Shaped(segments, a, b) {
      if Shaped(segments, a, b) {
        assert false;
      }
    }
  }

  function LayoutAt(segments: seq<Segment>, start: nat, stop: nat): Layout
    requires start <= stop <= |segments|
  {
    Layout(Texts(segments[..start]), Texts(segments[start..stop]), Texts(segments[stop..]))
  }

  /** Splits a pattern into its three parts; `None` when it does not have that shape. */
  method SplitSegments(segments: seq<Segment>) returns (r: Option<Layout>)
    ensures r.Some? <==> exists start: nat, stop: nat :: Shaped(segments, start, stop)
    ensures forall start: nat, stop: nat :: Shaped(segments, start, stop) ==> r == Some(LayoutAt(segments, start, stop))
  {
    var start := 0;
    while start < |segments| && segments[start].optional
      invariant 0 <= start <= |segments|
      invariant forall i :: 0 <= i < start ==> segments[i].optional
    {
      start := start + 1;
    }
    if start == |segments| {
      assert forall a: nat, b: nat :: Shaped(segments, a, b) ==> !segments[a].optional;
      return None;
    }
    var stop := |segments|;
    while segments[stop - 1].optional
      invariant start < stop <= |segments|
      invariant forall i :: stop <= i < |segments| ==> segments[i].optional
      decreases stop
    {
      stop := stop - 1;
    }
    for i := start to stop
      invariant forall j :: start <= j < i ==> !segments[j].optional
    {
      if segments[i].optional {
        NotShaped(segments, start, i, stop);
        return None;
      }
    }
    assert Shaped(segments, start, stop);
    forall a: nat, b: nat | Shaped(segments, a, b) ensures a == start && b == stop {
      ShapeIsUnique(segments, a, b, start, stop);
    }
    r := Some(LayoutAt(segments, start, stop));
  }

  function ShortForm(text: string): string {
    if text == [] then []
    else
      var front, last := ShortForm(text[..|text| - 1]), text[|text| - 1];
      if IsLower(last) then front else front + [last]
  }

  /** The short form of a keyword and, when it differs, the long one. */
  function KeywordForms(text: string): seq<string> {
    if ShortForm(text) == Upper(text) then [ShortForm(text)] else [ShortForm(text), Upper(text)]
  }

  /** Extends every path by every form. */
  function Extend(paths: seq<seq<string>>, forms: seq<string>): seq<seq<string>> {
    if paths == [] then []
    else
      Extend(paths[..|paths| - 1], forms)
      + seq(|forms|, i requires 0 <= i < |forms| => paths[|paths| - 1] + [forms[i]])
  }

  function PathsFor(parts: seq<string>): seq<seq<string>> {
    if parts == [] then [[]]
    else Extend(PathsFor(parts[..|parts| - 1]), KeywordForms(parts[|parts| - 1]))
  }

  method ComputePaths(parts: seq<string>) returns (paths: seq<seq<string>>)
    ensures paths == PathsFor(parts)
  {
    paths := [[]];
    for i := 0 to |parts|
      invariant paths == PathsFor(parts[..i])
    {
      assert parts[..i + 1][..i] == parts[..i];
      paths := Extend(paths, KeywordForms(parts[i]));
    }
    assert parts[..|parts|] == parts;
  }

  /** The keyword lists a pattern stands for: the prefix whole or absent, and any leading run
      of the suffix. */
  function Variants(l: Layout): seq<seq<string>> {
    if l.prefix == [] then Plain(l)
    else Plain(l) + seq(|Plain(l)|, i requires 0 <= i < |Plain(l)| => l.prefix + Plain(l)[i])
  }

  function AllPaths(variants: seq<seq<string>>): seq<seq<string>> {
    if variants == [] then [] else AllPaths(variants[..|variants| - 1]) + PathsFor(variants[|variants| - 1])
  }

  function Headers(l: Layout): seq<string> {
    var paths := AllPaths(Variants(l));
    seq(|paths|, i requires 0 <= i < |paths| => Join(paths[i], ':'))
  }

  /** A path spells the keywords, each in its short or its long form. */
  ghost predicate Spells(path: seq<string>, keywords: seq<string>) {
    && |path| == |keywords|
    && forall i :: 0 <= i < |path| ==> path[i] == ShortForm(keywords[i]) || path[i] == Upper(keywords[i])
  }

  lemma {:induction false} ExtendMembers(paths: seq<seq<string>>, forms: seq<string>, path: seq<string>)
    ensures path in Extend(paths, forms) <==> path != [] && path[..|path| - 1] in paths && path[|path| - 1] in forms
  {
    if paths != [] {
      var k := |paths| - 1;
      ExtendMembers(paths[..k], forms, path);
      assert paths == paths[..k] + [paths[k]];
      var tail := seq(|forms|, i requires 0 <= i < |forms| => paths[k] + [forms[i]]);
      if path != [] && path[..|path| - 1] == paths[k] && path[|path| - 1] in forms {
        var i :| 0 <= i < |forms| && forms[i] == path[|path| - 1];
        assert tail[i] == path;
      }
    }
  }

  lemma SpellsOneMore(path: seq<string>, keywords: seq<string>)
    requires keywords != []
    ensures Spells(path, keywords) <==>
            && path != []
            && Spells(path[..|path| - 1], keywords[..|keywords| - 1])
            && path[|path| - 1] in KeywordForms(keywords[|keywords| - 1])
  {
    if path != [] && |path| == |keywords| {
      var k := |path| - 1;
      assert path[k] in KeywordForms(keywords[k]) <==> path[k] == ShortForm(keywords[k]) || path[k] == Upper(keywords[k]);
      assert forall i :: 0 <= i < k ==> path[..k][i] == path[i] && keywords[..k][i] == keywords[i];
    }
  }

  /** The paths of a keyword list are exactly its spellings. */
  lemma {:induction false} PathsAreSpellings(keywords: seq<string>, path: seq<string>)
    ensures path in PathsFor(keywords) <==> Spells(path, keywords)
  {
    if keywords != [] {
      var k := |keywords| - 1;
      ExtendMembers(PathsFor(keywords[..k]), KeywordForms(keywords[k]), path);
      if path != [] {
        PathsAreSpellings(keywords[..k], path[..|path| - 1]);
      }
      SpellsOneMore(path, keywords);
    }
  }

  lemma {:induction false} AllPathsMembers(variants: seq<seq<string>>, path: seq<string>)
    ensures path in AllPaths(variants) <==> exists v :: v in variants && Spells(path, v)
  {
    if variants != [] {
      var k := |variants| - 1;
      AllPathsMembers(variants[..k], path);
      PathsAreSpellings(variants[k], path);
      assert variants == variants[..k] + [variants[k]];
    }
  }

  /** The keyword list with the prefix present or not and the first `count` suffix keywords. */
  function Choice(l: Layout, withPrefix: bool, count: nat): seq<string>
    requires count <= |l.suffix|
  {
    (if withPrefix then l.prefix else []) + l.required + l.suffix[..count]
  }

  ghost predicate StandsFor(l: Layout, path: seq<string>) {
    exists withPrefix: bool, count: nat :: count <= |l.suffix| && Spells(path, Choice(l, withPrefix, count))
  }

  function Plain(l: Layout): (r: seq<seq<string>>)
    ensures |r| == |l.suffix| + 1
    ensures forall count :: 0 <= count <= |l.suffix| ==> r[count] == l.required + l.suffix[..count]
  {
    seq(|l.suffix| + 1, count requires 0 <= count <= |l.suffix| => l.required + l.suffix[..count])
  }

  lemma ChoiceOfPlain(l: Layout, count: nat)
    requires count <= |l.suffix|
    ensures Choice(l, false, count) == Plain(l)[count]
    ensures Choice(l, true, count) == l.prefix + Plain(l)[count]
  {
    assert l.prefix + l.required + l.suffix[..count] == l.prefix + (l.required + l.suffix[..count]);
  }

  lemma ChoiceIsVariant(l: Layout, withPrefix: bool, count: nat)
    requires count <= |l.suffix|
    ensures Choice(l, withPrefix, count) in Variants(l)
  {
    ChoiceOfPlain(l, count);
    var at := if withPrefix && l.prefix != [] then |Plain(l)| + count else count;
    assert Variants(l)[at] == Choice(l, withPrefix, count);
  }

  lemma VariantIsChoice(l: Layout, v: seq<string>)
    requires v in Variants(l)
    ensures exists withPrefix: bool, count: nat :: count <= |l.suffix| && v == Choice(l, withPrefix, count)
  {
    var i :| 0 <= i < |Variants(l)| && Variants(l)[i] == v;
    var count := if i < |Plain(l)| then i else i - |Plain(l)|;
    ChoiceOfPlain(l, count);
    assert v == Choice(l, i >= |Plain(l)|, count);
  }

  /** The registered headers are exactly the joined spellings of: the prefix whole or absent,
      the required keywords, and a leading run of the suffix. */
  lemma HeadersAreExact(l: Layout, header: string)
    ensures header in Headers(l) <==> exists path :: StandsFor(l, path) && header == Join(path, ':')
  {
    var paths := AllPaths(Variants(l));
    if header in Headers(l) {
      var i :| 0 <= i < |paths| && Join(paths[i], ':') == header;
      PathStandsFor(l, paths[i]);
    }
    if exists path :: StandsFor(l, path) && header == Join(path, ':') {
      var path :| StandsFor(l, path) && header == Join(path, ':');
      PathStandsFor(l, path);
      var i :| 0 <= i < |paths| && paths[i] == path;
      assert Headers(l)[i] == header;
    }
  }

  lemma PathStandsFor(l: Layout, path: seq<string>)
    ensures path in AllPaths(Variants(l)) <==> StandsFor(l, path)
  {
    AllPathsMembers(Variants(l), path);
    if path in AllPaths(Variants(l)) {
      var v :| v in Variants(l) && Spells(path, v);
      VariantIsChoice(l, v);
    }
    if StandsFor(l, path) {
      var withPrefix: bool, count: nat :| count <= |l.suffix| && Spells(path, Choice(l, withPrefix, count));
      ChoiceIsVariant(l, withPrefix, count);
    }
  }
}
