/** Where the bytes of a Modbus value lie: what each swap moves, which word of a register block has
    which weight, and so which number a read of given device tables publishes. */
module ModbusLayout {
  import opened Wrappers
  import opened Rounding
  import opened Bits
  import opened Bytes
  import opened ModbusCodec
  import opened ModbusRegister
  import opened ModbusConfig
  import opened ModbusAccess

  // ---- What each swap moves ----

  lemma {:induction false} ByteSwapAt(s: seq<Byte>, i: nat)
    requires |s| % 2 == 0 && i < |s|
    ensures ByteSwap(s)[i] == s[if i % 2 == 0 then i + 1 else i - 1]
  {
    if i >= 2 {
      var rest, j := s[2..], i - 2;
      ByteSwapAt(rest, j);
      assert ByteSwap(s) == [s[1], s[0]] + ByteSwap(rest);
      assert rest[if j % 2 == 0 then j + 1 else j - 1] == s[if i % 2 == 0 then i + 1 else i - 1];
    }
  }

  lemma FourLater(i: nat)
    ensures (i + 4) % 4 == i % 4
  {}

  lemma {:induction false} WordSwapAt(s: seq<Byte>, i: nat)
    requires |s| % 4 == 0 && i < |s|
    ensures WordSwap(s)[i] == s[if i % 4 < 2 then i + 2 else i - 2]
  {
    if i >= 4 {
      var j := i - 4;
      WordSwapAt(s[4..], j);
      FourLater(j);
      assert WordSwap(s)[i] == WordSwap(s[4..])[j];
    }
  }

  lemma LongSwapAt(s: seq<Byte>, i: nat)
    requires |s| == 8 && i < 8
    ensures LongSwap(s)[i] == s[(i + 4) % 8]
  {}

  function BytePlace(j: nat): nat {
    if j % 2 == 0 then j + 1 else j - 1
  }

  function WordPlace(j: nat): nat {
    if j % 4 < 2 then j + 2 else j - 2
  }

  /** The place in the received bytes of byte `j` of the value, most significant first, when there
      are `n` of them. */
  function Source(j: nat, swaps: Swaps, n: nat): nat {
    var long := if swaps.longSwap && n == 8 then (j + 4) % 8 else j;
    var word := if swaps.wordSwap && n >= 4 then WordPlace(long) else long;
    if swaps.byteSwap then BytePlace(word) else word
  }

  predicate ByteCount(n: nat) {
    n == 2 || n == 4 || n == 8
  }

  lemma ByteStage(s: seq<Byte>, on: bool, j: nat)
    requires ByteCount(|s|) && j < |s|
    ensures BytePlace(j) < |s| && (if on then ByteSwap(s) else s)[j] == s[if on then BytePlace(j) else j]
  {
    ByteSwapAt(s, j);
  }

  lemma WordStage(s: seq<Byte>, on: bool, j: nat)
    requires ByteCount(|s|) && j < |s|
    ensures |s| >= 4 ==> WordPlace(j) < |s|
    ensures (if on then WordSwap(s) else s)[j] == s[if on && |s| >= 4 then WordPlace(j) else j]
  {
    if |s| >= 4 {
      WordSwapAt(s, j);
    }
  }

  lemma LongStage(s: seq<Byte>, on: bool, j: nat)
    requires ByteCount(|s|) && j < |s|
    ensures (if on then LongSwap(s) else s)[j] == s[if on && |s| == 8 then (j + 4) % 8 else j]
  {
    if |s| == 8 {
      LongSwapAt(s, j);
    }
  }

  lemma UnscrambleAt(s: seq<Byte>, swaps: Swaps, j: nat)
    requires ByteCount(|s|) && j < |s|
    ensures Source(j, swaps, |s|) < |s| && Unscramble(s, swaps)[j] == s[Source(j, swaps, |s|)]
  {
    var byte := if swaps.byteSwap then ByteSwap(s) else s;
    var word := if swaps.wordSwap then WordSwap(byte) else byte;
    var l := if swaps.longSwap && |s| == 8 then (j + 4) % 8 else j;
    var w := if swaps.wordSwap && |s| >= 4 then WordPlace(l) else l;
    LongStage(word, swaps.longSwap, j);
    WordStage(byte, swaps.wordSwap, l);
    ByteStage(s, swaps.byteSwap, w);
  }

  // ---- Which word has which weight ----

  function ByteOfWords(ws: seq<Word>, k: nat): Byte
    requires k < 2 * |ws|
  {
    if k % 2 == 0 then ws[k / 2] / 256 else ws[k / 2] % 256
  }

  lemma {:induction false} FromWordsAt(ws: seq<Word>, k: nat)
    requires k < 2 * |ws|
    ensures FromWords(ws)[k] == ByteOfWords(ws, k)
  {
    if k >= 2 {
      FromWordsAt(ws[1..], k - 2);
    }
  }

  function Paired(k: nat): nat {
    if k % 2 == 0 then k + 1 else k - 1
  }

  /** The register, counted from the first of `n`, that holds word `k` of the value, counted from
      the most significant. */
  function WordAt(k: nat, swaps: Swaps, n: nat): nat {
    var long := if swaps.longSwap && n == 4 then (k + 2) % 4 else k;
    if swaps.wordSwap && n >= 2 then Paired(long) else long
  }

  /** A word as the device means it. */
  function Meant(w: Word, swaps: Swaps): Word {
    if swaps.byteSwap then 256 * (w % 256) + w / 256 else w
  }

  predicate Spans(ws: seq<Word>) {
    |ws| == 1 || |ws| == 2 || |ws| == 4
  }

  lemma WordAtIsPlace(k: nat, swaps: Swaps, n: nat)
    requires (n == 1 || n == 2 || n == 4) && k < n
    ensures WordAt(k, swaps, n) < n
  {}

  /** The words of the value, most significant first. */
  function Arranged(ws: seq<Word>, swaps: Swaps): (r: seq<Word>)
    requires Spans(ws)
    ensures |r| == |ws|
  {
    seq(|ws|, k requires 0 <= k < |ws| => WordAtIsPlace(k, swaps, |ws|); Meant(ws[WordAt(k, swaps, |ws|)], swaps))
  }

  lemma BytePlaceInWord(j: nat)
    ensures BytePlace(j) / 2 == j / 2 && BytePlace(j) % 2 == 1 - j % 2
  {}

  lemma WordPlaceInPair(j: nat)
    ensures WordPlace(j) / 2 == Paired(j / 2) && WordPlace(j) % 2 == j % 2
  {}

  lemma LongPlace(j: nat)
    ensures (j + 4) % 8 / 2 == (j / 2 + 2) % 4 && (j + 4) % 8 % 2 == j % 2
  {}

  lemma SourceIsWord(j: nat, swaps: Swaps, n: nat)
    ensures Source(j, swaps, 2 * n) / 2 == WordAt(j / 2, swaps, n)
    ensures Source(j, swaps, 2 * n) % 2 == if swaps.byteSwap then 1 - j % 2 else j % 2
  {
    var long := if swaps.longSwap && n == 4 then (j + 4) % 8 else j;
    var word := if swaps.wordSwap && n >= 2 then WordPlace(long) else long;
    LongPlace(j);
    WordPlaceInPair(long);
    BytePlaceInWord(word);
  }

  lemma MeantBytes(w: Word, swaps: Swaps)
    ensures Meant(w, swaps) / 256 == (if swaps.byteSwap then w % 256 else w / 256)
    ensures Meant(w, swaps) % 256 == (if swaps.byteSwap then w / 256 else w % 256)
  {}

  lemma ArrangedAt(ws: seq<Word>, swaps: Swaps, j: nat)
    requires Spans(ws) && j < 2 * |ws|
    ensures Source(j, swaps, 2 * |ws|) < 2 * |ws|
    ensures ByteOfWords(Arranged(ws, swaps), j) == ByteOfWords(ws, Source(j, swaps, 2 * |ws|))
  {
    WordAtIsPlace(j / 2, swaps, |ws|);
    SourceIsWord(j, swaps, |ws|);
    MeantBytes(ws[WordAt(j / 2, swaps, |ws|)], swaps);
  }

  lemma UnscrambleArranges(ws: seq<Word>, swaps: Swaps)
    requires Spans(ws)
    ensures Unscramble(FromWords(ws), swaps) == FromWords(Arranged(ws, swaps))
  {
    var l, r := Unscramble(FromWords(ws), swaps), FromWords(Arranged(ws, swaps));
    forall j: nat | j < 2 * |ws| ensures l[j] == r[j] {
      UnscrambleAt(FromWords(ws), swaps, j);
      FromWordsAt(ws, Source(j, swaps, 2 * |ws|));
      FromWordsAt(Arranged(ws, swaps), j);
      ArrangedAt(ws, swaps, j);
    }
  }

  lemma {:induction false} FromWordsOfLast(ws: seq<Word>)
    requires ws != []
    ensures FromWords(ws) == FromWords(ws[..|ws| - 1]) + [ws[|ws| - 1] / 256, ws[|ws| - 1] % 256]
  {
    if |ws| > 1 {
      FromWordsOfLast(ws[1..]);
      assert ws[1..][..|ws| - 2] == ws[..|ws| - 1][1..];
    }
  }

  lemma FromBigOfPair(s: seq<Byte>, a: Byte, b: Byte)
    ensures FromBig(s + [a, b]) == 65536 * FromBig(s) + 256 * a + b
  {
    assert (s + [a, b])[..|s| + 1] == s + [a];
    assert (s + [a])[..|s|] == s;
  }

  lemma ValueOfLast(ws: seq<Word>)
    requires ws != []
    ensures FromBig(FromWords(ws)) == 65536 * FromBig(FromWords(ws[..|ws| - 1])) + ws[|ws| - 1] as int
  {
    FromWordsOfLast(ws);
    FromBigOfPair(FromWords(ws[..|ws| - 1]), ws[|ws| - 1] / 256, ws[|ws| - 1] % 256);
  }

  /** The value of one, two or four words, most significant first. */
  function Weighed(vs: seq<Word>): nat
    requires Spans(vs)
  {
    if |vs| == 1 then vs[0]
    else if |vs| == 2 then 0x1_0000 * vs[0] as int + vs[1] as int
    else 0x1_0000_0000_0000 * vs[0] as int + 0x1_0000_0000 * vs[1] as int + 0x1_0000 * vs[2] as int + vs[3] as int
  }

  lemma ValueOfWords(vs: seq<Word>)
    requires Spans(vs)
    ensures FromBig(FromWords(vs)) == Weighed(vs)
  {
    ValueOfLast(vs);
    if |vs| > 1 {
      ValueOfLast(vs[..|vs| - 1]);
      assert vs[..|vs| - 1][..|vs| - 2] == vs[..|vs| - 2];
    }
    if |vs| > 2 {
      ValueOfLast(vs[..2]);
      ValueOfLast(vs[..1]);
      assert vs[..2][..1] == vs[..1] && vs[..1][..0] == [];
    }
  }

  /** What registers decode to under any combination of swaps: the words in their order, each with
      its weight. */
  lemma DecodedValue(ws: seq<Word>, swaps: Swaps)
    requires Spans(ws)
    ensures DecodeBits(ws, swaps) == Weighed(Arranged(ws, swaps))
  {
    UnscrambleArranges(ws, swaps);
    ValueOfWords(Arranged(ws, swaps));
  }

  /** So one register with a byte swap decodes low byte first, and two decode high word first, or
      low word first with a word swap. */
  lemma DecodedPair(a: Word, b: Word)
    ensures DecodeBits([a], Swaps(true, false, false)) == 256 * (a as int % 256) + a as int / 256
    ensures DecodeBits([a, b], Swaps(false, false, false)) == 0x1_0000 * a as int + b as int
    ensures DecodeBits([a, b], Swaps(false, true, false)) == 0x1_0000 * b as int + a as int
  {
    DecodedValue([a], Swaps(true, false, false));
    DecodedValue([a, b], Swaps(false, false, false));
    DecodedValue([a, b], Swaps(false, true, false));
  }

  /** And four have the words of each half exchanged by a word swap, the halves by a long swap. */
  lemma DecodedQuad(ws: seq<Word>)
    requires |ws| == 4
    ensures Arranged(ws, Swaps(false, true, false)) == [ws[1], ws[0], ws[3], ws[2]]
    ensures Arranged(ws, Swaps(false, false, true)) == [ws[2], ws[3], ws[0], ws[1]]
    ensures Arranged(ws, Swaps(false, true, true)) == [ws[3], ws[2], ws[1], ws[0]]
  {}

  // ---- What a read of the tables publishes ----

  /** The words that a register occupies in the table of its type. */
  function WordsOf(m: Memory, r: RegisterDef): (ws: seq<Word>)
    requires ValidMemory(m) && Fits(r)
    ensures Spans(ws)
  {
    var table := if r.registerType.Holding? then m.holding else m.input;
    table[r.startingAddress..r.startingAddress + RegisterCount(r.dataType)]
  }

  /** Two's complement of a value of `n` words. */
  function Signed(value: nat, n: nat): int {
    var modulus := if n == 1 then 0x1_0000 else if n == 2 then 0x1_0000_0000 else 0x1_0000_0000_0000_0000;
    if 2 * value >= modulus then value - modulus else value
  }

  lemma SignedValue(ws: seq<Word>, t: DataType, swaps: Swaps)
    requires IsInteger(t) && |ws| == RegisterCount(t) && Spans(ws)
    ensures var value := Weighed(Arranged(ws, swaps));
            DecodeInt(ws, t, swaps) == if IsSigned(t) then Signed(value, |ws|) else value
  {
    DecodedValue(ws, swaps);
    EncodeOfDecodeBits(ws, t, swaps);
  }

  /** The raw value of a register, said by the tables alone. */
  ghost predicate RawIs(floats: FloatCodec, m: Memory, r: RegisterDef, raw: PyValue)
    requires ValidMemory(m) && Fits(r)
  {
    match r.registerType
    case Coil => raw == Int(if m.coils[r.startingAddress] then 1 else 0)
    case Discrete => raw == Int(if m.discrete[r.startingAddress] then 1 else 0)
    case _ =>
      var ws := WordsOf(m, r);
      if r.dataType.Bool? then raw == Int(if ws[0] != 0 then 1 else 0)
      else if IsInteger(r.dataType) then
        var value := Weighed(Arranged(ws, r.swaps));
        raw == Int(if IsSigned(r.dataType) then Signed(value, |ws|) else value)
      else raw == Float(floats.unpack(r.dataType, Weighed(Arranged(ws, r.swaps))))
  }

  lemma ReadsRaw(floats: FloatCodec, m: Memory, r: RegisterDef)
    requires ValidMemory(m) && Fits(r)
    ensures RawIs(floats, m, r, ReadRaw(floats, m, r))
  {
    if !IsBitType(r.registerType) {
      if IsInteger(r.dataType) {
        SignedValue(WordsOf(m, r), r.dataType, r.swaps);
      } else {
        DecodedValue(WordsOf(m, r), r.swaps);
      }
    }
  }

  lemma PublishesRaw(prefix: string, floats: FloatCodec, m: Memory, r: RegisterDef)
    requires ValidMemory(m) && Fits(r) && NoDuplicates(NamesOf(r))
    ensures Publishes(Reading(prefix, floats, m, r), prefix + "." + r.name, r.scale, ReadRaw(floats, m, r))
  {
    ReadingChannels(prefix, floats, m, r);
  }

  /** A read publishes, under the device's and the register's name, the number that the words of
      its own addresses make in their order, multiplied by the gain with the offset added when the
      register is scaled. */
  lemma PublishedValue(prefix: string, floats: FloatCodec, m: Memory, r: RegisterDef)
    requires ValidMemory(m) && Fits(r) && NoDuplicates(NamesOf(r))
    ensures exists raw :: RawIs(floats, m, r, raw) && Publishes(Reading(prefix, floats, m, r), prefix + "." + r.name, r.scale, raw)
  {
    ReadsRaw(floats, m, r);
    PublishesRaw(prefix, floats, m, r);
  }

  predicate Publishes(channels: Channels, key: string, scale: Option<LinearScale>, raw: PyValue) {
    key in channels &&
    channels[key] == if scale.Some? then Float(scale.value.gain * Number(raw) + scale.value.offset) else raw
  }

  // ---- Bits of a register, and swaps that are accepted ----

  lemma {:induction false} BitIsDigit(n: int, k: nat)
    ensures Bit(n, k) <==> n / Pow2(k) % 2 == 1
    decreases k
  {
    if k > 0 {
      BitIsDigit(n / 2, k - 1);
      DivideTwice(n, Pow2(k - 1));
    }
  }

  lemma ShownDigit(channels: Channels, prefix: string, n: nat, b: BitDef)
    requires ShowsBit(channels, prefix, n, b)
    ensures var key := prefix + "." + b.name; key in channels && channels[key] == Int(n / Pow2(b.bitIndex) % 2)
  {
    BitIsDigit(n, b.bitIndex);
  }

  /** A register with a bitmap publishes each listed bit of its word, as zero or one, under the
      device's and the bit's name; an accepted bitmap lists bits of that one word. */
  lemma PublishedBits(prefix: string, floats: FloatCodec, m: Memory, r: RegisterDef, b: BitDef)
    requires ValidMemory(m) && Fits(r) && RegisterAccepted(r) && NoDuplicates(NamesOf(r)) && b in BitsOf(r)
    ensures b.bitIndex < 16 && |WordsOf(m, r)| == 1
    ensures var key, word := prefix + "." + b.name, Meant(WordsOf(m, r)[0], r.swaps);
            key in Reading(prefix, floats, m, r) && Reading(prefix, floats, m, r)[key] == Int(word / Pow2(b.bitIndex) % 2)
  {
    ReadsRaw(floats, m, r);
    ReadingChannels(prefix, floats, m, r);
    var word := Meant(WordsOf(m, r)[0], r.swaps);
    assert ReadRaw(floats, m, r) == Int(word);
    RoundOfInt(word);
    ShownDigit(Reading(prefix, floats, m, r), prefix, word, b);
  }

  /** A swap is accepted exactly when the registers have something to swap: two words or more, or
      two halves of two words. */
  lemma SwapsAcceptedIff(r: RegisterDef)
    ensures SwapsAccepted(r) <==>
            (r.swaps.wordSwap ==> RegisterCount(r.dataType) >= 2) && (r.swaps.longSwap ==> RegisterCount(r.dataType) == 4)
  {}
}
