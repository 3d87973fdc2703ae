/** Typed values in 16-bit Modbus registers: two's complement, big-endian bytes, and the byte,
    word and long swaps that a device may need. */
module ModbusCodec {
  import opened Wrappers
  import opened Bits
  import opened Bytes

  type Word = w: int | 0 <= w < 0x1_0000

  datatype DataType = Uint16 | Int16 | Uint32 | Int32 | Uint64 | Int64 | Float32 | Float64 | Bool

  datatype Swaps = Swaps(byteSwap: bool, wordSwap: bool, longSwap: bool)

  /** Number of 16-bit registers a data type spans. */
  function RegisterCount(t: DataType): (n: nat)
    ensures 1 <= n <= 4
  {
    match t
    case Uint16 => 1
    case Int16 => 1
    case Uint32 => 2
    case Int32 => 2
    case Float32 => 2
    case Uint64 => 4
    case Int64 => 4
    case Float64 => 4
    case Bool => 1
  }

  predicate IsInteger(t: DataType) {
    !t.Float32? && !t.Float64? && !t.Bool?
  }

  predicate IsSigned(t: DataType) {
    t.Int16? || t.Int32? || t.Int64?
  }

  function MinValue(t: DataType): int
    requires IsInteger(t)
  {
    match t
    case Int16 => -32768
    case Int32 => -2147483648
    case Int64 => -9223372036854775808
    case _ => 0
  }

  function MaxValue(t: DataType): int
    requires IsInteger(t)
  {
    match t
    case Uint16 => 65535
    case Int16 => 32767
    case Uint32 => 4294967295
    case Int32 => 2147483647
    case Uint64 => 18446744073709551615
    case Int64 => 9223372036854775807
  }

  /** One more than the largest bit pattern of the type's registers. */
  function Modulus(t: DataType): int {
    match RegisterCount(t)
    case 1 => 0x1_0000
    case 2 => 0x1_0000_0000
    case _ => 0x1_0000_0000_0000_0000
  }

  // ---- Swaps ----

  /** Swaps the two bytes of every word. */
  function ByteSwap(s: seq<Byte>): (r: seq<Byte>)
    ensures |r| == |s|
  {
    if |s| < 2 then s else [s[1], s[0]] + ByteSwap(s[2..])
  }

  /** Swaps the two words of every four bytes; a shorter rest stays as it is. */
  function WordSwap(s: seq<Byte>): (r: seq<Byte>)
    ensures |r| == |s|
  {
    if |s| < 4 then s else s[2..4] + s[..2] + WordSwap(s[4..])
  }

  function LongSwap(s: seq<Byte>): (r: seq<Byte>)
    ensures |r| == |s|
  {
    if |s| == 8 then s[4..] + s[..4] else s
  }

  function Scramble(s: seq<Byte>, swaps: Swaps): (r: seq<Byte>)
    ensures |r| == |s|
  {
    var long := if swaps.longSwap then LongSwap(s) else s;
    var word := if swaps.wordSwap then WordSwap(long) else long;
    if swaps.byteSwap then ByteSwap(word) else word
  }

  function Unscramble(s: seq<Byte>, swaps: Swaps): (r: seq<Byte>)
    ensures |r| == |s|
  {
    var byte := if swaps.byteSwap then ByteSwap(s) else s;
    var word := if swaps.wordSwap then WordSwap(byte) else byte;
    if swaps.longSwap then LongSwap(word) else word
  }

  lemma {:induction false} ByteSwapTwice(s: seq<Byte>)
    ensures ByteSwap(ByteSwap(s)) == s
  {
    if |s| >= 2 {
      var r := ByteSwap(s);
      assert r[2..] == ByteSwap(s[2..]);
      ByteSwapTwice(s[2..]);
      assert ByteSwap(r) == [s[0], s[1]] + s[2..];
    }
  }

  lemma {:induction false} WordSwapTwice(s: seq<Byte>)
    ensures WordSwap(WordSwap(s)) == s
  {
    if |s| >= 4 {
      var r := WordSwap(s);
      assert r[4..] == WordSwap(s[4..]) && r[..2] == s[2..4] && r[2..4] == s[..2];
      WordSwapTwice(s[4..]);
      assert s == s[..2] + s[2..4] + s[4..];
    }
  }

  lemma LongSwapTwice(s: seq<Byte>)
    ensures LongSwap(LongSwap(s)) == s
  {
    if |s| == 8 {
      assert LongSwap(s)[4..] == s[..4] && LongSwap(s)[..4] == s[4..];
    }
  }

  /** The two orders of the swaps undo each other, for every combination of swaps. */
  lemma SwapsCancel(s: seq<Byte>, swaps: Swaps)
    ensures Unscramble(Scramble(s, swaps), swaps) == s
    ensures Scramble(Unscramble(s, swaps), swaps) == s
  {
    var long := if swaps.longSwap then LongSwap(s) else s;
    var word := if swaps.wordSwap then WordSwap(long) else long;
    ByteSwapTwice(word);
    WordSwapTwice(long);
    LongSwapTwice(s);
    var byte := if swaps.byteSwap then ByteSwap(s) else s;
    var word' := if swaps.wordSwap then WordSwap(byte) else byte;
    LongSwapTwice(word');
    WordSwapTwice(byte);
    ByteSwapTwice(s);
  }

  // ---- Words ----

  function HighByte(w: Word): Byte {
    w / 256
  }

  function LowByte(w: Word): Byte {
    w % 256
  }

  function MakeWord(high: Byte, low: Byte): Word {
    high as int * 256 + low as int
  }

  function ToWords(s: seq<Byte>): seq<Word> {
    if |s| < 2 then [] else [MakeWord(s[0], s[1])] + ToWords(s[2..])
  }

  function FromWords(ws: seq<Word>): (s: seq<Byte>)
    ensures |s| == 2 * |ws|
  {
    if ws == [] then [] else [HighByte(ws[0]), LowByte(ws[0])] + FromWords(ws[1..])
  }

  lemma {:induction false} FromWordsOfToWords(s: seq<Byte>)
    requires |s| % 2 == 0
    ensures |ToWords(s)| == |s| / 2
    ensures FromWords(ToWords(s)) == s
  {
    if s != [] {
      FromWordsOfToWords(s[2..]);
      assert s == [s[0], s[1]] + s[2..];
      assert ToWords(s)[1..] == ToWords(s[2..]);
    }
  }

  lemma {:induction false} ToWordsOfFromWords(ws: seq<Word>)
    ensures ToWords(FromWords(ws)) == ws
  {
    if ws != [] {
      ToWordsOfFromWords(ws[1..]);
      assert FromWords(ws)[2..] == FromWords(ws[1..]);
    }
  }

  // ---- Bit patterns in registers ----

  function EncodeBits(bits: nat, t: DataType, swaps: Swaps): seq<Word> {
    ToWords(Scramble(ToBig(bits, 2 * RegisterCount(t)), swaps))
  }

  function DecodeBits(ws: seq<Word>, swaps: Swaps): nat {
    FromBig(Unscramble(FromWords(ws), swaps))
  }

  lemma ModulusIsPow2(t: DataType)
    ensures Pow2(8 * (2 * RegisterCount(t))) == Modulus(t)
  {
    Pow2Byte(1);
    Pow2Byte(2);
    Pow2Byte(3);
    Pow2Byte(4);
    Pow2Byte(5);
    Pow2Byte(6);
    Pow2Byte(7);
    Pow2Byte(8);
  }

  /** Every bit pattern of the type's size comes back, through any combination of swaps. */
  lemma DecodeOfEncodeBits(bits: nat, t: DataType, swaps: Swaps)
    requires bits < Modulus(t)
    ensures |EncodeBits(bits, t, swaps)| == RegisterCount(t)
    ensures DecodeBits(EncodeBits(bits, t, swaps), swaps) == bits
  {
    ModulusIsPow2(t);
    BytesComeBack(bits, 2 * RegisterCount(t), swaps);
  }

  lemma BytesComeBack(bits: nat, len: nat, swaps: Swaps)
    requires len % 2 == 0 && bits < Pow2(8 * len)
    ensures var ws := ToWords(Scramble(ToBig(bits, len), swaps));
            |ws| == len / 2 && FromBig(Unscramble(FromWords(ws), swaps)) == bits
  {
    var s := ToBig(bits, len);
    FromBigOfToBig(bits, len);
    FromWordsOfToWords(Scramble(s, swaps));
    SwapsCancel(s, swaps);
  }

  /** And every register content is the encoding of its decoding. */
  lemma EncodeOfDecodeBits(ws: seq<Word>, t: DataType, swaps: Swaps)
    requires |ws| == RegisterCount(t)
    ensures DecodeBits(ws, swaps) < Modulus(t)
    ensures EncodeBits(DecodeBits(ws, swaps), t, swaps) == ws
  {
    var s := Unscramble(FromWords(ws), swaps);
    ModulusIsPow2(t);
    ToBigOfFromBig(s);
    SwapsCancel(FromWords(ws), swaps);
    ToWordsOfFromWords(ws);
  }

  // ---- Integers ----

  predicate InRange(n: int, t: DataType)
    requires IsInteger(t)
  {
    MinValue(t) <= n <= MaxValue(t)
  }

  function ToBits(n: int, t: DataType): (bits: nat)
    requires IsInteger(t) && InRange(n, t)
  {
    if n < 0 then n + Modulus(t) else n
  }

  function FromBits(bits: nat, t: DataType): int
    requires IsInteger(t)
  {
    if IsSigned(t) && bits > MaxValue(t) then bits - Modulus(t) else bits
  }

  /** The registers of an integer; `None` where packing overflows. */
  function EncodeInt(n: int, t: DataType, swaps: Swaps): Option<seq<Word>>
    requires IsInteger(t)
  {
    if InRange(n, t) then Some(EncodeBits(ToBits(n, t), t, swaps)) else None
  }

  function DecodeInt(ws: seq<Word>, t: DataType, swaps: Swaps): int
    requires IsInteger(t)
  {
    FromBits(DecodeBits(ws, swaps), t)
  }

  /** Every integer of the type's range survives encoding and decoding, for every combination of swaps. */
  lemma DecodeOfEncodeInt(n: int, t: DataType, swaps: Swaps)
    requires IsInteger(t) && InRange(n, t)
    ensures EncodeInt(n, t, swaps).Some? && |EncodeInt(n, t, swaps).value| == RegisterCount(t)
    ensures DecodeInt(EncodeInt(n, t, swaps).value, t, swaps) == n
  {
    DecodeOfEncodeBits(ToBits(n, t), t, swaps);
  }

  /** Every register content decodes to an integer of the type's range that encodes back to it. */
  lemma EncodeOfDecodeInt(ws: seq<Word>, t: DataType, swaps: Swaps)
    requires IsInteger(t) && |ws| == RegisterCount(t)
    ensures InRange(DecodeInt(ws, t, swaps), t)
    ensures EncodeInt(DecodeInt(ws, t, swaps), t, swaps) == Some(ws)
  {
    EncodeOfDecodeBits(ws, t, swaps);
  }

  // ---- The swaps as the program runs them ----

  /** `r` is what the bytes before `i` swap to. */
  ghost predicate SwappedTo(s: seq<Byte>, r: seq<Byte>, i: nat)
    requires i <= |s|
  {
    r + ByteSwap(s[i..]) == ByteSwap(s)
  }

  lemma SwapStep(s: seq<Byte>, r: seq<Byte>, i: nat)
    requires i + 2 <= |s| && SwappedTo(s, r, i)
    ensures SwappedTo(s, r + [s[i + 1], s[i]], i + 2)
  {
    assert s[i..][2..] == s[i + 2..];
    assert ByteSwap(s[i..]) == [s[i + 1], s[i]] + ByteSwap(s[i + 2..]);
    assert r + [s[i + 1], s[i]] + ByteSwap(s[i + 2..]) == r + ([s[i + 1], s[i]] + ByteSwap(s[i + 2..]));
  }

  lemma SwapEnds(s: seq<Byte>, r: seq<Byte>)
    ensures SwappedTo(s, [], 0)
    ensures SwappedTo(s, r, |s|) ==> r == ByteSwap(s)
  {
    assert s[0..] == s && s[|s|..] == [];
    assert [] + ByteSwap(s) == ByteSwap(s) && r + [] == r;
  }

  method SwapBytes(s: seq<Byte>) returns (r: seq<Byte>)
    requires |s| % 2 == 0
    ensures r == ByteSwap(s)
  {
    r := [];
    SwapEnds(s, r);
    var i := 0;
    while i < |s|
      invariant 0 <= i <= |s| && i % 2 == 0
      invariant SwappedTo(s, r, i)
    {
      SwapStep(s, r, i);
      r := r + [s[i + 1], s[i]];
      i := i + 2;
    }
    SwapEnds(s, r);
  }

  method SwapWords(s: seq<Byte>) returns (r: seq<Byte>)
    ensures r == WordSwap(s)
  {
    r := [];
    var i := 0;
    assert s[0..] == s;
    while i < |s|
      invariant 0 <= i <= |s|
      invariant r + WordSwap(s[i..]) == WordSwap(s)
    {
      var end := if i + 4 <= |s| then i + 4 else |s|;
      var chunk := s[i..end];
      if |chunk| == 4 {
        assert s[i..][4..] == s[end..] && s[i..][2..4] == chunk[2..] && s[i..][..2] == chunk[..2];
        r := r + (chunk[2..] + chunk[..2]);
      } else {
        assert s[i..] == chunk && s[end..] == [];
        r := r + chunk;
      }
      i := end;
    }
    assert s[|s|..] == [];
  }

  method JoinWords(raw: seq<Byte>) returns (ws: seq<Word>)
    requires |raw| % 2 == 0
    ensures ws == ToWords(raw)
  {
    ws := [];
    var i := 0;
    assert raw[0..] == raw;
    while i < |raw|
      invariant 0 <= i <= |raw| && i % 2 == 0
      invariant ws + ToWords(raw[i..]) == ToWords(raw)
    {
      assert raw[i..][2..] == raw[i + 2..];
      ws := ws + [MakeWord(raw[i], raw[i + 1])];
      i := i + 2;
    }
    assert raw[|raw|..] == [];
  }

  method SplitWords(ws: seq<Word>) returns (raw: seq<Byte>)
    ensures raw == FromWords(ws)
  {
    raw := [];
    assert ws[0..] == ws;
    for i := 0 to |ws|
      invariant raw + FromWords(ws[i..]) == FromWords(ws)
    {
      assert ws[i..][1..] == ws[i + 1..];
      raw := raw + [HighByte(ws[i]), LowByte(ws[i])];
    }
    assert ws[|ws|..] == [];
  }

  method EncodeBytes(s: seq<Byte>, swaps: Swaps) returns (ws: seq<Word>)
    requires |s| % 2 == 0
    ensures ws == ToWords(Scramble(s, swaps))
  {
    var raw := s;
    ghost var long := if swaps.longSwap then LongSwap(s) else s;
    ghost var word := if swaps.wordSwap then WordSwap(long) else long;
    if swaps.longSwap && |raw| == 8 {
      raw := raw[4..8] + raw[0..4];
    }
    assert raw == long;
    if swaps.wordSwap && |raw| >= 4 {
      raw := SwapWords(raw);
    }
    assert raw == word;
    if swaps.byteSwap {
      raw := SwapBytes(raw);
    }
    ws := JoinWords(raw);
  }

  method DecodeBytes(ws: seq<Word>, swaps: Swaps) returns (raw: seq<Byte>)
    ensures raw == Unscramble(FromWords(ws), swaps)
  {
    raw := SplitWords(ws);
    if swaps.byteSwap {
      raw := SwapBytes(raw);
    }
    if swaps.wordSwap && |raw| >= 4 {
      raw := SwapWords(raw);
    }
    if swaps.longSwap && |raw| == 8 {
      raw := raw[4..8] + raw[0..4];
    }
  }
}
