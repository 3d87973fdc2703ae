/** Big-endian byte strings of unsigned numbers. */
module Bytes {
  import opened Bits

  type Byte = b: int | 0 <= b < 256

  function ToBig(n: nat, len: nat): (s: seq<Byte>)
    ensures |s| == len
  {
    if len == 0 then [] else ToBig(n / 256, len - 1) + [n % 256]
  }

  function FromBig(s: seq<Byte>): nat {
    if s == [] then 0 else FromBig(s[..|s| - 1]) * 256 + s[|s| - 1]
  }

  function Reverse(s: seq<Byte>): (r: seq<Byte>)
    ensures |r| == |s|
    ensures forall i :: 0 <= i < |s| ==> r[i] == s[|s| - 1 - i]
  {
    if s == [] then [] else [s[|s| - 1]] + Reverse(s[..|s| - 1])
  }

  lemma ReverseTwice(s: seq<Byte>)
    ensures Reverse(Reverse(s)) == s
  {
    var r := Reverse(Reverse(s));
    forall i | 0 <= i < |s| ensures r[i] == s[i] {
      assert r[i] == Reverse(s)[|s| - 1 - i];
    }
  }

  lemma Pow2Byte(len: nat)
    requires len > 0
    ensures Pow2(8 * len) == 256 * Pow2(8 * (len - 1))
  {
    Pow2Octet(8 * (len - 1));
  }

  lemma Pow2Octet(k: nat)
    ensures Pow2(k + 8) == 256 * Pow2(k)
  {
    assert Pow2(k + 1) == 2 * Pow2(k);
    assert Pow2(k + 2) == 4 * Pow2(k);
    assert Pow2(k + 3) == 8 * Pow2(k);
    assert Pow2(k + 4) == 16 * Pow2(k);
    assert Pow2(k + 5) == 32 * Pow2(k);
    assert Pow2(k + 6) == 64 * Pow2(k);
    assert Pow2(k + 7) == 128 * Pow2(k);
  }

  lemma {:induction false} FromBigOfToBig(n: nat, len: nat)
    requires n < Pow2(8 * len)
    ensures FromBig(ToBig(n, len)) == n
  {
    if len > 0 {
      Pow2Byte(len);
      FromBigOfToBig(n / 256, len - 1);
      assert ToBig(n, len)[..len - 1] == ToBig(n / 256, len - 1);
    }
  }

  lemma {:induction false} ToBigOfFromBig(s: seq<Byte>)
    ensures FromBig(s) < Pow2(8 * |s|)
    ensures ToBig(FromBig(s), |s|) == s
  {
    if s != [] {
      ToBigOfFromBig(s[..|s| - 1]);
      Pow2Byte(|s|);
    }
  }

  lemma DivideInSteps(f: nat, b: Byte, p: nat)
    requires p > 0
    ensures (f * 256 + b) / (256 * p) == f / p
  {
    var q, r := f / p, f % p;
    assert f * 256 + b == q * (256 * p) + (256 * r + b);
    RemainderIsUnique(f * 256 + b, 256 * p, q, 256 * r + b);
  }

  /** Byte `i` has the weight of the bytes after it. */
  lemma {:induction false} ByteOfBig(s: seq<Byte>, i: nat)
    requires i < |s|
    ensures FromBig(s) / Pow2(8 * (|s| - 1 - i)) % 256 == s[i]
  {
    var k := |s| - 1;
    if i < k {
      ByteOfBig(s[..k], i);
      Pow2Byte(k - i);
      DivideInSteps(FromBig(s[..k]), s[k], Pow2(8 * (k - 1 - i)));
    }
  }
}
