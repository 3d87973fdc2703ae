/** Splitting and joining of ASCII text. */
module Text {
  import opened Wrappers

  predicate IsLower(c: char) {
    'a' <= c <= 'z'
  }

  predicate IsUpper(c: char) {
    'A' <= c <= 'Z'
  }

  function UpperChar(c: char): char {
    if IsLower(c) then (c as int - 32) as char else c
  }

  function Upper(s: string): (r: string)
    ensures |r| == |s|
    ensures forall i :: 0 <= i < |s| ==> r[i] == UpperChar(s[i])
  {
    seq(|s|, i requires 0 <= i < |s| => UpperChar(s[i]))
  }

  function GrowLast(parts: seq<string>, t: string): (r: seq<string>)
    requires parts != []
    ensures |r| == |parts|
  {
    parts[..|parts| - 1] + [parts[|parts| - 1] + t]
  }

  /** Splits at every `c`; there is always at least one part. */
  function Split(s: string, c: char): (parts: seq<string>)
    ensures parts != []
    ensures forall p :: p in parts ==> c !in p
  {
    if s == [] then [[]]
    else
      var front, last := Split(s[..|s| - 1], c), s[|s| - 1];
      if last == c then front + [[]] else GrowLast(front, [last])
  }

  function Join(parts: seq<string>, c: char): string {
    if parts == [] then []
    else if |parts| == 1 then parts[0]
    else Join(parts[..|parts| - 1], c) + [c] + parts[|parts| - 1]
  }

  lemma GrowLastTwice(parts: seq<string>, t: string, u: string)
    requires parts != []
    ensures GrowLast(GrowLast(parts, t), u) == GrowLast(parts, t + u)
  {
    assert parts[|parts| - 1] + t + u == parts[|parts| - 1] + (t + u);
  }

  lemma GrowLastNothing(parts: seq<string>)
    requires parts != []
    ensures GrowLast(parts, []) == parts
  {
    assert parts[|parts| - 1] + [] == parts[|parts| - 1];
  }

  lemma GrowNewLast(parts: seq<string>, t: string)
    ensures GrowLast(parts + [[]], t) == parts + [t]
  {
    assert [] + t == t;
  }

  lemma {:induction false} SplitAppend(s: string, t: string, c: char)
    requires c !in t
    ensures Split(s + t, c) == GrowLast(Split(s, c), t)
  {
    if t == [] {
      assert s + t == s;
      GrowLastNothing(Split(s, c));
    } else {
      var k := |t| - 1;
      SplitAppend(s, t[..k], c);
      assert (s + t)[..|s + t| - 1] == s + t[..k];
      GrowLastTwice(Split(s, c), t[..k], [t[k]]);
      assert t[..k] + [t[k]] == t;
    }
  }

  lemma SplitAtEnd(s: string, t: string, c: char)
    requires c !in t
    ensures Split(s + [c] + t, c) == Split(s, c) + [t]
  {
    assert (s + [c])[..|s|] == s;
    SplitAppend(s + [c], t, c);
    GrowNewLast(Split(s, c), t);
  }

  /** Splitting undoes joining, for parts without the separator. */
  lemma {:induction false} SplitOfJoin(parts: seq<string>, c: char)
    requires parts != [] && forall p :: p in parts ==> c !in p
    ensures Split(Join(parts, c), c) == parts
  {
    var k := |parts| - 1;
    assert parts == parts[..k] + [parts[k]];
    if k == 0 {
      SplitAppend([], parts[0], c);
      assert [] + parts[0] == parts[0];
    } else {
      SplitOfJoin(parts[..k], c);
      SplitAtEnd(Join(parts[..k], c), parts[k], c);
    }
  }

  function StripPrefix(s: string, prefix: string): Option<string> {
    if prefix <= s then Some(s[|prefix|..]) else None
  }

  /** Splits at the first occurrence of `c`. */
  function SplitOnce(s: string, c: char): (r: Option<(string, string)>)
    ensures r.Some? ==> s == r.value.0 + [c] + r.value.1 && c !in r.value.0
    ensures r.None? ==> c !in s
  {
    if s == [] then None
    else if s[0] == c then Some(([], s[1..]))
    else
      match SplitOnce(s[1..], c)
      case None => None
      case Some((left, right)) => Some(([s[0]] + left, right))
  }

  lemma {:induction false} SplitOnceAt(left: string, c: char, right: string)
    requires c !in left
    ensures SplitOnce(left + [c] + right, c) == Some((left, right))
  {
    var s := left + [c] + right;
    if left == [] {
      assert s[1..] == right;
    } else {
      assert s[1..] == left[1..] + [c] + right;
      SplitOnceAt(left[1..], c, right);
      assert [left[0]] + left[1..] == left;
    }
  }
}
