/** Bounded buffers of the newest samples: a ring over a fixed array, and a bounded deque. */
module RingBuffer {
  import opened Bits

  /** The last `n` elements, or all of them when there are fewer. */
  function LastN<T>(s: seq<T>, n: nat): (r: seq<T>)
    ensures |r| == if n < |s| then n else |s|
    ensures forall i :: 0 <= i < |r| ==> r[i] == s[|s| - |r| + i]
  {
    if n < |s| then s[|s| - n..] else s
  }

  lemma LastNOfAppend<T>(a: seq<T>, b: seq<T>, n: nat)
    ensures LastN(LastN(a, n) + b, n) == LastN(a + b, n)
  {
    var l, r := LastN(LastN(a, n) + b, n), LastN(a + b, n);
    assert |l| == |r|;
    forall i | 0 <= i < |l| ensures l[i] == r[i] {
      assert r[i] == (a + b)[|a + b| - |r| + i];
    }
  }

  lemma LastNOfLastN<T>(s: seq<T>, m: nat, n: nat)
    requires m <= n
    ensures LastN(LastN(s, n), m) == LastN(s, m)
  {}

  /** `x` modulo `m`, for `x` at most one turn away from the range. */
  function Wrap(x: int, m: int): (r: nat)
    requires 0 < m && -m <= x < 2 * m
    ensures r < m
  {
    if x < 0 then x + m else if x < m then x else x - m
  }

  lemma WrapIsMod(x: int, m: int)
    requires m > 0 && -m <= x < 2 * m
    ensures x % m == Wrap(x, m)
  {
    RemainderIsUnique(x, m, if x < 0 then -1 else if x < m then 0 else 1, Wrap(x, m));
  }

  /** The slot `k` places before the write position; the newest element is at `k == 0`. */
  function Back(index: nat, k: nat, m: int): (slot: nat)
    requires index < m && k < m
    ensures slot < m
  {
    Wrap(index - 1 - k, m)
  }

  /** The slot `i` places after the write position. */
  function Ahead(index: nat, i: nat, m: int): (slot: nat)
    requires index < m && i < m
    ensures slot < m
  {
    Wrap(index + i, m)
  }

  /** The `k`-th newest element. */
  function Newest<T>(s: seq<T>, k: nat): T
    requires k < |s|
  {
    s[|s| - 1 - k]
  }

  function Capped(n: nat, m: nat): nat {
    if n < m then n else m
  }

  /** The slots hold the newest elements of `history`, the newest just before `index`. */
  ghost predicate Represents<T>(slots: seq<T>, index: nat, size: nat, history: seq<T>) {
    && index < |slots|
    && size == Capped(|history|, |slots|)
    && forall k: nat :: k < size ==> slots[Back(index, k, |slots|)] == Newest(history, k)
  }

  /** `values` occupy the slots from `index` on, and the slots before them are unchanged. */
  ghost predicate WritesAt<T>(was: seq<T>, slots: seq<T>, index: nat, values: seq<T>) {
    && |was| == |slots| && index < |slots| && |values| < |slots|
    && (forall i: nat :: i < |values| ==> slots[Ahead(index, i, |slots|)] == values[i])
    && (forall j: nat :: j < |slots| - |values| ==> slots[Back(index, j, |slots|)] == was[Back(index, j, |slots|)])
  }

  lemma WriteAppends<T>(was: seq<T>, slots: seq<T>, index: nat, size: nat, history: seq<T>, values: seq<T>)
    requires Represents(was, index, size, history) && WritesAt(was, slots, index, values)
    ensures Represents(slots, Ahead(index, |values|, |slots|), Capped(size + |values|, |slots|), history + values)
  {
    var m, past := |slots|, history + values;
    var next := Ahead(index, |values|, m);
    forall k: nat | k < Capped(size + |values|, m)
      ensures slots[Back(next, k, m)] == Newest(past, k)
    {
      BackFromEnd(index, |values|, k, m);
      if k < |values| {
        assert Newest(past, k) == values[|values| - 1 - k];
      } else {
        assert Newest(past, k) == Newest(history, k - |values|);
      }
    }
  }

  /** Counting back from the new end reaches first the new slots, then the old newest ones. */
  lemma BackFromEnd(index: nat, n: nat, k: nat, m: nat)
    requires index < m && n < m && k < m
    ensures Back(Ahead(index, n, m), k, m) == if k < n then Ahead(index, n - 1 - k, m) else Back(index, k - n, m)
  {}

  /** Slots read in order up to the write position are the end of the history. */
  lemma ReadsNewest<T>(slots: seq<T>, index: nat, size: nat, history: seq<T>, r: seq<T>)
    requires Represents(slots, index, size, history) && |r| <= size
    requires forall i: nat :: i < |r| ==> r[i] == slots[Back(index, |r| - 1 - i, |slots|)]
    ensures r == LastN(history, |r|)
  {
    forall i: nat | i < |r| ensures r[i] == LastN(history, |r|)[i] {
      assert Newest(history, |r| - 1 - i) == history[|history| - |r| + i];
    }
  }

  /** The `n` slots that end just before `index`, in order. */
  function ReadOut<T>(slots: seq<T>, index: nat, n: nat): seq<T>
    requires index < |slots| && 0 < n <= |slots|
  {
    var start := Wrap(index - n, |slots|);
    if start < index then slots[start..index] else slots[start..] + slots[..index]
  }

  lemma ReadOutIsBack<T>(slots: seq<T>, index: nat, n: nat)
    requires index < |slots| && 0 < n <= |slots|
    ensures |ReadOut(slots, index, n)| == n
    ensures forall i: nat :: i < n ==> ReadOut(slots, index, n)[i] == slots[Back(index, n - 1 - i, |slots|)]
  {
    forall i: nat | i < n ensures ReadOut(slots, index, n)[i] == slots[Back(index, n - 1 - i, |slots|)] {
      assert Back(index, n - 1 - i, |slots|) == Wrap(index - n + i, |slots|);
    }
  }

  lemma NothingToRead<T>(slots: seq<T>, index: nat, size: nat, history: seq<T>, length: nat)
    requires Represents(slots, index, size, history) && Capped(length, size) == 0
    ensures LastN(history, Capped(length, |slots|)) == []
  {}

  lemma LatestIsReadOut<T>(slots: seq<T>, index: nat, size: nat, history: seq<T>, length: nat)
    requires Represents(slots, index, size, history) && Capped(length, size) > 0
    ensures ReadOut(slots, index, Capped(length, size)) == LastN(history, Capped(length, |slots|))
  {
    var r := ReadOut(slots, index, Capped(length, size));
    ReadOutIsBack(slots, index, Capped(length, size));
    ReadsNewest(slots, index, size, history, r);
  }

  class NumpyRingBuffer<T(0)> {
    const buffer: array<T>
    var index: nat  // next write position
    var size: nat   // number of valid elements
    ghost var history: seq<T>  // everything ever extended

    ghost predicate Valid()
      reads this, buffer
    {
      Represents(buffer[..], index, size, history)
    }

    constructor (maxlen: nat)
      requires maxlen >= 1
      ensures Valid() && history == [] && buffer.Length == maxlen && fresh(buffer)
    {
      buffer := new T[maxlen];
      index, size := 0, 0;
      history := [];
    }

    method Extend(values: seq<T>)
      requires Valid()
      modifies this`index, this`size, this`history, buffer
      ensures Valid()
      ensures history == old(history) + values
    {
      var n, maxlen := |values|, buffer.Length;
      if n == 0 {
        assert history + values == history;
        return;
      }
      if n >= maxlen {
        Overwrite(values);
        return;
      }
      var end := index + n;
      WriteFrom(values);
      WriteAppends(old(buffer[..]), buffer[..], index, size, history, values);
      WrapIsMod(end, maxlen);
      index := end % maxlen;
      size := if size + n < maxlen then size + n else maxlen;
      history := history + values;
    }

    /** More data than fits: keep the last `maxlen` values. */
    method Overwrite(values: seq<T>)
      requires Valid() && |values| >= buffer.Length
      modifies this`index, this`size, this`history, buffer
      ensures Valid()
      ensures history == old(history) + values
    {
      var n, maxlen := |values|, buffer.Length;
      forall i | 0 <= i < maxlen {
        buffer[i] := values[n - maxlen + i];
      }
      index, size := 0, maxlen;
      history := history + values;
      forall k: nat | k < maxlen
        ensures buffer[..][Back(0, k, maxlen)] == Newest(history, k)
      {
        assert Back(0, k, maxlen) == maxlen - 1 - k;
      }
    }

    /** Copies `values` into the slots from `index` on, wrapping at the end of the buffer. */
    method WriteFrom(values: seq<T>)
      requires index < buffer.Length && |values| < buffer.Length
      modifies buffer
      ensures WritesAt(old(buffer[..]), buffer[..], index, values)
    {
      var n, maxlen := |values|, buffer.Length;
      var end := index + n;
      if end <= maxlen {
        forall i | 0 <= i < n {
          buffer[index + i] := values[i];
        }
        forall i: nat | i < n ensures buffer[Ahead(index, i, maxlen)] == values[i] {
          assert Ahead(index, i, maxlen) == index + i;
        }
      } else {
        var first := maxlen - index;
        forall i | 0 <= i < first {
          buffer[index + i] := values[i];
        }
        forall i | 0 <= i < n - first {
          buffer[i] := values[first + i];
        }
        forall i: nat | i < n ensures buffer[Ahead(index, i, maxlen)] == values[i] {
          if i < first {
            assert Ahead(index, i, maxlen) == index + i;
          } else {
            assert Ahead(index, i, maxlen) == i - first;
          }
        }
      }
    }

    method ReadSlots(n: nat) returns (r: seq<T>)
      requires index < buffer.Length && 0 < n <= buffer.Length
      ensures r == ReadOut(buffer[..], index, n)
    {
      WrapIsMod(index - n, buffer.Length);
      var start := (index - n) % buffer.Length;
      if start < index {
        r := buffer[start..index];
      } else {
        r := buffer[start..] + buffer[..index];
      }
    }

    method GetLatest(length: nat) returns (r: seq<T>)
      requires Valid()
      ensures r == LastN(history, if length < buffer.Length then length else buffer.Length)
    {
      var n := if length < size then length else size;
      if n == 0 {
        NothingToRead(buffer[..], index, size, history, length);
        return [];
      }
      LatestIsReadOut(buffer[..], index, size, history, length);
      r := ReadSlots(n);
    }

    method Len() returns (n: nat)
      requires Valid()
      ensures n == if |history| < buffer.Length then |history| else buffer.Length
    {
      n := size;
    }
  }

  /** Two writes are observably one: whatever was extended before, and whatever is asked for. */
  method ExtendTwice<T(0)>(ring: NumpyRingBuffer<T>, other: NumpyRingBuffer<T>, a: seq<T>, b: seq<T>, length: nat)
    returns (r: seq<T>, r': seq<T>)
    requires ring.Valid() && other.Valid() && ring != other && ring.buffer != other.buffer
    requires ring.history == other.history && ring.buffer.Length == other.buffer.Length
    modifies ring, other, ring.buffer, other.buffer
    ensures r == r'
  {
    ring.Extend(a);
    ring.Extend(b);
    other.Extend(a + b);
    assert ring.history == other.history;
    r := ring.GetLatest(length);
    r' := other.GetLatest(length);
  }

  /** Appending to the newest values and dropping the oldest one when full keeps the newest values. */
  lemma PushOne<T>(items: seq<T>, history: seq<T>, v: T, maxlen: nat)
    requires items == LastN(history, maxlen)
    ensures LastN(history + [v], maxlen) == if |items| + 1 > maxlen then (items + [v])[1..] else items + [v]
  {
    LastNOfAppend(history, [v], maxlen);
  }

  lemma AppendOne<T>(s: seq<T>, values: seq<T>, i: nat)
    requires i < |values|
    ensures s + values[..i] + [values[i]] == s + values[..i + 1]
  {}

  class BoundedDeque<T> {
    const maxlen: nat
    var items: seq<T>
    ghost var history: seq<T>

    ghost predicate Valid()
      reads this
    {
      items == LastN(history, maxlen)
    }

    constructor (maxlen: nat)
      ensures Valid() && history == [] && this.maxlen == maxlen
    {
      this.maxlen := maxlen;
      items, history := [], [];
    }

    /** Appends one by one, discarding from the other end when full. */
    method Extend(values: seq<T>)
      requires Valid()
      modifies this
      ensures Valid()
      ensures history == old(history) + values
    {
      for i := 0 to |values|
        invariant history == old(history) + values[..i]
        invariant Valid()
      {
        PushOne(items, history, values[i], maxlen);
        AppendOne(old(history), values, i);
        history := history + [values[i]];
        items := items + [values[i]];
        if |items| > maxlen {
          items := items[1..];
        }
      }
      assert values[..|values|] == values;
    }

    method Len() returns (n: nat)
      requires Valid()
      ensures n == if |history| < maxlen then |history| else maxlen
    {
      n := |items|;
    }

    method GetLatest(length: nat) returns (r: seq<T>)
      requires Valid()
      ensures r == LastN(history, if length < maxlen then length else maxlen)
    {
      var n := if length < |items| then length else |items|;
      r := items[|items| - n..];
    }
  }

  /** With the same capacity and the same history, the ring and the deque answer alike. */
  method BuffersAgree<T(0)>(ring: NumpyRingBuffer<T>, deque: BoundedDeque<T>, values: seq<T>, length: nat)
    returns (r: seq<T>, r': seq<T>)
    requires ring.Valid() && deque.Valid() && deque.maxlen == ring.buffer.Length && ring.history == deque.history
    modifies ring, ring.buffer, deque
    ensures r == r'
  {
    ring.Extend(values);
    deque.Extend(values);
    r := ring.GetLatest(length);
    r' := deque.GetLatest(length);
  }
}
