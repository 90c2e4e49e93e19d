/**
 * The bounded buffer of recent output lines, `deque(maxlen=20)`: appending to
 * a full buffer drops its oldest line. It is kept here as a ring over a
 * fixed array.
 */
module Recent {

  /**
   * The last `n` elements of `s`: what a buffer of capacity `n` holds after
   * receiving all of `s`, namely its latest min(|s|, n) elements in arrival order.
   */
  function LastN<T>(s: seq<T>, n: nat): (r: seq<T>)
    ensures |r| == if |s| <= n then |s| else n
    ensures r == s[|s| - |r|..]
  {
    if |s| <= n then s else s[|s| - n..]
  }

  /** Receiving more elements: what the buffer held, plus them, trimmed again to `n`. */
  lemma LastNAppendAll<T>(s: seq<T>, t: seq<T>, n: nat)
    ensures LastN(LastN(s, n) + t, n) == LastN(s + t, n)
  {
    if |s| > n {
      var w, d := s + t, |s| - n;
      assert LastN(s, n) + t == w[d..];
      DropDrop(w, d, |t|);
      assert LastN(w[d..], n) == w[d..][|t|..];
    }
  }

  lemma DropDrop<T>(w: seq<T>, d: nat, e: nat)
    requires d + e <= |w|
    ensures w[d..][e..] == w[d + e..]
  {
  }

  class RecentLines {
    const capacity: nat
    const data: array<string>
    /** Index of the oldest line. */
    var start: nat
    /** Number of lines held. */
    var count: nat
    /** The lines held, oldest first. */
    ghost var Contents: seq<string>

    /** The array slot of the `k`-th oldest line. */
    function Slot(k: nat): (i: nat)
      reads this
      requires start < capacity && k < capacity
      ensures i < capacity
    {
      if start + k < capacity then start + k else start + k - capacity
    }

    ghost predicate Valid()
      reads this, data
    {
      && 0 < capacity == data.Length
      && start < capacity && count <= capacity
      && |Contents| == count
      && forall k :: 0 <= k < count ==> Contents[k] == data[Slot(k)]
    }

    constructor (n: nat)
      requires n > 0
      ensures Valid() && capacity == n && Contents == [] && fresh(data)
    {
      capacity := n;
      data := new string[n](_ => "");
      start, count := 0, 0;
      Contents := [];
    }

    /** Appends `x`, dropping the oldest line when the buffer is full. */
    method Append(x: string)
      requires Valid()
      modifies this, data
      ensures Valid()
      ensures Contents == LastN(old(Contents) + [x], capacity)
    {
      if count < capacity {
        ghost var before := Contents;
        var i := Slot(count);
        data[i] := x;
        count := count + 1;
        Contents := Contents + [x];
        forall k | 0 <= k < count
          ensures Contents[k] == data[Slot(k)]
        {
          if k < count - 1 {
            assert Slot(k) != i;
            assert Contents[k] == before[k];
          }
        }
      } else {
        ghost var before, s0 := Contents, start;
        data[start] := x;
        start := if start + 1 < capacity then start + 1 else 0;
        Contents := Contents[1..] + [x];
        forall k | 0 <= k < count
          ensures Contents[k] == data[Slot(k)]
        {
          if k < count - 1 {
            assert Slot(k) == if s0 + k + 1 < capacity then s0 + k + 1 else s0 + k + 1 - capacity;
            assert Slot(k) != s0;
            assert Contents[k] == before[k + 1];
          } else {
            assert Slot(k) == s0;
          }
        }
        assert LastN(before + [x], capacity) == (before + [x])[1..];
        assert (before + [x])[1..] == Contents;
      }
    }

    /** The lines held, oldest first. */
    method Items() returns (s: seq<string>)
      requires Valid()
      ensures s == Contents
    {
      s := [];
      var k := 0;
      while k < count
        invariant 0 <= k <= count
        invariant s == Contents[..k]
      {
        s := s + [data[Slot(k)]];
        k := k + 1;
      }
    }
  }
}
