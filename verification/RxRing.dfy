/** The software ring buffer of the UART bridge, which the FIFO of the chip is read into without an intermediate
    copy. */
module RingBuffer {
  import opened Words

  function Min(a: nat, b: nat): nat {
    if a < b then a else b
  }

  /** `n` slots of a circular buffer from `at` on. */
  function Window(s: seq<u8>, at: nat, n: nat): (w: seq<u8>)
    requires at < |s| && n <= |s|
    ensures |w| == n
  {
    if at + n <= |s| then s[at..at + n] else s[at..] + s[..at + n - |s|]
  }

  function Wrap(i: nat, size: nat): nat
    requires i < 2 * size
  {
    if i < size then i else i - size
  }

  lemma WrapIsModulo(i: nat, size: nat)
    requires i < 2 * size
    ensures i % size == Wrap(i, size)
  {
    if i >= size {
      assert i == size + (i - size);
    }
  }

  lemma WindowIs(s: seq<u8>, at: nat, n: nat, w: seq<u8>)
    requires at < |s| && n <= |s| && |w| == n
    requires forall k :: 0 <= k < n ==> w[k] == s[Wrap(at + k, |s|)]
    ensures w == Window(s, at, n)
  {
    if at + n <= |s| {
      assert w == s[at..at + n];
    } else {
      var first := |s| - at;
      assert w[..first] == s[at..];
      assert w[first..] == s[..n - first];
      assert w == w[..first] + w[first..];
    }
  }

  lemma WindowAt(s: seq<u8>, at: nat, n: nat)
    requires at < |s| && n <= |s|
    ensures forall k :: 0 <= k < n ==> Window(s, at, n)[k] == s[Wrap(at + k, |s|)]
  {
  }

  /** `after` is `before` with `added` written from `head` on. */
  predicate Overwritten(before: seq<u8>, after: seq<u8>, head: nat, added: seq<u8>) {
    && |before| == |after| && head + |added| <= |before|
    && (forall i :: 0 <= i < |before| && !(head <= i < head + |added|) ==> after[i] == before[i])
    && (forall i :: 0 <= i < |added| ==> after[head + i] == added[i])
  }

  lemma OverwriteNext(before: seq<u8>, now: seq<u8>, head: nat, added: seq<u8>, b: u8)
    requires Overwritten(before, now, head, added) && head + |added| < |before|
    ensures Overwritten(before, now[head + |added| := b], head, added + [b])
  {
  }

  /** Bytes written in the free slots follow the stored ones: nothing stored is overwritten. */
  lemma WindowGrows(before: seq<u8>, after: seq<u8>, at: nat, n: nat, head: nat, added: seq<u8>)
    requires at < |before| && n <= |before| && head == Wrap(at + n, |before|)
    requires |added| <= |before| - n && Overwritten(before, after, head, added)
    ensures Window(after, at, n + |added|) == Window(before, at, n) + added
  {
    WindowAt(before, at, n);
    var w := Window(before, at, n) + added;
    forall k | 0 <= k < n + |added|
      ensures w[k] == after[Wrap(at + k, |after|)]
    {
      if k >= n {
        assert Wrap(at + k, |after|) == head + (k - n);
      }
    }
    WindowIs(after, at, n + |added|, w);
  }

  lemma WindowSplits(s: seq<u8>, at: nat, n: nat, k: nat)
    requires at < |s| && k <= n <= |s|
    ensures Window(s, at, k) == Window(s, at, n)[..k]
    ensures Window(s, Wrap(at + k, |s|), n - k) == Window(s, at, n)[k..]
  {
    WindowAt(s, at, n);
    WindowIs(s, at, k, Window(s, at, n)[..k]);
    var rest := Window(s, at, n)[k..];
    forall i | 0 <= i < n - k
      ensures rest[i] == s[Wrap(Wrap(at + k, |s|) + i, |s|)]
    {
      assert rest[i] == Window(s, at, n)[k + i];
      assert Wrap(Wrap(at + k, |s|) + i, |s|) == Wrap(at + (k + i), |s|);
    }
    WindowIs(s, Wrap(at + k, |s|), n - k, rest);
  }

  /** `s` with `run` copied over it at `at`. */
  function Copied(s: seq<u8>, at: nat, run: seq<u8>): seq<u8>
    requires at + |run| <= |s|
  {
    s[..at] + run + s[at + |run|..]
  }

  lemma CopiedNothing(s: seq<u8>, at: nat)
    requires at <= |s|
    ensures s == Copied(s, at, [])
  {
  }

  lemma CopiedNext(s: seq<u8>, at: nat, run: seq<u8>, b: u8)
    requires at + |run| < |s|
    ensures |Copied(s, at, run)| == |s| && Copied(s, at, run)[at + |run| := b] == Copied(s, at, run + [b])
  {
  }

  lemma CopiedTwice(was: seq<u8>, a: seq<u8>, b: seq<u8>)
    requires |a| + |b| <= |was|
    ensures Copied(Copied(was, 0, a), |a|, b) == a + b + was[|a| + |b|..]
  {
    var half := Copied(was, 0, a);
    assert half == a + was[|a|..];
    assert half[..|a|] == a;
    assert half[|a| + |b|..] == was[|a| + |b|..];
  }

  lemma TwoRuns(was: seq<u8>, now: seq<u8>, slots: seq<u8>, tail: nat, n: nat)
    requires tail < |slots| && n <= |slots| && n <= |was|
    requires var first := Min(n, |slots| - tail);
             now == Copied(Copied(was, 0, slots[tail..tail + first]), first, slots[0..n - first])
    ensures now == Window(slots, tail, n) + was[n..]
  {
    hide Copied, Window;
    var first := Min(n, |slots| - tail);
    CopiedTwice(was, slots[tail..tail + first], slots[0..n - first]);
    WindowIsRuns(slots, tail, n);
  }

  lemma WindowIsRuns(slots: seq<u8>, tail: nat, n: nat)
    requires tail < |slots| && n <= |slots|
    ensures var first := Min(n, |slots| - tail);
            Window(slots, tail, n) == slots[tail..tail + first] + slots[0..n - first]
  {
  }

  class RxRing {
    var buf: array<u8>
    var head: nat
    var tail: nat
    var count: nat

    ghost predicate Valid()
      reads this
    {
      tail < buf.Length && count <= buf.Length && head == Wrap(tail + count, buf.Length)
    }

    /** What the consumer has still to take, oldest first. */
    ghost function Contents(): seq<u8>
      requires Valid()
      reads this, buf
    {
      Window(buf[..], tail, count)
    }

    /** The capacity comes from the configuration, which allows 64 to 4096 bytes. */
    constructor (capacity: nat)
      requires capacity > 0
      ensures Valid() && Contents() == [] && buf.Length == capacity && fresh(buf)
    {
      buf := new u8[capacity](_ => 0);
      head, tail, count := 0, 0, 0;
    }

    method Clear()
      requires Valid()
      modifies `head, `tail, `count
      ensures Valid() && Contents() == []
    {
      head, tail, count := 0, 0, 0;
    }

    /** Where the `k`-th stored byte is. */
    ghost function Slot(k: nat): nat
      requires Valid() && k < count
      reads this
    {
      Wrap(tail + k, buf.Length)
    }

    /** How many bytes may be written at `head` without a wrap: none of them is a stored one, and there is room as long
        as the ring is not full. */
    method ContiguousFree() returns (n: nat)
      requires Valid()
      ensures head + n <= buf.Length && n <= buf.Length - count
      ensures n == 0 <==> count == buf.Length
      ensures n == buf.Length - count || head + n == buf.Length
      ensures forall k :: 0 <= k < count ==> !(head <= Slot(k) < head + n)
    {
      n := Min(buf.Length - count, buf.Length - head);
    }

    /** Takes over the next `n` slots from `head` on, as they have been written, behind what is stored. */
    method Commit(n: nat)
      requires Valid() && n <= buf.Length - count
      modifies `head, `count
      ensures Valid() && count == old(count) + n
      ensures Contents() == old(Contents()) + Window(buf[..], old(head), n)
    {
      hide Window;
      WindowSplits(buf[..], tail, count + n, count);
      WrapIsModulo(head + n, buf.Length);
      head := (head + n) % buf.Length;
      count := count + n;
    }

    method Peek() returns (r: Option<u8>)
      requires Valid()
      ensures r == if Contents() == [] then None else Some(Contents()[0])
    {
      if count == 0 {
        return None;
      }
      return Some(buf[tail]);
    }

    method CopyRun(from: nat, n: nat, dst: array<u8>, at: nat)
      requires dst != buf && from + n <= buf.Length && at + n <= dst.Length
      modifies dst
      ensures dst[..] == Copied(old(dst[..]), at, buf[from..from + n])
    {
      hide Copied;
      CopiedNothing(dst[..], at);
      assert buf[from..from + 0] == [];
      for i := 0 to n
        invariant dst[..] == Copied(old(dst[..]), at, buf[from..from + i])
      {
        CopiedNext(old(dst[..]), at, buf[from..from + i], buf[from + i]);
        ghost var now := dst[..];
        dst[at + i] := buf[from + i];
        assert dst[..] == now[at + i := buf[from + i]];
        assert buf[from..from + i + 1] == buf[from..from + i] + [buf[from + i]];
      }
    }

    /** Copies the `n` oldest bytes to `dst` in two straight runs. */
    method CopyOldest(dst: array<u8>, n: nat)
      requires Valid() && dst != buf && n <= count && n <= dst.Length
      modifies dst
      ensures dst[..] == Contents()[..n] + old(dst[n..])
    {
      var first := Min(n, buf.Length - tail);
      ghost var was, slots := dst[..], buf[..];
      CopyRun(tail, first, dst, 0);
      CopyRun(0, n - first, dst, first);
      TwoRuns(was, dst[..], slots, tail, n);
      WindowSplits(slots, tail, count, n);
    }

    /** Removes the oldest bytes, `n` at most, and copies them to `dst`. */
    method PopBulk(dst: array<u8>, n: nat) returns (popped: nat)
      requires Valid() && dst != buf && Min(n, count) <= dst.Length
      modifies `head, `tail, `count, dst
      ensures Valid() && popped == Min(n, |old(Contents())|)
      ensures dst[..] == old(Contents())[..popped] + old(dst[popped..])
      ensures Contents() == old(Contents())[popped..]
    {
      popped := Min(n, count);
      ghost var slots := buf[..];
      CopyOldest(dst, popped);
      assert buf[..] == slots;
      WindowSplits(slots, tail, count, popped);
      WrapIsModulo(tail + popped, buf.Length);
      tail := (tail + popped) % buf.Length;
      count := count - popped;
      if count == 0 {
        head, tail := 0, 0;
      }
    }
  }
}
