/** Constants and small facts about sequences that the driver's modules share. */
module Common {

  const MAX_PORTS: nat := 6
  const MAX_SHELFS: nat := 0x10000
  const DEFAULT_CONGESTION_WINDOW: nat := 128

  const RTO_MIN_NS: nat := 1_000_000
  const RTO_MAX_NS: nat := 10_000_000
  const MAX_RETRANSMIT_TIMEOUT_US: nat := 5_000
  const MAX_TIMEOUT_BEFORE_DROP_US: nat := 60_000_000
  const IDLE_DELAY_US: nat := 5_000_000

  const DEVICE_ONLINE_TAG: nat := 0
  const TAG_BROADCAST_MASK: nat := 0x4000_0000
  const MIN_TAG: nat := 1
  const MAX_TAG: nat := TAG_BROADCAST_MASK - 1

  function Min(x: int, y: int): int {
    if x < y then x else y
  }

  function Max(x: int, y: int): int {
    if x > y then x else y
  }

  // CONVERT_NS_TO_US: rounds to the nearest microsecond.
  function NsToUs(ns: nat): nat {
    (ns + 500) / 1000
  }

  // time_since_now_us, for a clock that never runs backwards.
  function SinceUs(now: nat, t: nat): nat {
    if t <= now then NsToUs(now - t) else 0
  }

  // Whether `TAG_BROADCAST_MASK & tag` is non-zero, for a 32-bit tag.
  predicate IsBroadcast(tag: nat) {
    (tag / TAG_BROADCAST_MASK) % 2 == 1
  }

  // Multiples of n are at least n apart.
  lemma {:induction false} MulOrder(a: int, b: int, n: nat)
    ensures a < b ==> a * n + n <= b * n
    decreases b - a
  {
    if a < b {
      assert b * n == (b - 1) * n + n;
      MulOrder(a, b - 1, n);
    }
  }

  // Quotient and remainder are unique.
  lemma DivUnique(x: nat, q: nat, r: nat, n: nat)
    requires r < n && x == q * n + r
    ensures x % n == r && x / n == q
  {
    assert x == (x / n) * n + x % n;
    MulOrder(q, x / n, n);
    MulOrder(x / n, q, n);
  }

  // ---- Sequences ----

  function RemoveAt<T>(s: seq<T>, i: nat): (r: seq<T>)
    requires i < |s|
    ensures |r| == |s| - 1
    ensures forall k :: 0 <= k < |r| ==> r[k] == s[if k < i then k else k + 1]
  {
    s[..i] + s[i + 1..]
  }

  lemma RemoveAtMembers<T>(s: seq<T>, i: nat)
    requires i < |s|
    ensures forall x :: x in RemoveAt(s, i) ==> x in s
    ensures forall x :: x in s && x != s[i] ==> x in RemoveAt(s, i)
  {
    forall x | x in s && x != s[i]
      ensures x in RemoveAt(s, i)
    {
      var k :| 0 <= k < |s| && s[k] == x;
      assert k < i ==> RemoveAt(s, i)[k] == x;
      assert k > i ==> RemoveAt(s, i)[k - 1] == x;
    }
  }

  lemma RemoveAtSlices<T>(s: seq<T>, i: nat)
    requires i < |s|
    ensures RemoveAt(s, i)[..i] == s[..i] && RemoveAt(s, i)[i..] == s[i + 1..]
  {
  }

  function Count<T(==)>(s: seq<T>, x: T): (n: nat)
    ensures n > 0 <==> x in s
  {
    if s == [] then 0 else (if s[0] == x then 1 else 0) + Count(s[1..], x)
  }

  lemma {:induction false} CountConcat<T>(a: seq<T>, b: seq<T>, x: T)
    ensures Count(a + b, x) == Count(a, x) + Count(b, x)
  {
    if a == [] {
      assert a + b == b;
    } else {
      CountConcat(a[1..], b, x);
      assert (a + b)[1..] == a[1..] + b;
    }
  }

  // `a` can be obtained from `b` by deleting elements.
  predicate Subsequence<T(==)>(a: seq<T>, b: seq<T>)
    decreases |b|
  {
    if a == [] then true
    else if b == [] then false
    else if a[0] == b[0] then Subsequence(a[1..], b[1..])
    else Subsequence(a, b[1..])
  }

  lemma {:induction false} SubsequenceSelf<T>(a: seq<T>)
    ensures Subsequence(a, a)
  {
    if a != [] { SubsequenceSelf(a[1..]); }
  }

  // Deleting the head of the shorter sequence keeps it a subsequence.
  lemma {:induction false} SubsequenceTail<T>(a: seq<T>, b: seq<T>)
    requires a != [] && Subsequence(a, b)
    ensures Subsequence(a[1..], b)
    decreases |b|
  {
    if a[0] == b[0] {
      SubsequencePrepend(a[1..], b);
    } else {
      SubsequenceTail(a, b[1..]);
      SubsequencePrepend(a[1..], b);
    }
  }

  // Extending the longer sequence at the front keeps the relation.
  lemma {:induction false} SubsequencePrepend<T>(a: seq<T>, b: seq<T>)
    requires b != [] && Subsequence(a, b[1..])
    ensures Subsequence(a, b)
    decreases |b|, 0
  {
    if a != [] && a[0] == b[0] {
      SubsequenceTail(a, b[1..]);
    }
  }

  lemma {:induction false} SubsequenceTransitive<T>(a: seq<T>, b: seq<T>, c: seq<T>)
    requires Subsequence(a, b) && Subsequence(b, c)
    ensures Subsequence(a, c)
    decreases |c|
  {
    if a != [] && b != [] && c != [] {
      if b[0] != c[0] {
        SubsequenceTransitive(a, b, c[1..]);
        SubsequencePrepend(a, c);
      } else if a[0] == b[0] {
        SubsequenceTransitive(a[1..], b[1..], c[1..]);
      } else {
        SubsequenceTransitive(a, b[1..], c[1..]);
        SubsequencePrepend(a, c);
      }
    }
  }

  lemma {:induction false} SubsequenceConcat<T>(a: seq<T>, b: seq<T>, x: seq<T>, y: seq<T>)
    requires Subsequence(a, b) && Subsequence(x, y)
    ensures Subsequence(a + x, b + y)
    decreases |b|
  {
    if b == [] {
      assert a + x == x && b + y == y;
    } else if a == [] || a[0] != b[0] {
      SubsequenceConcat(a, b[1..], x, y);
      assert (b + y)[1..] == b[1..] + y;
      SubsequencePrepend(a + x, b + y);
    } else {
      SubsequenceConcat(a[1..], b[1..], x, y);
      assert (b + y)[1..] == b[1..] + y;
      assert (a + x)[1..] == a[1..] + x;
    }
  }

  lemma SubsequenceEmpty<T>(b: seq<T>)
    ensures Subsequence([], b)
  {
  }
}
