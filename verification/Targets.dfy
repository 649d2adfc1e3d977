/** The targets of AoE/AoEControllerInterface.cpp: the choice of the interface a packet goes
    out on, and the table of target numbers. */
module Targets {
  import opened Common

  // ---- Load balancing ----

  // A choice is possible: some interface of the target is in use.
  ghost predicate SomeActive(act: seq<bool>) {
    exists a :: 0 <= a < |act| && act[a]
  }

  // Whether the position x, counted round and round the interfaces, is one in use.
  predicate ActiveAt(act: seq<bool>, x: nat)
    requires |act| > 0
  {
    act[x % |act|]
  }

  lemma ModOnce(y: nat, n: nat)
    requires n > 0
    ensures (y + n) % n == y % n
  {
    var q := y / n;
    assert y == q * n + y % n;
    assert (q + 1) * n == q * n + n;
    DivUnique(y + n, q + 1, y % n, n);
  }

  lemma ModNext(x: nat, n: nat)
    requires n > 0
    ensures (x % n + 1) % n == (x + 1) % n
  {
    var q, r := x / n, x % n;
    assert x == q * n + r;
    SuccessorMod(x, q, r, n);
    SuccessorMod(r, 0, r, n);
  }

  lemma SuccessorMod(x: nat, q: nat, r: nat, n: nat)
    requires r < n && x == q * n + r
    ensures (x + 1) % n == if r + 1 == n then 0 else r + 1
  {
    if r + 1 == n {
      assert (q + 1) * n == q * n + n;
      DivUnique(x + 1, q + 1, 0, n);
    } else {
      DivUnique(x + 1, q, r + 1, n);
    }
  }

  // Within one round after x there is an active position.
  lemma RoundMeets(act: seq<bool>, x: nat, a: nat) returns (y: nat)
    requires a < |act|
    ensures x < y <= x + |act| && y % |act| == a
  {
    var n := |act|;
    var q, r := x / n, x % n;
    assert x == q * n + r;
    if a > r {
      y := q * n + a;
      DivUnique(y, q, a, n);
    } else {
      assert (q + 1) * n == q * n + n;
      y := (q + 1) * n + a;
      DivUnique(y, q + 1, a, n);
    }
  }

  class TargetInfo {
    var nLastSentInterface: nat

    constructor ()
      ensures nLastSentInterface == 0
    {
      nLastSentInterface := 0;
    }

    // The choice that send_packet makes, -1 for a target without interfaces; `act` says which
    // interfaces of the target are in use. The do-while loop ends only if one is.
    method PickInterface(act: seq<bool>) returns (nInterfaceNumber: int, ghost y: nat)
      requires act == [] || SomeActive(act)
      modifies this
      ensures act == [] ==> nInterfaceNumber == -1 && nLastSentInterface == old(nLastSentInterface)
      ensures act != [] ==>
        && old(nLastSentInterface) < y <= old(nLastSentInterface) + |act|
        && ActiveAt(act, y) && (forall z :: old(nLastSentInterface) < z < y ==> !ActiveAt(act, z))
        && nInterfaceNumber == nLastSentInterface == y % |act|
        && Picked(act, old(nLastSentInterface), nLastSentInterface)
    {
      y := 0;
      if |act| == 0 {
        return -1, 0;
      }
      ghost var x := nLastSentInterface;
      ghost var a :| 0 <= a < |act| && act[a];
      ghost var goal := RoundMeets(act, x, a);
      nInterfaceNumber := (nLastSentInterface + 1) % |act|;
      nLastSentInterface := nInterfaceNumber;
      y := x + 1;
      while !act[nInterfaceNumber]
        invariant x < y <= goal && nInterfaceNumber == nLastSentInterface == y % |act|
        invariant forall z :: x < z < y ==> !ActiveAt(act, z)
        decreases goal - y
      {
        assert !ActiveAt(act, y) && ActiveAt(act, goal);
        ModNext(y, |act|);
        nInterfaceNumber := (nLastSentInterface + 1) % |act|;
        nLastSentInterface := nInterfaceNumber;
        y := y + 1;
      }
    }
  }

  // A run of picks, as positions: each is the first active one after the position before it.
  ghost predicate PickRun(act: seq<bool>, x: nat, ys: seq<nat>)
    requires |act| > 0
    decreases |ys|
  {
    ys == [] || (
      && x < ys[0] && ActiveAt(act, ys[0])
      && (forall z :: x < z < ys[0] ==> !ActiveAt(act, z))
      && PickRun(act, ys[0], ys[1..]))
  }

  // Active positions in (x, y].
  function ActiveBetween(act: seq<bool>, x: nat, y: nat): nat
    requires |act| > 0 && x <= y
    decreases y - x
  {
    if x == y then 0 else (if ActiveAt(act, y) then 1 else 0) + ActiveBetween(act, x, y - 1)
  }

  lemma {:induction false} BetweenSplit(act: seq<bool>, x: nat, m: nat, y: nat)
    requires |act| > 0 && x <= m <= y
    ensures ActiveBetween(act, x, y) == ActiveBetween(act, x, m) + ActiveBetween(act, m, y)
    decreases y - m
  {
    if m < y { BetweenSplit(act, x, m, y - 1); }
  }

  lemma {:induction false} BetweenNone(act: seq<bool>, x: nat, y: nat)
    requires |act| > 0 && x < y && forall z :: x < z < y ==> !ActiveAt(act, z)
    ensures ActiveBetween(act, x, y) == if ActiveAt(act, y) then 1 else 0
  {
    if x < y - 1 { BetweenNone(act, x, y - 1); }
  }

  // Every round holds the same number of active positions.
  lemma {:induction false} RoundCount(act: seq<bool>, x: nat)
    requires |act| > 0
    ensures ActiveBetween(act, x, x + |act|) == ActiveBetween(act, 0, |act|)
  {
    if x > 0 {
      var n := |act|;
      RoundCount(act, x - 1);
      BetweenSplit(act, x - 1, x, x + n);
      BetweenSplit(act, x - 1, x - 1 + n, x + n);
      ModOnce(x, n);
      assert ActiveBetween(act, x - 1, x) == (if ActiveAt(act, x) then 1 else 0) + ActiveBetween(act, x - 1, x - 1);
      assert ActiveBetween(act, x - 1 + n, x + n)
          == (if ActiveAt(act, x + n) then 1 else 0) + ActiveBetween(act, x - 1 + n, x - 1 + n);
    }
  }

  // k picks pass exactly k active positions, and each active position they pass is a pick.
  lemma {:induction false} PicksPassAll(act: seq<bool>, x: nat, ys: seq<nat>)
    requires |act| > 0 && PickRun(act, x, ys)
    ensures forall i :: 0 <= i < |ys| ==> x < ys[i] && ActiveAt(act, ys[i])
    ensures forall i :: 0 <= i < |ys| ==> ActiveBetween(act, x, ys[i]) == i + 1
    ensures ys != [] ==> forall z :: x < z <= ys[|ys| - 1] && ActiveAt(act, z) ==> z in ys
    decreases |ys|
  {
    if ys != [] {
      var rest := ys[1..];
      PicksPassAll(act, ys[0], rest);
      BetweenNone(act, x, ys[0]);
      forall i | 0 <= i < |ys|
        ensures x < ys[i] && ActiveAt(act, ys[i]) && ActiveBetween(act, x, ys[i]) == i + 1
      {
        if i > 0 {
          assert ys[i] == rest[i - 1];
          BetweenSplit(act, x, ys[0], ys[i]);
        }
      }
      forall z | x < z <= ys[|ys| - 1] && ActiveAt(act, z) ensures z in ys {
        if z != ys[0] { assert z in rest; }
      }
    }
  }

  lemma ActiveCounts(act: seq<bool>, x: nat, y: nat)
    requires |act| > 0 && x < y && ActiveAt(act, y)
    ensures ActiveBetween(act, x, y) == 1 + ActiveBetween(act, x, y - 1)
  {
  }

  // As many picks as there are active interfaces use each of them exactly once.
  lemma FairShare(act: seq<bool>, x: nat, ys: seq<nat>, a: nat)
    requires SomeActive(act) && PickRun(act, x, ys) && |ys| == ActiveBetween(act, 0, |act|)
    requires a < |act| && act[a]
    ensures exists i :: (0 <= i < |ys| && ys[i] % |act| == a
                         && forall j :: 0 <= j < |ys| && ys[j] % |act| == a ==> j == i)
  {
    var n := |act|;
    RoundCount(act, x);
    PicksPassAll(act, x, ys);
    var y := RoundMeets(act, x, a);
    BetweenSplit(act, x, y, x + n);
    ActiveCounts(act, x, y);
    assert ys != [];
    var last := ys[|ys| - 1];
    if last < y {
      BetweenSplit(act, x, last, y - 1);
      assert false;
    }
    var i :| 0 <= i < |ys| && ys[i] == y;
    forall j | 0 <= j < |ys| && ys[j] % n == a ensures j == i {
      SameInterface(act, x, ys, i, j);
    }
  }

  lemma SameInterface(act: seq<bool>, x: nat, ys: seq<nat>, i: nat, j: nat)
    requires |act| > 0 && PickRun(act, x, ys) && |ys| == ActiveBetween(act, 0, |act|)
    requires i < |ys| && j < |ys| && ys[i] % |act| == ys[j] % |act|
    ensures i == j
  {
    var n := |act|;
    PicksPassAll(act, x, ys);
    var lo, hi := if ys[i] <= ys[j] then i else j, if ys[i] <= ys[j] then j else i;
    if ys[lo] < ys[hi] {
      SameResidue(ys[lo], ys[hi], n);
      RoundCount(act, ys[lo]);
      BetweenSplit(act, ys[lo], ys[lo] + n, ys[hi]);
      BetweenSplit(act, x, ys[lo], ys[hi]);
      assert false;
    }
  }

  lemma SameResidue(p: nat, q: nat, n: nat)
    requires n > 0 && p < q && p % n == q % n
    ensures p + n <= q
  {
    var a, b := p / n, q / n;
    assert p == a * n + p % n && q == b * n + q % n;
    MulOrder(a, b, n);
    MulOrder(b, a, n);
  }

  // The loop of PickInterface has a place to stop exactly if an interface is in use.
  lemma PickEndsIff(act: seq<bool>, last: nat)
    requires act != []
    ensures (exists y :: last < y && ActiveAt(act, y)) <==> SomeActive(act)
  {
    if SomeActive(act) {
      var a :| 0 <= a < |act| && act[a];
      var y := RoundMeets(act, last, a);
      assert ActiveAt(act, y);
    }
  }

  // Interface i is what PickInterface chooses after `last`.
  ghost predicate Picked(act: seq<bool>, last: nat, i: nat)
    requires |act| > 0
  {
    exists y :: last < y && ActiveAt(act, y) && (forall z :: last < z < y ==> !ActiveAt(act, z)) && i == y % |act|
  }

  // The interfaces of consecutive packets to one target.
  ghost predicate SendRun(act: seq<bool>, last: nat, used: seq<nat>)
    requires |act| > 0
    decreases |used|
  {
    used == [] || (Picked(act, last, used[0]) && SendRun(act, used[0], used[1..]))
  }

  lemma {:induction false} SameAhead(x: nat, y: nat, d: nat, n: nat)
    requires n > 0 && x % n == y % n
    ensures (x + d) % n == (y + d) % n
    decreases d
  {
    if d > 0 {
      SameAhead(x, y, d - 1, n);
      SameNext(x + (d - 1), y + (d - 1), n);
    }
  }

  lemma SameNext(u: nat, v: nat, n: nat)
    requires n > 0 && u % n == v % n
    ensures (u + 1) % n == (v + 1) % n
  {
    ModNext(u, n);
    ModNext(v, n);
  }

  lemma SamePick(act: seq<bool>, x: nat, last: nat, y: nat) returns (y': nat)
    requires |act| > 0 && x % |act| == last % |act|
    requires last < y && ActiveAt(act, y) && forall z :: last < z < y ==> !ActiveAt(act, z)
    ensures x < y' && ActiveAt(act, y') && (forall z :: x < z < y' ==> !ActiveAt(act, z))
    ensures y' % |act| == y % |act|
  {
    y' := x + (y - last);
    ActiveAhead(act, x, last, y - last, y', y);
    forall z | x < z < y' ensures !ActiveAt(act, z) {
      ActiveAhead(act, x, last, z - x, z, last + (z - x));
    }
  }

  lemma ActiveAhead(act: seq<bool>, x: nat, y: nat, d: nat, xd: nat, yd: nat)
    requires |act| > 0 && x % |act| == y % |act| && xd == x + d && yd == y + d
    ensures ActiveAt(act, xd) == ActiveAt(act, yd) && xd % |act| == yd % |act|
  {
    SameAhead(x, y, d, |act|);
  }

  // Where the counter starts over does not matter: the same choices as positions that go on.
  lemma {:induction false} Positions(act: seq<bool>, x: nat, last: nat, used: seq<nat>) returns (ys: seq<nat>)
    requires |act| > 0 && x % |act| == last % |act| && SendRun(act, last, used)
    ensures PickRun(act, x, ys) && |ys| == |used| && forall i :: 0 <= i < |ys| ==> ys[i] % |act| == used[i]
    decreases |used|
  {
    if used == [] {
      ys := [];
    } else {
      var n := |act|;
      var y :| last < y && ActiveAt(act, y) && (forall z :: last < z < y ==> !ActiveAt(act, z)) && used[0] == y % n;
      var y' := SamePick(act, x, last, y);
      DivUnique(used[0], 0, used[0], n);
      var rest := Positions(act, y', used[0], used[1..]);
      ys := [y'] + rest;
      assert ys[1..] == rest;
    }
  }

  // With a fixed set of interfaces in use, as many consecutive packets as there are such
  // interfaces use each of them exactly once.
  lemma FairSends(act: seq<bool>, last: nat, used: seq<nat>, a: nat)
    requires SomeActive(act) && SendRun(act, last, used) && |used| == ActiveBetween(act, 0, |act|)
    requires a < |act| && act[a]
    ensures exists i :: 0 <= i < |used| && used[i] == a && forall j :: 0 <= j < |used| && used[j] == a ==> j == i
  {
    var ys := Positions(act, last, last, used);
    FairShare(act, last, ys, a);
    var i :| 0 <= i < |ys| && ys[i] % |act| == a
      && forall j :: 0 <= j < |ys| && ys[j] % |act| == a ==> j == i;
    assert used[i] == a;
  }

  // ---- The table of targets ----

  datatype Target = Target(number: nat, shelf: nat, slot: nat, registered: bool)

  type Table = seq<Target>

  ghost predicate TableOk(ts: Table) {
    && (forall i :: 0 <= i < |ts| ==> ts[i].number >= 1)
    && (forall i, j :: 0 <= i < j < |ts| ==> ts[i].number != ts[j].number)
    && (forall i, j :: 0 <= i < j < |ts| ==> (ts[i].shelf, ts[i].slot) != (ts[j].shelf, ts[j].slot))
  }

  predicate InUse(ts: Table, n: nat) {
    exists i :: 0 <= i < |ts| && ts[i].number == n
  }

  // The least positive number that no target has.
  ghost predicate IsNextNumber(ts: Table, n: nat) {
    n >= 1 && !InUse(ts, n) && forall m :: 1 <= m < n ==> InUse(ts, m)
  }

  function AtLeast(ts: Table, n: nat): nat {
    if ts == [] then 0 else (if ts[0].number >= n then 1 else 0) + AtLeast(ts[1..], n)
  }

  lemma {:induction false} AtLeastStep(ts: Table, n: nat)
    ensures AtLeast(ts, n + 1) <= AtLeast(ts, n) <= |ts|
    ensures InUse(ts, n) ==> AtLeast(ts, n + 1) < AtLeast(ts, n)
  {
    if ts != [] {
      AtLeastStep(ts[1..], n);
      if InUse(ts, n) && ts[0].number != n {
        var i :| 0 <= i < |ts| && ts[i].number == n;
        assert ts[1..][i - 1].number == n;
      }
    }
  }

  function FindDevice(ts: Table, shelf: nat, slot: nat): (r: int)
    ensures -1 <= r < |ts|
    ensures r >= 0 ==> ts[r].shelf == shelf && ts[r].slot == slot
    ensures r < 0 ==> forall i :: 0 <= i < |ts| ==> (ts[i].shelf, ts[i].slot) != (shelf, slot)
  {
    if ts == [] then -1
    else if ts[0].shelf == shelf && ts[0].slot == slot then 0
    else
      var r := FindDevice(ts[1..], shelf, slot);
      assert forall i :: 1 <= i < |ts| ==> ts[i] == ts[1..][i - 1];
      if r < 0 then -1 else r + 1
  }

  class AoEControllerInterface {
    var m_pControllers: Table

    constructor ()
      ensures m_pControllers == [] && TableOk(m_pControllers)
    {
      m_pControllers := [];
    }

    method GetNextTargetNumber() returns (n: nat)
      ensures IsNextNumber(m_pControllers, n)
      ensures n <= |m_pControllers| + 1
    {
      var fFound := true;
      n := 0;
      AtLeastStep(m_pControllers, 0);
      while fFound
        invariant forall m :: 1 <= m < n ==> InUse(m_pControllers, m)
        invariant fFound ==> n == 0 || InUse(m_pControllers, n)
        invariant !fFound ==> n >= 1 && !InUse(m_pControllers, n)
        invariant n + AtLeast(m_pControllers, n + (if fFound then 1 else 0))
               <= |m_pControllers| + (if fFound then 0 else 1)
        decreases fFound, AtLeast(m_pControllers, n + 1)
      {
        fFound := false;
        n := n + 1;
        for i := 0 to |m_pControllers|
          invariant forall k :: 0 <= k < i ==> m_pControllers[k].number != n
          invariant !fFound
        {
          if m_pControllers[i].number == n {
            fFound := true;
            break;
          }
        }
        AtLeastStep(m_pControllers, n);
      }
    }

    method RemoveTarget(nNumber: nat) returns (ok: bool)
      requires TableOk(m_pControllers)
      modifies this
      ensures TableOk(m_pControllers)
      ensures ok == InUse(old(m_pControllers), nNumber) && !InUse(m_pControllers, nNumber)
      ensures ok ==> exists k :: (0 <= k < |old(m_pControllers)| && old(m_pControllers)[k].number == nNumber
                                  && m_pControllers == RemoveAt(old(m_pControllers), k))
      ensures !ok ==> m_pControllers == old(m_pControllers)
    {
      var nCount := 0;
      while nCount < |m_pControllers|
        invariant nCount <= |m_pControllers| && m_pControllers == old(m_pControllers)
        invariant forall k :: 0 <= k < nCount ==> m_pControllers[k].number != nNumber
      {
        if m_pControllers[nCount].number == nNumber {
          m_pControllers := RemoveAt(m_pControllers, nCount);
          assert forall k :: 0 <= k < |m_pControllers| ==> m_pControllers[k].number != nNumber;
          return true;
        }
        nCount := nCount + 1;
      }
      return false;
    }

    // aoe_ata_receive: the numbers of the targets whose controllers are given an ATA reply.
    method AoeAtaReceive(nShelf: nat, nSlot: nat) returns (given: seq<nat>)
      requires TableOk(m_pControllers)
      ensures var d := FindDevice(m_pControllers, nShelf, nSlot);
        given == if d >= 0 then [m_pControllers[d].number] else []
    {
      given := [];
      ghost var d := FindDevice(m_pControllers, nShelf, nSlot);
      for k := 0 to |m_pControllers|
        invariant given == if 0 <= d < k then [m_pControllers[d].number] else []
      {
        if m_pControllers[k].shelf == nShelf && m_pControllers[k].slot == nSlot {
          given := given + [m_pControllers[k].number];
        }
      }
    }

    // set_targets_cstring, for a target that takes the new string if `sent`; `ours` says
    // whether the string is then this computer's.
    method SetTargetsCstring(nDevice: nat, sent: bool, ours: bool) returns (ret: int)
      requires TableOk(m_pControllers)
      modifies this
      ensures TableOk(m_pControllers)
      ensures ret == if InUse(old(m_pControllers), nDevice) && !sent then -1 else 0
      ensures !InUse(old(m_pControllers), nDevice) || !sent ==> m_pControllers == old(m_pControllers)
      ensures forall k {:trigger old(m_pControllers)[k]} ::
        0 <= k < |old(m_pControllers)| && old(m_pControllers)[k].number == nDevice && sent ==>
          var was := old(m_pControllers);
          m_pControllers == if was[k].registered == ours then was
                            else if ours then was[k := was[k].(registered := true)]
                            else RemoveAt(was, k)
    {
      ret := 0;
      var k := 0;
      while k < |m_pControllers|
        invariant k <= |m_pControllers| && m_pControllers == old(m_pControllers) && ret == 0
        invariant forall i :: 0 <= i < k ==> m_pControllers[i].number != nDevice
      {
        var t := m_pControllers[k];
        if t.number == nDevice {
          if !sent {
            return -1;
          }
          if t.registered && !ours {
            var _ := RemoveTarget(t.number);
          } else if !t.registered && ours {
            m_pControllers := m_pControllers[k := t.(registered := true)];
          }
          return;
        }
        k := k + 1;
      }
    }

    // A config reply from a shelf and slot. `ours` says whether the target's config string
    // is this computer's, `started` whether a new controller attaches and starts.
    method AoeConfigReceive(nShelf: nat, nSlot: nat, ours: bool, started: bool)
      requires TableOk(m_pControllers)
      modifies this
      ensures TableOk(m_pControllers)
      ensures var was, d := old(m_pControllers), FindDevice(old(m_pControllers), nShelf, nSlot);
        if d >= 0 then
          if was[d].registered && !ours
          then m_pControllers == RemoveAt(was, d)
          else m_pControllers == was
        else if started then
          exists n: nat :: IsNextNumber(was, n) && n <= |was| + 1 && m_pControllers == was + [Target(n, nShelf, nSlot, ours)]
        else m_pControllers == was
    {
      var d := 0;
      while d < |m_pControllers|
        invariant d <= |m_pControllers|
        invariant forall k :: 0 <= k < d ==> (m_pControllers[k].shelf, m_pControllers[k].slot) != (nShelf, nSlot)
      {
        var t := m_pControllers[d];
        if t.shelf == nShelf && t.slot == nSlot {
          if !ours && t.registered {
            var _ := RemoveTarget(t.number);
          }
          return;
        }
        d := d + 1;
      }
      if started {
        AddTarget(nShelf, nSlot, ours);
      }
    }

    // A new target under the next free number.
    method AddTarget(nShelf: nat, nSlot: nat, ours: bool)
      requires TableOk(m_pControllers)
      requires forall k :: 0 <= k < |m_pControllers| ==> (m_pControllers[k].shelf, m_pControllers[k].slot) != (nShelf, nSlot)
      modifies this
      ensures TableOk(m_pControllers)
      ensures var was := old(m_pControllers);
        exists n: nat :: IsNextNumber(was, n) && n <= |was| + 1 && m_pControllers == was + [Target(n, nShelf, nSlot, ours)]
    {
      var n := GetNextTargetNumber();
      m_pControllers := m_pControllers + [Target(n, nShelf, nSlot, ours)];
    }
  }
}
