/** The Ethernet ports as the driver keeps them (AoE/EInterface.h, AoE/EInterfaces.h), each
    operation proved to be the function of module Interfaces that specifies it. */
module EthernetPorts {
  import opened Common
  import opened Interfaces

  class EInterface {
    var m_fEnabled: bool
    var m_ifnet: int
    var m_nOutstandingCount: int
    var m_nSSThresh: int
    var m_nCwd: int
    var m_nCwdFractional: int
    var m_TimeSinceLastSend: nat
    const m_anMaxOutstanding: array<int>
    var m_nMinimumMaxOutstanding: int

    ghost function View(): Iface
      reads this, m_anMaxOutstanding
    {
      Iface(m_fEnabled, m_ifnet, m_nOutstandingCount, m_nSSThresh, m_nCwd, m_nCwdFractional,
            m_TimeSinceLastSend, m_anMaxOutstanding[..], m_nMinimumMaxOutstanding)
    }

    constructor ()
      ensures View() == InitialIface() && fresh(m_anMaxOutstanding)
    {
      m_fEnabled := false;
      m_ifnet := NO_IFNET;
      m_nOutstandingCount := 0;
      m_nCwd := 1;
      m_nCwdFractional := 0;
      m_TimeSinceLastSend := 0;
      m_nMinimumMaxOutstanding := DEFAULT_CONGESTION_WINDOW;
      m_nSSThresh := DEFAULT_CONGESTION_WINDOW / 2;
      m_anMaxOutstanding := new int[MAX_SHELFS](_ => 0);
    }

    method SetMaxOutstanding(nShelf: nat, nMaxOutstanding: int)
      requires nShelf < m_anMaxOutstanding.Length
      modifies this`m_nMinimumMaxOutstanding, m_anMaxOutstanding
      ensures View() == SetShelfMax(old(View()), nShelf, nMaxOutstanding)
    {
      m_anMaxOutstanding[nShelf] := nMaxOutstanding;
      m_nMinimumMaxOutstanding := Min(m_nMinimumMaxOutstanding, nMaxOutstanding);
    }

    // The window fields start over; the count is a separate assignment in both callers.
    method Reset()
      modifies this`m_nCwd, this`m_nCwdFractional, this`m_nSSThresh, this`m_nOutstandingCount
      ensures View() == ResetIface(old(View()))
    {
      m_nCwd := 1;
      m_nCwdFractional := 0;
      m_nSSThresh := m_nMinimumMaxOutstanding / 2;
      m_nOutstandingCount := 0;
    }
  }

  // recalculate_mtu: the least MTU of the ports that are up, 0 if there is none.
  function LeastMtu(ps: Ports, mtus: seq<nat>, n: nat): nat
    requires n <= |ps| == |mtus|
  {
    if n == 0 then 0
    else
      var least := LeastMtu(ps, mtus, n - 1);
      if !ps[n - 1].enabled then least else if least != 0 then Min(mtus[n - 1], least) else mtus[n - 1]
  }

  // With positive MTUs the result is the greatest bound that every port in use respects.
  lemma {:induction false} LeastMtuIsMinimum(ps: Ports, mtus: seq<nat>, n: nat)
    requires n <= |ps| == |mtus| && forall k :: 0 <= k < |mtus| ==> mtus[k] > 0
    ensures var m := LeastMtu(ps, mtus, n);
      && (forall k :: 0 <= k < n && ps[k].enabled ==> 0 < m <= mtus[k])
      && (m == 0 || exists k :: 0 <= k < n && ps[k].enabled && mtus[k] == m)
  {
    if n > 0 { LeastMtuIsMinimum(ps, mtus, n - 1); }
  }

  class EInterfaces {
    const m_aInterfaces: seq<EInterface>
    var m_nMaxUserWindow: int
    var m_Min_MTU: nat

    ghost var Contents: Ports
    ghost const Objects: set<EInterface>
    ghost const Arrays: set<array<int>>

    ghost predicate Separate() {
      && |m_aInterfaces| == MAX_PORTS
      && (forall i :: 0 <= i < |m_aInterfaces| ==>
            m_aInterfaces[i] in Objects && m_aInterfaces[i].m_anMaxOutstanding in Arrays)
      && (forall i, j :: 0 <= i < j < |m_aInterfaces| ==> m_aInterfaces[i] != m_aInterfaces[j])
      && (forall i, j :: 0 <= i < j < |m_aInterfaces| ==>
            m_aInterfaces[i].m_anMaxOutstanding != m_aInterfaces[j].m_anMaxOutstanding)
    }

    // Contents is what the six port objects hold, and it is as in every reachable state.
    ghost predicate Valid()
      reads this, Objects, Arrays
    {
      && Separate()
      && |Contents| == |m_aInterfaces|
      && (forall i :: 0 <= i < |m_aInterfaces| ==> m_aInterfaces[i].View() == Contents[i])
      && PortsOk(Contents)
    }

    constructor ()
      ensures Valid() && Contents == InitialPorts() && m_nMaxUserWindow == DEFAULT_CONGESTION_WINDOW
      ensures fresh(Objects) && fresh(Arrays)
    {
      var all: seq<EInterface> := [];
      while |all| < MAX_PORTS
        invariant |all| <= MAX_PORTS
        invariant forall i :: 0 <= i < |all| ==> fresh(all[i]) && fresh(all[i].m_anMaxOutstanding)
        invariant forall i :: 0 <= i < |all| ==> all[i].View() == InitialIface()
        invariant forall i, j :: 0 <= i < j < |all| ==>
          all[i] != all[j] && all[i].m_anMaxOutstanding != all[j].m_anMaxOutstanding
      {
        var one := new EInterface();
        all := all + [one];
      }
      m_aInterfaces := all;
      Objects := set i | 0 <= i < |all| :: all[i];
      Arrays := set i | 0 <= i < |all| :: all[i].m_anMaxOutstanding;
      Contents := InitialPorts();
      m_nMaxUserWindow := DEFAULT_CONGESTION_WINDOW;
      m_Min_MTU := 0;
      PortsOkInitial();
    }

    // Port n holds `f` and the other ports are as they were.
    ghost method Record(n: nat, f: Iface)
      requires Separate() && n < MAX_PORTS && |Contents| == MAX_PORTS && PortsOk(Contents[n := f])
      requires forall i :: 0 <= i < MAX_PORTS ==> m_aInterfaces[i].View() == if i == n then f else Contents[i]
      modifies this`Contents
      ensures Valid() && Contents == old(Contents)[n := f]
    {
      Contents := Contents[n := f];
    }

    // The loop every accessor starts with; numberof(m_aInterfaces) stands for "not found".
    method Find(ifref: int) returns (n: nat)
      requires Valid() && ifref != NO_IFNET
      ensures n < MAX_PORTS <==> Attached(Contents, ifref)
      ensures n < MAX_PORTS ==> n == ifref
      ensures n <= MAX_PORTS
    {
      n := 0;
      while n < |m_aInterfaces|
        invariant n <= |m_aInterfaces|
        invariant forall k :: 0 <= k < n ==> Contents[k].ifnet != ifref
      {
        assert PortOk(Contents[n], n);
        if ifref == m_aInterfaces[n].m_ifnet {
          return;
        }
        n := n + 1;
      }
    }

    method GetMaxOutstanding(ifref: int, nShelf: int) returns (r: int)
      requires Valid() && ifref != NO_IFNET && nShelf < MAX_SHELFS
      ensures r == MaxOutstanding(Contents, ifref, nShelf)
    {
      r := 0;
      var n := Find(ifref);
      if n < |m_aInterfaces| {
        assert PortOk(Contents[n], n);
        r := if nShelf >= 0 then m_aInterfaces[n].m_anMaxOutstanding[nShelf]
             else m_aInterfaces[n].m_nMinimumMaxOutstanding;
      }
    }

    // 1 for used, 0 for not used, -1 for unknown
    method IsUsed(ifref: int) returns (r: int)
      requires Valid() && ifref != NO_IFNET
      ensures r == 1 <==> Used(Contents, ifref)
      ensures r == -1 <==> !Attached(Contents, ifref)
      ensures r in {-1, 0, 1}
    {
      var n := Find(ifref);
      r := if n == |m_aInterfaces| then -1 else if m_aInterfaces[n].m_fEnabled then 1 else 0;
    }

    method GetOutstanding(ifref: int) returns (r: int)
      requires Valid() && ifref != NO_IFNET
      ensures r == Outstanding(Contents, ifref)
    {
      var n := Find(ifref);
      r := if n == |m_aInterfaces| then -1 else m_aInterfaces[n].m_nOutstandingCount;
    }

    method GetCwnd(ifref: int) returns (r: int)
      requires Valid() && ifref != NO_IFNET
      ensures r == Cwnd(Contents, ifref)
    {
      var n := Find(ifref);
      r := if n == |m_aInterfaces| then -1 else m_aInterfaces[n].m_nCwd;
    }

    method GetSSThresh(ifref: int) returns (r: int)
      requires Valid() && ifref != NO_IFNET
      ensures r == SSThresh(Contents, ifref)
    {
      var n := Find(ifref);
      r := if n == |m_aInterfaces| then -1 else m_aInterfaces[n].m_nSSThresh;
    }

    method AllFull(nMax: int) returns (full: bool)
      requires Valid()
      ensures full <==> Interfaces.AllFull(Contents, nMax)
    {
      for n := 0 to |m_aInterfaces|
        invariant forall k :: 0 <= k < n && Contents[k].enabled ==> Contents[k].outstanding >= nMax
      {
        if m_aInterfaces[n].m_fEnabled && m_aInterfaces[n].m_nOutstandingCount < nMax {
          return false;
        }
      }
      return true;
    }

    method SetCwnd(ifref: int, nCwd: int)
      requires Valid() && ifref != NO_IFNET && nCwd >= 1
      modifies this`Contents, Objects
      ensures Valid() && Contents == Interfaces.SetCwnd(old(Contents), ifref, nCwd)
    {
      var n := Find(ifref);
      if n < |m_aInterfaces| {
        m_aInterfaces[n].m_nCwd := nCwd;
        m_aInterfaces[n].m_nCwdFractional := 0;
        Record(n, m_aInterfaces[n].View());
      }
    }

    method SetSSThresh(ifref: int, nSSThresh: int)
      requires Valid() && ifref != NO_IFNET && nSSThresh >= 0
      modifies this`Contents, Objects
      ensures Valid() && Contents == Interfaces.SetSSThresh(old(Contents), ifref, nSSThresh)
    {
      var n := Find(ifref);
      if n < |m_aInterfaces| {
        m_aInterfaces[n].m_nSSThresh := nSSThresh;
        Record(n, m_aInterfaces[n].View());
      }
    }

    method UpdateTimeSinceLastSend(ifref: int, now: nat)
      requires Valid() && ifref != NO_IFNET
      modifies this`Contents, Objects
      ensures Valid() && Contents == Stamp(old(Contents), ifref, now)
    {
      var n := Find(ifref);
      if n < |m_aInterfaces| {
        m_aInterfaces[n].m_TimeSinceLastSend := now;
        Record(n, m_aInterfaces[n].View());
      }
    }

    method GrowCwnd(ifref: int, nIntegerGrowth: nat, nFractionalGrowth: nat)
      requires Valid() && ifref != NO_IFNET
      modifies this`Contents, Objects
      ensures Valid()
      ensures Contents == if Attached(old(Contents), ifref)
                          then old(Contents)[ifref := Grow(old(Contents)[ifref], nIntegerGrowth, nFractionalGrowth)]
                          else old(Contents)
    {
      var n := Find(ifref);
      if n < |m_aInterfaces| {
        ghost var was := Contents[n];
        assert PortOk(was, n);
        var one := m_aInterfaces[n];
        var nPrevCwnd := one.m_nCwd;
        one.m_nCwd := one.m_nCwd + nIntegerGrowth;
        one.m_nCwdFractional := one.m_nCwdFractional + nFractionalGrowth;
        if one.m_nCwdFractional >= one.m_nCwd {
          one.m_nCwd := one.m_nCwd + one.m_nCwdFractional / nPrevCwnd;
          one.m_nCwdFractional := one.m_nCwdFractional % nPrevCwnd;
        }
        assert one.View() == Grow(was, nIntegerGrowth, nFractionalGrowth);
        GrowKeeps(was, n, nIntegerGrowth, nFractionalGrowth);
        Record(n, Grow(was, nIntegerGrowth, nFractionalGrowth));
      }
    }

    // *pOutstandingCount += d, for a pointer that was taken from port n
    method AddOutstanding(n: int, d: int)
      requires Valid() && 0 <= n < MAX_PORTS
      modifies this`Contents, Objects
      ensures Valid() && Contents == Interfaces.AddOutstanding(old(Contents), n, d)
    {
      m_aInterfaces[n].m_nOutstandingCount := m_aInterfaces[n].m_nOutstandingCount + d;
      Record(n, m_aInterfaces[n].View());
    }

    // *pOutstandingCount
    method GetCount(n: int) returns (count: int)
      requires Valid() && 0 <= n < MAX_PORTS
      ensures count == Contents[n].outstanding
    {
      count := m_aInterfaces[n].m_nOutstandingCount;
    }

    method ResetIfIdle(now: nat)
      requires Valid()
      modifies this`Contents, Objects
      ensures Valid() && Contents == ResetIdle(old(Contents), now)
    {
      ghost var was := Contents;
      for n := 0 to |m_aInterfaces|
        invariant Valid()
        invariant forall k :: 0 <= k < |was| ==>
          Contents[k] == if k < n && IsIdle(was[k], now) then ResetIface(was[k]) else was[k]
      {
        assert Contents[n] == was[n] && PortOk(was[n], n);
        var one := m_aInterfaces[n];
        if one.m_fEnabled && one.m_TimeSinceLastSend != 0 {
          if SinceUs(now, one.m_TimeSinceLastSend) > IDLE_DELAY_US {
            one.Reset();
            Record(n, ResetIface(was[n]));
          }
        }
      }
      assert Contents == ResetIdle(was, now);
    }

    method RecalculateMtu(mtus: seq<nat>)
      requires Valid() && |mtus| == MAX_PORTS
      modifies this`m_Min_MTU
      ensures Valid() && m_Min_MTU == LeastMtu(Contents, mtus, MAX_PORTS)
    {
      var Min_MTU := 0;
      for n := 0 to |m_aInterfaces|
        invariant Min_MTU == LeastMtu(Contents, mtus, n)
      {
        assert m_aInterfaces[n].View() == Contents[n];
        if m_aInterfaces[n].m_fEnabled {
          if Min_MTU != 0 {
            Min_MTU := Min(mtus[n], Min_MTU);
          } else {
            Min_MTU := mtus[n];
          }
        }
      }
      if Min_MTU == 0 {
        m_Min_MTU := 1500;
      }
      m_Min_MTU := Min_MTU;
    }

    method EnableInterface(n: nat, mtus: seq<nat>) returns (ok: bool)
      requires Valid() && |mtus| == MAX_PORTS
      modifies this`Contents, this`m_Min_MTU, Objects
      ensures Valid() && ok == (n < MAX_PORTS)
      ensures Contents == EnablePort(old(Contents), n)
      ensures m_Min_MTU == if ok then LeastMtu(Contents, mtus, MAX_PORTS) else old(m_Min_MTU)
    {
      if n >= |m_aInterfaces| {
        return false;
      }
      m_aInterfaces[n].m_ifnet := n;
      m_aInterfaces[n].m_fEnabled := true;
      m_aInterfaces[n].Reset();
      assert PortOk(Contents[n], n);
      Record(n, m_aInterfaces[n].View());
      RecalculateMtu(mtus);
      return true;
    }

    method InterfaceDisconnected(n: nat)
      requires Valid()
      modifies this`Contents, Objects
      ensures Valid() && Contents == DisconnectPort(old(Contents), n)
    {
      if n >= |m_aInterfaces| {
        return;
      }
      m_aInterfaces[n].m_ifnet := NO_IFNET;
      m_aInterfaces[n].m_fEnabled := false;
      Record(n, m_aInterfaces[n].View());
    }

    method InterfaceReconnected(n: nat, mtus: seq<nat>)
      requires Valid() && n < MAX_PORTS && |mtus| == MAX_PORTS
      modifies this`Contents, this`m_Min_MTU, Objects
      ensures Valid() && Contents == ReconnectPort(old(Contents), n)
      ensures m_Min_MTU == LeastMtu(Contents, mtus, MAX_PORTS)
    {
      m_aInterfaces[n].m_ifnet := n;
      m_aInterfaces[n].m_fEnabled := true;
      Record(n, m_aInterfaces[n].View());
      RecalculateMtu(mtus);
    }

    method SetMaxOutstanding(ifref: int, nShelf: nat, nMaxOutstanding: nat)
      requires Valid() && ifref != NO_IFNET && nShelf < MAX_SHELFS
      modifies this`Contents, Objects, Arrays
      ensures Valid() && Contents == SetShelfWindow(old(Contents), ifref, nShelf, nMaxOutstanding)
    {
      var n := Find(ifref);
      if n < |m_aInterfaces| {
        assert PortOk(Contents[n], n);
        m_aInterfaces[n].SetMaxOutstanding(nShelf, nMaxOutstanding);
        Record(n, SetShelfMax(Contents[n], nShelf, nMaxOutstanding));
      }
    }
  }

  lemma GrowKeeps(f: Iface, k: nat, whole: nat, part: nat)
    requires PortOk(f, k)
    ensures PortOk(Grow(f, whole, part), k)
  {
    var frac := f.frac + part;
    assert 0 <= frac % f.cwnd < f.cwnd && frac / f.cwnd >= 0;
  }
}
