/**
 User port lists: the fixed-width byte strings in which the firmware keeps sets of
 front-panel ports (utils/ports/ports_utils.c), and their meaning as sets.
 */
module Uplists {
  import opened Words

  const BOARD_MAX_NUM_OF_PORTS := 64
  const MAX_UPLIST_WIDTH := (BOARD_MAX_NUM_OF_PORTS + 7) / 8

  type PortCount = n: nat | 1 <= n <= BOARD_MAX_NUM_OF_PORTS witness 1

  /** board_uport_count(): fixed for a board; every theorem holds for any legal value. */
  const UPORT_COUNT: PortCount

  newtype byte = b: int | 0 <= b < 256

  type Uplist = u: seq<byte> | |u| == MAX_UPLIST_WIDTH witness seq(MAX_UPLIST_WIDTH, _ => 0)

  const EMPTY_UPLIST: Uplist := [0, 0, 0, 0, 0, 0, 0, 0]
  const FULL_UPLIST: Uplist := [0xFF, 0xFF, 0xFF, 0xFF, 0xFF, 0xFF, 0xFF, 0xFF]

  /** User ports are numbered from SAL_UPORT_BASE, which is 1. */
  predicate ValidPort(p: int) {
    1 <= p <= UPORT_COUNT
  }

  const ALL_PORTS: set<int> := set p: int | 1 <= p <= UPORT_COUNT

  /** The byte with bit k set and every other bit as it was. */
  function SetBit(b: nat, k: nat): nat {
    if k == 0 then b / 2 * 2 + 1 else 2 * SetBit(b / 2, k - 1) + b % 2
  }

  lemma {:induction false} SetBitInRange(b: nat, k: nat, n: nat)
    requires k < n && b < Power2(n)
    ensures SetBit(b, k) < Power2(n)
  {
    var half, p := b / 2, Power2(n - 1);
    assert half < p;
    if k > 0 {
      SetBitInRange(half, k - 1, n - 1);
      assert SetBit(b, k) == 2 * SetBit(half, k - 1) + b % 2;
    } else {
      assert SetBit(b, k) == 2 * half + 1;
    }
  }

  function ByteWithBit(b: byte, k: nat): byte
    requires k < 8
  {
    assert Power2(8) == 256;
    SetBitInRange(b as nat, k, 8);
    SetBit(b as nat, k) as byte
  }

  predicate Matched(u: Uplist, p: int) {
    ValidPort(p) && TestBit(u[(p - 1) / 8] as nat, (p - 1) % 8)
  }

  function PortAdd(u: Uplist, p: int): Uplist {
    if ValidPort(p) then u[(p - 1) / 8 := ByteWithBit(u[(p - 1) / 8], (p - 1) % 8)] else u
  }

  /** The loop of board_uplist_to_lpbmp: collect each matched port among 1, ..., n. */
  function PortsUpTo(u: Uplist, n: nat): set<int> {
    if n == 0 then {}
    else if Matched(u, n) then PortsUpTo(u, n - 1) + {n}
    else PortsUpTo(u, n - 1)
  }

  /** The ports a list stands for. Bits above the last port of the board mean nothing. */
  function Ports(u: Uplist): set<int> {
    PortsUpTo(u, UPORT_COUNT)
  }

  /** The loop that adds ports 1, 2, ..., n of a set to a list. */
  function AddUpTo(u: Uplist, s: set<int>, n: nat): Uplist {
    if n == 0 then u
    else
      var r := AddUpTo(u, s, n - 1);
      if n in s then PortAdd(r, n) else r
  }

  /** board_lpbmp_to_uplist: start from a cleared list and add each member port. */
  function ToUplist(s: set<int>): Uplist {
    AddUpTo(EMPTY_UPLIST, s, UPORT_COUNT)
  }

  /** _brdimpl_uplist_allport_set: adds every port and clears nothing. */
  function AddAllPorts(u: Uplist): Uplist {
    AddUpTo(u, ALL_PORTS, UPORT_COUNT)
  }

  lemma {:induction false} PortsUpToMatches(u: Uplist, n: nat, p: int)
    ensures p in PortsUpTo(u, n) <==> Matched(u, p) && p <= n
  {
    if n == 0 {
    } else {
      PortsUpToMatches(u, n - 1, p);
    }
  }

  lemma PortsMatches(u: Uplist, p: int)
    ensures p in Ports(u) <==> Matched(u, p)
    ensures p in Ports(u) ==> p in ALL_PORTS
  {
    PortsUpToMatches(u, UPORT_COUNT, p);
  }

  lemma PortsAreValid(u: Uplist)
    ensures Ports(u) <= ALL_PORTS
  {
    forall p | p in Ports(u) ensures p in ALL_PORTS {
      PortsMatches(u, p);
    }
  }

  lemma {:induction false} SetBitTests(b: nat, j: nat, k: nat)
    ensures TestBit(SetBit(b, j), k) <==> TestBit(b, k) || j == k
  {
    var c := SetBit(b, j);
    if j == 0 {
      assert c / 2 == b / 2;
    } else {
      assert c / 2 == SetBit(b / 2, j - 1) && c % 2 == b % 2;
      if k > 0 { SetBitTests(b / 2, j - 1, k - 1); }
    }
  }

  lemma LowBit(b: bv8)
    ensures b & 1 != 0 <==> b as nat % 2 == 1
  {
    assert (b & 1) as nat == b as nat % 2;
  }

  lemma HalfByte(b: bv8)
    ensures (b >> 1) as nat == b as nat / 2
  {
  }

  /** 1 << k in one byte. */
  function Mask(k: nat): bv8
    requires k < 8
  {
    if k == 0 then 1 else Mask(k - 1) << 1
  }

  lemma HalfMask(b: bv8, m: bv8)
    requires m < 128
    ensures b & (m << 1) != 0 <==> (b >> 1) & m != 0
  {
  }

  lemma {:induction false} MaskBound(k: nat)
    requires k < 7
    ensures Mask(k) < 128
  {
    assert Mask(0) == 1 && Mask(1) == 2 && Mask(2) == 4 && Mask(3) == 8;
    assert Mask(4) == 16 && Mask(5) == 32 && Mask(6) == 64;
  }

  /** The firmware's mask test of one byte is TestBit. */
  lemma {:induction false} MaskIsBit(b: bv8, k: nat)
    requires k < 8
    ensures b & Mask(k) != 0 <==> TestBit(b as nat, k)
  {
    if k == 0 {
      LowBit(b);
    } else {
      MaskIsBit(b >> 1, k - 1);
      HalfByte(b);
      MaskBound(k - 1);
      HalfMask(b, Mask(k - 1));
    }
  }

  lemma PortAddMatches(u: Uplist, p: int, q: int)
    ensures Matched(PortAdd(u, p), q) <==> Matched(u, q) || (p == q && ValidPort(p))
  {
    if ValidPort(p) && ValidPort(q) {
      SetBitTests(u[(p - 1) / 8] as nat, (p - 1) % 8, (q - 1) % 8);
    }
  }

  lemma {:induction false} AddUpToMatches(u: Uplist, s: set<int>, n: nat, q: int)
    requires n <= UPORT_COUNT
    ensures Matched(AddUpTo(u, s, n), q) <==> Matched(u, q) || (q in s && 1 <= q <= n)
  {
    if n == 0 {
    } else {
      AddUpToMatches(u, s, n - 1, q);
      PortAddMatches(AddUpTo(u, s, n - 1), n, q);
    }
  }

  lemma EmptyMatchesNothing(p: int)
    ensures !Matched(EMPTY_UPLIST, p)
  {
    if ValidPort(p) {
      assert EMPTY_UPLIST[(p - 1) / 8] == 0;
      ZeroBit((p - 1) % 8);
    }
  }

  lemma EmptyHasNoPorts()
    ensures Ports(EMPTY_UPLIST) == {}
  {
    forall p: int ensures p !in Ports(EMPTY_UPLIST) {
      PortsMatches(EMPTY_UPLIST, p);
      EmptyMatchesNothing(p);
    }
  }

  lemma FullHasAllPorts()
    ensures Ports(FULL_UPLIST) == ALL_PORTS
  {
    forall p: int ensures p in Ports(FULL_UPLIST) <==> p in ALL_PORTS {
      PortsMatches(FULL_UPLIST, p);
      if ValidPort(p) {
        assert FULL_UPLIST[(p - 1) / 8] as nat == 0xFF == Power2(8) - 1;
        OnesBit(8, (p - 1) % 8);
      }
    }
  }

  /** Adding every port gives every port, whatever bits were there before. */
  lemma AddAllPortsHasAll(u: Uplist)
    ensures Ports(AddAllPorts(u)) == ALL_PORTS
  {
    forall p: int ensures p in Ports(AddAllPorts(u)) <==> p in ALL_PORTS {
      PortsMatches(AddAllPorts(u), p);
      AddUpToMatches(u, ALL_PORTS, UPORT_COUNT, p);
    }
  }

  /** Writing a set of ports out as a list and reading it back loses nothing. */
  lemma PortsOfToUplist(s: set<int>)
    requires s <= ALL_PORTS
    ensures Ports(ToUplist(s)) == s
  {
    forall p: int ensures p in Ports(ToUplist(s)) <==> p in s {
      PortsMatches(ToUplist(s), p);
      AddUpToMatches(EMPTY_UPLIST, s, UPORT_COUNT, p);
      EmptyMatchesNothing(p);
    }
  }
}
