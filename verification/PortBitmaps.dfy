/**
 Port bitmaps of any number of words (soc/pbmp.h) and bit arrays (utils/shr/shr_bitop.h):
 the word-packed forms against sets of ports.
 */
module PortBitmaps {
  import opened Words

  // ---------- meaning ----------

  predicate InMap(bm: seq<Word>, p: int) {
    0 <= p < WORD_WIDTH * |bm|
  }

  /** _SHR_PBMP_MEMBER and SHR_BITGET: the bit of the port in its word. */
  predicate Member(bm: seq<Word>, p: int) {
    InMap(bm, p) && TestBit(bm[p / WORD_WIDTH], p % WORD_WIDTH)
  }

  /** No bit at or above the last port is set. */
  ghost predicate PaddingClear(bm: seq<Word>, ports: nat) {
    forall p :: p >= ports ==> !Member(bm, p)
  }

  /** Word w of the map, bit by bit. */
  lemma MemberOfWord(bm: seq<Word>, w: nat, k: nat)
    requires w < |bm| && k < WORD_WIDTH
    ensures Member(bm, w * WORD_WIDTH + k) <==> TestBit(bm[w], k)
  {
    assert (w * WORD_WIDTH + k) / WORD_WIDTH == w;
    assert (w * WORD_WIDTH + k) % WORD_WIDTH == k;
  }

  // ---------- range add ----------

  /** Ports first, ..., first + range - 1 are added and nothing else changes. */
  ghost predicate RangeAdded(before: seq<Word>, after: seq<Word>, first: int, range: int) {
    |after| == |before| &&
    forall p :: Member(after, p) <==> Member(before, p) || (first <= p < first + range && InMap(before, p))
  }

  lemma OneWordAdded(before: seq<Word>, first: nat, range: nat)
    requires range > 0 && first < WORD_WIDTH * |before|
    ensures
      var s := first % WORD_WIDTH;
      var mask := if range < WORD_WIDTH then ShiftRight(ALL_ONES, WORD_WIDTH - range) else ALL_ONES;
      var w := first / WORD_WIDTH;
      var after := before[w := WordOp(Or, before[w], ShiftLeft(mask, s))];
      RangeAdded(before, after, first, if range < WORD_WIDTH - s then range else WORD_WIDTH - s)
  {
    var s, w := first % WORD_WIDTH, first / WORD_WIDTH;
    var mask := if range < WORD_WIDTH then ShiftRight(ALL_ONES, WORD_WIDTH - range) else ALL_ONES;
    var after := before[w := WordOp(Or, before[w], ShiftLeft(mask, s))];
    var n := if range < WORD_WIDTH - s then range else WORD_WIDTH - s;
    forall p: int
      ensures Member(after, p) <==> (Member(before, p) || (first <= p < first + n && InMap(before, p)))
    {
      if InMap(before, p) && p / WORD_WIDTH == w {
        var k := p % WORD_WIDTH;
        RangeMaskBit(range, s, k);
        WordOpBit(Or, before[w], ShiftLeft(mask, s), k);
        assert p == w * WORD_WIDTH + k && first == w * WORD_WIDTH + s;
      }
    }
  }

  lemma RangesJoin(a: seq<Word>, b: seq<Word>, c: seq<Word>, first: int, n: nat, m: nat)
    requires RangeAdded(a, b, first, n) && RangeAdded(b, c, first + n, m)
    ensures RangeAdded(a, c, first, n + m)
  {
    forall p: int
      ensures Member(c, p) <==> Member(a, p) || (first <= p < first + n + m && InMap(a, p))
    {
      assert Member(b, p) <==> Member(a, p) || (first <= p < first + n && InMap(a, p));
      assert Member(c, p) <==> Member(b, p) || (first + n <= p < first + n + m && InMap(b, p));
    }
  }

  /** _SHR_PBMP_PORTS_RANGE_ADD */
  method PortsRangeAdd(bm: array<Word>, first: nat, range: int)
    requires range > 0 ==> first + range <= WORD_WIDTH * bm.Length
    modifies bm
    ensures RangeAdded(old(bm[..]), bm[..], first, range)
  {
    var firstPort, left := first, range;
    while left > 0
      invariant left > 0 ==> first <= firstPort && firstPort + left == first + range
      invariant RangeAdded(old(bm[..]), bm[..], first, if left > 0 then firstPort - first else range)
      decreases left
    {
      var s := firstPort % WORD_WIDTH;
      var w := firstPort / WORD_WIDTH;
      var mask := ALL_ONES;
      if left < WORD_WIDTH {
        mask := ShiftRight(mask, WORD_WIDTH - left);
      }
      mask := ShiftLeft(mask, s);
      ghost var before := bm[..];
      OneWordAdded(before, firstPort, left);
      bm[w] := WordOp(Or, bm[w], mask);
      assert bm[..] == before[w := WordOp(Or, before[w], mask)];
      ghost var n := if left < WORD_WIDTH - s then left else WORD_WIDTH - s;
      RangesJoin(old(bm[..]), before, bm[..], first, firstPort - first, n);
      left := left + s - WORD_WIDTH;
      firstPort := firstPort + WORD_WIDTH - s;
    }
  }

  // ---------- whole-map operators ----------

  function MapOp(f: (bool, bool) -> bool, a: seq<Word>, b: seq<Word>): (r: seq<Word>)
    requires |a| == |b|
    ensures |r| == |a| && forall w :: 0 <= w < |a| ==> r[w] == WordOp(f, a[w], b[w])
  {
    seq(|a|, w requires 0 <= w < |a| => WordOp(f, a[w], b[w]))
  }

  /** _SHR_PBMP_BMOP with the operators of AND, OR, XOR and REMOVE. */
  method BmOp(f: (bool, bool) -> bool, bma: array<Word>, bmb: array<Word>)
    requires bma.Length == bmb.Length
    modifies bma
    ensures bma[..] == MapOp(f, old(bma[..]), old(bmb[..]))
  {
    for w := 0 to bma.Length
      invariant forall j :: 0 <= j < w ==> bma[j] == WordOp(f, old(bma[j]), old(bmb[j]))
      invariant forall j :: w <= j < bma.Length ==> bma[j] == old(bma[j]) && bmb[j] == old(bmb[j])
    {
      bma[w] := WordOp(f, bma[w], bmb[w]);
    }
  }

  /** A word-wise operator is the port-by-port operator, and keeps the padding clear. */
  lemma MapOpIsSetOp(f: (bool, bool) -> bool, a: seq<Word>, b: seq<Word>, ports: nat)
    requires |a| == |b| && !f(false, false)
    ensures forall p :: Member(MapOp(f, a, b), p) <==> f(Member(a, p), Member(b, p))
    ensures PaddingClear(a, ports) && PaddingClear(b, ports) ==> PaddingClear(MapOp(f, a, b), ports)
  {
    forall p: int ensures Member(MapOp(f, a, b), p) <==> f(Member(a, p), Member(b, p)) {
      if InMap(a, p) {
        WordOpBit(f, a[p / WORD_WIDTH], b[p / WORD_WIDTH], p % WORD_WIDTH);
      }
    }
  }

  /** _SHR_PBMP_AND, OR, XOR and REMOVE by name. */
  lemma NamedOperators(a: seq<Word>, b: seq<Word>, p: int)
    requires |a| == |b|
    ensures Member(MapOp(And, a, b), p) <==> Member(a, p) && Member(b, p)
    ensures Member(MapOp(Or, a, b), p) <==> Member(a, p) || Member(b, p)
    ensures Member(MapOp(Xor, a, b), p) <==> Member(a, p) != Member(b, p)
    ensures Member(MapOp(AndNot, a, b), p) <==> Member(a, p) && !Member(b, p)
  {
    MapOpIsSetOp(And, a, b, 0);
    MapOpIsSetOp(Or, a, b, 0);
    MapOpIsSetOp(Xor, a, b, 0);
    MapOpIsSetOp(AndNot, a, b, 0);
  }

  /** On maps with clear padding, comparing words is comparing ports. */
  lemma EqIsSameMembers(a: seq<Word>, b: seq<Word>, ports: nat)
    requires |a| == |b| && PaddingClear(a, ports) && PaddingClear(b, ports)
    ensures a == b <==> forall p :: 0 <= p < ports ==> (Member(a, p) <==> Member(b, p))
  {
    if forall p :: 0 <= p < ports ==> (Member(a, p) <==> Member(b, p)) {
      forall w | 0 <= w < |a| ensures a[w] == b[w] {
        forall k | 0 <= k < WORD_WIDTH ensures TestBit(a[w], k) <==> TestBit(b[w], k) {
          MemberOfWord(a, w, k);
          MemberOfWord(b, w, k);
        }
        WordsWithSameBits(a[w], b[w]);
      }
    }
  }

  lemma NullIsNoMembers(a: seq<Word>, ports: nat)
    requires PaddingClear(a, ports)
    ensures (forall w :: 0 <= w < |a| ==> a[w] == 0) <==> forall p :: 0 <= p < ports ==> !Member(a, p)
  {
    var zero := seq(|a|, _ => 0 as Word);
    forall p: int ensures !Member(zero, p) {
      if InMap(zero, p) { ZeroBit(p % WORD_WIDTH); }
    }
    EqIsSameMembers(a, zero, ports);
    assert (forall w :: 0 <= w < |a| ==> a[w] == 0) <==> a == zero;
  }

  /** _shr_pbmp_bmeq: the word loop decides whether the maps hold the same ports. */
  method BmEq(a: array<Word>, b: array<Word>, ghost ports: nat) returns (same: bool)
    requires a.Length == b.Length && PaddingClear(a[..], ports) && PaddingClear(b[..], ports)
    ensures same <==> forall p :: 0 <= p < ports ==> (Member(a[..], p) <==> Member(b[..], p))
  {
    EqIsSameMembers(a[..], b[..], ports);
    for w := 0 to a.Length
      invariant a[..w] == b[..w]
    {
      if a[w] != b[w] {
        assert a[..][w] != b[..][w];
        return false;
      }
    }
    assert a[..] == a[..a.Length] && b[..] == b[..a.Length];
    return true;
  }

  /** _shr_pbmp_bmnull: the word loop decides whether the map holds no port. */
  method BmNull(a: array<Word>, ghost ports: nat) returns (none: bool)
    requires PaddingClear(a[..], ports)
    ensures none <==> forall p :: 0 <= p < ports ==> !Member(a[..], p)
  {
    NullIsNoMembers(a[..], ports);
    for w := 0 to a.Length
      invariant forall j :: 0 <= j < w ==> a[j] == 0
    {
      if a[w] != 0 {
        assert a[..][w] != 0;
        return false;
      }
    }
    return true;
  }

  // ---------- iterating over the set bits ----------

  /** Testing every bit from lo to hi-1, in order. */
  function SetBits(a: seq<Word>, lo: nat, hi: nat): seq<nat>
    requires lo <= hi
    decreases hi - lo
  {
    if lo == hi then []
    else (if Member(a, lo) then [lo] else []) + SetBits(a, lo + 1, hi)
  }

  lemma {:induction false} SetBitsSplit(a: seq<Word>, lo: nat, mid: nat, hi: nat)
    requires lo <= mid <= hi
    ensures SetBits(a, lo, hi) == SetBits(a, lo, mid) + SetBits(a, mid, hi)
    decreases mid - lo
  {
    if lo == mid {
    } else {
      SetBitsSplit(a, lo + 1, mid, hi);
    }
  }

  lemma {:induction false} ZeroWordHasNone(a: seq<Word>, lo: nat, hi: nat)
    requires lo <= hi && forall p :: lo <= p < hi ==> InMap(a, p) && a[p / WORD_WIDTH] == 0
    ensures SetBits(a, lo, hi) == []
    decreases hi - lo
  {
    if lo == hi {
    } else {
      ZeroBit(lo % WORD_WIDTH);
      ZeroWordHasNone(a, lo + 1, hi);
    }
  }

  /**
   SHR_BIT_ITER with a body that leaves the array alone: skipping zero words visits the
   same bits, in the same order, as testing every bit.
   */
  method BitIter(a: array<Word>, max: nat) returns (visited: seq<nat>)
    requires max <= WORD_WIDTH * a.Length
    ensures visited == SetBits(a[..], 0, max)
  {
    visited := [];
    var b := 0;
    while b < max
      invariant visited == SetBits(a[..], 0, if b < max then b else max)
      invariant b < max ==> b % WORD_WIDTH == 0 || a[b / WORD_WIDTH] != 0
      decreases max - b
    {
      var next;
      if a[b / WORD_WIDTH] == 0 {
        next := b + (WORD_WIDTH - 1) + 1;
        var stop := if next < max then next else max;
        ZeroWordHasNone(a[..], b, stop);
        SetBitsSplit(a[..], 0, b, stop);
      } else {
        next := b + 1;
        SetBitsSplit(a[..], 0, b, next);
        if TestBit(a[b / WORD_WIDTH], b % WORD_WIDTH) {
          visited := visited + [b];
        }
      }
      b := next;
    }
  }

  /** What that order is: exactly the set bits below the limit, each once, ascending. */
  lemma {:induction false} SetBitsAscending(a: seq<Word>, lo: nat, hi: nat)
    requires lo <= hi
    ensures forall p :: p in SetBits(a, lo, hi) <==> lo <= p < hi && Member(a, p)
    ensures forall i, j :: 0 <= i < j < |SetBits(a, lo, hi)| ==> SetBits(a, lo, hi)[i] < SetBits(a, lo, hi)[j]
    decreases hi - lo
  {
    if lo == hi {
    } else {
      SetBitsAscending(a, lo + 1, hi);
      var rest := SetBits(a, lo + 1, hi);
      assert forall i :: 0 <= i < |rest| ==> rest[i] in rest;
    }
  }

  // ---------- one bit ----------

  lemma OneBit(j: nat, k: nat)
    requires j < WORD_WIDTH && k < WORD_WIDTH
    ensures TestBit(ShiftLeft(1, j), k) <==> j == k
  {
    ShiftLeftBit(1, j, k);
    if k > j { ZeroBit(k - j - 1); }
  }

  /** _SHR_PBMP_MEMBER and SHR_BITGET as written: the word under the port's mask is not zero. */
  lemma MemberIsMaskTest(bm: seq<Word>, p: int)
    requires InMap(bm, p)
    ensures Member(bm, p) <==> WordOp(And, bm[p / WORD_WIDTH], ShiftLeft(1, p % WORD_WIDTH)) != 0
  {
    var w, j := bm[p / WORD_WIDTH], p % WORD_WIDTH;
    var masked := WordOp(And, w, ShiftLeft(1, j));
    forall k | 0 <= k < WORD_WIDTH ensures TestBit(masked, k) <==> j == k && TestBit(w, k) {
      OneBit(j, k);
      WordOpBit(And, w, ShiftLeft(1, j), k);
    }
    forall k: nat ensures !TestBit(0, k) { ZeroBit(k); }
    if !TestBit(w, j) {
      WordsWithSameBits(masked, 0);
    }
  }

  /** SHRi_BITOP with |=, &= ~ and ^=: port p's bit is combined with a one. */
  function PortOp(f: (bool, bool) -> bool, bm: seq<Word>, p: nat): (r: seq<Word>)
    requires p < WORD_WIDTH * |bm|
  {
    bm[p / WORD_WIDTH := WordOp(f, bm[p / WORD_WIDTH], ShiftLeft(1, p % WORD_WIDTH))]
  }

  /** Setting, clearing or flipping one bit touches that bit only. */
  lemma PortOpTouchesOneBit(f: (bool, bool) -> bool, bm: seq<Word>, p: nat, q: int)
    requires p < WORD_WIDTH * |bm| && f(true, false) && !f(false, false)
    ensures Member(PortOp(f, bm, p), q) <==> if q == p then f(Member(bm, p), true) else Member(bm, q)
  {
    if InMap(bm, q) && q / WORD_WIDTH == p / WORD_WIDTH {
      OneBit(p % WORD_WIDTH, q % WORD_WIDTH);
      WordOpBit(f, bm[p / WORD_WIDTH], ShiftLeft(1, p % WORD_WIDTH), q % WORD_WIDTH);
    }
  }
}
