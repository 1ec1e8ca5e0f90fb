/** 32-bit words as C uses them: bits, masks, shifts with truncation, bitwise operators. */
module Words {
  const WORD_WIDTH := 32

  function Power2(n: nat): (r: nat)
    ensures r >= 1
  {
    if n == 0 then 1 else 2 * Power2(n - 1)
  }

  const WORD_LIMIT: nat := 0x1_0000_0000

  type Word = w: nat | w < WORD_LIMIT

  const ALL_ONES: Word := 0xFFFF_FFFF

  /** Bit k, counted from the least significant one. */
  predicate TestBit(w: nat, k: nat) {
    if k == 0 then w % 2 == 1 else TestBit(w / 2, k - 1)
  }

  /** w << s, one place at a time; bits leaving a word are lost. */
  function ShiftLeft(w: Word, s: nat): Word
    decreases s
  {
    if s == 0 then w else ShiftLeft(w * 2 % WORD_LIMIT, s - 1)
  }

  /** w >> s, one place at a time. */
  function ShiftRight(w: Word, s: nat): Word
    decreases s
  {
    if s == 0 then w else ShiftRight(w / 2, s - 1)
  }

  /** The bitwise operator of f on the n lowest bits. */
  function Bitwise(f: (bool, bool) -> bool, a: nat, b: nat, n: nat): (r: nat)
    ensures r < Power2(n)
  {
    if n == 0 then 0
    else 2 * Bitwise(f, a / 2, b / 2, n - 1) + (if f(a % 2 == 1, b % 2 == 1) then 1 else 0)
  }

  lemma WordLimitIsPower()
    ensures Power2(WORD_WIDTH) == WORD_LIMIT
  {
    assert Power2(8) == 256;
    assert Power2(16) == 0x1_0000;
    assert Power2(24) == 0x100_0000;
  }

  function WordOp(f: (bool, bool) -> bool, a: Word, b: Word): Word {
    WordLimitIsPower();
    Bitwise(f, a, b, WORD_WIDTH)
  }

  function Or(x: bool, y: bool): bool { x || y }
  function And(x: bool, y: bool): bool { x && y }
  function Xor(x: bool, y: bool): bool { x != y }
  function AndNot(x: bool, y: bool): bool { x && !y }

  // ---------- bit-by-bit laws ----------

  lemma {:induction false} BitwiseBit(f: (bool, bool) -> bool, a: nat, b: nat, n: nat, k: nat)
    requires k < n
    ensures TestBit(Bitwise(f, a, b, n), k) <==> f(TestBit(a, k), TestBit(b, k))
  {
    var r, h := Bitwise(f, a, b, n), Bitwise(f, a / 2, b / 2, n - 1);
    assert r / 2 == h && r % 2 == (if f(a % 2 == 1, b % 2 == 1) then 1 else 0);
    if k > 0 {
      BitwiseBit(f, a / 2, b / 2, n - 1, k - 1);
    }
  }

  lemma WordOpBit(f: (bool, bool) -> bool, a: Word, b: Word, k: nat)
    requires k < WORD_WIDTH
    ensures TestBit(WordOp(f, a, b), k) <==> f(TestBit(a, k), TestBit(b, k))
  {
    BitwiseBit(f, a, b, WORD_WIDTH, k);
  }

  /** Doubling moves every bit up by one. */
  lemma DoubleBit(w: nat, k: nat)
    ensures TestBit(2 * w, k) <==> k >= 1 && TestBit(w, k - 1)
  {
    assert 2 * w / 2 == w && 2 * w % 2 == 0;
  }

  /** Dropping the bit just above n bits keeps those below. */
  lemma {:induction false} TruncateBit(w: nat, n: nat, k: nat)
    requires k < n && Power2(n) <= w
    ensures TestBit(w - Power2(n), k) <==> TestBit(w, k)
  {
    var p := Power2(n - 1);
    assert (w - 2 * p) / 2 == w / 2 - p && (w - 2 * p) % 2 == w % 2;
    if k == 0 {
    } else {
      TruncateBit(w / 2, n - 1, k - 1);
    }
  }

  lemma ShiftOnceBit(w: Word, k: nat)
    requires k < WORD_WIDTH
    ensures TestBit(w * 2 % WORD_LIMIT, k) <==> k >= 1 && TestBit(w, k - 1)
  {
    DoubleBit(w, k);
    if w * 2 >= WORD_LIMIT {
      assert w * 2 % WORD_LIMIT == w * 2 - WORD_LIMIT;
      WordLimitIsPower();
      TruncateBit(w * 2, WORD_WIDTH, k);
    } else {
      assert w * 2 % WORD_LIMIT == w * 2;
    }
  }

  lemma {:induction false} ShiftLeftBit(w: Word, s: nat, k: nat)
    requires k < WORD_WIDTH
    ensures TestBit(ShiftLeft(w, s), k) <==> k >= s && TestBit(w, k - s)
    decreases s
  {
    if s == 0 {
    } else {
      ShiftLeftBit(w * 2 % WORD_LIMIT, s - 1, k);
      if k >= s - 1 {
        ShiftOnceBit(w, k - (s - 1));
      }
    }
  }

  lemma {:induction false} ShiftRightBit(w: Word, s: nat, k: nat)
    ensures TestBit(ShiftRight(w, s), k) <==> TestBit(w, k + s)
    decreases s
  {
    if s == 0 {
    } else {
      ShiftRightBit(w / 2, s - 1, k);
    }
  }

  lemma {:induction false} OnesBit(n: nat, k: nat)
    ensures TestBit(Power2(n) - 1, k) <==> k < n
    decreases k, n
  {
    if n > 0 {
      var p := Power2(n - 1);
      assert (2 * p - 1) / 2 == p - 1 && (2 * p - 1) % 2 == 1;
      if k > 0 { OnesBit(n - 1, k - 1); }
    } else {
      ZeroBit(k);
    }
  }

  lemma {:induction false} ZeroBit(k: nat)
    ensures !TestBit(0, k)
  {
    if k > 0 { ZeroBit(k - 1); }
  }

  lemma AllOnesBit(k: nat)
    ensures TestBit(ALL_ONES, k) <==> k < WORD_WIDTH
  {
    WordLimitIsPower();
    OnesBit(WORD_WIDTH, k);
  }

  /** A word is determined by its bits. */
  lemma {:induction false} SameBits(a: nat, b: nat, n: nat)
    requires a < Power2(n) && b < Power2(n)
    requires forall k :: 0 <= k < n ==> (TestBit(a, k) <==> TestBit(b, k))
    ensures a == b
  {
    if n == 0 {
    } else {
      assert TestBit(a, 0) <==> TestBit(b, 0);
      forall k | 0 <= k < n - 1 ensures TestBit(a / 2, k) <==> TestBit(b / 2, k) {
        assert TestBit(a, k + 1) <==> TestBit(b, k + 1);
      }
      SameBits(a / 2, b / 2, n - 1);
    }
  }

  lemma WordsWithSameBits(a: Word, b: Word)
    requires forall k :: 0 <= k < WORD_WIDTH ==> (TestBit(a, k) <==> TestBit(b, k))
    ensures a == b
  {
    WordLimitIsPower();
    SameBits(a, b, WORD_WIDTH);
  }

  /** (~0 >> (32 - r)) << s covers r places from s on, as far as the word goes. */
  lemma RangeMaskBit(r: nat, s: nat, k: nat)
    requires k < WORD_WIDTH
    ensures
      var mask := if r < WORD_WIDTH then ShiftRight(ALL_ONES, WORD_WIDTH - r) else ALL_ONES;
      TestBit(ShiftLeft(mask, s), k) <==> s <= k < s + r
  {
    var mask := if r < WORD_WIDTH then ShiftRight(ALL_ONES, WORD_WIDTH - r) else ALL_ONES;
    ShiftLeftBit(mask, s, k);
    if k >= s {
      if r < WORD_WIDTH {
        ShiftRightBit(ALL_ONES, WORD_WIDTH - r, k - s);
        AllOnesBit(k - s + (WORD_WIDTH - r));
      } else {
        AllOnesBit(k - s);
      }
    }
  }
}
