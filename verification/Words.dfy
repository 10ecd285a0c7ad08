/** 64-bit words with the two operations the import table needs. */
module Words {

  type Word = x: nat | x < 0x1_0000_0000_0000_0000

  /** Exclusive or, bit by bit. */
  function BitXor(x: nat, k: nat): nat
    decreases x + k
  {
    if x == 0 && k == 0 then 0 else 2 * BitXor(x / 2, k / 2) + if x % 2 != k % 2 then 1 else 0
  }

  function Pow2(n: nat): nat { if n == 0 then 1 else 2 * Pow2(n - 1) }

  lemma {:induction false} BitXorBelow(x: nat, k: nat, n: nat)
    requires x < Pow2(n) && k < Pow2(n)
    ensures BitXor(x, k) < Pow2(n)
    decreases n
  {
    if n > 0 && (x != 0 || k != 0) {
      BitXorBelow(x / 2, k / 2, n - 1);
    }
  }

  lemma FourMore(n: nat)
    ensures Pow2(n + 4) == 16 * Pow2(n)
  {
    assert Pow2(n + 2) == 4 * Pow2(n);
  }

  lemma Pow64()
    ensures Pow2(64) == 0x1_0000_0000_0000_0000
  {
    FourMore(0);
    FourMore(4);
    FourMore(8);
    FourMore(12);
    FourMore(16);
    FourMore(20);
    FourMore(24);
    FourMore(28);
    FourMore(32);
    FourMore(36);
    FourMore(40);
    FourMore(44);
    FourMore(48);
    FourMore(52);
    FourMore(56);
    FourMore(60);
  }

  function Xor(x: Word, k: Word): Word {
    Pow64();
    BitXorBelow(x, k, 64);
    BitXor(x, k)
  }

  function Plus(x: Word, y: Word): Word { (x + y) % 0x1_0000_0000_0000_0000 }

  lemma {:induction false} BitXorTwice(x: nat, k: nat)
    ensures BitXor(BitXor(x, k), k) == x
    decreases x + k
  {
    if x != 0 || k != 0 {
      var high, low := BitXor(x / 2, k / 2), if x % 2 != k % 2 then 1 else 0;
      assert (2 * high + low) / 2 == high && (2 * high + low) % 2 == low;
      BitXorTwice(x / 2, k / 2);
    }
  }

  lemma {:induction false} BitXorMoves(x: nat, k: nat)
    requires k != 0
    ensures BitXor(x, k) != x
    decreases x + k
  {
    if k / 2 != 0 {
      BitXorMoves(x / 2, k / 2);
    }
  }

  lemma XorTwice(x: Word, k: Word)
    ensures Xor(Xor(x, k), k) == x
  {
    BitXorTwice(x, k);
  }

  lemma XorMoves(x: Word, k: Word)
    requires k != 0
    ensures Xor(x, k) != x
  {
    BitXorMoves(x, k);
  }
}
