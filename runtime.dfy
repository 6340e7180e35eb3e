/** The runtime library that compiled programs link against (stdlib.c). Every
    primitive takes and returns a C `uint64_t`, modelled as an integer in
    [0, 2^64): addition and subtraction drop the carry or borrow out of bit 63,
    and the bitwise operators work bit by bit over the 64 bits of their operands. */
module Runtime {

  /** 2^64, the modulus of `uint64_t` arithmetic. */
  const Modulus: int := 0x1_0000_0000_0000_0000

  /** The number of bits in a `uint64_t`. */
  const Width: nat := 64

  /** A `uint64_t` value. */
  type Word = x: int | 0 <= x < Modulus

  /** The all-ones word, 2^64 - 1. */
  const AllOnes: Word := 0xFFFF_FFFF_FFFF_FFFF

  function Pow2(n: nat): (r: nat)
    ensures r >= 1
  {
    if n == 0 then 1 else 2 * Pow2(n - 1)
  }

  lemma {:induction false} Pow2Add(a: nat, b: nat)
    ensures Pow2(a + b) == Pow2(a) * Pow2(b)
    decreases a
  {
    if a > 0 {
      Pow2Add(a - 1, b);
    }
  }

  /** One squaring step: from 2^n = p, 2^(n+n) = p * p. */
  lemma {:induction false} Pow2Square(n: nat, p: nat, m: nat, q: nat)
    requires Pow2(n) == p && m == n + n && q == p * p
    ensures Pow2(m) == q
  {
    Pow2Add(n, n);
  }

  lemma {:induction false} Pow2Width()
    ensures Pow2(Width) == Modulus
  {
    Pow2Square(1, 2, 2, 4);
    Pow2Square(2, 4, 4, 16);
    Pow2Square(4, 16, 8, 0x100);
    Pow2Square(8, 0x100, 16, 0x1_0000);
    Pow2Square(16, 0x1_0000, 32, 0x1_0000_0000);
    Pow2Square(32, 0x1_0000_0000, Width, Modulus);
  }

  /** Bit `i` of `x`, counting from the least significant bit. */
  predicate Bit(x: nat, i: nat)
    decreases i
  {
    if i == 0 then x % 2 == 1 else Bit(x / 2, i - 1)
  }

  /** The bitwise operators of C; `NotBits` ignores its second operand. */
  datatype BitOp = AndBits | OrBits | XorBits | NotBits

  /** The truth table of one operator on one pair of bits. */
  predicate Combine(op: BitOp, p: bool, q: bool) {
    match op
    case AndBits => p && q
    case OrBits => p || q
    case XorBits => p != q
    case NotBits => !p
  }

  /** Applies `op` to the low `n` bits of `x` and `y`, bit by bit. */
  function Bitwise(op: BitOp, x: nat, y: nat, n: nat): (r: nat)
    ensures r < Pow2(n)
    decreases n
  {
    if n == 0 then 0
    else 2 * Bitwise(op, x / 2, y / 2, n - 1) + (if Combine(op, x % 2 == 1, y % 2 == 1) then 1 else 0)
  }

  /** Bit `i` of the result is the truth table applied to bit `i` of the operands. */
  lemma {:induction false} BitwiseBit(op: BitOp, x: nat, y: nat, n: nat, i: nat)
    requires i < n
    ensures Bit(Bitwise(op, x, y, n), i) == Combine(op, Bit(x, i), Bit(y, i))
    decreases n
  {
    if i > 0 {
      BitwiseBit(op, x / 2, y / 2, n - 1, i - 1);
    }
  }

  /** Two numbers below 2^n with the same n low bits are equal. */
  lemma {:induction false} BitsDetermine(a: nat, b: nat, n: nat)
    requires a < Pow2(n) && b < Pow2(n)
    requires forall i :: 0 <= i < n ==> Bit(a, i) == Bit(b, i)
    ensures a == b
    decreases n
  {
    if n > 0 {
      forall i | 0 <= i < n - 1
        ensures Bit(a / 2, i) == Bit(b / 2, i)
      {
        assert Bit(a, i + 1) == Bit(b, i + 1);
      }
      assert Bit(a, 0) == Bit(b, 0);
      BitsDetermine(a / 2, b / 2, n - 1);
    }
  }

  /** Complementing the low n bits of x < 2^n gives 2^n - 1 - x. */
  lemma {:induction false} ComplementValue(x: nat, n: nat)
    requires x < Pow2(n)
    ensures Bitwise(NotBits, x, 0, n) == Pow2(n) - 1 - x
    decreases n
  {
    if n > 0 {
      ComplementValue(x / 2, n - 1);
    }
  }

  /** Every one of the low n bits of 2^n - 1 is set. */
  lemma {:induction false} AllOnesBit(n: nat, i: nat)
    requires i < n
    ensures Bit(Pow2(n) - 1, i)
    decreases n
  {
    if i > 0 {
      AllOnesBit(n - 1, i - 1);
    }
  }

  /** A number below 2^n whose low n bits are all set is 2^n - 1. */
  lemma {:induction false} OnesFromBits(a: nat, n: nat)
    requires a < Pow2(n)
    requires forall i :: 0 <= i < n ==> Bit(a, i)
    ensures a == Pow2(n) - 1
  {
    forall i | 0 <= i < n
      ensures Bit(a, i) == Bit(Pow2(n) - 1, i)
    {
      AllOnesBit(n, i);
    }
    BitsDetermine(a, Pow2(n) - 1, n);
  }

  /** A number below 2^n has no bit set at n or above. */
  lemma {:induction false} HighBitsClear(x: nat, n: nat, i: nat)
    requires x < Pow2(n) && n <= i
    ensures !Bit(x, i)
    decreases n
  {
    if n == 0 {
      ZeroBit(i);
    } else {
      HighBitsClear(x / 2, n - 1, i - 1);
    }
  }

  /** No bit of 0 is set. */
  lemma {:induction false} ZeroBit(i: nat)
    ensures !Bit(0, i)
    decreases i
  {
    if i > 0 {
      ZeroBit(i - 1);
    }
  }

  /** `add`: the carry out of bit 63 is dropped. */
  function Add(a: Word, b: Word): (r: Word)
    ensures r == (a + b) % Modulus
  {
    var sum := a + b;
    if sum < Modulus then sum else sum - Modulus
  }

  /** `sub`: a borrow out of bit 63 wraps around. */
  function Sub(a: Word, b: Word): (r: Word)
    ensures r == (a - b) % Modulus
  {
    if b <= a then a - b else a - b + Modulus
  }

  /** `less`: unsigned comparison, encoded as 0 or 1. */
  function Less(a: Word, b: Word): (r: Word)
    ensures r == 0 || r == 1
    ensures r == 1 <==> a < b
  {
    if a < b then 1 else 0
  }

  /** `equal`: equality, encoded as 0 or 1. */
  function Equal(x: Word, y: Word): (r: Word)
    ensures r == 0 || r == 1
    ensures r == 1 <==> x == y
  {
    if x == y then 1 else 0
  }

  /** `not`: C's logical negation `!x`, widened to 64 bits. */
  function Not(x: Word): (r: Word)
    ensures r == 0 || r == 1
    ensures r == 1 <==> x == 0
  {
    if x == 0 then 1 else 0
  }

  /** `bnot`: bitwise complement `~x`. */
  function BNot(x: Word): (r: Word)
    ensures r == AllOnes - x
    ensures forall i :: 0 <= i < Width ==> (Bit(r, i) <==> !Bit(x, i))
  {
    Pow2Width();
    ComplementValue(x, Width);
    forall i | 0 <= i < Width
      ensures Bit(Bitwise(NotBits, x, 0, Width), i) <==> !Bit(x, i)
    {
      BitwiseBit(NotBits, x, 0, Width, i);
    }
    Bitwise(NotBits, x, 0, Width)
  }

  /** `and`: bitwise conjunction `x & y`. */
  function And(x: Word, y: Word): (r: Word)
    ensures forall i :: 0 <= i < Width ==> (Bit(r, i) <==> Bit(x, i) && Bit(y, i))
  {
    Pow2Width();
    forall i | 0 <= i < Width
      ensures Bit(Bitwise(AndBits, x, y, Width), i) <==> Bit(x, i) && Bit(y, i)
    {
      BitwiseBit(AndBits, x, y, Width, i);
    }
    Bitwise(AndBits, x, y, Width)
  }

  /** `or`: bitwise disjunction `x | y`. */
  function Or(x: Word, y: Word): (r: Word)
    ensures forall i :: 0 <= i < Width ==> (Bit(r, i) <==> Bit(x, i) || Bit(y, i))
  {
    Pow2Width();
    forall i | 0 <= i < Width
      ensures Bit(Bitwise(OrBits, x, y, Width), i) <==> Bit(x, i) || Bit(y, i)
    {
      BitwiseBit(OrBits, x, y, Width, i);
    }
    Bitwise(OrBits, x, y, Width)
  }

  /** `xor`: bitwise exclusive or `x ^ y`. */
  function Xor(x: Word, y: Word): (r: Word)
    ensures forall i :: 0 <= i < Width ==> (Bit(r, i) <==> Bit(x, i) != Bit(y, i))
  {
    Pow2Width();
    forall i | 0 <= i < Width
      ensures Bit(Bitwise(XorBits, x, y, Width), i) <==> Bit(x, i) != Bit(y, i)
    {
      BitwiseBit(XorBits, x, y, Width, i);
    }
    Bitwise(XorBits, x, y, Width)
  }

  lemma {:induction false} AddZero(a: Word)
    ensures Add(a, 0) == a
  {
  }

  lemma {:induction false} SubSelf(a: Word)
    ensures Sub(a, a) == 0
  {
  }

  /** Subtracting what was added undoes the addition, wrap-around included. */
  lemma {:induction false} AddThenSub(a: Word, b: Word)
    ensures Sub(Add(a, b), b) == a
  {
  }

  lemma {:induction false} BNotInvolutive(x: Word)
    ensures BNot(BNot(x)) == x
  {
  }

  lemma {:induction false} OrComplementIsAllOnes(x: Word)
    ensures Or(x, BNot(x)) == AllOnes
  {
    Pow2Width();
    var n := BNot(x);
    var o := Or(x, n);
    forall i | 0 <= i < Width
      ensures Bit(o, i)
    {
      assert Bit(o, i) <==> Bit(x, i) || Bit(n, i);
      assert Bit(n, i) <==> !Bit(x, i);
    }
    OnesFromBits(o, Width);
  }

  lemma {:induction false} NotNotIsBoolean(x: Word)
    ensures Not(Not(x)) == 0 || Not(Not(x)) == 1
    ensures Not(Not(x)) == 1 <==> x != 0
  {
  }

  /** `and`, `or` and `xor` do not depend on the order of their operands. */
  lemma {:induction false} BitwiseCommutative(x: Word, y: Word)
    ensures And(x, y) == And(y, x)
    ensures Or(x, y) == Or(y, x)
    ensures Xor(x, y) == Xor(y, x)
  {
    Pow2Width();
    BitsDetermine(And(x, y), And(y, x), Width);
    BitsDetermine(Or(x, y), Or(y, x), Width);
    BitsDetermine(Xor(x, y), Xor(y, x), Width);
  }

  lemma {:induction false} XorSelf(x: Word)
    ensures Xor(x, x) == 0
  {
    Pow2Width();
    forall i | 0 <= i < Width
      ensures Bit(Xor(x, x), i) == Bit(0, i)
    {
      ZeroBit(i);
    }
    BitsDetermine(Xor(x, x), 0, Width);
  }

  /** `add(5,3)`, a wrapping `sub(3,5)`, `less`, `equal` and `bnot(0)`. */
  lemma {:induction false} Examples()
    ensures Add(5, 3) == 8
    ensures Sub(3, 5) == Modulus - 2
    ensures Add(AllOnes, 1) == 0
    ensures Less(3, 5) == 1 && Less(5, 3) == 0
    ensures Equal(7, 7) == 1 && Equal(7, 8) == 0
    ensures BNot(0) == AllOnes
  {
  }

  /** `and(0b1100, 0b1010) == 0b1000`. */
  lemma {:induction false} AndExample()
    ensures And(0xC, 0xA) == 0x8
  {
    Pow2Width();
    assert Pow2(4) == 16;
    forall i | 0 <= i < Width
      ensures Bit(And(0xC, 0xA), i) == Bit(0x8, i)
    {
      if i < 4 {
        assert Bit(0xC, i) == (i == 2 || i == 3);
        assert Bit(0xA, i) == (i == 1 || i == 3);
        assert Bit(0x8, i) == (i == 3);
      } else {
        HighBitsClear(0xC, 4, i);
        HighBitsClear(0x8, 4, i);
      }
    }
    BitsDetermine(And(0xC, 0xA), 0x8, Width);
  }

  /** `xor(0b1100, 0b1010) == 0b0110`. */
  lemma {:induction false} XorExample()
    ensures Xor(0xC, 0xA) == 0x6
  {
    Pow2Width();
    assert Pow2(4) == 16;
    forall i | 0 <= i < Width
      ensures Bit(Xor(0xC, 0xA), i) == Bit(0x6, i)
    {
      if i < 4 {
        assert Bit(0xC, i) == (i == 2 || i == 3);
        assert Bit(0xA, i) == (i == 1 || i == 3);
        assert Bit(0x6, i) == (i == 1 || i == 2);
      } else {
        HighBitsClear(0xC, 4, i);
        HighBitsClear(0xA, 4, i);
        HighBitsClear(0x6, 4, i);
      }
    }
    BitsDetermine(Xor(0xC, 0xA), 0x6, Width);
  }
}
