/** Python's `&`, `|` and `^` on non-negative integers, bit by bit. */
module Bits {
  datatype Op = AndOp | OrOp | XorOp

  function Bit(op: Op, x: nat, y: nat): (b: nat)
    requires x < 2 && y < 2
    ensures b < 2
  {
    match op
    case AndOp => if x == 1 && y == 1 then 1 else 0
    case OrOp => if x == 1 || y == 1 then 1 else 0
    case XorOp => if x == y then 0 else 1
  }

  function Bitwise(op: Op, a: nat, b: nat): nat
    decreases a + b
  {
    if a == 0 && b == 0 then 0
    else Bit(op, a % 2, b % 2) + 2 * Bitwise(op, a / 2, b / 2)
  }

  function And(a: nat, b: nat): nat { Bitwise(AndOp, a, b) }

  function Or(a: nat, b: nat): nat { Bitwise(OrOp, a, b) }

  function Xor(a: nat, b: nat): nat { Bitwise(XorOp, a, b) }

  // `h << k`
  function Shl(h: nat, k: nat): nat {
    if k == 0 then h else 2 * Shl(h, k - 1)
  }

  function Pow2(k: nat): (p: nat)
    ensures p > 0
  {
    if k == 0 then 1 else 2 * Pow2(k - 1)
  }

  // Bit 0 is computed on its own, and the other bits do not see it.
  lemma LowBit(op: Op, n: nat, a: nat, x: nat, n': nat, b: nat, y: nat)
    requires x < 2 && y < 2
    requires n == 2 * a + x && n' == 2 * b + y
    ensures Bitwise(op, n, n') == 2 * Bitwise(op, a, b) + Bit(op, x, y)
  {
    assert n / 2 == a && n % 2 == x && n' / 2 == b && n' % 2 == y;
  }

  // A bitwise operation works on the parts above and below bit k separately.
  lemma {:induction false} Split(op: Op, k: nat, h: nat, l: nat, h': nat, l': nat)
    requires l < Pow2(k) && l' < Pow2(k)
    ensures Bitwise(op, Shl(h, k) + l, Shl(h', k) + l') == Shl(Bitwise(op, h, h'), k) + Bitwise(op, l, l')
  {
    if k > 0 {
      var m, e, m', e' := l / 2, l % 2, l' / 2, l' % 2;
      Split(op, k - 1, h, m, h', m');
      hide Bitwise;
      LowBit(op, Shl(h, k) + l, Shl(h, k - 1) + m, e, Shl(h', k) + l', Shl(h', k - 1) + m', e');
      LowBit(op, l, m, e, l', m', e');
    }
  }

  lemma {:induction false} Bound(op: Op, k: nat, a: nat, b: nat)
    requires a < Pow2(k) && b < Pow2(k)
    ensures Bitwise(op, a, b) < Pow2(k)
  {
    if k > 0 {
      Bound(op, k - 1, a / 2, b / 2);
    }
  }

  // Masking with `2**k - 1` keeps a number of at most k bits.
  lemma {:induction false} AndAllOnes(k: nat, l: nat)
    requires l < Pow2(k)
    ensures And(l, Pow2(k) - 1) == l
  {
    if k > 0 {
      AndAllOnes(k - 1, l / 2);
      LowBit(AndOp, l, l / 2, l % 2, Pow2(k) - 1, Pow2(k - 1) - 1, 1);
    }
  }

  lemma {:induction false} XorZero(a: nat, b: nat)
    ensures Xor(a, b) == 0 <==> a == b
    decreases a + b
  {
    if a > 0 || b > 0 {
      XorZero(a / 2, b / 2);
    }
  }

  lemma {:induction false} XorCancels(a: nat, b: nat)
    ensures Xor(Xor(a, b), a) == b
    decreases a + b
  {
    if a > 0 || b > 0 {
      var a', x, b', y := a / 2, a % 2, b / 2, b % 2;
      XorCancels(a', b');
      LowBit(XorOp, a, a', x, b, b', y);
      LowBit(XorOp, Xor(a, b), Xor(a', b'), Bit(XorOp, x, y), a, a', x);
    }
  }

  lemma {:induction false} AndZero(a: nat)
    ensures And(a, 0) == 0 && And(0, a) == 0
  {
    if a > 0 {
      AndZero(a / 2);
    }
  }

  lemma {:induction false} AndCommutes(a: nat, b: nat)
    ensures And(a, b) == And(b, a)
    decreases a + b
  {
    if a > 0 || b > 0 {
      AndCommutes(a / 2, b / 2);
    }
  }

  lemma {:induction false} AndSelf(a: nat)
    ensures And(a, a) == a
  {
    if a > 0 {
      AndSelf(a / 2);
    }
  }

  lemma {:induction false} AndOverXor(a: nat, b: nat, m: nat)
    ensures And(Xor(a, b), m) == Xor(And(a, m), And(b, m))
    decreases a + b
  {
    if a == 0 && b == 0 {
      AndZero(m);
    } else {
      var a', x, b', y, m', z := a / 2, a % 2, b / 2, b % 2, m / 2, m % 2;
      AndOverXor(a', b', m');
      LowBit(XorOp, a, a', x, b, b', y);
      LowBit(AndOp, Xor(a, b), Xor(a', b'), Bit(XorOp, x, y), m, m', z);
      LowBit(AndOp, a, a', x, m, m', z);
      LowBit(AndOp, b, b', y, m, m', z);
      LowBit(XorOp, And(a, m), And(a', m'), Bit(AndOp, x, z), And(b, m), And(b', m'), Bit(AndOp, y, z));
    }
  }

  lemma Nibble(h: nat, k: nat)
    ensures Shl(h, k + 4) == 16 * Shl(h, k) && Pow2(k + 4) == 16 * Pow2(k)
  {
    assert Shl(h, k + 4) == 2 * Shl(h, k + 3) && Shl(h, k + 2) == 2 * Shl(h, k + 1);
    assert Pow2(k + 4) == 2 * Pow2(k + 3) && Pow2(k + 2) == 2 * Pow2(k + 1);
  }

  // A shift by one byte, as a multiplication.
  lemma ByteShift(h: nat)
    ensures Shl(h, 8) == 0x100 * h && Pow2(8) == 0x100
  {
    Nibble(h, 0);
    Nibble(h, 4);
  }

  lemma SplitAt8(op: Op, a: nat, h: nat, l: nat, b: nat, h': nat, l': nat)
    requires l < 0x100 && l' < 0x100
    requires a == 0x100 * h + l && b == 0x100 * h' + l'
    ensures Bitwise(op, a, b) == 0x100 * Bitwise(op, h, h') + Bitwise(op, l, l')
    ensures Bitwise(op, l, l') < 0x100
  {
    hide Bitwise;
    ByteShift(h);
    ByteShift(h');
    ByteShift(Bitwise(op, h, h'));
    assert a == Shl(h, 8) + l && b == Shl(h', 8) + l';
    Split(op, 8, h, l, h', l');
    Bound(op, 8, l, l');
  }

  // A bitwise operation works on the lowest byte and on the rest separately.
  lemma SplitByte(op: Op, a: nat, b: nat)
    ensures Bitwise(op, a, b) == 0x100 * Bitwise(op, a / 0x100, b / 0x100) + Bitwise(op, a % 0x100, b % 0x100)
    ensures Bitwise(op, a % 0x100, b % 0x100) < 0x100
  {
    hide Bitwise;
    SplitAt8(op, a, a / 0x100, a % 0x100, b, b / 0x100, b % 0x100);
  }

  // `x & 0xFF`
  lemma AndByte(x: nat)
    ensures And(x, 0xFF) == x % 0x100
  {
    hide Bitwise;
    SplitByte(AndOp, x, 0xFF);
    ByteShift(0);
    AndAllOnes(8, x % 0x100);
    AndZero(x / 0x100);
  }
}
