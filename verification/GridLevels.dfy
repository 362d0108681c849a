/** The nested power-of-two grid behind checkpoint retention: cells, their XOR distance, and the
    coarsest level at which a checkpoint is the first of its cell. */
module GridLevels {
  /** Bitwise exclusive or of naturals. */
  function Xor(a: nat, b: nat): nat {
    if a == 0 && b == 0 then 0 else 2 * Xor(a / 2, b / 2) + (if a % 2 == b % 2 then 0 else 1)
  }

  function BitLength(n: nat): nat {
    if n == 0 then 0 else 1 + BitLength(n / 2)
  }

  /** How many low bits must be dropped before the two cells coincide. */
  function Apart(a: nat, b: nat): nat
    decreases a + b
  {
    if a == b then 0 else 1 + Apart(a / 2, b / 2)
  }

  lemma {:induction false} XorIsApart(a: nat, b: nat)
    ensures BitLength(Xor(a, b)) == Apart(a, b)
    ensures Xor(a, b) == 0 <==> a == b
    decreases a + b
  {
    if a == 0 && b == 0 {
    } else {
      XorIsApart(a / 2, b / 2);
      assert Xor(a, b) / 2 == Xor(a / 2, b / 2);
    }
  }

  /** Along ascending cells the distance of the ends is the greater of the two steps: two equal steps
      would need a coarser one between them. */
  lemma {:induction false} ChainIsMax(a: nat, b: nat, c: nat)
    requires a <= b <= c
    ensures Apart(a, c) == if Apart(a, b) < Apart(b, c) then Apart(b, c) else Apart(a, b)
    decreases c
  {
    if a < c {
      if c == 1 {
        assert a / 2 == b / 2 == c / 2 == 0;
      } else {
        ChainIsMax(a / 2, b / 2, c / 2);
      }
    }
  }

  lemma {:induction false} ApartBelowBits(a: nat, b: nat)
    requires a <= b
    ensures Apart(a, b) <= BitLength(b)
  {
    if a < b {
      ApartBelowBits(a / 2, b / 2);
    }
  }

  lemma {:induction false} BitLengthMonotone(a: nat, b: nat)
    requires a <= b
    ensures BitLength(a) <= BitLength(b)
  {
    if a > 0 {
      BitLengthMonotone(a / 2, b / 2);
    }
  }

  /** The cell of level `level` that holds finest cell `a`. */
  function Coarse(a: nat, level: nat): nat
    decreases level
  {
    if level == 0 then a else Coarse(a / 2, level - 1)
  }

  function Pow2(n: nat): (r: nat)
    ensures r >= 1
  {
    if n == 0 then 1 else 2 * Pow2(n - 1)
  }

  lemma {:induction false} ApartIsCoarse(a: nat, b: nat, level: nat)
    ensures Apart(a, b) > level <==> Coarse(a, level) != Coarse(b, level)
    decreases level
  {
    if level == 0 {
    } else {
      ApartIsCoarse(a / 2, b / 2, level - 1);
    }
  }

  lemma {:induction false} CoarseMonotone(a: nat, b: nat, level: nat)
    requires a <= b
    ensures Coarse(a, level) <= Coarse(b, level)
    decreases level
  {
    if level > 0 {
      CoarseMonotone(a / 2, b / 2, level - 1);
    }
  }

  lemma {:induction false} CoarseWidth(a: nat, b: nat, level: nat)
    requires a <= b && Coarse(a, level) == Coarse(b, level)
    ensures b - a < Pow2(level)
    decreases level
  {
    if level > 0 {
      CoarseWidth(a / 2, b / 2, level - 1);
    }
  }
}
