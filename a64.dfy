/**
 * Arithmetic on the two A64 instruction words the patcher writes.
 *
 * The Python source works on unbounded non-negative integers: `<<` is a
 * multiplication by a power of two and `|` is bitwise OR. Both are written
 * out here. Encodings follow the Arm Architecture Reference Manual for
 * A-profile (ARM DDI 0487), section C6.2, entries "B" and "RET".
 */
module A64 {
  import opened Outcomes

  /** 2^n */
  function Pow2(n: nat): (r: int)
    ensures r >= 1
  {
    if n == 0 then 1 else 2 * Pow2(n - 1)
  }

  /** Python's `a << k` on a non-negative integer. */
  function ShiftLeft(a: nat, k: nat): nat {
    a * Pow2(k)
  }

  /** Python's `a | b` on non-negative integers, one bit at a time. */
  function BitOr(a: nat, b: nat): nat
    decreases a + b
  {
    if a == 0 then b
    else if b == 0 then a
    else 2 * BitOr(a / 2, b / 2) + (if a % 2 == 1 || b % 2 == 1 then 1 else 0)
  }

  /** The `width` bits of `w` starting at bit `lo`. */
  function Field(w: nat, lo: nat, width: nat): nat {
    (w / Pow2(lo)) % Pow2(width)
  }

  /** The value of an n-bit field read as a two's-complement number. */
  function ToSigned(field: nat, nbits: nat): int
    requires nbits >= 1
  {
    if field < Pow2(nbits - 1) then field else field - Pow2(nbits)
  }

  /**
   * `sign_extend(val, nbits)` of fix_quicklook.py. Despite its name it reduces
   * `val` modulo 2^nbits, which yields the nbits-wide two's-complement bit
   * pattern of `val`. Python's `%` with a positive divisor is the floor
   * remainder, which coincides with Dafny's Euclidean `%`.
   */
  function SignExtend(val: int, nbits: nat): (r: nat)
    ensures r < Pow2(nbits)
    ensures (r - val) % Pow2(nbits) == 0
  {
    var m := Pow2(nbits);
    var r := (val + m) % m;
    ReduceIsCongruent(val, m);
    r
  }

  lemma ReduceIsCongruent(val: int, m: int)
    requires m >= 1
    ensures ((val + m) % m - val) % m == 0
  {
    var y := val + m;
    var q := y / m;
    var r := y % m;
    assert y == q * m + r;
    assert (1 - q) * m == m - q * m;
    DivModUnique(r - val, m, 1 - q, 0);
  }

  lemma MulAtLeast(k: int, m: int)
    requires k >= 1 && m >= 1
    ensures k * m >= m
  {
  }

  /** Quotient and remainder are determined by x == q * m + r with 0 <= r < m. */
  lemma DivModUnique(x: int, m: int, q: int, r: int)
    requires m >= 1 && 0 <= r < m && x == q * m + r
    ensures x / m == q && x % m == r
  {
    var d := q - x / m;
    assert d * m == x % m - r by {
      assert x == (x / m) * m + x % m;
      assert q * m - (x / m) * m == d * m;
    }
    if d >= 1 {
      MulAtLeast(d, m);
    } else if d <= -1 {
      MulAtLeast(-d, m);
    }
  }

  /** Reducing a value already in the n-bit two's-complement range and reading it back gives the value. */
  lemma {:induction false} SignExtendRoundTrip(val: int, nbits: nat)
    requires nbits >= 1
    requires -Pow2(nbits - 1) <= val < Pow2(nbits - 1)
    ensures ToSigned(SignExtend(val, nbits), nbits) == val
  {
    var m := Pow2(nbits);
    if val >= 0 {
      DivModUnique(val + m, m, 1, val);
    } else {
      DivModUnique(val + m, m, 0, val + m);
    }
  }

  /** Reading an n-bit pattern as a signed number and reducing it again gives the pattern back. */
  lemma {:induction false} ToSignedRoundTrip(field: nat, nbits: nat)
    requires nbits >= 1 && field < Pow2(nbits)
    ensures -Pow2(nbits - 1) <= ToSigned(field, nbits) < Pow2(nbits - 1)
    ensures SignExtend(ToSigned(field, nbits), nbits) == field
  {
    var m := Pow2(nbits);
    if field < Pow2(nbits - 1) {
      DivModUnique(field + m, m, 1, field);
    } else {
      DivModUnique(field, m, 0, field);
    }
  }

  /** `a << k | b` adds when `b` fits below bit `k`. */
  lemma BitOrDisjoint(a: nat, k: nat, b: nat)
    requires b < Pow2(k)
    ensures BitOr(ShiftLeft(a, k), b) == ShiftLeft(a, k) + b
  {
    ShiftLeftLowBitsClear(a, k);
    BitOrLowBitsClear(ShiftLeft(a, k), k, b);
  }

  /** The low k bits of x are all zero. */
  predicate LowBitsClear(x: nat, k: nat) {
    k == 0 || (x % 2 == 0 && LowBitsClear(x / 2, k - 1))
  }

  lemma {:induction false} ShiftLeftLowBitsClear(a: nat, k: nat)
    ensures LowBitsClear(ShiftLeft(a, k), k)
  {
    if k >= 1 {
      ShiftLeftHalves(a, k);
      ShiftLeftLowBitsClear(a, k - 1);
    }
  }

  lemma {:induction false} BitOrLowBitsClear(hi: nat, k: nat, b: nat)
    requires LowBitsClear(hi, k) && b < Pow2(k)
    ensures BitOr(hi, b) == hi + b
  {
    if k >= 1 && hi != 0 && b != 0 {
      BitOrLowBitsClear(hi / 2, k - 1, b / 2);
    }
  }

  lemma ShiftLeftHalves(a: nat, k: nat)
    requires k >= 1
    ensures ShiftLeft(a, k) / 2 == ShiftLeft(a, k - 1)
    ensures ShiftLeft(a, k) % 2 == 0
  {
    var p := Pow2(k - 1);
    var x := a * p;
    assert ShiftLeft(a, k) == x * 2 by {
      assert Pow2(k) == 2 * p;
      MulAssoc(a, p);
    }
    DivModUnique(ShiftLeft(a, k), 2, x, 0);
  }

  lemma MulAssoc(a: int, p: int)
    ensures a * (2 * p) == (a * p) * 2
  {
  }

  lemma Pow2Values()
    ensures Pow2(0) == 1 && Pow2(6) == 64 && Pow2(25) == 0x200_0000 && Pow2(26) == 0x400_0000
  {
    assert Pow2(6) == 64;
    assert Pow2(12) == 0x1000;
    assert Pow2(18) == 0x4_0000;
    assert Pow2(24) == 0x100_0000;
  }

  /** Bits 31..26 of an unconditional B (immediate): 0b000101. */
  const BranchOpcode: nat := 5
  /** Width of the imm26 field of B. */
  const Imm26Width: nat := 26
  /** RET, returning through X30. */
  const RetX30: nat := 0xd65f03c0
  /** 2^32: every A64 instruction word is below this. */
  const WordLimit: nat := 0x1_0000_0000

  /**
   * The branch word of `patch_enableBorder`: `(5 << 26) | sign_extend(offset, 26)`.
   * The OR acts as addition, the word is an unsigned 32-bit value, and its
   * fields are the B opcode and the reduced offset.
   */
  function BranchWord(offsetInsns: int): (w: nat)
    ensures w == BranchOpcode * Pow2(Imm26Width) + SignExtend(offsetInsns, Imm26Width)
    ensures w < WordLimit
    ensures Field(w, Imm26Width, 6) == BranchOpcode
    ensures Field(w, 0, Imm26Width) == SignExtend(offsetInsns, Imm26Width)
  {
    var imm26 := SignExtend(offsetInsns, Imm26Width);
    BitOrDisjoint(BranchOpcode, Imm26Width, imm26);
    Pow2Values();
    BitOr(ShiftLeft(BranchOpcode, Imm26Width), imm26)
  }

  /**
   * Where an A64 word executed at address `pc` transfers control when it is a
   * B (immediate): pc + SignExtend(imm26:'00'). None for any other word.
   */
  function BranchTarget(pc: int, w: nat): Option<int> {
    if Field(w, Imm26Width, 6) == BranchOpcode
    then Some(pc + 4 * ToSigned(Field(w, 0, Imm26Width), Imm26Width))
    else None
  }

  /**
   * The branch that `patch_enableBorder` computes from `from` to `to` is a B
   * word, and it lands exactly on `to` if and only if the distance is a whole
   * number of instructions that fits the signed 26-bit field. Python's `// 4`
   * is floor division, as is Dafny's `/ 4`.
   */
  lemma BranchRoundTrip(from: int, to: int)
    ensures BranchTarget(from, BranchWord((to - from) / 4)).Some?
    ensures BranchTarget(from, BranchWord((to - from) / 4)) == Some(to)
        <==> (to - from) % 4 == 0 && -Pow2(25) <= (to - from) / 4 < Pow2(25)
  {
    var off := (to - from) / 4;
    var w := BranchWord(off);
    var imm := SignExtend(off, Imm26Width);
    assert Field(w, 0, Imm26Width) == imm;
    ToSignedRoundTrip(imm, Imm26Width);
    if -Pow2(25) <= off < Pow2(25) {
      SignExtendRoundTrip(off, Imm26Width);
    }
  }

  /** 0xd65f03c0 is RET with Rn = X30: bits 31..10 = 0b1101011001011111000000, Rn = 30, bits 4..0 = 0. */
  lemma RetIsReturnThroughX30()
    ensures RetX30 < WordLimit
    ensures Field(RetX30, 10, 22) == 0x3597C0
    ensures Field(RetX30, 5, 5) == 30
    ensures Field(RetX30, 0, 5) == 0
  {
    assert Pow2(10) == 1024 && Pow2(22) == 0x40_0000 && Pow2(5) == 32 && Pow2(0) == 1;
  }
}
