/** Fixed-width integer types, single-bit register operations, error codes and
    the memory-mapped register block that both watchdog variants drive through
    32-bit reads and writes. */
module Registers {

  /** An unsigned 32-bit value (`u32`, `unsigned int`). */
  type u32 = x: int | 0 <= x < 0x1_0000_0000

  /** An unsigned 64-bit value (`u64`, `unsigned long` on a 64-bit kernel). */
  type u64 = x: int | 0 <= x < 0x1_0000_0000_0000_0000

  const U32_MAX: int := 0xFFFF_FFFF
  const U32_MOD: int := 0x1_0000_0000
  const U64_MOD: int := 0x1_0000_0000_0000_0000

  /** errno value returned (negated) for an invalid request. */
  const EINVAL: int := 22

  /** 2^n */
  function Pow2(n: nat): (r: nat)
    ensures r >= 1
  {
    if n == 0 then 1 else 2 * Pow2(n - 1)
  }

  /** `x & BIT(n)` is non-zero: bit `n` of `x` is set. */
  predicate BitSet(x: int, n: nat)
  {
    (x / Pow2(n)) % 2 == 1
  }

  /** `x | BIT(n)`: bit `n` set, every other bit of `x` kept. */
  function SetBit(x: u32, n: nat): (r: u32)
    requires n < 32
    ensures BitSet(r, n)
    ensures BitSet(x, n) ==> r == x
    ensures !BitSet(x, n) ==> r == x + Pow2(n)
  {
    if BitSet(x, n) then x
    else
      SetBitFits(x, n);
      DivShift(x, 1, Pow2(n));
      x + Pow2(n)
  }

  /** `x & ~BIT(n)`: bit `n` cleared, every other bit of `x` kept. */
  function ClearBit(x: u32, n: nat): (r: u32)
    ensures !BitSet(r, n)
    ensures !BitSet(x, n) ==> r == x
    ensures BitSet(x, n) ==> r == x - Pow2(n)
  {
    if BitSet(x, n) then
      DivShift(x - Pow2(n), 1, Pow2(n));
      x - Pow2(n)
    else x
  }

  /** Quotient and remainder are the only ones: `x == q * d + r` with
      `0 <= r < d` pins down `x / d` and `x % d`. */
  lemma DivUnique(x: int, d: nat, q: int, r: int)
    requires d > 0 && 0 <= r < d && x == q * d + r
    ensures x / d == q && x % d == r
  {
    var q0, r0 := x / d, x % d;
    DivMod(x, d);
    assert (q - q0) * d == r0 - r;
    if q > q0 {
      MulMonoLeft(1, q - q0, d);
      assert false;
    } else if q < q0 {
      MulMonoLeft(1, q0 - q, d);
      assert false;
    }
  }

  /** Adding `k` whole multiples of `d` adds `k` to the quotient and keeps the
      remainder. */
  lemma DivShift(x: int, k: int, d: nat)
    requires d > 0
    ensures (x + k * d) / d == x / d + k
    ensures (x + k * d) % d == x % d
  {
    var q, r := x / d, x % d;
    DivMod(x, d);
    AddMul(q, k, d);
    DivUnique(x + k * d, d, q + k, r);
  }

  /** 2^(a+b) == 2^a * 2^b */
  lemma {:induction false} Pow2Add(a: nat, b: nat)
    ensures Pow2(a + b) == Pow2(a) * Pow2(b)
  {
    if a > 0 {
      Pow2Add(a - 1, b);
      assert Pow2(a + b) == 2 * Pow2(a - 1 + b);
    }
  }

  /** Setting a bit that is clear in a 32-bit value cannot overflow 32 bits. */
  lemma SetBitFits(x: u32, n: nat)
    requires n < 32 && !BitSet(x, n)
    ensures x + Pow2(n) < U32_MOD
  {
    Pow2Values();
    RoomForBit(x, n, 32);
  }

  /** A value below 2^k whose bit `m < k` is clear has room for 2^m: its
      quotient by 2^m is even and below the even 2^(k-m), so adding one more
      2^m stays below 2^k. */
  lemma RoomForBit(x: nat, m: nat, k: nat)
    requires m < k && x < Pow2(k) && !BitSet(x, m)
    ensures x + Pow2(m) < Pow2(k)
  {
    var p, h := Pow2(m), Pow2(k - m);
    Pow2Split(m, k);
    QuotientBelow(x, p, h);
    Pow2Even(k - m);
    EvenGap(x / p, h);
    RoomAbove(x, p, x / p + 2, h);
  }

  lemma Pow2Even(m: nat)
    requires m >= 1
    ensures Pow2(m) % 2 == 0
  {
  }

  /** Two even numbers, one below the other, are at least 2 apart. */
  lemma EvenGap(q: int, h: int)
    requires q % 2 == 0 && h % 2 == 0 && q < h
    ensures q + 2 <= h
  {
  }

  /** 2^(k-m) * 2^m == 2^k */
  lemma Pow2Split(m: nat, k: nat)
    requires m <= k
    ensures Pow2(k - m) * Pow2(m) == Pow2(k)
  {
    Pow2Add(k - m, m);
    assert k - m + m == k;
  }

  /** `x / p < h` when `x < h * p`. */
  lemma QuotientBelow(x: nat, p: nat, h: nat)
    requires p > 0 && x < h * p
    ensures x / p < h
  {
    DivMod(x, p);
    if x / p >= h {
      MulMonoLeft(h, x / p, p);
    }
  }

  /** `x + p < k * p` whenever `x / p + 2 <= k`, and `k * p <= h * p`. */
  lemma RoomAbove(x: nat, p: nat, k: int, h: int)
    requires p > 0 && x / p + 2 <= k <= h
    ensures x + p < k * p <= h * p
  {
    DivMod(x, p);
    MulMonoLeft(x / p + 2, k, p);
    MulMonoLeft(k, h, p);
    AddMul(x / p, 2, p);
  }

  /** Setting bit `m` leaves every other bit as it was. */
  lemma SetBitKeeps(x: u32, m: nat, n: nat)
    requires m < 32 && n < 32 && m != n
    ensures BitSet(SetBit(x, m), n) == BitSet(x, n)
  {
    if !BitSet(x, m) {
      if n < m {
        SetBitKeepsLower(x, m, n);
      } else {
        SetBitKeepsHigher(x, m, n);
      }
    }
  }

  /** Clearing bit `m` leaves every other bit as it was. */
  lemma ClearBitKeeps(x: u32, m: nat, n: nat)
    requires m < 32 && n < 32 && m != n
    ensures BitSet(ClearBit(x, m), n) == BitSet(x, n)
  {
    if BitSet(x, m) {
      var y := ClearBit(x, m);
      SetBitKeeps(y, m, n);
      assert SetBit(y, m) == x;
    }
  }

  /** Setting a bit after clearing it is the same as setting it. */
  lemma SetAfterClear(x: u32, n: nat)
    requires n < 32
    ensures SetBit(ClearBit(x, n), n) == SetBit(x, n)
  {
  }

  /** Every bit of 0xFFFF_FFFF is set: its quotient by 2^n is 2^(32-n) - 1,
      which is odd. */
  lemma AllOnes(n: nat)
    requires n < 32
    ensures BitSet(U32_MAX, n)
  {
    var p, h := Pow2(n), Pow2(32 - n);
    Pow2Split(n, 32);
    Pow2Values();
    Pow2Even(32 - n);
    AllOnesQuotient(p, h);
  }

  /** `(h * p - 1) / p == h - 1` for positive `h` and `p`. */
  lemma AllOnesQuotient(p: nat, h: nat)
    requires p > 0 && h > 0
    ensures (h * p - 1) / p == h - 1
  {
    AddMul(h - 1, 1, p);
    DivUnique(h * p - 1, p, h - 1, p - 1);
  }

  /** Adding 2^m moves the quotient by a lower power 2^n by an even amount. */
  lemma SetBitKeepsLower(x: u32, m: nat, n: nat)
    requires n < m < 32 && !BitSet(x, m)
    ensures BitSet(x + Pow2(m), n) == BitSet(x, n)
  {
    Pow2Split(n, m);
    Pow2Even(m - n);
    ParityShift(x, Pow2(n), Pow2(m - n), Pow2(m));
  }

  /** Adding `e` whole multiples of `d`, with `e` even, keeps the parity of
      the quotient by `d`. */
  lemma ParityShift(x: int, d: nat, e: int, s: int)
    requires d > 0 && e % 2 == 0 && s == e * d
    ensures ((x + s) / d) % 2 == (x / d) % 2
  {
    DivShift(x, e, d);
  }

  /** Adding 2^m to a value whose bit m is clear stays inside the remainder by a
      higher power 2^n, so the quotient by 2^n is unchanged. */
  lemma SetBitKeepsHigher(x: u32, m: nat, n: nat)
    requires m < n < 32 && !BitSet(x, m)
    ensures BitSet(x + Pow2(m), n) == BitSet(x, n)
  {
    var P, p := Pow2(n), Pow2(m);
    Pow2Split(m, n);
    Pow2Even(n - m);
    var R := x % P;
    LowPart(x, P, Pow2(n - m), p);
    RoomForBit(R, m, n);
    SameQuotient(x, P, p);
  }

  /** The bit of `x` at `p` is the bit of `x % P` at `p` when `P` is an even
      multiple of `p`. */
  lemma LowPart(x: int, P: nat, e: int, p: nat)
    requires p > 0 && P > 0 && e % 2 == 0 && P == e * p
    ensures ((x % P) / p) % 2 == (x / p) % 2
  {
    var Q := x / P;
    DivMod(x, P);
    MulAssoc(Q, e, p);
    EvenMul(Q, e);
    DivShift(x % P, Q * e, p);
  }

  /** Adding `p` to `x` leaves `x / P` alone when there is room below `P` in
      the remainder. */
  lemma SameQuotient(x: int, P: nat, p: int)
    requires P > 0 && 0 <= p && x % P + p < P
    ensures (x + p) / P == x / P
  {
    DivMod(x, P);
    DivUnique(x + p, P, x / P, x % P + p);
  }

  lemma MulAssoc(a: int, b: int, c: int)
    ensures a * (b * c) == (a * b) * c
  {
  }

  lemma EvenMul(a: int, e: int)
    requires e % 2 == 0
    ensures (a * e) % 2 == 0
  {
    DivMod(e, 2);
    MulAssoc(a, e / 2, 2);
    DivShift(0, a * (e / 2), 2);
  }

  /** Euclidean division by a positive divisor. */
  lemma DivMod(x: int, d: nat)
    requires d > 0
    ensures x == (x / d) * d + x % d && 0 <= x % d < d
  {
  }

  lemma AddMul(a: int, b: int, c: int)
    ensures (a + b) * c == a * c + b * c
  {
  }

  lemma MulMonoLeft(a: int, b: int, c: nat)
    requires a <= b
    ensures a * c <= b * c
  {
    assert b * c == a * c + (b - a) * c;
  }

  /** The powers of two this model names. */
  lemma Pow2Values()
    ensures Pow2(0) == 1 && Pow2(1) == 2 && Pow2(2) == 4 && Pow2(3) == 8
    ensures Pow2(8) == 0x100 && Pow2(16) == 0x1_0000 && Pow2(24) == 0x100_0000
    ensures Pow2(30) == 0x4000_0000 && Pow2(31) == 0x8000_0000 && Pow2(32) == 0x1_0000_0000
  {
    assert Pow2(4) == 16;
    assert Pow2(8) == 0x100;
    assert Pow2(12) == 0x1000;
    assert Pow2(16) == 0x1_0000;
    assert Pow2(20) == 0x10_0000;
    assert Pow2(24) == 0x100_0000;
    assert Pow2(28) == 0x1000_0000;
  }

  /** One `iowrite32` as it reached the bus: the register offset and the value. */
  datatype RegWrite = RegWrite(offset: int, value: u32)

  /** The register image left by applying writes `ws` to `regs`, in order. */
  function Replay(regs: map<int, u32>, ws: seq<RegWrite>): map<int, u32>
    decreases |ws|
  {
    if ws == [] then regs else Replay(regs[ws[0].offset := ws[0].value], ws[1..])
  }

  /** Replaying one more write updates the replayed image at that write's
      register only, so a register image kept in step with a write trace stays
      in step after each `Write32`. */
  lemma {:induction false} ReplayAppend(regs: map<int, u32>, ws: seq<RegWrite>, w: RegWrite)
    ensures Replay(regs, ws + [w]) == Replay(regs, ws)[w.offset := w.value]
    decreases |ws|
  {
    if ws == [] {
      assert ws + [w] == [w];
      assert [w][1..] == [];
    } else {
      assert (ws + [w])[1..] == ws[1..] + [w];
      ReplayAppend(regs[ws[0].offset := ws[0].value], ws[1..], w);
    }
  }

  /** The register window of one device. Registers behave as plain memory: a read
      returns the last value written (hardware side effects are not modelled).
      `writes` records every write in order, so that callers can state which
      registers an operation touched and in what sequence. */
  class RegisterBlock {
    var regs: map<int, u32>
    ghost var writes: seq<RegWrite>

    constructor (image: map<int, u32>)
      ensures regs == image && writes == []
    {
      regs := image;
      writes := [];
    }

    /** `ioread32(base + offset)` */
    function Read32(offset: int): u32
      reads this
      requires offset in regs
    {
      regs[offset]
    }

    /** `iowrite32(value, base + offset)` */
    method Write32(offset: int, value: u32)
      requires offset in regs
      modifies this
      ensures regs == old(regs)[offset := value]
      ensures writes == old(writes) + [RegWrite(offset, value)]
      ensures Read32(offset) == value
    {
      regs := regs[offset := value];
      writes := writes + [RegWrite(offset, value)];
    }
  }
}
