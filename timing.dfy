/** The arithmetic that turns seconds into hardware cycle counts: the window
    variant's First-Window, Second-Window and Function-Control values, the largest
    timeout whose cycle count still fits the 32-bit window registers, and the
    plain variant's timeout derived from its interval exponent. */
module Timing {
  import opened Registers

  /** The window counts the start sequence programs, and whether the
      Function-Control register is packed from the Second-Window count (the
      pretimeout branch) or cleared. */
  datatype WindowProgram = WindowProgram(first: u32, second: u32, packed: bool)
  {
    /** The Function-Control value written: cleared without a pretimeout,
        otherwise the top byte of the Second-Window count over the scale bits. */
    function Fcr(): (r: u32)
      ensures !packed ==> r == 0
      ensures packed ==> r / 0x100 == second / 0x100_0000 && r % 0x100 == BSS_MASK
      ensures r < 0x1_0000
    {
      if packed then FunctionControl(second) else 0
    }
  }

  /** Function-Control register fields: the scaled byte count `SBC` sits in
      bits 15:8 and is taken from the Second-Window count shifted right by 16;
      the byte-select scale `BSS` is the two bits 7:6. */
  const SBC_SHIFT: nat := 16
  const SBC_MASK: int := 0xFF00
  const BSS_MASK: int := 0xC0

  /** The Function-Control value packed from the Second-Window count read back
      from the hardware, `((swr >> 16) & 0xFF00) | 0xC0`. Shifting right by 16
      and keeping bits 15:8 keeps exactly bits 31:24 of `swr`, now in bits 15:8,
      and the scale bits 7:6 are disjoint from them, so the value is the top
      byte of `swr` times 2^8 plus 0xC0. */
  function FunctionControl(swr: u32): (fcr: u32)
    ensures fcr / 0x100 == swr / 0x100_0000
    ensures fcr % 0x100 == BSS_MASK
    ensures fcr < 0x1_0000
  {
    var top := swr / 0x100_0000;
    QuotientBelow(swr, 0x100_0000, 0x100);
    DivShift(BSS_MASK, top, 0x100);
    top * 0x100 + BSS_MASK
  }

  /** `count * seconds` computed in 64-bit unsigned arithmetic: exact when the
      product fits, and never different from the product in its low 32 bits. */
  function Cycles(rate: u64, seconds: u32): (c: u64)
    ensures rate * seconds < U64_MOD ==> c == rate * seconds
    ensures c % U32_MOD == (rate * seconds) % U32_MOD
  {
    var product: int := rate * seconds;
    ModOfMod(product);
    NoWrapBelow(product);
    product % U64_MOD
  }

  /** A non-negative value below 2^64 is its own 64-bit truncation. */
  lemma NoWrapBelow(x: int)
    requires x >= 0
    ensures x < U64_MOD ==> x % U64_MOD == x
  {
  }

  /** What the window start sequence writes for clock rate `rate` (Hz), `timeout`
      and `pretimeout` (seconds). Both products are taken in 64-bit arithmetic and
      the values written are truncated to 32 bits. The branch is chosen by the
      64-bit pretimeout cycle count, not by `pretimeout` itself: with a pretimeout
      the Second Window holds the pretimeout and the First Window the rest of the
      timeout, without one the First Window is empty and the Second Window holds
      the whole timeout. */
  function Program(rate: u64, timeout: u32, pretimeout: u32): (p: WindowProgram)
    ensures p.packed <==> (rate * pretimeout) % U64_MOD != 0
    ensures p.packed ==> p.second == (rate * pretimeout) % U32_MOD
    ensures p.packed ==> p.first == (rate * (timeout - pretimeout)) % U32_MOD
    ensures !p.packed ==> p.first == 0 && p.second == (rate * timeout) % U32_MOD
  {
    var preCycles := Cycles(rate, pretimeout);
    var totalCycles := Cycles(rate, timeout);
    if preCycles != 0 then
      RestOfTimeout(rate, timeout, pretimeout);
      WindowProgram(((totalCycles - preCycles) % U64_MOD) % U32_MOD, preCycles % U32_MOD, true)
    else
      WindowProgram(0, totalCycles % U32_MOD, false)
  }

  /** The First-Window count with a pretimeout, the 64-bit difference of the two
      cycle counts truncated to 32 bits, is the rest of the timeout in cycles
      modulo 2^32. */
  lemma RestOfTimeout(rate: u64, timeout: u32, pretimeout: u32)
    ensures var total, pre := Cycles(rate, timeout), Cycles(rate, pretimeout);
      ((total - pre) % U64_MOD) % U32_MOD == (rate * (timeout - pretimeout)) % U32_MOD
  {
    var total: int, pre: int := Cycles(rate, timeout), Cycles(rate, pretimeout);
    ModOfMod(total - pre);
    ModDiff(total, pre, rate * timeout, rate * pretimeout);
    assert rate * (timeout - pretimeout) == rate * timeout - rate * pretimeout;
  }

  /** Subtraction respects congruence modulo 2^32. */
  lemma ModDiff(a: int, b: int, a2: int, b2: int)
    requires a % U32_MOD == a2 % U32_MOD && b % U32_MOD == b2 % U32_MOD
    ensures (a - b) % U32_MOD == (a2 - b2) % U32_MOD
  {
    var k := a / U32_MOD - a2 / U32_MOD - b / U32_MOD + b2 / U32_MOD;
    assert a - b == (a2 - b2) + k * U32_MOD;
    ModShift(a2 - b2, k);
  }

  /** Reducing modulo 2^64 first does not change a value modulo 2^32. */
  lemma ModOfMod(x: int)
    ensures (x % U64_MOD) % U32_MOD == x % U32_MOD
  {
    var q := x / U64_MOD;
    var r := x % U64_MOD;
    assert x == r + (q * U32_MOD) * U32_MOD;
    ModShift(r, q * U32_MOD);
  }

  lemma ModShift(r: int, k: int)
    ensures (r + k * U32_MOD) % U32_MOD == r % U32_MOD
  {
  }

  lemma ModSum(a: int, b: int)
    ensures (a % U32_MOD + b % U32_MOD) % U32_MOD == (a + b) % U32_MOD
  {
    ModShift(a % U32_MOD + b % U32_MOD, a / U32_MOD + b / U32_MOD);
  }

  /** Whatever the inputs, the First and Second Window counts together make up the
      whole timeout in cycles, modulo 2^32. */
  lemma WindowsCoverTimeout(rate: u64, timeout: u32, pretimeout: u32)
    ensures var p := Program(rate, timeout, pretimeout);
      (p.first + p.second) % U32_MOD == (rate * timeout) % U32_MOD
  {
    var p := Program(rate, timeout, pretimeout);
    var preCycles := Cycles(rate, pretimeout);
    var totalCycles := Cycles(rate, timeout);
    ModOfMod(rate * timeout);
    if preCycles != 0 {
      ModOfMod(totalCycles - preCycles);
      assert p.first == (totalCycles - preCycles) % U32_MOD;
      assert p.second == preCycles % U32_MOD;
      ModSum(totalCycles - preCycles, preCycles);
    } else {
      assert p.first == 0 && p.second == totalCycles % U32_MOD;
    }
  }

  /** The largest timeout (seconds) accepted by the window variant at clock
      frequency `pfreq`: its cycle count still fits in 32 bits, one more second
      would not. */
  function MaxTimeout(pfreq: u32): (m: u32)
    requires pfreq > 0
    ensures pfreq * m <= U32_MAX < pfreq * (m + 1)
  {
    var m := U32_MAX / pfreq;
    assert U32_MAX == pfreq * m + U32_MAX % pfreq;
    m
  }

  /** A timeout is at most `MaxTimeout(pfreq)` exactly when its cycle count fits
      in a 32-bit window register. */
  lemma WithinMaxTimeout(pfreq: u32, t: nat)
    requires pfreq > 0
    ensures t <= MaxTimeout(pfreq) <==> pfreq * t <= U32_MAX
  {
    var m := MaxTimeout(pfreq);
    if t <= m {
      MulMono(pfreq, t, m);
    } else {
      MulMono(pfreq, m as int + 1, t);
    }
  }

  lemma MulMono(f: nat, a: nat, b: nat)
    requires a <= b
    ensures f * a <= f * b
  {
    assert f * b == f * a + f * (b - a);
  }

  /** With the clock at the frequency the maximum was computed from, a timeout
      within range and a pretimeout below it, nothing is truncated: the windows
      hold exactly f*(T-P) and f*P cycles, and the pretimeout branch is taken
      exactly when a pretimeout is set. */
  lemma ExactProgram(pfreq: u32, timeout: u32, pretimeout: u32)
    requires pfreq > 0
    requires timeout <= MaxTimeout(pfreq)
    requires pretimeout <= timeout
    ensures var p := Program(pfreq, timeout, pretimeout);
      && p.first + p.second == pfreq * timeout
      && (pretimeout == 0 ==> p.first == 0 && p.second == pfreq * timeout && !p.packed)
      && (pretimeout > 0 ==>
            p.first == pfreq * (timeout - pretimeout) && p.second == pfreq * pretimeout && p.packed)
  {
    ExactCycles(pfreq, timeout, pretimeout);
    FittingProgram(pfreq, timeout, pretimeout);
  }

  /** Under the same conditions both 64-bit products are exact, fit in 32
      bits, and the pretimeout product is zero only for a zero pretimeout. */
  lemma ExactCycles(pfreq: u32, timeout: u32, pretimeout: u32)
    requires pfreq > 0
    requires timeout <= MaxTimeout(pfreq)
    requires pretimeout <= timeout
    ensures Cycles(pfreq, timeout) == pfreq * timeout <= U32_MAX
    ensures Cycles(pfreq, pretimeout) == pfreq * pretimeout <= pfreq * timeout
    ensures pfreq * timeout - pfreq * pretimeout == pfreq * (timeout - pretimeout)
    ensures pretimeout != 0 <==> pfreq * pretimeout != 0
  {
    WithinMaxTimeout(pfreq, timeout);
    MulMono(pfreq, pretimeout, timeout);
    assert pfreq * timeout == pfreq * pretimeout + pfreq * (timeout - pretimeout);
    if pretimeout != 0 {
      MulMono(pfreq, 1, pretimeout);
    }
  }

  /** When the total cycle count fits in 32 bits and the pretimeout count does
      not exceed it, nothing is truncated. */
  lemma FittingProgram(rate: u64, timeout: u32, pretimeout: u32)
    requires Cycles(rate, timeout) <= U32_MAX
    requires Cycles(rate, pretimeout) <= Cycles(rate, timeout)
    ensures var p := Program(rate, timeout, pretimeout);
      var total, pre := Cycles(rate, timeout), Cycles(rate, pretimeout);
      && (pre != 0 ==> p.first == total - pre && p.second == pre && p.packed)
      && (pre == 0 ==> p.first == 0 && p.second == total && !p.packed)
  {
    var total, pre := Cycles(rate, timeout), Cycles(rate, pretimeout);
    SmallMod(total);
    SmallMod(pre);
    SmallMod(total - pre);
    assert (total - pre) % U64_MOD == total - pre;
  }

  /** 100 MHz, 10 s, no pretimeout: the whole period is the Second Window and
      the Function-Control register is cleared. */
  lemma ScenarioNoPretimeout()
    ensures var p := Program(100_000_000, 10, 0);
      p.first == 0 && p.second == 1_000_000_000 && p.Fcr() == 0
  {
    assert Cycles(100_000_000, 10) == 1_000_000_000;
  }

  /** 100 MHz, 10 s, 2 s pretimeout: 8 s of First Window, 2 s of Second Window,
      and the Second Window's top byte (0x0B) in the Function-Control register. */
  lemma ScenarioPretimeout()
    ensures var p := Program(100_000_000, 10, 2);
      p.first == 800_000_000 && p.second == 200_000_000 && p.Fcr() == 0x0BC0
  {
    assert Cycles(100_000_000, 10) == 1_000_000_000;
    assert Cycles(100_000_000, 2) == 200_000_000;
    var p := Program(100_000_000, 10, 2);
    assert p.second == 200_000_000 && p.packed;
  }

  lemma {:induction false} Pow2Mono(a: nat, b: nat)
    requires a <= b
    ensures Pow2(a) <= Pow2(b)
  {
    if a < b {
      Pow2Mono(a, b - 1);
    }
  }

  /** The plain variant's timeout: the counter overflows every 2^interval cycles and
      only the second overflow resets, so the timeout is twice 2^interval / pfreq
      seconds, in 32-bit unsigned arithmetic. It is set only when both inputs are
      non-zero; otherwise the field keeps its `current` value. The result never
      exceeds the real reset period and, unless the doubling wraps (interval 31 at
      1 Hz, where it becomes 0), falls short of it by less than two seconds. */
  function PlainTimeout(pfreq: u32, interval: u32, current: u32): (t: u32)
    requires interval < 32
    ensures pfreq == 0 || interval == 0 ==> t == current
    ensures pfreq != 0 && interval != 0 ==> t % 2 == 0 && t * pfreq <= 2 * Pow2(interval)
    ensures pfreq != 0 && interval != 0 && (interval < 31 || pfreq > 1) ==>
      2 * Pow2(interval) < (t + 2) * pfreq
    ensures pfreq == 1 && interval == 31 ==> t == 0
  {
    if pfreq != 0 && interval != 0 then
      PlainTimeoutBounds(pfreq, interval);
      (2 * (Pow2(interval) / pfreq)) % U32_MOD
    else
      current
  }

  lemma PlainTimeoutBounds(pfreq: u32, interval: u32)
    requires 0 < interval < 32 && pfreq > 0
    ensures var t := (2 * (Pow2(interval) / pfreq)) % U32_MOD;
      && t % 2 == 0 && t * pfreq <= 2 * Pow2(interval)
      && ((interval < 31 || pfreq > 1) ==> 2 * Pow2(interval) < (t + 2) * pfreq)
      && (pfreq == 1 && interval == 31 ==> t == 0)
  {
    PeriodBound(interval);
    TimeoutFromPeriod(Pow2(interval), pfreq);
  }

  /** 2^interval is at most 2^31, and below it unless interval is 31. */
  lemma PeriodBound(interval: nat)
    requires interval < 32
    ensures interval < 31 ==> Pow2(interval) < 0x8000_0000
    ensures interval == 31 ==> Pow2(interval) == 0x8000_0000
  {
    Pow2Values();
    if interval < 31 {
      Pow2Mono(interval, 30);
    }
  }

  /** The doubled quotient `(2 * (period / pfreq)) % 2^32` for a period of at
      most 2^31 cycles: even, never above twice the period, and short of it by
      less than two quotients' worth unless the doubling wraps, which happens
      only for a period of exactly 2^31 at divisor 1. */
  lemma TimeoutFromPeriod(period: nat, pfreq: nat)
    requires pfreq > 0 && period <= 0x8000_0000
    ensures var t := (2 * (period / pfreq)) % U32_MOD;
      && t % 2 == 0 && t * pfreq <= 2 * period
      && ((period < 0x8000_0000 || pfreq > 1) ==> 2 * period < (t + 2) * pfreq)
      && (pfreq == 1 && period == 0x8000_0000 ==> t == 0)
  {
    if pfreq == 1 && period == 0x8000_0000 {
      assert period / pfreq == 0x8000_0000;
    } else {
      DoubledQuotient(period, pfreq);
    }
  }

  /** Twice the quotient fits in 32 bits unless the period is 2^31 at divisor
      1, and it brackets twice the period. */
  lemma DoubledQuotient(period: nat, pfreq: nat)
    requires pfreq > 0 && period <= 0x8000_0000 && (pfreq > 1 || period < 0x8000_0000)
    ensures var q := period / pfreq;
      && (2 * q) % U32_MOD == 2 * q
      && (2 * q) * pfreq <= 2 * period < (2 * q + 2) * pfreq
  {
    var q := period / pfreq;
    DivBounds(period, pfreq);
    if pfreq > 1 {
      HalfBound(q, pfreq, period);
    }
    SmallMod(2 * q);
    DoubleBounds(q, pfreq, period);
  }

  lemma SmallMod(x: int)
    requires 0 <= x < U32_MOD
    ensures x % U32_MOD == x
  {
  }

  lemma DivBounds(n: nat, d: nat)
    requires d > 0
    ensures (n / d) * d <= n < (n / d + 1) * d
  {
    assert n == (n / d) * d + n % d;
  }

  lemma HalfBound(q: nat, f: nat, period: nat)
    requires f >= 2 && q * f <= period <= 0x8000_0000
    ensures 2 * q < U32_MOD
  {
    MulMono(q, 2, f);
  }

  lemma DoubleBounds(q: nat, f: nat, period: nat)
    requires q * f <= period < (q + 1) * f
    ensures (2 * q) * f <= 2 * period < (2 * q + 2) * f
  {
    assert (2 * q) * f == 2 * (q * f);
    assert (2 * q + 2) * f == 2 * ((q + 1) * f);
  }
}
