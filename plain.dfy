/** The plain timebase watchdog variant ("xlnx,xps-timebase-wdt-1.00.a" and
    "1.01.a"): two enable bits split over two control/status registers, a
    keepalive that re-arms through the status bits of CSR0, and the self-test
    that checks, once at probe time, that the free-running timebase counter
    advances. */
module Plain {
  import opened Registers
  import Timing

  /** Register offsets: control/status registers 0 and 1, timebase register. */
  const CSR0: int := 0x0
  const CSR1: int := 0x4
  const TBR: int := 0x8

  /** CSR0 bits, by position (the masks are `BIT(3)`, `BIT(2)` and `BIT(1)`):
      reset status, timer state and the first enable bit. */
  const CSR0_WRS: nat := 3
  const CSR0_WDS: nat := 2
  const CSR0_EWDT1: nat := 1

  /** The second enable bit, bit 0 of CSR1; start writes its mask `BIT(0)`. */
  const CSR1_EWDT2: nat := 0
  const CSR1_EWDT2_MASK: u32 := 1

  /** The self-test polls at most `SELFTEST_LOOP_COUNT + 1` times after its two
      initial reads. */
  const SELFTEST_LOOP_COUNT: nat := 0x1_0000
  /** Index of the last timebase read the self-test can make (reads are
      numbered from 0). */
  const LAST_READ: nat := SELFTEST_LOOP_COUNT + 2
  /** Self-test verdicts: `XWT_TIMER_FAILED` and its complement `~XWT_TIMER_FAILED`. */
  const TIMER_FAILED: u32 := 0xFFFF_FFFF
  const TIMER_PASSED: u32 := 0

  /** The CSR0 value keepalive writes back: `csr0 | WRS | WDS`. */
  function Kicked(csr0: u32): (r: u32)
    ensures BitSet(r, CSR0_WRS) && BitSet(r, CSR0_WDS)
  {
    SetBitKeeps(SetBit(csr0, CSR0_WRS), CSR0_WDS, CSR0_WRS);
    SetBit(SetBit(csr0, CSR0_WRS), CSR0_WDS)
  }

  /** The CSR0 value start writes back: `csr0 | WRS | WDS | EWDT1`. */
  function Enabled(csr0: u32): (r: u32)
    ensures BitSet(r, CSR0_EWDT1) && BitSet(r, CSR0_WRS) && BitSet(r, CSR0_WDS)
  {
    SetBitKeeps(Kicked(csr0), CSR0_EWDT1, CSR0_WRS);
    SetBitKeeps(Kicked(csr0), CSR0_EWDT1, CSR0_WDS);
    SetBit(Kicked(csr0), CSR0_EWDT1)
  }

  /** The CSR0 value stop writes back: `csr0 & ~EWDT1`. */
  function Disabled(csr0: u32): (r: u32)
    ensures !BitSet(r, CSR0_EWDT1)
    ensures r <= csr0
  {
    ClearBit(csr0, CSR0_EWDT1)
  }

  /** Apart from the reset-status and timer-state bits it sets, keepalive
      leaves every CSR0 bit, the enable bit included, as it was. */
  lemma KickKeepsOtherBits(csr0: u32)
    ensures forall n :: n < 32 && n != CSR0_WRS && n != CSR0_WDS ==>
      BitSet(Kicked(csr0), n) == BitSet(csr0, n)
  {
    forall n | n < 32 && n != CSR0_WRS && n != CSR0_WDS
      ensures BitSet(Kicked(csr0), n) == BitSet(csr0, n)
    {
      SetBitKeeps(csr0, CSR0_WRS, n);
      SetBitKeeps(SetBit(csr0, CSR0_WRS), CSR0_WDS, n);
    }
  }

  /** Apart from the first enable bit and the two bits keepalive sets, start
      leaves every CSR0 bit as it was. */
  lemma EnableKeepsOtherBits(csr0: u32)
    ensures forall n :: n < 32 && n != CSR0_WRS && n != CSR0_WDS && n != CSR0_EWDT1 ==>
      BitSet(Enabled(csr0), n) == BitSet(csr0, n)
  {
    KickKeepsOtherBits(csr0);
    forall n | n < 32 && n != CSR0_WRS && n != CSR0_WDS && n != CSR0_EWDT1
      ensures BitSet(Enabled(csr0), n) == BitSet(csr0, n)
    {
      SetBitKeeps(Kicked(csr0), CSR0_EWDT1, n);
    }
  }

  /** Apart from the first enable bit it clears, stop leaves every CSR0 bit as
      it was. */
  lemma DisableKeepsOtherBits(csr0: u32)
    ensures forall n :: n < 32 && n != CSR0_EWDT1 ==> BitSet(Disabled(csr0), n) == BitSet(csr0, n)
  {
    forall n | n < 32 && n != CSR0_EWDT1
      ensures BitSet(Disabled(csr0), n) == BitSet(csr0, n)
    {
      ClearBitKeeps(csr0, CSR0_EWDT1, n);
    }
  }

  /** The mask start writes to CSR1 has the second enable bit set. */
  lemma EnableMaskBit()
    ensures BitSet(CSR1_EWDT2_MASK, CSR1_EWDT2)
  {
  }

  /** Index of the first timebase read at or after `k` that differs from read
      0, or `LAST_READ` when every read up to the last possible one matches. */
  function FirstChange(tbr: nat -> u32, k: nat): (r: nat)
    requires 1 <= k <= LAST_READ
    ensures k <= r <= LAST_READ
    ensures forall j :: k <= j < r ==> tbr(j) == tbr(0)
    ensures r < LAST_READ ==> tbr(r) != tbr(0)
    decreases LAST_READ - k
  {
    if k == LAST_READ || tbr(k) != tbr(0) then k else FirstChange(tbr, k + 1)
  }

  /** The verdict of the self-test when read `k` of the timebase register
      returns `tbr(k)`: it passes exactly when some read after the first, up to
      the last one the loop makes, differs from the first. */
  function SelfTestResult(tbr: nat -> u32): (r: u32)
    ensures r == TIMER_PASSED || r == TIMER_FAILED
    ensures r == TIMER_PASSED <==> exists k :: 1 <= k <= LAST_READ && tbr(k) != tbr(0)
  {
    var c := FirstChange(tbr, 1);
    if tbr(c) != tbr(0) then TIMER_PASSED else TIMER_FAILED
  }

  /** `xwdt_selftest`: read the timebase twice, then keep re-reading while the
      value equals the first one, at most `SELFTEST_LOOP_COUNT + 1` more times.
      `tbr(k)` is the value the k-th read returns (the counter runs on its own
      between reads). Returns the verdict and the number of reads made: the
      loop stops right after the first read that differs, so it never makes
      more than `2 + 0x10001` reads. */
  method SelfTest(tbr: nat -> u32) returns (result: u32, ghost readCount: nat)
    ensures result == SelfTestResult(tbr)
    ensures readCount == FirstChange(tbr, 1) + 1
    ensures 2 <= readCount <= 2 + SELFTEST_LOOP_COUNT + 1
  {
    var timerValue1 := tbr(0);
    var timerValue2 := tbr(1);
    readCount := 2;
    var i := 0;
    while i <= SELFTEST_LOOP_COUNT && timerValue2 == timerValue1
      invariant 0 <= i <= SELFTEST_LOOP_COUNT + 1 && readCount == i + 2
      invariant timerValue1 == tbr(0) && timerValue2 == tbr(readCount - 1)
      invariant FirstChange(tbr, 1) == FirstChange(tbr, readCount - 1)
    {
      timerValue2 := tbr(i + 2);
      readCount := readCount + 1;
      i := i + 1;
    }
    if timerValue2 != timerValue1 {
      result := TIMER_PASSED;
    } else {
      result := TIMER_FAILED;
    }
  }

  /** A timebase that never moves (a stopped or unclocked counter) fails the
      self-test, after the full number of reads. */
  lemma StuckTimebaseFails(tbr: nat -> u32)
    requires forall k :: tbr(k) == tbr(0)
    ensures SelfTestResult(tbr) == TIMER_FAILED
    ensures FirstChange(tbr, 1) + 1 == 2 + SELFTEST_LOOP_COUNT + 1
  {
    var c := FirstChange(tbr, 1);
    assert tbr(c) == tbr(0);
  }

  /** A counter that moved between the first two reads passes at once, after
      exactly two reads. */
  lemma TickingTimebasePasses(tbr: nat -> u32)
    requires tbr(1) != tbr(0)
    ensures SelfTestResult(tbr) == TIMER_PASSED
    ensures FirstChange(tbr, 1) + 1 == 2
  {
  }

  /** A counter that first moves at read `k` (within the bound) passes, and
      the self-test stops right after that read. */
  lemma LateTickPasses(tbr: nat -> u32, k: nat)
    requires 1 <= k <= LAST_READ
    requires forall j :: 1 <= j < k ==> tbr(j) == tbr(0)
    requires tbr(k) != tbr(0)
    ensures SelfTestResult(tbr) == TIMER_PASSED
    ensures FirstChange(tbr, 1) == k
  {
  }

  class PlainWatchdog {
    const block: RegisterBlock
    var timeout: u32
    /** The framework's "watchdog is running" flag; the driver only reads it. */
    var active: bool
    /** Balance of clock enable and disable calls made by the driver. */
    var clkEnables: int

    ghost predicate Valid()
      reads this, block
    {
      block.regs.Keys == {CSR0, CSR1, TBR}
    }

    /** No register was written and the clock was left alone. */
    twostate predicate Quiet()
      reads this, block
    {
      block.regs == old(block.regs) && block.writes == old(block.writes)
      && clkEnables == old(clkEnables)
    }

    /** The plain part of probe: the timeout derived from the interval exponent
        and the clock frequency (left at 0 when either is 0). */
    constructor (block: RegisterBlock, pfreq: u32, interval: u32)
      requires interval < 32
      requires block.regs.Keys == {CSR0, CSR1, TBR}
      ensures this.block == block && Valid()
      ensures timeout == Timing.PlainTimeout(pfreq, interval, 0)
      ensures !active && clkEnables == 0
    {
      this.block := block;
      timeout := Timing.PlainTimeout(pfreq, interval, 0);
      active := false;
      clkEnables := 0;
    }

    /** Enable the clock, then set both enable bits: CSR0 gets the reset-status,
        timer-state and first enable bits, CSR1 the second enable bit. A failed
        clock enable is returned with nothing touched. */
    method Start(clkResult: int) returns (ret: int)
      requires Valid()
      modifies this, block
      ensures Valid() && timeout == old(timeout) && active == old(active)
      ensures clkResult != 0 ==> ret == clkResult && Quiet()
      ensures clkResult == 0 ==>
        var csr0 := Enabled(old(block.regs[CSR0]));
        && ret == 0
        && block.regs == old(block.regs)[CSR0 := csr0][CSR1 := CSR1_EWDT2_MASK]
        && block.writes == old(block.writes) + [RegWrite(CSR0, csr0), RegWrite(CSR1, CSR1_EWDT2_MASK)]
        && clkEnables == old(clkEnables) + 1
        && BitSet(block.regs[CSR0], CSR0_EWDT1) && BitSet(block.regs[CSR1], CSR1_EWDT2)
    {
      ret := clkResult;
      if ret != 0 {
        return;
      }
      clkEnables := clkEnables + 1;
      var csr0 := block.Read32(CSR0);
      csr0 := SetBit(Kicked(csr0), CSR0_EWDT1);
      assert csr0 == Enabled(old(block.regs[CSR0]));
      block.Write32(CSR0, csr0);
      block.Write32(CSR1, CSR1_EWDT2_MASK);
      EnableMaskBit();
    }

    /** Clear both enable bits and release the clock, unconditionally. */
    method Stop() returns (ret: int)
      requires Valid()
      modifies this, block
      ensures Valid() && timeout == old(timeout) && active == old(active) && ret == 0
      ensures block.regs == old(block.regs)[CSR0 := Disabled(old(block.regs[CSR0]))][CSR1 := 0]
      ensures block.writes == old(block.writes) +
        [RegWrite(CSR0, Disabled(old(block.regs[CSR0]))), RegWrite(CSR1, 0)]
      ensures clkEnables == old(clkEnables) - 1
      ensures !BitSet(block.regs[CSR0], CSR0_EWDT1) && !BitSet(block.regs[CSR1], CSR1_EWDT2)
    {
      var csr0 := block.Read32(CSR0);
      block.Write32(CSR0, ClearBit(csr0, CSR0_EWDT1));
      block.Write32(CSR1, 0);
      clkEnables := clkEnables - 1;
      ret := 0;
    }

    /** Re-arm: set the reset-status and timer-state bits of CSR0. */
    method Keepalive() returns (ret: int)
      requires Valid()
      modifies block
      ensures Valid() && ret == 0
      ensures block.regs == old(block.regs)[CSR0 := Kicked(old(block.regs[CSR0]))]
      ensures block.writes == old(block.writes) + [RegWrite(CSR0, Kicked(old(block.regs[CSR0])))]
    {
      var csr0 := block.Read32(CSR0);
      csr0 := Kicked(csr0);
      block.Write32(CSR0, csr0);
      ret := 0;
    }

    /** Power management: stop an active watchdog, always report success. */
    method Suspend() returns (ret: int)
      requires Valid()
      modifies this, block
      ensures Valid() && timeout == old(timeout) && active == old(active) && ret == 0
      ensures !active ==> Quiet()
      ensures active ==>
        && block.regs == old(block.regs)[CSR0 := Disabled(old(block.regs[CSR0]))][CSR1 := 0]
        && block.writes == old(block.writes) +
             [RegWrite(CSR0, Disabled(old(block.regs[CSR0]))), RegWrite(CSR1, 0)]
        && clkEnables == old(clkEnables) - 1
        && !BitSet(block.regs[CSR0], CSR0_EWDT1) && !BitSet(block.regs[CSR1], CSR1_EWDT2)
    {
      if active {
        var stopped := Stop();
      }
      ret := 0;
    }

    /** Power management: restart an active watchdog and pass on the result.
        The plain start always enables the clock, so a suspend and resume pair
        leaves the enable balance where it was. */
    method Resume(clkResult: int) returns (ret: int)
      requires Valid()
      modifies this, block
      ensures Valid() && timeout == old(timeout) && active == old(active)
      ensures !active ==> ret == 0 && Quiet()
      ensures active && clkResult != 0 ==> ret == clkResult && Quiet()
      ensures active && clkResult == 0 ==>
        && ret == 0
        && block.regs == old(block.regs)[CSR0 := Enabled(old(block.regs[CSR0]))][CSR1 := CSR1_EWDT2_MASK]
        && block.writes == old(block.writes) +
             [RegWrite(CSR0, Enabled(old(block.regs[CSR0]))), RegWrite(CSR1, CSR1_EWDT2_MASK)]
        && clkEnables == old(clkEnables) + 1
        && BitSet(block.regs[CSR0], CSR0_EWDT1) && BitSet(block.regs[CSR1], CSR1_EWDT2)
    {
      ret := 0;
      if active {
        ret := Start(clkResult);
      }
    }
  }
}
