/** The window watchdog variant ("xlnx,versal-wwdt-1.0"): a refresh period split
    into a First Window and a Second Window, a window gate read from the
    Enable/Status register, and the start/stop/keepalive/set_timeout/
    set_pretimeout operations together with the suspend and resume hooks. */
module Window {
  import opened Registers
  import Timing

  /** Register offsets. */
  const MWR: int := 0x00
  const ESR: int := 0x04
  const FCR: int := 0x08
  const FWR: int := 0x0c
  const SWR: int := 0x10

  /** Master Write Control: must be set before the other registers are written. */
  const MWR_MASK: u32 := 1

  /** Enable/Status bits, by position (the masks are `BIT(16)`, `BIT(8)` and
      `BIT(0)`): pretimeout interrupt, window switch, enable. */
  const ESR_WINT: nat := 16
  const ESR_WSW: nat := 8
  const ESR_WEN: nat := 0

  /** `~(u32)WEN`, the value written to disable the watchdog. */
  const ESR_DISABLE: u32 := 0xFFFF_FFFE

  const DEFAULT_TIMEOUT: u32 := 10
  const MIN_TIMEOUT: u32 := 1

  /** The window gate on an Enable/Status value. 0 means "reject": stop,
      set_timeout and set_pretimeout fail and keepalive does nothing. That happens
      exactly when the watchdog is enabled and the window-switch bit is still
      clear; a disabled watchdog always passes. */
  function InClosedWindow(esr: u32): (r: int)
    ensures r == 0 <==> BitSet(esr, ESR_WEN) && !BitSet(esr, ESR_WSW)
    ensures r == 1 <==> !BitSet(esr, ESR_WEN) || BitSet(esr, ESR_WSW)
  {
    if BitSet(esr, ESR_WEN) then
      if !BitSet(esr, ESR_WSW) then 0 else 1
    else
      1
  }

  /** The error code of the start sequence: an unknown (zero) clock rate is
      rejected, then a failed clock enable is passed on; the clock is enabled
      only when the watchdog is not already active. */
  function StartStatus(rate: u64, active: bool, clkResult: int): (s: int)
    ensures s == 0 <==> rate != 0 && (active || clkResult == 0)
    ensures rate == 0 ==> s == -EINVAL
    ensures rate != 0 && s != 0 ==> s == clkResult
  {
    if rate == 0 then -EINVAL
    else if !active && clkResult != 0 then clkResult
    else 0
  }

  /** The register image the start sequence leaves behind, register by register
      in the order they are written: MWR set, the three window registers holding
      the programmed counts, ESR with every bit set (so the watchdog is enabled
      and the gate passes) and every other register as it was. */
  function Armed(regs: map<int, u32>, p: Timing.WindowProgram): (a: map<int, u32>)
    ensures a.Keys == regs.Keys + {MWR, ESR, FWR, SWR, FCR}
    ensures a[MWR] == MWR_MASK && a[ESR] == U32_MAX
    ensures a[FWR] == p.first && a[SWR] == p.second && a[FCR] == p.Fcr()
    ensures forall k :: k in regs && k !in {MWR, ESR, FWR, SWR, FCR} ==> a[k] == regs[k]
    ensures BitSet(a[ESR], ESR_WEN) && InClosedWindow(a[ESR]) == 1
  {
    EnableBits();
    regs[MWR := MWR_MASK][ESR := ESR_DISABLE]
        [FWR := p.first][SWR := p.second][FCR := p.Fcr()]
        [ESR := SetBit(ESR_DISABLE, ESR_WEN)]
  }

  /** The writes of the start sequence, in order: master write enable first,
      then the disable, the three window registers while the watchdog is
      disabled, and the enable last, which leaves every ESR bit set. */
  function ArmWrites(p: Timing.WindowProgram): (w: seq<RegWrite>)
    ensures |w| == 6
    ensures w[0] == RegWrite(MWR, MWR_MASK) && w[1] == RegWrite(ESR, ESR_DISABLE)
    ensures w[|w| - 1] == RegWrite(ESR, U32_MAX)
    ensures forall i :: 1 < i < |w| - 1 ==> w[i].offset in {FWR, SWR, FCR}
  {
    EnableBits();
    [RegWrite(MWR, MWR_MASK), RegWrite(ESR, ESR_DISABLE),
     RegWrite(FWR, p.first), RegWrite(SWR, p.second), RegWrite(FCR, p.Fcr()),
     RegWrite(ESR, SetBit(ESR_DISABLE, ESR_WEN))]
  }

  /** The register image and the write trace of the start sequence agree:
      replaying the writes in order yields the image. */
  lemma ArmReplay(regs: map<int, u32>, p: Timing.WindowProgram)
    ensures Replay(regs, ArmWrites(p)) == Armed(regs, p)
  {
    var w := ArmWrites(p);
    var r1 := regs[MWR := MWR_MASK];
    var r2 := r1[ESR := ESR_DISABLE];
    var r3 := r2[FWR := p.first];
    var r4 := r3[SWR := p.second];
    var r5 := r4[FCR := p.Fcr()];
    var r6 := r5[ESR := SetBit(ESR_DISABLE, ESR_WEN)];
    assert Replay(r6, w[6..]) == r6;
    assert Replay(r5, w[5..]) == Replay(r6, w[6..]);
    assert Replay(r4, w[4..]) == Replay(r5, w[5..]);
    assert Replay(r3, w[3..]) == Replay(r4, w[4..]);
    assert Replay(r2, w[2..]) == Replay(r3, w[3..]);
    assert Replay(r1, w[1..]) == Replay(r2, w[2..]);
    assert Replay(regs, w) == Replay(r1, w[1..]);
  }

  /** The window-programming part of the start sequence. With a pretimeout the
      First and Second Window counts are written and the Function-Control value
      is packed from the Second Window count read back; without one FWR gets the
      (zero) pretimeout count, SWR the whole timeout, and FCR is cleared. */
  method WriteWindows(block: RegisterBlock, p: Timing.WindowProgram)
    requires FWR in block.regs && SWR in block.regs && FCR in block.regs
    modifies block
    ensures block.regs == old(block.regs)[FWR := p.first][SWR := p.second][FCR := p.Fcr()]
    ensures block.writes == old(block.writes) +
      [RegWrite(FWR, p.first), RegWrite(SWR, p.second), RegWrite(FCR, p.Fcr())]
  {
    if p.packed {
      block.Write32(FWR, p.first);
      block.Write32(SWR, p.second);
      var fcr := block.Read32(SWR);
      fcr := Timing.FunctionControl(fcr);
      block.Write32(FCR, fcr);
    } else {
      block.Write32(FWR, p.first);
      block.Write32(SWR, p.second);
      block.Write32(FCR, 0);
    }
  }

  /** The register part of the start sequence: master write enable, disable,
      program the windows, then read ESR back and set the enable bit. */
  method Arm(block: RegisterBlock, p: Timing.WindowProgram)
    requires block.regs.Keys == {MWR, ESR, FCR, FWR, SWR}
    modifies block
    ensures block.regs == Armed(old(block.regs), p)
    ensures block.writes == old(block.writes) + ArmWrites(p)
  {
    block.Write32(MWR, MWR_MASK);
    block.Write32(ESR, ESR_DISABLE);
    WriteWindows(block, p);
    var esr := block.Read32(ESR);
    esr := SetBit(esr, ESR_WEN);
    block.Write32(ESR, esr);
  }

  /** The ESR value a refresh leaves behind, `esr | WINT | WSW`: both bits set,
      so the gate always passes afterwards. */
  function Refreshed(esr: u32): (r: u32)
    ensures BitSet(r, ESR_WINT) && BitSet(r, ESR_WSW)
    ensures InClosedWindow(r) == 1
  {
    SetBitKeeps(SetBit(esr, ESR_WINT), ESR_WSW, ESR_WINT);
    SetBit(SetBit(esr, ESR_WINT), ESR_WSW)
  }

  /** The two read-modify-write steps of a refresh (set WINT and clear WSW, then
      set WSW) add up to `Refreshed`. */
  lemma RefreshSteps(esr: u32)
    ensures SetBit(ClearBit(SetBit(esr, ESR_WINT), ESR_WSW), ESR_WSW) == Refreshed(esr)
  {
    SetAfterClear(SetBit(esr, ESR_WINT), ESR_WSW);
  }

  /** Apart from the pretimeout-interrupt and window-switch bits it sets, a
      refresh leaves every ESR bit, the enable bit included, as it was. */
  lemma RefreshKeepsOtherBits(esr: u32)
    ensures forall n :: n < 32 && n != ESR_WINT && n != ESR_WSW ==>
      BitSet(Refreshed(esr), n) == BitSet(esr, n)
  {
    forall n | n < 32 && n != ESR_WINT && n != ESR_WSW
      ensures BitSet(Refreshed(esr), n) == BitSet(esr, n)
    {
      SetBitKeeps(esr, ESR_WINT, n);
      SetBitKeeps(SetBit(esr, ESR_WINT), ESR_WSW, n);
    }
  }

  /** `~WEN` has the enable bit clear and every other bit set: the disable
      write sets the window-switch bit along with the rest, and the gate passes
      afterwards because the enable bit is clear. */
  lemma DisableValue()
    ensures !BitSet(ESR_DISABLE, ESR_WEN)
    ensures forall n :: 0 < n < 32 ==> BitSet(ESR_DISABLE, n)
  {
    assert ESR_DISABLE == ClearBit(U32_MAX, ESR_WEN) by {
      AllOnes(ESR_WEN);
    }
    forall n | 0 < n < 32
      ensures BitSet(ESR_DISABLE, n)
    {
      AllOnes(n);
      ClearBitKeeps(U32_MAX, ESR_WEN, n);
    }
  }

  /** The disable write clears WEN (the gate then passes), and enabling on top
      of it leaves every ESR bit set. */
  lemma EnableBits()
    ensures !BitSet(ESR_DISABLE, ESR_WEN) && InClosedWindow(ESR_DISABLE) == 1
    ensures SetBit(ESR_DISABLE, ESR_WEN) == U32_MAX
    ensures BitSet(U32_MAX, ESR_WEN) && InClosedWindow(U32_MAX) == 1
  {
    Pow2Values();
  }

  class WindowWatchdog {
    const block: RegisterBlock
    var timeout: u32
    var pretimeout: u32
    var minTimeout: u32
    var maxTimeout: u32
    /** The framework's "watchdog is running" flag; the driver only reads it. */
    var active: bool
    /** Balance of clock enable and disable calls made by the driver. */
    var clkEnables: int

    ghost predicate Valid()
      reads this, block
    {
      block.regs.Keys == {MWR, ESR, FCR, FWR, SWR}
    }

    /** The gate as read from the device right now. */
    function Gate(): int
      reads this, block
      requires Valid()
    {
      InClosedWindow(block.regs[ESR])
    }

    /** No register was written and the clock was left alone. */
    twostate predicate Quiet()
      reads this, block
    {
      block.regs == old(block.regs) && block.writes == old(block.writes)
      && clkEnables == old(clkEnables)
    }

    /** The timeout limits and the active flag did not change. */
    twostate predicate LimitsKept()
      reads this
    {
      minTimeout == old(minTimeout) && maxTimeout == old(maxTimeout) && active == old(active)
    }

    /** The hardware state after the start sequence ran from the old state with
        the current timeout and pretimeout. */
    twostate predicate Restarted(rate: u64, clkResult: int)
      reads this, block
    {
      if StartStatus(rate, active, clkResult) != 0 then Quiet()
      else
        var p := Timing.Program(rate, timeout, pretimeout);
        && block.regs == Armed(old(block.regs), p)
        && block.writes == old(block.writes) + ArmWrites(p)
        && clkEnables == old(clkEnables) + (if active then 0 else 1)
    }

    /** The window part of probe: default timeout, minimum 1 s, maximum the
        largest timeout whose cycle count fits in 32 bits at `pfreq`, and the
        pretimeout from the device description. */
    constructor (block: RegisterBlock, pfreq: u32, pretimeoutSec: u32)
      requires pfreq > 0
      requires block.regs.Keys == {MWR, ESR, FCR, FWR, SWR}
      ensures this.block == block && Valid()
      ensures timeout == DEFAULT_TIMEOUT && pretimeout == pretimeoutSec
      ensures minTimeout == MIN_TIMEOUT && maxTimeout == Timing.MaxTimeout(pfreq)
      ensures !active && clkEnables == 0
    {
      this.block := block;
      pretimeout := pretimeoutSec;
      timeout := DEFAULT_TIMEOUT;
      minTimeout := MIN_TIMEOUT;
      maxTimeout := Timing.MaxTimeout(pfreq);
      active := false;
      clkEnables := 0;
    }

    /** Program the windows from the clock rate and enable the watchdog. Fails
        before touching anything when the rate is 0 or the clock cannot be
        enabled; always leaves the gate open and the enable bit set otherwise. */
    method Start(rate: u64, clkResult: int) returns (ret: int)
      requires Valid()
      modifies this, block
      ensures Valid() && LimitsKept()
      ensures timeout == old(timeout) && pretimeout == old(pretimeout)
      ensures ret == StartStatus(rate, active, clkResult)
      ensures Restarted(rate, clkResult)
      ensures ret == 0 ==> BitSet(block.regs[ESR], ESR_WEN) && Gate() == 1
    {
      var count := rate;
      if count == 0 {
        return -EINVAL;
      }
      var p := Timing.Program(count, timeout, pretimeout);
      if !active {
        ret := clkResult;
        if ret != 0 {
          return;
        }
        clkEnables := clkEnables + 1;
      }
      Arm(block, p);
      ret := 0;
    }

    /** Disable the watchdog. Rejected, with nothing touched, when the gate reads
        0; otherwise ESR becomes ~WEN and the clock is released if the watchdog
        was active. */
    method Stop() returns (ret: int)
      requires Valid()
      modifies this, block
      ensures Valid() && LimitsKept()
      ensures timeout == old(timeout) && pretimeout == old(pretimeout)
      ensures old(Gate()) == 0 ==> ret == -EINVAL && Quiet()
      ensures old(Gate()) == 1 ==>
        && ret == 0
        && block.regs == old(block.regs)[MWR := MWR_MASK][ESR := ESR_DISABLE]
        && block.writes == old(block.writes) + [RegWrite(MWR, MWR_MASK), RegWrite(ESR, ESR_DISABLE)]
        && clkEnables == old(clkEnables) - (if active then 1 else 0)
        && !BitSet(block.regs[ESR], ESR_WEN) && Gate() == 1
    {
      if InClosedWindow(block.Read32(ESR)) == 0 {
        return -EINVAL;
      }
      block.Write32(MWR, MWR_MASK);
      block.Write32(ESR, ESR_DISABLE);
      if active {
        clkEnables := clkEnables - 1;
      }
      EnableBits();
      ret := 0;
    }

    /** Refresh. A silent no-op when the gate reads 0; otherwise the pretimeout
        interrupt and window-switch bits are set in ESR and every other ESR bit
        is kept. */
    method Keepalive() returns (ret: int)
      requires Valid()
      modifies this, block
      ensures Valid() && LimitsKept() && ret == 0
      ensures timeout == old(timeout) && pretimeout == old(pretimeout)
      ensures clkEnables == old(clkEnables)
      ensures old(Gate()) == 0 ==> Quiet()
      ensures old(Gate()) == 1 ==>
        var esr := old(block.regs[ESR]);
        && block.regs == old(block.regs)[MWR := MWR_MASK][ESR := Refreshed(esr)]
        && block.writes == old(block.writes) + [RegWrite(MWR, MWR_MASK),
             RegWrite(ESR, ClearBit(SetBit(esr, ESR_WINT), ESR_WSW)), RegWrite(ESR, Refreshed(esr))]
        && Gate() == 1
    {
      if InClosedWindow(block.Read32(ESR)) == 0 {
        return 0;
      }
      block.Write32(MWR, MWR_MASK);
      var esr := block.Read32(ESR);
      esr := SetBit(esr, ESR_WINT);
      esr := ClearBit(esr, ESR_WSW);
      block.Write32(ESR, esr);
      esr := block.Read32(ESR);
      esr := SetBit(esr, ESR_WSW);
      block.Write32(ESR, esr);
      RefreshSteps(old(block.regs[ESR]));
      ret := 0;
    }

    /** Change the timeout. Rejected with nothing changed when the gate reads 0 or
        the value is outside [minTimeout, maxTimeout]; otherwise the timeout is
        committed, the pretimeout cleared and, if the watchdog is active, the
        start sequence re-run. Success is reported even when that start fails. */
    method SetTimeout(newTime: u32, rate: u64, clkResult: int) returns (ret: int)
      requires Valid()
      modifies this, block
      ensures Valid() && LimitsKept()
      ensures old(Gate()) == 0 || newTime < minTimeout || newTime > maxTimeout ==>
        && ret == -EINVAL && Quiet()
        && timeout == old(timeout) && pretimeout == old(pretimeout)
      ensures old(Gate()) == 1 && minTimeout <= newTime <= maxTimeout ==>
        && ret == 0 && timeout == newTime && pretimeout == 0
        && (if active then Restarted(rate, clkResult) else Quiet())
    {
      if InClosedWindow(block.Read32(ESR)) == 0 {
        return -EINVAL;
      }
      if newTime < minTimeout || newTime > maxTimeout {
        return -EINVAL;
      }
      timeout := newTime;
      pretimeout := 0;
      if active {
        var started := Start(rate, clkResult);
      }
      ret := 0;
    }

    /** Change the pretimeout. Rejected with nothing changed when the gate reads 0
        or the value is outside [minTimeout, timeout); otherwise only the
        pretimeout is committed and, if active, the start sequence re-run. Success
        is reported even when that start fails. */
    method SetPretimeout(newPretimeout: u32, rate: u64, clkResult: int) returns (ret: int)
      requires Valid()
      modifies this, block
      ensures Valid() && LimitsKept() && timeout == old(timeout)
      ensures old(Gate()) == 0 || newPretimeout < minTimeout || newPretimeout >= timeout ==>
        && ret == -EINVAL && Quiet() && pretimeout == old(pretimeout)
      ensures old(Gate()) == 1 && minTimeout <= newPretimeout < timeout ==>
        && ret == 0 && pretimeout == newPretimeout
        && (if active then Restarted(rate, clkResult) else Quiet())
    {
      if InClosedWindow(block.Read32(ESR)) == 0 {
        return -EINVAL;
      }
      if newPretimeout < minTimeout || newPretimeout >= timeout {
        return -EINVAL;
      }
      pretimeout := newPretimeout;
      if active {
        var started := Start(rate, clkResult);
      }
      ret := 0;
    }

    /** Power management: stop an active watchdog and report success whatever
        stop returned, so a watchdog whose gate rejects the stop stays enabled. */
    method Suspend() returns (ret: int)
      requires Valid()
      modifies this, block
      ensures Valid() && LimitsKept() && ret == 0
      ensures timeout == old(timeout) && pretimeout == old(pretimeout)
      ensures !active || old(Gate()) == 0 ==> Quiet()
      ensures active && old(Gate()) == 0 ==> BitSet(block.regs[ESR], ESR_WEN)
      ensures active && old(Gate()) == 1 ==>
        && block.regs == old(block.regs)[MWR := MWR_MASK][ESR := ESR_DISABLE]
        && block.writes == old(block.writes) + [RegWrite(MWR, MWR_MASK), RegWrite(ESR, ESR_DISABLE)]
        && clkEnables == old(clkEnables) - 1
        && !BitSet(block.regs[ESR], ESR_WEN)
    {
      if active {
        var stopped := Stop();
      }
      ret := 0;
    }

    /** Power management: re-run the start sequence for an active watchdog and
        pass its result on. Since the watchdog is active, start does not enable
        the clock, so the enable balance is never raised here. */
    method Resume(rate: u64, clkResult: int) returns (ret: int)
      requires Valid()
      modifies this, block
      ensures Valid() && LimitsKept()
      ensures timeout == old(timeout) && pretimeout == old(pretimeout)
      ensures clkEnables == old(clkEnables)
      ensures !active ==> ret == 0 && Quiet()
      ensures active ==> ret == StartStatus(rate, true, clkResult) && Restarted(rate, clkResult)
    {
      ret := 0;
      if active {
        ret := Start(rate, clkResult);
      }
    }
  }
}
