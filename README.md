# Xilinx timebase and window watchdog driver — Dafny model

This project models the control core of the Linux driver for the Xilinx
watchdog timers (`drivers/watchdog/of_xilinx_wdt.c`). The driver serves two IP
variants:

- the **plain timebase watchdog** ("xlnx,xps-timebase-wdt-1.00.a" / "1.01.a").
  Two enable bits are split over control/status registers CSR0 and CSR1, and
  a free-running timebase register TBR is checked once at probe time by a
  self-test;
- the **window watchdog** ("xlnx,versal-wwdt-1.0"). A refresh period is split
  into a First Window and a Second Window, programmed in clock cycles into FWR
  and SWR. The Function-Control register FCR is packed from the Second Window
  count, and a gate read from the Enable/Status register ESR decides whether
  stop, keepalive and the timeout setters may act.

Files:

- `registers.dfy` (module `Registers`):
  - `u32`/`u64`, and single-bit set/clear (`x | BIT(n)`, `x & ~BIT(n)`) on 32-bit values;
  - proofs that these touch only the named bit;
  - the register block, a class over a map from offset to value, with a ghost
    trace of every `iowrite32` in order.
- `timing.dfy` (module `Timing`): the pure arithmetic.
  - Seconds to cycles in 64-bit unsigned arithmetic, then truncated to 32 bits
    for the window registers.
  - The FCR packing.
  - `max_timeout = U32_MAX / pfreq`.
  - The plain variant's timeout `2 * ((1 << interval) / pfreq)`.
- `window.dfy` (module `Window`): the gate function, the start sequence's
  register image, and the `WindowWatchdog` class with start, stop, keepalive,
  set_timeout, set_pretimeout, suspend and resume.
- `plain.dfy` (module `Plain`): the CSR0 bit updates, the self-test loop with
  its specification, and the `PlainWatchdog` class with start, stop,
  keepalive, suspend and resume.

Modelling choices:

- **Register values.** They are integers in `[0, 2^32)`. Bits are named by
  position, and the source's masks are `BIT(n)`. Registers behave as plain
  memory: a read returns the last value written.
- **The gate.** `Window.InClosedWindow` follows the code. It returns 0, which
  means reject, exactly when the enable bit WEN (bit 0) is set and the
  window-switch bit WSW (bit 8) is clear. A disabled watchdog always passes.
  The driver's own warning calls the rejected phase the "closed window".
- **Clock calls.** `clk_get_rate` is the `rate` parameter and the outcome of
  `clk_enable` is the `clkResult` parameter. Enable and disable calls are
  counted in `clkEnables`.
- **The framework's flag.** `watchdog_active` is the field `active`. The
  driver only reads it.

Behaviour of the code that the contracts make visible:

- Window `Suspend` reports 0 even when the gate rejects the stop. In that
  case the watchdog stays enabled.
- For an active window watchdog whose gate passes, `Suspend` releases the
  clock once. `Resume` then runs start with `active` still set, so start does
  not enable the clock again. The pair leaves the enable balance one lower.
  The plain variant's pair is balanced.
- `set_timeout` and `set_pretimeout` return 0 once validation has passed, even
  when the re-run start fails.
- The window start programs from the current clock rate, not from the
  frequency `max_timeout` was computed from. `Timing.WindowsCoverTimeout`
  holds for every rate. Both cycle counts are exact at the probe frequency
  (`Timing.ExactProgram`) and, more generally, whenever the total cycle count
  fits in 32 bits (`Timing.FittingProgram`).

## Model

| member | source | states |
|---|---|---|
| `Registers.SetBit` | drivers/watchdog/of_xilinx_wdt.c:239 | `x \| BIT(n)` on a 32-bit value sets bit n; it adds 2^n when the bit was clear and is the identity when it was set, and never overflows 32 bits |
| `Registers.ClearBit` | drivers/watchdog/of_xilinx_wdt.c:290 | `x & ~BIT(n)` clears bit n; it subtracts 2^n when the bit was set and is the identity otherwise |
| `Registers.SetBitKeeps` | drivers/watchdog/of_xilinx_wdt.c:289 | setting bit m leaves every other bit 0..31 as it was |
| `Registers.ClearBitKeeps` | drivers/watchdog/of_xilinx_wdt.c:137 | clearing bit m leaves every other bit 0..31 as it was |
| `Registers.SetAfterClear` | drivers/watchdog/of_xilinx_wdt.c:290-293 | clearing a bit and then setting it again gives the same value as setting it |
| `Registers.AllOnes` | drivers/watchdog/of_xilinx_wdt.c:219 | every bit of 0xFFFF_FFFF is set, which is what `~(u32)WEN` is derived from |
| `Registers.RegisterBlock.Write32` | drivers/watchdog/of_xilinx_wdt.c:218 | a 32-bit register write replaces that register's value and appends the write to the trace; a following `Read32` (`ioread32`) returns the value written |
| `Registers.ReplayAppend` | drivers/watchdog/of_xilinx_wdt.c:218-240 | replaying a trace with one more write changes the replayed image at that write's register only, so an image kept in step with the trace stays in step after every `Write32` |
| `Timing.FunctionControl` | drivers/watchdog/of_xilinx_wdt.c:226-229 | the FCR value holds SWR bits 31:24 in bits 15:8 and 0xC0 in bits 7:0, and nothing above bit 15 |
| `Timing.WindowProgram.Fcr` | drivers/watchdog/of_xilinx_wdt.c:226-234 | FCR is 0 without a pretimeout; with one it carries SWR bits 31:24 in bits 15:8 and 0xC0 in bits 7:0, and it never exceeds 16 bits |
| `Timing.Cycles` | drivers/watchdog/of_xilinx_wdt.c:207-208 | the 64-bit product `count * seconds` is exact whenever it fits in 64 bits, and its low 32 bits always equal those of the true product |
| `Timing.Program` | drivers/watchdog/of_xilinx_wdt.c:207-235 | FCR is packed exactly when the 64-bit pretimeout cycle count is non-zero. Then SWR is rate × pretimeout and FWR is rate × (timeout − pretimeout), both modulo 2^32; otherwise FWR is 0 and SWR is rate × timeout modulo 2^32 |
| `Timing.WindowsCoverTimeout` | drivers/watchdog/of_xilinx_wdt.c:207-235 | for every rate, timeout and pretimeout, FWR + SWR equals rate × timeout modulo 2^32 |
| `Timing.MaxTimeout` | drivers/watchdog/of_xilinx_wdt.c:552 | `U32_MAX / pfreq` is the largest m with pfreq × m ≤ U32_MAX |
| `Timing.WithinMaxTimeout` | drivers/watchdog/of_xilinx_wdt.c:545-552 | a timeout is at most `max_timeout` iff its cycle count at pfreq fits in 32 bits |
| `Timing.ExactCycles` | drivers/watchdog/of_xilinx_wdt.c:207-208 | at the probe frequency, with T ≤ max_timeout and P ≤ T, both 64-bit products are exact and fit in 32 bits, and the pretimeout product is zero iff P is |
| `Timing.FittingProgram` | drivers/watchdog/of_xilinx_wdt.c:222-235 | when the total cycle count fits in 32 bits and the pretimeout count does not exceed it, the u32 casts truncate nothing |
| `Timing.ExactProgram` | drivers/watchdog/of_xilinx_wdt.c:222-235 | at the probe frequency, with T ≤ max_timeout and P ≤ T: FWR = f(T−P), SWR = fP, FWR + SWR = fT, and the FCR branch is taken iff P > 0 |
| `Timing.ScenarioNoPretimeout` | drivers/watchdog/of_xilinx_wdt.c:230-234 | at 100 MHz, 10 s and no pretimeout: FWR 0, SWR 1 000 000 000, FCR 0 |
| `Timing.ScenarioPretimeout` | drivers/watchdog/of_xilinx_wdt.c:222-229 | at 100 MHz, 10 s and a 2 s pretimeout: FWR 800 000 000, SWR 200 000 000, FCR 0x0BC0 |
| `Timing.PlainTimeout` | drivers/watchdog/of_xilinx_wdt.c:537-540 | the timeout is set only when pfreq and interval are both non-zero. It is even and never exceeds the real period 2·2^interval/pfreq. It falls short of that period by less than two seconds unless the doubling wraps, which happens only at interval 31 and 1 Hz, where it is 0 |
| `Timing.PlainTimeoutBounds` | drivers/watchdog/of_xilinx_wdt.c:538-540 | the bounds above for `(2 * ((1 << interval) / pfreq)) % 2^32` |
| `Timing.TimeoutFromPeriod` | drivers/watchdog/of_xilinx_wdt.c:538-540 | the same bounds for any period of at most 2^31 cycles, with wrap-around only at a period of exactly 2^31 and divisor 1 |
| `Window.InClosedWindow` | drivers/watchdog/of_xilinx_wdt.c:181-192 | the gate returns 0 iff WEN is set and WSW is clear, and returns 1 otherwise |
| `Window.StartStatus` | drivers/watchdog/of_xilinx_wdt.c:202-215 | start succeeds iff the rate is non-zero and the clock enable succeeds or is skipped because the watchdog is active. Rate 0 gives −EINVAL and otherwise the clock error is passed on |
| `Window.Armed` | drivers/watchdog/of_xilinx_wdt.c:218-240 | after the start sequence, MWR is 1, FWR/SWR/FCR hold the programmed values and ESR is 0xFFFF_FFFF, so WEN is set and the gate passes; other registers are untouched |
| `Window.ArmWrites` | drivers/watchdog/of_xilinx_wdt.c:218-240 | the start sequence makes six writes: MWR := 1 first, ESR := ~WEN second, then only FWR, SWR and FCR, and ESR := 0xFFFF_FFFF last |
| `Window.ArmReplay` | drivers/watchdog/of_xilinx_wdt.c:218-240 | replaying the six writes of the start sequence in order yields exactly the armed register image |
| `Window.WriteWindows` | drivers/watchdog/of_xilinx_wdt.c:222-235 | both branches write FWR, SWR and FCR in that order with the program's values. FCR is packed from the SWR value read back |
| `Window.Arm` | drivers/watchdog/of_xilinx_wdt.c:218-240 | the register part of start leaves exactly the `Armed` image and makes exactly the six writes of `ArmWrites`, in order |
| `Window.Refreshed` | drivers/watchdog/of_xilinx_wdt.c:288-294 | the ESR value after a refresh has WINT and WSW set, so the gate always passes afterwards |
| `Window.RefreshSteps` | drivers/watchdog/of_xilinx_wdt.c:288-294 | the two read-modify-writes of keepalive leave ESR = old \| WINT \| WSW |
| `Window.RefreshKeepsOtherBits` | drivers/watchdog/of_xilinx_wdt.c:288-294 | apart from WINT and WSW, a refresh leaves every ESR bit, WEN included, as it was |
| `Window.DisableValue` | drivers/watchdog/of_xilinx_wdt.c:263-264 | `~(u32)WEN` has WEN clear and every other bit set |
| `Window.EnableBits` | drivers/watchdog/of_xilinx_wdt.c:238-240 | the disable value passes the gate, and setting WEN on it gives 0xFFFF_FFFF, which is enabled and passes the gate |
| `Window.WindowWatchdog.constructor` | drivers/watchdog/of_xilinx_wdt.c:541-552 | the window probe sets the pretimeout from the device description, timeout 10, min_timeout 1 and max_timeout = U32_MAX / pfreq |
| `Window.WindowWatchdog.Start` | drivers/watchdog/of_xilinx_wdt.c:194-247 | rate 0 returns −EINVAL with nothing changed. Otherwise a failed clock enable, attempted only when inactive, is returned with nothing changed. Otherwise the registers become the armed image, the clock is enabled once if the watchdog was inactive, and WEN is set with the gate passing |
| `Window.WindowWatchdog.Stop` | drivers/watchdog/of_xilinx_wdt.c:249-274 | a rejecting gate returns −EINVAL with nothing changed. Otherwise MWR := 1 and ESR := ~WEN are written, WEN ends clear, and the clock is released iff the watchdog was active |
| `Window.WindowWatchdog.Keepalive` | drivers/watchdog/of_xilinx_wdt.c:276-299 | always returns 0. With a rejecting gate nothing changes. Otherwise MWR := 1, then ESR goes through old\|WINT with WSW clear and ends at old\|WINT\|WSW, and the gate passes |
| `Window.WindowWatchdog.SetTimeout` | drivers/watchdog/of_xilinx_wdt.c:301-332 | a rejecting gate, or a value outside [min, max], returns −EINVAL with no field or register changed. Otherwise timeout := new and pretimeout := 0, start is re-run only if active, and 0 is returned even if that start fails |
| `Window.WindowWatchdog.SetPretimeout` | drivers/watchdog/of_xilinx_wdt.c:334-359 | a rejecting gate, or a value outside [min_timeout, timeout), returns −EINVAL with nothing changed. Otherwise only the pretimeout is set, start is re-run only if active, and 0 is returned |
| `Window.WindowWatchdog.Suspend` | drivers/watchdog/of_xilinx_wdt.c:599-608 | always returns 0. Stop runs only if active; when its gate passes, MWR := 1 and ESR := ~WEN are written in that order, WEN ends clear and the clock is released once; when its gate rejects, nothing is written and WEN stays set |
| `Window.WindowWatchdog.Resume` | drivers/watchdog/of_xilinx_wdt.c:616-626 | start runs only if active and its result is returned; the clock balance never changes, because start sees `active` |
| `Plain.Kicked` | drivers/watchdog/of_xilinx_wdt.c:158-160 | keepalive's `csr0 \| WRS \| WDS` has both bits set |
| `Plain.Enabled` | drivers/watchdog/of_xilinx_wdt.c:113-117 | start's CSR0 value has EWDT1, WRS and WDS set |
| `Plain.Disabled` | drivers/watchdog/of_xilinx_wdt.c:135-138 | stop's `csr0 & ~EWDT1` has EWDT1 clear and is never larger than the value read |
| `Plain.KickKeepsOtherBits` | drivers/watchdog/of_xilinx_wdt.c:157-160 | apart from WRS and WDS, keepalive keeps every CSR0 bit, EWDT1 included |
| `Plain.EnableKeepsOtherBits` | drivers/watchdog/of_xilinx_wdt.c:113-117 | apart from WRS, WDS and EWDT1, start keeps every CSR0 bit |
| `Plain.DisableKeepsOtherBits` | drivers/watchdog/of_xilinx_wdt.c:135-138 | apart from EWDT1, stop keeps every CSR0 bit |
| `Plain.FirstChange` | drivers/watchdog/of_xilinx_wdt.c:403-409 | the first timebase read after read 0 that differs from it, within the loop's last possible read. Every read before it equals read 0 |
| `Plain.SelfTestResult` | drivers/watchdog/of_xilinx_wdt.c:413-417 | the self-test passes (0) iff some read up to the last one differs from the first, and otherwise fails with 0xFFFF_FFFF |
| `Plain.SelfTest` | drivers/watchdog/of_xilinx_wdt.c:395-418 | the loop returns the specified verdict, stops right after the first differing read, and makes between 2 and 2 + 0x10001 reads |
| `Plain.StuckTimebaseFails` | drivers/watchdog/of_xilinx_wdt.c:403-417 | a timebase that never changes fails, after the full 2 + 0x10001 reads |
| `Plain.TickingTimebasePasses` | drivers/watchdog/of_xilinx_wdt.c:403-414 | a counter that moved between the first two reads passes after exactly two reads |
| `Plain.LateTickPasses` | drivers/watchdog/of_xilinx_wdt.c:403-417 | a counter that first moves at read k, within the bound, passes, and the loop stops at read k |
| `Plain.PlainWatchdog.constructor` | drivers/watchdog/of_xilinx_wdt.c:537-540 | the plain probe's timeout is `PlainTimeout(pfreq, interval)`; it stays 0 when either is 0 |
| `Plain.PlainWatchdog.Start` | drivers/watchdog/of_xilinx_wdt.c:98-126 | a failed clock enable is returned with no register written. Otherwise CSR0 := old \| WRS \| WDS \| EWDT1 and CSR1 := BIT(0) are written in that order, the clock is enabled once, and both enable bits EWDT1 and EWDT2 end set |
| `Plain.PlainWatchdog.Stop` | drivers/watchdog/of_xilinx_wdt.c:128-149 | CSR0 := old & ~EWDT1 and CSR1 := 0 are written in that order, both enable bits EWDT1 and EWDT2 end clear, the clock is disabled exactly once, and 0 is returned |
| `Plain.PlainWatchdog.Keepalive` | drivers/watchdog/of_xilinx_wdt.c:151-165 | only CSR0 is written, with old \| WRS \| WDS, and 0 is returned |
| `Plain.PlainWatchdog.Suspend` | drivers/watchdog/of_xilinx_wdt.c:599-608 | stop runs only if active, with stop's two writes in order, both enable bits ending clear and the clock released once; 0 is always returned |
| `Plain.PlainWatchdog.Resume` | drivers/watchdog/of_xilinx_wdt.c:616-626 | start runs only if active and its result is returned. A successful resume makes start's two writes in order, leaves both enable bits set and re-enables the clock that suspend released |

## Left out

- **Interrupt handler.** `xilinx_wwdt_isr` only forwards to the framework's
  pretimeout notification and is not modelled.
- **Probe plumbing.** Device-tree property reads, allocation and ioremap, IRQ
  lookup and request, `watchdog_init_timeout` with the `wdt_timeout` module
  parameter, registration and the `nowayout` flag are not modelled. Only the
  timeout arithmetic of probe is kept: the two constructors and
  `Timing.PlainTimeout` / `Timing.MaxTimeout`.
- **Probe's use of the self-test verdict.** `SelfTest` is modelled on its own;
  the probe failing on `TIMER_FAILED` is not.
- **Spinlocks and concurrency.** Each operation is one atomic step. The
  gate read happens outside the lock in the source, and interleavings with the
  hardware or other callers are not modelled. Hardware changes (the window
  phase flip, the counter ticking) happen only between operations, by
  assigning the register map.
- **Hardware register semantics.** Write-1-to-clear status bits and the
  hardware toggling WSW are not modelled. Registers are plain memory, and the
  self-test's timebase values are a parameter `tbr`, where `tbr(k)` is the
  value read k.
- **Clock framework.** `clk_get_rate` and the result of `clk_enable` are
  parameters; `clk_disable` is a decrement of `clkEnables`. Reference counting
  inside the clock framework is not modelled.
- **Logging and static tables.** `dev_*` logging and the `watchdog_info`,
  `watchdog_ops` and `of_device_id` tables are not modelled.
- **Window constructor.** It requires `pfreq > 0`. The source divides
  `U32_MAX` by `pfreq` without a check, and `pfreq` is 0 when neither a clock
  nor a "clock-frequency" property exists. Probe also stores the clock rate
  into the 32-bit `pfreq`, truncating it. The constructor takes that already
  truncated value.
- **Plain constructor and `Timing.PlainTimeout`.** They require
  `interval < 32`. `1 << interval` is undefined in C for larger shifts, so
  those inputs are not modelled. Interval 31 is modelled as the unsigned value
  2^31 that the division sees.
- **Window `Start`.** The register reads between writes are modelled as
  returning the value just written. For example, FCR is packed from the SWR
  value read back.
