# Verified models of the EtherCAT driver

This project models the parts of the LinuxCNC EtherCAT driver whose correctness spans several
functions or whole runs, and proves what they promise. Code that updates state is a class or a loop
proved against a specification function; the properties are lemmas about those functions, for every
input and every run.

* `Ratio.dfy`: the continued-fraction loop that turns a modParam value into a ratio.
* `Encoder.dfy`: the 64-bit extension of a wrapping encoder counter, with index, latch and reference.
* `SyncUnits.dfy`: the Sync Unit scheduler and its read/write handshake.
* `Clock.dfy`, `ClockControl.dfy`, `ClockLoop.dfy`: the clock controller, as functions over runs, as the
  step of a write, and in the closed loop with the thread and the DC reference clock.
* `BusStats.dfy`: the working-counter and DC-synchrony statistics.
* `ConfigFormat.dfy`, `ConfigEvents.dfy`, `ConfigChecks.dfy`, `OutputBuffer.dfy`, `ConfigProgram.dfy`: the
  configuration program, from XML element events to the token stream in shared memory, with its
  back-patched counts and with what it accepts.
* `ConfigParser.dfy`, `ConfigLoader.dfy`, `ConfigPins.dfy`, `ConfigRoundTrip.dfy`, `ConfigDocument.dfy`,
  `ConfigSystem.dfy`: the realtime module's reading of that stream, slave by slave and document by
  document, and the two programs together.
* `LayoutTree.dfy`, `SyncsBuilder.dfy`: the fixed-array sync/PDO layout builder and the tree it stands
  for.
* `PdoRegs.dfy`: the PDO registration lists and their collection per Sync Unit.
* `HexText.dfy`: the hex parser.
* `Deasda.dfy`, `El2522.dfy`: the fault auto-reset of the DeASDA drives and the scale change of the
  EL2522.
* `CInt.dfy`, `Options.dfy`: C integer wrap-around, congruence and a little arithmetic; optional values.

Time, DC readings, domain states, process data and HAL pins are inputs of the steps. C integers are
unbounded integers with the wrap-around written out; `double` is read as an exact real.

Where the code does not do what it is meant to, the project keeps the code and gives the exact
condition:

* The master's resync does not always settle. With an even period, `pll_max_err` below half of it, and
  an offset exactly half a period off a whole number of periods, every second write resyncs and
  mirrors the offset. In all other cases at most two resyncs follow (`Clock.AtMostTwoResyncs`).
* `lcec_mod_64` converts a negative position to unsigned. An index reference taken at a negative
  position is a multiple of `pprev` only when `pprev` divides 2^64 (`Encoder.SignedMod64Correct`,
  `Encoder.IndexRefIsNearestMultiple`).
* The ratio is the best allowed one in abs(b*v - a), but an allowed fraction can be nearer to the value:
  1/3 is returned for 0.31 with denominators up to 12, and 3/10 is nearer. With k = (limit - q0)/q at the
  exit it is a nearest one if and only if the loop stopped exactly, k is 0, or q*x >= 2*k*q + q0
  (`RatioModparam.NearestIff`).
* The ints of the ratio loop overflow on ordinary decimals, whose doubles are a little off the decimal:
  8.001 does with the limit 2^14 (`RatioModparam.DecimalOverflows`). They do exactly when the last
  numerator is above INT_MAX, or the loop test computes a next denominator above it
  (`RatioModparam.Approximate`), which in terms of the value means a fraction very near to it
  (`RatioModparam.OverflowIsNear`, `RatioModparam.NearOverflows`).
* The header calls `pdo_limit` the device's limit on the PDOs of a sync. The code counts the PDOs of all
  syncs and allows one more than the limit (`SyncsBuilder.Builder.AddAll`).
* The configuration program accepts documents that the realtime module then rejects as a whole. It does
  not compare the cycles of the slaves of one sync unit; the module does. A document that is accepted is
  loaded if and only if no two slaves of one master name the same unit with different cycles
  (`ConfigSystem.EndToEnd`, `ConfigDocument.ClashIsRejected`).

In the loader, the outcome `Overruns` stands for a write behind an allocation or a read past the
stream; the checks that produce it are in the model only, and `ConfigDocument.RoundTrip` shows that no
produced stream reaches it. The output buffer is measured in cells: one token structure or one raw byte.

## Model

| member | source | states |
|---|---|---|
| RatioModparam.Approximate | src/devices/lcec_class_cia402.c:895-927 | For every non-negative value and every limit of at least 1 the outcome is decided by the two: an int of the loop overflows exactly when Overflows says so, never for a fraction of two ints. Otherwise the ratio is in lowest terms, its denominator is in 1..max_denominator, it is exact or within 1/(q*max_denominator) of the value, no allowed fraction a/b has a smaller abs(b*value - a) (except b = INT_MAX when that is the limit), a fraction with an allowed denominator comes back exactly, and the ratio is a nearest allowed fraction exactly under the condition StopsNearest. max_denominator < 1 gives 1/0 |
| RatioModparam.NearestIff | src/devices/lcec_class_cia402.c:907-925 | With k = (limit - q0)/q at the exit, the ratio p/q is a nearest fraction with an allowed denominator if and only if the loop stopped exactly, k = 0, or q*x >= 2*k*q + q0 |
| RatioModparam.SemiconvergentNearer | src/devices/lcec_class_cia402.c:907-925 | Otherwise (k*p + p0)/(k*q + q0) is allowed and strictly nearer |
| RatioModparam.OverflowIsNear | src/devices/lcec_class_cia402.c:907-915 | An overflow means that the last numerator exceeds INT_MAX, or that an allowed fraction a/b other than the value has abs(b*value - a) below 1/INT_MAX |
| RatioModparam.NearOverflows | src/devices/lcec_class_cia402.c:907-919 | Conversely, for a value that is no allowed fraction and not so near to one that the loop stops early, any allowed fraction with abs(b*value - a) below 1/(INT_MAX + limit) forces the overflow |
| RatioModparam.SmallNumerators | src/devices/lcec_class_cia402.c:910-912 | No numerator overflows while value*limit + 1 is at most INT_MAX |
| RatioModparam.DecimalOverflows | src/devices/lcec_class_cia402.c:907 | The double nearest to 8.001 overflows at the limit 2^14, after 8001/1000, in the product the loop test computes |
| RatioModparam.LargestDenominatorIsBetter | src/devices/lcec_class_cia402.c:918-919 | With the limit INT_MAX the denominator INT_MAX itself can do better: for 2/(2*INT_MAX + 1) the loop stops at 0/1 although 1/INT_MAX has the smaller abs(b*value - a) |
| RatioModparam.NextInv | src/devices/lcec_class_cia402.c:907-922 | One round of the loop keeps the invariant: determinant +1 or -1, value = (p*x + p0)/(q*x + q0), denominators that grow |
| RatioModparam.UnitIsLowest | src/devices/lcec_class_cia402.c:903-925 | A matrix of determinant +1 or -1 holds a numerator and a denominator without a common factor, whatever the quotients were |
| RatioModparam.BoundAtExit | src/devices/lcec_class_cia402.c:907-922 | Dirichlet's bound: once the real tail of the expansion exceeds the limit, the error is below 1/(q*limit) |
| RatioModparam.BestAtExit | src/devices/lcec_class_cia402.c:907-922 | Best approximation of the second kind: no fraction with a denominator below the next one comes nearer in abs(b*v - a) |
| RatioModparam.FractionBoundsNext | src/devices/lcec_class_cia402.c:907-922 | For v = a/b neither the next numerator nor the next denominator exceeds a and b, so a fraction of two ints never overflows |
| RatioModparam.BoundRecoversFraction | src/devices/lcec_class_cia402.c:907-925 | A fraction within the bound of a value a/b with b <= limit is that value |
| RatioModparam.AtLimitExit | src/devices/lcec_class_cia402.c:907 | Leaving the loop because the next denominator is too large gives a ratio with all the promised properties |
| RatioModparam.AtOverflowExit | src/devices/lcec_class_cia402.c:918-919 | Leaving it because the next quotient would not fit an int gives one too; best approximation leaves out the denominator INT_MAX, which only the limit INT_MAX allows |
| RatioModparam.AtExactExit | src/devices/lcec_class_cia402.c:917 | Leaving it because x is an integer gives the value itself: q*value - p is zero |
| RatioModparam.OverflowMeansNotAnIntRatio | src/devices/lcec_class_cia402.c:910-916 | A matrix entry beyond int happens only for a value that is no fraction of two non-negative ints |
| RatioModparam.CloserFractionExists | src/devices/lcec_class_cia402.c:903-925 | The result is best in abs(b*v - a), not in distance: for 0.31 with denominators up to 12 every ratio with the promised properties is 1/3, although 3/10 is nearer |
| Encoder.RawDiffIsNearest | src/devices/lcec_class_enc.c:160 | The shifted difference is congruent to a - b modulo 2^bits and lies in the half-range window, for every width 1..32 |
| Encoder.RawDiffIsMotion | src/devices/lcec_class_enc.c:106-108 | When the samples show the low bits of positions less than half the range apart, the difference is the motion |
| Encoder.TracksEveryRun | src/devices/lcec_class_enc.c:106-111 | Over every run of such samples the 64-bit value stays the true position plus the constant it started with |
| Encoder.ExtendAgreesWithRaw | src/devices/lcec_class_enc.c:106-111 | After an update the extended value is congruent to the raw counter modulo 2^bits |
| Encoder.RestoredAfterPowerUp | src/devices/lcec_class_enc.c:99-111 | From the stored hi/lo words alone, an axis that moved less than half the range while off is restored exactly |
| Encoder.JoinSplit | src/devices/lcec_class_enc.c:107-111 | Joining the hi and lo words gives back every 64-bit position |
| Encoder.SignedMod64Window | src/devices/lcec_class_enc.c:167-179 | signed_mod_64 lies in (-div/2, div/2] and is congruent to the unsigned reading of its argument |
| Encoder.SignedMod64Correct | src/devices/lcec_class_enc.c:167-179 | It is congruent to the argument itself exactly when the argument is not negative or div divides 2^64 |
| Encoder.IndexRefIsNearestMultiple | src/devices/lcec_class_enc.c:122-137 | The reference an index event takes is within half a revolution of the position, and is a multiple of pprev exactly when the position is not negative or pprev divides 2^64 |
| Encoder.IndexRefOfNegativePosition | src/lcec_rtapi_user.h:48 | One count below zero with 1000 pulses per revolution: the reference is 384 |
| Encoder.EncoderChannel.constructor | src/devices/lcec_class_enc.c:54-78 | class_enc_init: the position pins keep what was restored, the first update is marked |
| Encoder.EncoderChannel.Update | src/devices/lcec_class_enc.c:80-158 | One update: every true position that fits the old state and the new sample is tracked by the new state; the home-based position and a latched reference count from the home position modulo 2^bits; the home pins are its signs; an enabled index is taken at once without single-turn bits, otherwise exactly where the residue changes its sign within a quarter revolution above zero, and leaves the position or the nearest multiple of pprev as the reference; latch and reset overrule it in that order |
| Encoder.EncoderChannel.HandleIndex | src/devices/lcec_class_enc.c:122-141 | The index section: when it fires, what reference it takes and what sign it remembers |
| Encoder.EncoderChannel.HandleLatchAndReset | src/devices/lcec_class_enc.c:143-151 | The latch and the reset overrule each other in source order |
| Encoder.EncoderChannel.SetRef | src/devices/lcec_class_enc.c:162-165 | The reference pins hold the 64-bit reference |
| SyncUnits.ExactSchedule | src/lcec_main.c:1465-1479 | At the k-th write after the start a unit of divider d is written iff k mod d = 0, and its counter is d-1-(k mod d); before the start it is written every time |
| SyncUnits.ProcessedIffWritten | src/lcec_main.c:1317-1324 | A unit is processed at a read iff it was written in the cycle before, or is fresh |
| SyncUnits.WritesAreCeiling | src/lcec_main.c:1465-1502 | n cycles after the start contain exactly ceil(n/d) writes, and the time handed out is that many unit cycles |
| SyncUnits.TimeConserved | src/lcec_main.c:1481-1488 | The periods of the writes of one unit sum to at least n and less than n + d base periods, exactly n when d divides n |
| SyncMaster.Master.RunCycle | src/lcec_main.c:1297-1502 | One read and one write of an active master: every unit does one step of the specification, and the callback log of each slave grows by its unit period exactly when the unit is written after the start |
| SyncMaster.Master.RunCycles | src/lcec_main.c:1297-1502 | Over any run of cycles of the master the periods in its callback log sum, for every slave with a write callback, to at least n and less than n + d base periods, exactly n when d divides n; and every callback of the run got the cycle and process data of its own unit |
| SyncMaster.Master.ActivateAndRun | src/lcec_main.c:1193-1260 | From the activation on, every callback of a run finds the data that its own unit received when it was activated |
| SyncUnits.NestedDividersCoincide | src/lcec_main.c:1465-1479 | If one divider divides the other, every write of the slower unit coincides with one of the faster |
| SyncMaster.CallsSeeTheirOwnUnit | src/lcec_main.c:1481-1488 | A pass over a list of views calls exactly the selected ones, each once and in order, with their period and data |
| SyncMaster.Master.GetSyncUnit | src/lcec_main.c:140-169 | Refuses exactly the cycle times that are no positive multiple or conflict with a unit of that name; otherwise finds that unit or appends a fresh one |
| SyncMaster.Master.CheckStates | src/lcec_main.c:1297-1307 | The state of the bus is queried in every read before the start, and afterwards when the interval has run down; the timer is cleared, reloaded or counted down accordingly |
| SyncMaster.Master.ProcessDomains | src/lcec_main.c:1317-1324 | The read hands the queued exchange of every unit to processing, once |
| SyncMaster.Master.Read | src/lcec_main.c:1297-1428 | One read: every queued unit is processed; query interval, state of the bus and start; and the callbacks in slave order, one for exactly the slaves that have one and whose unit was processed, each with the cycle and the process data of its own unit |
| SyncMaster.Master.Activate | src/lcec_main.c:1450-1463 | Activation gives every unit its own process data; a failed one changes nothing |
| SyncMaster.Master.ScheduleUnits | src/lcec_main.c:1467-1479 | The scheduling loop does one step of the schedule for every unit |
| SyncMaster.Master.QueueDomains | src/lcec_main.c:1497-1502 | The queueing loop queues exactly the units that were written |
| SyncMaster.Master.CallDrivers | src/lcec_main.c:1481-1488 | The loop over the slaves calls, in order and once each, exactly those whose unit was processed (read) or is written (write) and that have the callback, with the cycle and process data of their own unit |
| SyncMaster.Master.Exchange | src/lcec_main.c:1465-1502 | Scheduling, callbacks and queueing in the order of the source |
| SyncMaster.Master.Write | src/lcec_main.c:1450-1502 | One write: nothing without activation; otherwise every unit is written before the start and the units whose counter has run down after it, and exactly their slaves with a write callback are called, in order and once each, with the cycle and process data of their own unit |
| Clock.CalibrationTarget | src/lcec_main.c:1590-1646 | Whatever is measured, the target lies in 0..period/8, and every int32 value of the calibration fits: the difference to the last phase, the unwrapped phase, the jitter and one and a half times the jitter |
| Clock.CalibratesOnce | src/lcec_main.c:1590-1646 | From power-up calibration is complete after exactly 101 writes |
| Clock.CalibrationFinds | src/lcec_main.c:1590-1646 | The jitter is the spread of the hundred measured phases, each continued from the one before, and the target is one and a half times the jitter, at most an eighth of the period |
| Clock.UnwrapIsNear | src/lcec_main.c:1604-1615 | Continuing a phase keeps its residue and takes the place within half a period of the last one |
| Clock.Converges | src/lcec_main.c:1647-1704 | On an ideal thread the error falls by pll_step per cycle until locked, the phase never leaves the period, the lock is never lost, and dc-phased rises dwell+1 cycles into the lock |
| Clock.Approach | src/lcec_main.c:1676-1684 | Outside the window one cycle moves the phase one step nearer to the target |
| Clock.Hold | src/lcec_main.c:1690-1697 | Inside it the phase rests and only the dwell counter runs |
| Clock.LockedIff | src/lcec_main.c:1661-1671 | Over any run the lock is held exactly when some phase came within a hundredth of the period of the target and none since has left a twentieth |
| Clock.DwellFilter | src/lcec_main.c:1686-1704 | Over any run the two counters are the current run lengths capped at the dwell and the pin is the history filtered by dwell+1 agreeing cycles |
| Clock.TransitionNeedsDwell | src/lcec_main.c:1686-1704 | The pin changes only after dwell+1 consecutive cycles that agree with the change |
| Clock.TransitionsApart | src/lcec_main.c:1686-1704 | Opposite transitions are at least dwell+1 cycles apart |
| Clock.FoldWindow | src/lcec_main.c:1750-1764 | The two folding steps keep the residue modulo the period, and reach [-period/2, period/2] exactly for errors up to two and a half periods |
| Clock.FoldOfOffset | src/lcec_main.c:1736-1764 | So every offset within one and a half periods plus any drift compensation is folded into the window |
| Clock.WholePeriods | src/lcec_main.c:1785-1790 | The correction is the multiple of the period nearest to the offset, and zero exactly within half a period |
| Clock.ResyncResidual | src/lcec_main.c:1771-1795 | A resync leaves at most half a period; with pll_max_err at half a period or more it removes a nonzero multiple of the period and does not trip again |
| Clock.SettlingRun | src/lcec_main.c:1771-1800 | What is known after any number of undisturbed cycles from an offset without a tie |
| Clock.TieRun | src/lcec_main.c:1771-1800 | From a tie every second cycle resyncs, for ever |
| Clock.AtMostTwoResyncs | src/lcec_main.c:1771-1800 | An undisturbed offset causes at most two resyncs if and only if it is no tie (an even period, a limit below half of it, and an offset exactly half a period off a whole number of periods) |
| Clock.TieWitness | src/lcec_main.c:1771-1800 | Period 1000, limit 100, offset 500: three resyncs in six cycles |
| ClockControl.NoConsecutiveResyncs | src/lcec_main.c:1796-1797 | Two successive writes never both resync, whatever the inputs |
| ClockControl.UndisturbedStep | src/lcec_main.c:1504-1836 | With undisturbed clocks one write is one step of the drifting offset, and raises the reset counter iff that step resyncs |
| ClockControl.UndisturbedRun | src/lcec_main.c:1504-1836 | A run of writes is a run of the drifting offset; pll-reset-count is the number of its resyncs |
| ClockControl.UndisturbedResyncs | src/lcec_main.c:1767-1806 | So pll-reset-count rises at most twice in any undisturbed run, except on a tie, where n resyncs follow in 2n writes |
| ClockControl.DelayRunsDown | src/lcec_main.c:1738-1747 | The delay of the drift compensation counts a hundred writes in drift-mode 0 that used the offset, from the start or the last resync in that mode |
| ClockControl.ErrorOfRun | src/lcec_main.c:1731-1769 | The error of a write that follows the reference clock is the offset, in drift-mode 0 after a hundred such writes less the place of the write in the local cycle, reduced by whole periods into half a period; dc-phased says whether it is below a tenth of the period |
| ClockLoop.ErrorComesDown | src/lcec_main.c:1711-1836 | With syncToRefClock on, against a DC clock that advances by one period plus the applied correction: the error falls by pll-step per write until it is within one step of zero and stays there (with a bounded disturbance, within that much more), dc-phased says whether it is below a tenth of the period, the correction has the sign of the error, and no write resynchronises |
| ClockLoop.FirstErrorIs | src/lcec_main.c:1731-1764 | Inside the limit the first error is the offset itself, or in drift-mode 0 the offset less the place in the cycle |
| ClockLoop.RunsExist | src/lcec_main.c:1711-1836 | From every state there are such runs of every length, whatever the corrections turn out to be |
| ClockLoop.FirstReading | src/lcec_main.c:1719-1724 | After its first valid reading a controller is in that loop |
| ClockLoop.ThreadConverges | src/lcec_main.c:1566-1704 | With syncToRefClock off, a thread that runs one period plus the applied correction per write follows the ideal loop: phase, lock, dwell counter and pin are on course after any number of writes |
| ClockControl.ClockController.MeasurePhase | src/lcec_main.c:1590-1646 | The calibration branch computes the specified step |
| ClockControl.ClockController.Steer | src/lcec_main.c:1656-1684 | Locked within a hundredth of the period, unlocked beyond a twentieth, else as before; the output is one step against the error, and none while locked |
| ClockControl.ClockController.TrackPhase | src/lcec_main.c:1647-1704 | The bang-bang branch with its dwell filter computes the specified step |
| ClockControl.ClockController.FoldError | src/lcec_main.c:1754-1764 | The two folding steps |
| ClockControl.ClockController.FollowReference | src/lcec_main.c:1731-1806 | The branch for two valid readings computes the specified step, whose closed loop has its own laws |
| ClockControl.ClockController.ResyncOrSteer | src/lcec_main.c:1771-1806 | Beyond the limit the reference is moved and the next cycle skipped; within it the output is one step with the sign of the error and nothing else changes |
| ClockControl.ClockController.Control | src/lcec_main.c:1504-1836 | The whole clock section of a write: new state and correction are those of the specification; the correction is output plus manual drift, or the drift alone while locked; no output and no error without two valid readings, while measuring, or after a clean activation |
| BusStats.Aggregate | src/lcec_main.c:1316-1338 | The working counters of all domains are summed modulo 2^32; complete iff every domain is complete, zero iff none moved and not all complete |
| BusStats.AnchorIsFirstComplete | src/lcec_main.c:1360-1374 | The statistics count from the first complete exchange since the last reset |
| BusStats.StatsAgreeWithHistory | src/lcec_main.c:1354-1385 | wkc-min is the least working counter and wkc-change-count the number of adjacent changes since then, over any run |
| BusStats.LastAnswerIsLast | src/lcec_main.c:1391-1402 | The reference notion of the latest answered reading |
| BusStats.ConvergedIsRecent | src/lcec_main.c:1391-1402 | With the monitor enabled dc-sync-converged is set iff the latest response is at most ten reads old and was below the limit, and dc-sync-diff shows that response, or none once more than ten reads have missed |
| BusStats.BusMonitor.Update | src/lcec_main.c:1351-1403 | The pin updates of one read are the specified steps; an answer is shown and judged at once, and a miss changes the pins only after ten others |
| Deasda.TrainIsExact | src/devices/lcec_deasda.c:483-500 | After a switch-on edge on a persisting fault the n-th cycle stands exactly at the n-th place of R pulses of C+1 cycles each |
| Deasda.MaskedForExactly | src/devices/lcec_deasda.c:486-500 | The fault pin stays masked for exactly 2*R*(C+1) reads and then shows the fault |
| Deasda.AtIsIndexed | src/devices/lcec_deasda.c:487-496 | The n-th place of the train is the place with index n |
| Deasda.ReadUsesOne | src/devices/lcec_deasda.c:483-500 | Every masked read uses up one of the remaining masked reads |
| Deasda.HidingIsBounded | src/devices/lcec_deasda.c:483-555 | Over any run the number of masked reads is at most what is left plus 2*R*(C+1) per starting edge |
| Deasda.Drive.ReadStatus | src/devices/lcec_deasda.c:452-500 | A read shows the fault exactly when the drive is not operational, or has a fault and no train was running; a drive without a fault ends the train |
| Deasda.FaultPinShows | src/devices/lcec_deasda.c:469-500 | For every history of reads and writes: after a read the fault pin is set exactly when the drive is not operational, or has a fault and no train is left, that is, no switch-on edge on a known fault with only faulty reads and fewer than 2*R*(C+1) of them behind it |
| Deasda.NoTrainWithoutFault | src/devices/lcec_deasda.c:483-484 | In every history in which the last operational read saw no fault, no train is left and the next write starts none |
| Deasda.Drive.WriteControl | src/devices/lcec_deasda.c:546-574 | The edge detection and the control word of a write: reset pulses, and no switch-on during them |
| El2522.EveryRunKeepsInv | src/devices/lcec_el2522.c:256-293 | In every reachable state count = pos_fb * last_pos_scale + step_offset, over any interleaving of reads, writes and scale edits |
| El2522.CountIsMotion | src/devices/lcec_el2522.c:245-272 | Over any such interleaving, with gaps in the operation: when the samples show the low 32 bits of a true counter that moves less than half their range between reads, count is the motion between operational reads modulo 2^32 and pos_fb that motion at the scales in force |
| El2522.MotionTelescopes | src/devices/lcec_el2522.c:259-268 | While every read finds the device operational, the motion is that from the first sample to the last |
| El2522.DistanceAtOneScale | src/devices/lcec_el2522.c:268-269 | While no new scale is accepted, pos_fb times the scale moves by exactly the motion |
| El2522.TargetFollowsCommand | src/devices/lcec_el2522.c:295-297 | After a write the target word is the count, modulo 2^32, nearest to the present count moved by the scaled distance from pos_fb to the command |
| El2522.RoundIsNearest | src/devices/lcec_el2522.c:296 | Rounding takes a nearest integer, away from zero when there are two |
| El2522.CommandIsRelative | src/devices/lcec_el2522.c:295-297 | After a write, a command pos_cmd demands count plus the scaled distance from pos_fb, modulo 2^32 |
| El2522.NoJump | src/devices/lcec_el2522.c:279-297 | After a write, commanding pos_cmd = pos_fb yields a target equal to count |
| El2522.Device.Read | src/devices/lcec_el2522.c:245-272 | One read: each channel takes its own sample and moves count and position by its wrapped distance from the last one, or by nothing on the first operational read |
| El2522.Device.ReadCounter | src/devices/lcec_el2522.c:259-269 | The wrapped difference moves count and pos_fb together, and nothing on the first operational read |
| El2522.Device.Write | src/devices/lcec_el2522.c:274-300 | One write of both channels |
| El2522.Device.WriteChannel | src/devices/lcec_el2522.c:282-298 | A changed scale is accepted with a new offset or put back, then the target is written; count and position stay |
| HexText.ParseHex | src/lcec_conf_util.c:134-181 | Both passes return the number of bytes, or -1 exactly when the text is no sequence of digit pairs; the filling pass writes those bytes and no other |
| HexText.DecodePrinted | src/lcec_conf_util.c:140-180 | Printing any bytes with any blanks before each and either case, then parsing, gives the bytes back |
| HexText.AcceptedIsPrinted | src/lcec_conf_util.c:140-180 | Conversely every accepted text is such a printing of the bytes it yields |
| HexText.TextOfTerminated | src/lcec_conf_util.c:140 | With slen = -1 the text ends at its NUL |
| HexText.TextOfBounded | src/lcec_conf_util.c:140-144 | With a length it ends there |
| PdoRegs.EntryReg.PdoInit | src/lcec_ethercat.c:683-705 | Appends the entry, or fails exactly when the list is full |
| PdoRegs.EntryReg.Append | src/lcec_ethercat.c:714-725 | Appends all used entries of the other list, or nothing exactly when they do not fit |
| PdoRegs.CollectUnit | src/lcec_main.c:340-356 | The count of the first pass is enough for the second: no append fails, the list of a unit is its slaves' entries in order, and a zero entry ends it |
| PdoRegs.InSlaveOrder | src/lcec_main.c:343-356 | In the list of a unit the entries of a slave stand together, behind those of the slaves before it |
| PdoRegs.NothingLost | src/lcec_main.c:343-356 | Over all units every registration is gathered exactly once |
| SyncsBuilder.Builder.AddSync | src/lcec_ethercat.c:81-101 | Fails exactly on the fifth sync; otherwise the arrays represent the tree with one more sync |
| SyncsBuilder.Builder.AddPdoInfo | src/lcec_ethercat.c:104-136 | Fails exactly at the array limit or the autoflow limit; otherwise the last sync has one more PDO |
| SyncsBuilder.Builder.AddPdoEntry | src/lcec_ethercat.c:143-173 | Returns -1 exactly at the array limit; the error is set exactly when it was set before, at the array limit, or when the entry fills the PDO and no further PDO can be opened; while no error is set the last PDO has one more entry and a full one is followed by a new one |
| SyncsBuilder.Builder.EnableAutoflow | src/lcec_ethercat.c:73-78 | The settings are taken and the layout is untouched |
| SyncsBuilder.Builder.AddAll | src/lcec.h:426-428 | All calls of a driver, whatever fails on the way, and one look at the error: it is set exactly when the layout the calls describe has more than 4 syncs, 17 PDOs or 129 entries, or with autoflow more than pdo_limit + 1 PDOs; otherwise the arrays hold that layout |
| SyncsBuilder.Builder.OpenPdo | src/lcec_ethercat.c:107-135 | The array work of opening a PDO: which slots change and which do not |
| SyncsBuilder.SyncSliceGivesPdos | src/lcec_ethercat.c:117-120 | Following a sync's pointer and count gives its PDOs; the slices tile the array in order |
| SyncsBuilder.InfoSliceGivesEntries | src/lcec_ethercat.c:156-159 | Following a PDO's pointer and count gives its entries; the slices tile the array in order |
| LayoutTree.PdosOfAddEntry | src/lcec_ethercat.c:154-171 | Adding an entry changes only the last PDO of the flat list, and may open one more |
| LayoutTree.PdosStayWithinLimit | src/lcec_ethercat.c:160-165 | With autoflow no PDO holds more than pdo_entry_limit entries, for any sequence of calls |
| LayoutTree.OverflowIsChunks | src/lcec_ethercat.c:160-165 | The entries added to a PDO end up cut into PDOs of the limit, whose indices step by pdo_increment modulo 2^16 |
| OutputBuffer.Buffer.Add | src/lcec_conf_util.c:41-64 | A fresh item is linked behind the last one; no other item changes |
| OutputBuffer.Buffer.Patch | src/lcec_conf.c:810-817 | Writing through a kept pointer changes that item in place and nothing else |
| OutputBuffer.Buffer.CopyFree | src/lcec_conf_util.c:66-78 | The copy fills the destination exactly with the items in order |
| OutputBuffer.ConcatLength | src/lcec_conf_util.c:51-52 | Patching keeps the total length |
| ConfigEvents.HandleParts | src/lcec_conf.c:1165-1288 | Parts are accepted exactly while their bits fit the entry, and get consecutive bit offsets |
| ConfigEvents.HandleEntries | src/lcec_conf.c:994-1163 | Entries append their tokens and raise the counts of the PDO and the slave |
| ConfigEvents.HandlePdos | src/lcec_conf.c:948-992 | PDOs raise the counts of the sync manager and the slave, and carry their own entry count |
| ConfigEvents.HandleSm | src/lcec_conf.c:871-946 | A sync manager is accepted exactly on a generic slave with good contents, and its token carries its PDO count |
| ConfigEvents.HandleData | src/lcec_conf.c:792-834 | XML data: every non-empty piece is counted in the SDO token and in the slave token |
| ConfigEvents.HandleFields | src/lcec_conf_icmds.c:163-187 | The elements of an init command, in any order and number: the last index and sub-index win, a sub-index is ignored under complete access, every piece of data is counted in the SDO token only, and other transitions than IP and PS are refused |
| ConfigEvents.HandleSdo | src/lcec_conf.c:606-673 | An XML SDO counts its header first and its data piece by piece |
| ConfigEvents.HandleCmd | src/lcec_conf_icmds.c:163-262 | An init command with its elements in any order is refused exactly when an element is bad or index or sub-index is missing; otherwise it counts header and data together at its end, and leaves the same tokens and the same plan as an XML SDO |
| ConfigEvents.ProducedTokens | src/lcec_conf.c:259-1288 | A document is accepted exactly when it begins with a master and all its elements pass their checks (synchronisation attributes, slave type, unit name, cycle, index ranges, bit lengths, float pins), and then the patched stream is the token list of the document with every count equal to what follows it |
| ConfigFormat.SyncModeIsCanonical | src/lcec_conf.c:309-360 | The synchronisation attributes of a master are refused exactly when they contradict each other; otherwise its token follows the reference clock when it is told so or by -1 cycles, then in every cycle, and else takes the cycles as given |
| ConfigFormat.SdoOfIs | src/lcec_conf_icmds.c:163-262 | The SDO of an init command has the last index and the last sub-index it names, or every sub-index under complete access |
| ConfigChecks.AcceptedIffPasses | src/lcec_conf.c:259-1288 | The acceptance in numbers: the configuration program goes to the end of a document exactly when it begins with a master and every master, slave, sync manager, PDO, entry, part, SDO and command is in its ranges |
| ConfigProgram.Program.Count | src/lcec_conf.c:944 | Counting through currSlave changes the plan in the slave token and nothing else |
| ConfigProgram.Program.StartMaster | src/lcec_conf.c:259-379 | The handler is one step of the specification on the stream in the buffer: contradicting synchronisation attributes stop the parser |
| ConfigProgram.Program.StartSlave | src/lcec_conf.c:381-520 | likewise: an unknown type, an empty unit or a cycle that is no positive multiple of the period stops it |
| ConfigProgram.Program.StartSm | src/lcec_conf.c:871-946 | likewise, counting in the slave token |
| ConfigProgram.Program.StartPdo | src/lcec_conf.c:948-992 | likewise, counting in two tokens |
| ConfigProgram.Program.StartEntry | src/lcec_conf.c:994-1163 | likewise, counting entry and pin; a scale or offset on a pin that is no float stops the parser |
| ConfigProgram.Program.StartPart | src/lcec_conf.c:1165-1288 | likewise, with the running bit offset and the same check |
| ConfigProgram.Program.StartSdo | src/lcec_conf.c:606-673 | likewise |
| ConfigProgram.Program.SdoData | src/lcec_conf.c:804-817 | likewise; an empty piece changes nothing |
| ConfigProgram.Program.StartCmd | src/lcec_conf_icmds.c:219-245 | likewise for the second producer |
| ConfigProgram.Program.CmdIndex | src/lcec_conf_icmds.c:177-179 | likewise |
| ConfigProgram.Program.CmdSubindex | src/lcec_conf_icmds.c:180-184 | likewise; complete access keeps its mark |
| ConfigProgram.Program.CmdData | src/lcec_conf_icmds.c:185-187 | likewise |
| ConfigProgram.Program.CmdTransition | src/lcec_conf_icmds.c:164-176 | likewise; only IP and PS go on |
| ConfigProgram.Program.EndCmd | src/lcec_conf_icmds.c:247-263 | likewise; a command without index or sub-index stops the parser |
| ConfigProgram.Program.Finish | src/lcec_conf.c:206-234 | The end marker and the copy into memory of exactly the collected length |
| ConfigProgram.Produce | src/lcec_conf.c:170-234 | Nothing exactly for a document that fails one of the checks, otherwise the cells of its tokens with the end marker |
| ConfigLoader.SlaveMemory.constructor | src/lcec_main.c:643-677 | The memory a slave token plans, with the first end mark |
| ConfigLoader.SlaveMemory.AddSync | src/lcec_main.c:788-808 | One slot is filled and the end mark moves behind it; refused exactly when it would leave the array; an input turns the direction of the pins to HAL output, an output to HAL input |
| ConfigLoader.SlaveMemory.AddPdo | src/lcec_main.c:811-835 | One slot is filled |
| ConfigLoader.SlaveMemory.AddEntry | src/lcec_main.c:837-883 | One entry slot, and a pin slot with the current direction when the pin has a name |
| ConfigLoader.SlaveMemory.PutSdo | src/lcec_main.c:929-938 | Header, data and end mark are written behind the last record, refused exactly when they would leave the memory |
| ConfigLoader.UnitFound | src/lcec_main.c:140-169 | Finding or creating a unit object does to the table of names and cycles what the table function does, and fails when it fails |
| ConfigLoader.Loader.MasterToken | src/lcec_main.c:551-573 | A master token starts a new master without units |
| ConfigLoader.Loader.FindUnit | src/lcec_main.c:619-622 | The unit of a slave on the master object: refused exactly when its cycle is bad or differs from that of the unit of the same name |
| ConfigLoader.Loader.SlaveToken | src/lcec_main.c:575-710 | A slave is rejected exactly without a master or when its sync unit is refused; otherwise it gets fresh memory of the planned sizes |
| ConfigLoader.Loader.EntryToken | src/lcec_main.c:837-883 | The three checks, then the entry and its pin |
| ConfigLoader.Loader.ComplexToken | src/lcec_main.c:885-917 | A part belongs to the last entry seen |
| ConfigLoader.Loader.Load | src/lcec_main.c:548-992 | The loop over the stream: the verdict, with the sync units of every master, and the memory are those of the specification for every stream, produced or not |
| ConfigRoundTrip.PiecesAreBytes | src/lcec_conf.c:804-817 | However the data is cut into pieces, the cells behind an SDO token are its bytes in order |
| ConfigRoundTrip.PdosSize | src/lcec_conf.c:948-1163 | The plan is the size of what the parser writes for PDOs, entries and pins |
| ConfigRoundTrip.SdoPlan | src/lcec_conf_icmds.c:262 | Over both producers sdoConfigLength is one header plus the data for every SDO of the slave |
| ConfigRoundTrip.ChildrenGrew | src/lcec_main.c:641-677 | Reading a slave fills exactly the planned slots, and at most (for equal header sizes exactly) the planned SDO memory |
| ConfigDocument.AdmitsIff | src/lcec_main.c:140-169 | The step-by-step table of units admits the slaves of a document exactly when no two slaves of one master name the same unit with different cycles and none disagrees with a unit already there |
| ConfigDocument.ParseNodes | src/lcec_main.c:548-992 | The tokens of any good document are read to the end marker exactly when the units are admitted, otherwise rejected, and never with a write behind an allocation |
| ConfigRoundTrip.ReadPdosBack | src/lcec_main.c:811-835 | Following a PDO's pointer and count gives its entries |
| ConfigRoundTrip.ReadBack | src/lcec_main.c:771-835 | Following the slices of all levels rebuilds the sync managers of the document |
| ConfigRoundTrip.PinsBack | src/lcec_main.c:794-916 | The pins come from the tokens in document order |
| ConfigPins.PinsAreOfDocument | src/lcec_main.c:794-916 | They are those of the document: one for every entry and part with a pin name, in order; HAL output under an input sync manager and HAL input under an output one; index and sub-index of the entry they are in; and a part starts behind the bits of the parts before it |
| ConfigRoundTrip.CycleOfIs | src/lcec_conf.c:1420-1429 | The cycle of a slave is the period of its master, that many times it modulo 2^32, or the nanoseconds given, and a positive multiple of the period |
| ConfigRoundTrip.WalkBack | src/lcec_main.c:256-270 | Walking the SDO memory by record length yields the documented settings in order and stops at the end mark, whatever lies behind it |
| ConfigRoundTrip.SlaveMemory | src/lcec_main.c:548-992 | All of this for one slave, with its own unit and cycle |
| ConfigDocument.RoundTrip | src/lcec_main.c:548-992 | For every good document: if no two slaves of one master name the same unit with different cycles, the stream is read to its end and the memory of every slave, in order, holds what the document says; otherwise it is rejected |
| ConfigDocument.ClashIsRejected | src/lcec_main.c:150-155 | Two slaves in the default unit, one of them with twice the period: the configuration program accepts the document and the realtime module rejects it |
| ConfigSystem.EndToEnd | src/lcec_main.c:548-992 | From the handler calls to the loaded memory: the document fails a check and is refused, or its units clash and the realtime module rejects it, or every slave's memory holds what it says; each case exactly under its condition on the document, stated in numbers |
| ConfigSystem.Configure | src/lcec_main.c:548-992 | The two programs one behind the other do so on the heap: stopped, failed or loaded, exactly under the same conditions |

## Left out

- RatioModparam.Approximate: takes a non-negative value below 2^31, because a negative value makes the truncating quotients of the source meaningless and a larger one does not convert to int; an int overflow inside the loop is an outcome of its own.
- The textual ratios a/b and a:b of `lcec_cia402_decode_ratio_modparam`: two number conversions.
- Encoder.EncoderChannel.Update: does not model the float pins (pos_enc, pos_abs, pos, pprev_scale); signed 64-bit overflow wraps.
- The moment at which an index crossing is detected: the window test has no absolute value, so only the reference taken when it fires is stated.
- Clock.CalibrationTarget: bounds the target; of the measured jitter it only says that it fits an int32 with half of it added, because the unwrapping covers one step only.
- Clock.Converges: takes periods up to 715827882 ns, the largest for which the calibration arithmetic is sure to fit an int32; in the rest of the controller int32 results wrap, as does abs(INT_MIN).
- ClockLoop.ErrorComesDown: takes offsets that start inside the resync limit, with a goal that keeps a step away from it; from outside, ClockControl.UndisturbedResyncs says how often the time is resynchronised first.
- The adoption of appTimePeriod from the thread, the sync_ref_cnt push counter and the dc-ref-err pin: no effect on the modelled properties.
- The master object is split into its scheduler (SyncMaster), its clock section (ClockControl) and its statistics (BusStats), which share no field except the activation and start flags.
- SyncsBuilder.Builder.AddPdoEntry: says exactly when the error becomes set, and claims nothing about the layout from then on, because the autoflow limit is checked after counters have changed.
- El2522.Device.Write: a demand outside int32 is converted modulo 2^32; the source leaves that conversion undefined.
- Deasda.FaultPinShows: takes the two auto-reset parameters as constant over a history.
- Deasda.Drive.WriteControl: the speed and position commands of the CSV and CSP variants are not modelled.
- ConfigEvents.ProducedTokens: starts from element events in document order with their attributes decoded; the expat library, the handler table, attribute text and the truncation of names are not modelled.
- The attributes of masters and slaves that only pass through (idx, name, vid, pid, configPdos, refClockSlaveIdx).
- The tokens for distributed clocks and watchdogs: fixed-size records without counts.
- The tokens for modParams and IDNs: modParams are counted in the slave token and sized by that count, and IDN records carry data counted in idnConfigLength by the SoE init commands, in the same way as the modelled PDO entries and SDO records; the XML idnConfig handler accepts no state attribute.
- ConfigLoader.Loader.MasterToken: does not follow the synchronisation mode of a token into the clock section, which takes it as its configuration.
- Slave types that the realtime module does not know, and allocation failures.
- ConfigLoader.Loader.Load: NULL arrays of slaves that are not generic are empty arrays here, told apart by the slave's type.
- The limit of 16 sync managers comes from the EtherCAT library, which is not part of this model.
- Library calls, HAL and RTAPI calls, shared memory, signals and logging; plain bit-copy drivers, CiA 402 object tables, scripts.
