# Rohde & Schwarz spectrum analyzer driver: acquisition model

A Dafny model of the part of the Rohde & Schwarz spectrum analyzer driver
(`RohdeSchwarz_SpectrumAnalyzer_Modified.py`) that has real control flow:
how `performGetValue` runs an acquisition for the quantities 'Signal' and
'Signal - Zero span', and how `performSetValue` handles 'Range type' and
'Wait for new trace'.

In wait mode ('Wait for new trace' on) an acquisition works like this. The
driver writes a trigger command: abort, single sweep, average count (the
'# of averages' value when 'Average' is on, otherwise 1), start, `*OPC`. It
waits 30 ms. It then polls `*ESR?` until bit 0 is set or the host's stop flag
is seen, and waits 100 ms after each poll that is not done. It reads the stop
flag once more. If the flag is set, the driver writes `*CLS;:INIT:CONT ON;`
and returns an empty result. Otherwise, and always when not in wait mode, it
writes `:INIT1:CONT ON;`, queries `:FORM ASCII;TRAC:DATA? TRACE1` and reads the
reply. For 'Signal' in wait mode without averaging it then writes
`:INIT:CONT ON;`. Last, it splits the reply at each comma, converts every
field, and returns either a trace over the start/stop frequencies or, in
zero span, the average of the samples.

The instrument and the host are oracles held in the `Driver` object. They
are the list of replies to the coming `*ESR?` queries, the list of results of
the coming `isStopped()` calls, and the trace reply text. Everything the
driver does is appended to `log` as an `Event`:
a write, a query, a read, a wait in milliseconds, a value sent to or read from
another quantity.

Files:
- `scpi.dfy` (module `Scpi`): events, the SCPI command strings, the bit-0 test,
  `'%d'` rendering of the average count.
- `trace_data.dfy` (module `TraceData`): `split(',')`, all-or-nothing conversion
  of the fields, the mean.
- `acquisition.dfy` (module `Acquisition`): the acquisition as functions
  (`PollLoop`, `Await`, `Readout`, `Acquire`, `GetValue`) and the lemmas about them.
- `driver.dfy` (module `SpectrumDriver`): class `Driver`, whose methods do the
  same thing step by step on the object's state. Each is proved equal to the
  corresponding function.
- `wrappers.dfy` (module `Wrappers`): `Option`.

The two quantities share one model. The flag `zeroSpan` covers the two
differences after the read. First, zero span never writes `:INIT:CONT ON;`
after the read. Second, zero span returns `Scalar(mean)` instead of a trace.

Two details of the code that the model keeps. First, continuous mode does
not go straight to the trace query: the code first writes `:INIT1:CONT ON;`
(lines 83 and 141). Second, an empty reply fails only because `float('')`
fails. `EmptyReplyFails` shows the model gives a format error for an empty
reply when the conversion of `""` fails.

## Model

| member | source | states |
|---|---|---|
| `Scpi.OperationCompleteIsOddness` | RohdeSchwarz_SpectrumAnalyzer_Modified.py:70-71 | `(stb & 1) > 0` holds exactly for odd replies, negative ones included |
| `Scpi.TruncateToInt` | RohdeSchwarz_SpectrumAnalyzer_Modified.py:59 | `%d` of the '# of averages' value truncates toward zero: same sign, less than one away |
| `Scpi.DecimalRoundTrip` | RohdeSchwarz_SpectrumAnalyzer_Modified.py:59 | the count rendered by `%d` into the trigger command reads back as the same integer |
| `Scpi.TriggerCommands` | RohdeSchwarz_SpectrumAnalyzer_Modified.py:56-61 | both trigger commands start with `:ABOR;`; the averaged one equals the unaveraged one exactly when the count is 1 |
| `TraceData.SplitFieldsFree` | RohdeSchwarz_SpectrumAnalyzer_Modified.py:92 | splitting yields at least one field and no field contains the separator |
| `TraceData.SplitCount` | RohdeSchwarz_SpectrumAnalyzer_Modified.py:92 | the reply splits into (number of commas + 1) fields |
| `TraceData.JoinSplit` | RohdeSchwarz_SpectrumAnalyzer_Modified.py:92 | joining the fields with commas gives back the reply |
| `TraceData.SplitJoin` | RohdeSchwarz_SpectrumAnalyzer_Modified.py:92 | comma-free fields are recovered by splitting their join |
| `TraceData.ConvertAllSpec` | RohdeSchwarz_SpectrumAnalyzer_Modified.py:94 | a list is returned iff every field converts; it then has one value per field, in order |
| `TraceData.MeanBounds` | RohdeSchwarz_SpectrumAnalyzer_Modified.py:147 | the zero-span value lies between any lower and upper bound of the samples |
| `TraceData.MeanExample` | RohdeSchwarz_SpectrumAnalyzer_Modified.py:147 | the average of 1, 2, 3 is 2 |
| `Acquisition.PollLoopExits` | RohdeSchwarz_SpectrumAnalyzer_Modified.py:64-76 | the loop ends exactly when the stop flag is seen at the top of an iteration or the last `*ESR?` reply has bit 0 set; with k polls it consumed exactly k replies, emitted one query per poll and a 100 ms wait after each poll not done |
| `Acquisition.PollEventsCounts` | RohdeSchwarz_SpectrumAnalyzer_Modified.py:70-76 | a poll sequence holds one `*ESR?` query per reply and one 100 ms wait per reply with bit 0 clear, and nothing else |
| `Acquisition.PollLoopEventKinds` | RohdeSchwarz_SpectrumAnalyzer_Modified.py:64-76 | the loop emits only `*ESR?` queries and 100 ms waits |
| `Acquisition.PollWaits` | RohdeSchwarz_SpectrumAnalyzer_Modified.py:64-76 | the number of 100 ms waits is the number of polls not done: one less than the polls when the loop completed, equal to them when it stopped |
| `Acquisition.WaitModeTriggersOnce` | RohdeSchwarz_SpectrumAnalyzer_Modified.py:55-63 | in wait mode the trigger command is the first event and occurs exactly once; the one 30 ms wait comes second; no poll precedes them |
| `Acquisition.WaitModeWaits` | RohdeSchwarz_SpectrumAnalyzer_Modified.py:63-80 | over a whole wait-mode call, `*ESR?` queries = polls = replies consumed, and 100 ms waits = polls whose bit 0 was clear |
| `Acquisition.StopAfterLoopCleansUp` | RohdeSchwarz_SpectrumAnalyzer_Modified.py:78-80 | a stop flag seen after the loop ends the call with `*CLS;:INIT:CONT ON;` and Empty, without `:INIT1:CONT ON;`, trace query or read, even if the last poll reported done |
| `Acquisition.EmptyMeansStopped` | RohdeSchwarz_SpectrumAnalyzer_Modified.py:78-80 | the result is Empty exactly when wait mode saw the stop flag after the loop |
| `Acquisition.StopClearedBeforeSecondLook` | RohdeSchwarz_SpectrumAnalyzer_Modified.py:65-87 | the flag after the loop is a fresh reading: if the loop ended on the flag but the second reading is clear, the trace is read without any poll |
| `Acquisition.ContinuousModeOnlyReads` | RohdeSchwarz_SpectrumAnalyzer_Modified.py:83-101 | without wait mode only `:INIT1:CONT ON;`, the trace query, the read (and the axis reads for a trace) occur; no oracle is consulted |
| `Acquisition.ReadoutEvents` | RohdeSchwarz_SpectrumAnalyzer_Modified.py:83-101 | the read-out starts with `:INIT1:CONT ON;`, trace query, read; it has no poll, wait or cleanup and never returns Empty |
| `Acquisition.ResumeAfterRead` | RohdeSchwarz_SpectrumAnalyzer_Modified.py:83-89 | `:INIT:CONT ON;` follows the read iff 'Signal', wait mode and no averaging; zero span never sends it |
| `Acquisition.ReadoutAllOrNothing` | RohdeSchwarz_SpectrumAnalyzer_Modified.py:92-101 | FormatError iff some field fails to convert; otherwise a trace of one sample per field, in order, over start/stop frequency, or the zero-span mean of all fields |
| `Acquisition.EmptyReplyFails` | RohdeSchwarz_SpectrumAnalyzer_Modified.py:143-146 | an empty reply is one empty field and gives FormatError when that field does not convert |
| `Acquisition.AveragingOnlyChangesCommands` | RohdeSchwarz_SpectrumAnalyzer_Modified.py:56-76 | averaged and unaveraged calls poll with the same test: same outcome, same oracles used, same events apart from the trigger and the post-read resume |
| `Acquisition.DoneOnFirstPoll` | RohdeSchwarz_SpectrumAnalyzer_Modified.py:55-87 | averaged wait mode with bit 0 set on the first poll: trigger with the count, 30 ms wait, exactly one poll, then the read-out |
| `SpectrumDriver.Driver.AskEsr` | RohdeSchwarz_SpectrumAnalyzer_Modified.py:70 | `*ESR?` is logged and the next reply is consumed and returned |
| `SpectrumDriver.Driver.IsStopped` | RohdeSchwarz_SpectrumAnalyzer_Modified.py:65 | each `isStopped()` call consumes and returns the next observation |
| `SpectrumDriver.Driver.ReadFrequencyAxis` | RohdeSchwarz_SpectrumAnalyzer_Modified.py:97-98 | start then stop frequency are read from the other quantities |
| `SpectrumDriver.Driver.Trigger` | RohdeSchwarz_SpectrumAnalyzer_Modified.py:55-61 | writes the averaged trigger with the count, or the one with count 1 |
| `SpectrumDriver.Driver.PollUntilDone` | RohdeSchwarz_SpectrumAnalyzer_Modified.py:64-76 | the while loop logs, consumes and ends exactly as `PollLoop` specifies |
| `SpectrumDriver.Driver.AwaitSweep` | RohdeSchwarz_SpectrumAnalyzer_Modified.py:64-80 | the loop and the second look at the stop flag, with cleanup, as `Await` specifies |
| `SpectrumDriver.Driver.ReadOut` | RohdeSchwarz_SpectrumAnalyzer_Modified.py:83-101 | resume, query, read, conversion and result as `Readout` specifies |
| `SpectrumDriver.Driver.WaitAndRead` | RohdeSchwarz_SpectrumAnalyzer_Modified.py:63-101 | after the trigger: polling, the second stop check and the read-out, as `AfterTrigger` specifies |
| `SpectrumDriver.Driver.Measure` | RohdeSchwarz_SpectrumAnalyzer_Modified.py:48-148 | the whole acquisition of either quantity: log, result and oracle use as `Acquire` specifies |
| `SpectrumDriver.Driver.PerformGetValue` | RohdeSchwarz_SpectrumAnalyzer_Modified.py:45-164 | dispatch on the quantity name as `GetValue` specifies |
| `SpectrumDriver.Driver.PerformSetValue` | RohdeSchwarz_SpectrumAnalyzer_Modified.py:22-42 | zero-span range sets Span 0, '# of points' 2 and writes the sweep-time command; 'Wait for new trace' equal to False writes `:INIT:CONT ON;`, True writes nothing; both return the value unchanged; other names go to the generic driver |

## Left out

- The generic VISA driver: `performOpen`, and the fallthroughs of `performGetValue`/`performSetValue` (lines 39-41, 160-162). They are foreign code. The model returns `Delegated`/`Passed` and logs nothing for them.
- 'Wait for new trace' in `performGetValue` (lines 155-157) is answered from the stored flag (`LocalFlag`). The host's storage of values after `performSetValue` is not modelled.
- Communication errors of writes and queries, and a non-integer `*ESR?` reply (`int(...)` raising). Replies are integers from the oracle.
- Real sleeping and logging. Waits are recorded as durations, `self.log(value)` is dropped, and `sData.decode()` is the identity on text.
- `float(...)`: conversion of one field is the parameter `parse`, with `None` where Python raises.
- `np.average`: the model uses the exact real mean, without floating-point rounding.
- `quant.getTraceDict`: the frequency axis interpolation is foreign code. `Trace` holds the samples and the two frequencies passed to it.
- Non-termination: the source polls forever if bit 0 never sets and the flag is never raised. The oracles are finite lists. A call that needs more observations than supplied ends as `Unfinished`.
- Who sets the stop flag, and concurrency in general. The flag is only a list of observations.
- `PerformSetValue`: 'Range type' is compared by its label (`Label("Zero-span mode")`). The host's `getValueString` for index-valued combos is not modelled.
- `Scpi.TruncateToInt`: `'%d'` of NaN or infinity (which raises in Python) has no counterpart in reals.
