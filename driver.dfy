/**
 * The driver object. Python's `Driver` inherits its bus and host services
 * from `VISA_Driver`; here they are the primitive methods at the top of the
 * class, each appending what it does to `log` and drawing replies from the
 * oracles `esrReplies` and `stopFlags`. `performGetValue` and
 * `performSetValue` are written step by step on top of them and proved
 * against the functions of module Acquisition.
 */
module SpectrumDriver {
  import opened Wrappers
  import opened Scpi
  import opened TraceData
  import opened Acquisition

  /** A quantity value as the host hands it to `performSetValue`. */
  datatype QValue = Flag(b: bool) | Number(x: real) | Label(s: string)

  /** What `performSetValue` returns. */
  datatype SetResult = Returned(value: QValue) | Passed

  /** Python's `value == False`: true for False and for the number 0 (bool is an int). */
  predicate EqualsFalse(v: QValue)
  {
    v == Flag(false) || v == Number(0.0)
  }

  class Driver {
    /** Everything written, queried, read, waited for or set, in order. */
    var log: seq<Event>
    /** Replies the instrument gives to the coming `*ESR?` queries. */
    var esrReplies: seq<int>
    /** Results of the coming `isStopped()` calls. */
    var stopFlags: seq<bool>
    /** Text the instrument returns for a trace read. */
    var traceReply: string
    /** The host's values of the quantities the acquisition reads. */
    var quantities: Quantities

    constructor (q: Quantities, esr: seq<int>, stops: seq<bool>, reply: string)
      ensures log == [] && esrReplies == esr && stopFlags == stops
      ensures traceReply == reply && quantities == q
    {
      log, esrReplies, stopFlags, traceReply, quantities := [], esr, stops, reply, q;
    }

    // --- services of the base driver and the host ------------------------

    method WriteAndLog(cmd: string)
      modifies this`log
      ensures log == old(log) + [Write(cmd)]
    {
      log := log + [Write(cmd)];
    }

    /** `int(self.askAndLog('*ESR?'))`. */
    method AskEsr() returns (stb: int)
      requires |esrReplies| > 0
      modifies this`log, this`esrReplies
      ensures stb == old(esrReplies)[0] && esrReplies == old(esrReplies)[1..]
      ensures log == old(log) + [Query(EsrQuery)]
    {
      stb := esrReplies[0];
      esrReplies := esrReplies[1..];
      log := log + [Query(EsrQuery)];
    }

    method IsStopped() returns (stopped: bool)
      requires |stopFlags| > 0
      modifies this`stopFlags
      ensures stopped == old(stopFlags)[0] && stopFlags == old(stopFlags)[1..]
    {
      stopped := stopFlags[0];
      stopFlags := stopFlags[1..];
    }

    method WaitMs(ms: nat)
      modifies this`log
      ensures log == old(log) + [Wait(ms)]
    {
      log := log + [Wait(ms)];
    }

    /** `self.read(...)` followed by `decode()`. */
    method Read() returns (data: string)
      modifies this`log
      ensures data == traceReply && log == old(log) + [ReadReply]
    {
      data := traceReply;
      log := log + [ReadReply];
    }

    method SendValueToOther(name: string, value: real)
      modifies this`log
      ensures log == old(log) + [SetOther(name, value)]
    {
      log := log + [SetOther(name, value)];
    }

    /** `readValueFromOther('Start frequency')` and `('Stop frequency')`. */
    method ReadFrequencyAxis() returns (x0: real, x1: real)
      modifies this`log
      ensures x0 == quantities.startFrequency && x1 == quantities.stopFrequency
      ensures log == old(log) + AxisEvents
    {
      x0 := quantities.startFrequency;
      log := log + [ReadOther("Start frequency")];
      x1 := quantities.stopFrequency;
      log := log + [ReadOther("Stop frequency")];
    }

    // --- the driver's own operations --------------------------------------

    /** `performGetValue`: the quantity name decides what is measured. */
    method PerformGetValue(name: string, parse: string -> Option<real>) returns (r: Outcome)
      modifies this`log, this`esrReplies, this`stopFlags
      ensures var run := GetValue(name, quantities, old(esrReplies), old(stopFlags), traceReply, parse);
        log == old(log) + run.events && r == run.outcome
        && esrReplies == run.esrLeft && stopFlags == run.stopsLeft
    {
      if name == "Signal" {
        r := Measure(false, parse);
      } else if name == "Signal - Zero span" {
        r := Measure(true, parse);
      } else if name == "Wait for new trace" {
        r := LocalFlag(quantities.waitForNewTrace);
      } else {
        r := Delegated;
      }
    }

    /** The acquisition shared by 'Signal' and 'Signal - Zero span'. */
    method Measure(zeroSpan: bool, parse: string -> Option<real>) returns (r: Outcome)
      modifies this`log, this`esrReplies, this`stopFlags
      ensures var run := Acquire(quantities, zeroSpan, old(esrReplies), old(stopFlags), traceReply, parse);
        log == old(log) + run.events && r == run.outcome
        && esrReplies == run.esrLeft && stopFlags == run.stopsLeft
    {
      if quantities.waitForNewTrace {
        Trigger();
        WaitMs(SettleMs);
        ghost var armed := log;
        r := WaitAndRead(zeroSpan, parse);
        assert log == old(log) + [Write(TriggerCommand(quantities)), Wait(SettleMs)] + (log[|armed|..]);
      } else {
        r := ReadOut(zeroSpan, parse);
      }
    }

    /** After the trigger: wait for the sweep, then read the trace unless stopped. */
    method WaitAndRead(zeroSpan: bool, parse: string -> Option<real>) returns (r: Outcome)
      modifies this`log, this`esrReplies, this`stopFlags
      ensures var w := AfterTrigger(quantities, zeroSpan, old(esrReplies), old(stopFlags), traceReply, parse);
        log == old(log) + w.events && r == w.outcome
        && esrReplies == w.esrLeft && stopFlags == w.stopsLeft
    {
      ghost var a := Await(esrReplies, stopFlags);
      var sync := AwaitSweep();
      if sync == Pending {
        return Unfinished;
      } else if sync == Stopped {
        return Empty;
      }
      ghost var waited := log;
      r := ReadOut(zeroSpan, parse);
      assert log == waited + Readout(quantities, zeroSpan, traceReply, parse).events;
    }

    /** Abort, switch to single sweeps, set the average count and start a sweep. */
    method Trigger()
      modifies this`log
      ensures log == old(log) + [Write(TriggerCommand(quantities))]
    {
      if quantities.average {
        var n := quantities.averages;
        WriteAndLog(AveragedTrigger(TruncateToInt(n)));
      } else {
        WriteAndLog(UnaveragedTrigger);
      }
    }

    /** Poll until done or stopped; if the stop flag is then set, clean up. */
    method AwaitSweep() returns (sync: Sync)
      modifies this`log, this`esrReplies, this`stopFlags
      ensures var a := Await(old(esrReplies), old(stopFlags));
        log == old(log) + a.events && sync == a.sync
        && esrReplies == a.esrLeft && stopFlags == a.stopsLeft
    {
      var end := PollUntilDone();
      if end == Exhausted || |stopFlags| == 0 {
        return Pending;
      }
      var stopped := IsStopped();
      if stopped {
        WriteAndLog(Cleanup);
        return Stopped;
      }
      return Ready;
    }

    /**
     * `while (not bDone) and (not self.isStopped())`: observe the stop flag,
     * poll `*ESR?`, and wait 100 ms after a poll whose bit 0 is clear.
     */
    method PollUntilDone() returns (end: PollEnd)
      modifies this`log, this`esrReplies, this`stopFlags
      ensures var p := PollLoop(old(esrReplies), old(stopFlags));
        log == old(log) + p.events && end == p.end
        && esrReplies == p.esrLeft && stopFlags == p.stopsLeft
    {
      ghost var emitted: seq<Event> := [];
      ghost var esr0, stops0 := esrReplies, stopFlags;
      var polling := true;
      end := Exhausted;
      while polling
        invariant log == old(log) + emitted
        invariant polling ==> PollLoop(esr0, stops0) == Prefixed(emitted, PollLoop(esrReplies, stopFlags))
        invariant !polling ==> PollLoop(esr0, stops0) == Poll(emitted, end, esrReplies, stopFlags)
        decreases polling, |stopFlags|
      {
        ghost var e, st, before := esrReplies, stopFlags, emitted;
        if |stopFlags| == 0 {
          end, polling := Exhausted, false;
          assert PollLoop(e, st) == Poll([], Exhausted, e, st);
        } else {
          var stopped := IsStopped();
          if stopped {
            end, polling := StopSeen, false;
            assert PollLoop(e, st) == Poll([], StopSeen, e, stopFlags);
          } else if |esrReplies| == 0 {
            end, polling := Exhausted, false;
            assert PollLoop(e, st) == Poll([], Exhausted, e, stopFlags);
          } else {
            var stb := AskEsr();
            var done := OperationComplete(stb);
            if done {
              end, polling := Completed, false;
              assert PollLoop(e, st) == Poll([Query(EsrQuery)], Completed, esrReplies, stopFlags);
              emitted := before + [Query(EsrQuery)];
            } else {
              WaitMs(PollIntervalMs);
              assert PollLoop(e, st) == Prefixed([Query(EsrQuery), Wait(PollIntervalMs)], PollLoop(esrReplies, stopFlags));
              PrefixedTwice(before, [Query(EsrQuery), Wait(PollIntervalMs)], PollLoop(esrReplies, stopFlags));
              emitted := before + [Query(EsrQuery), Wait(PollIntervalMs)];
            }
          }
        }
      }
    }

    /** Resume channel 1, query and read the trace, convert every field. */
    method ReadOut(zeroSpan: bool, parse: string -> Option<real>) returns (r: Outcome)
      modifies this`log
      ensures var rd := Readout(quantities, zeroSpan, traceReply, parse);
        log == old(log) + rd.events && r == rd.outcome
    {
      WriteAndLog(ResumeChannel1);
      WriteAndLog(TraceQuery);
      var data := Read();
      if !zeroSpan && quantities.waitForNewTrace && !quantities.average {
        WriteAndLog(ResumeContinuous);
      }
      var values := ConvertAll(Split(data, ','), parse);
      match values
      case None =>
        r := FormatError;
      case Some(v) =>
        if zeroSpan {
          r := Scalar(Mean(v));
        } else {
          var x0, x1 := ReadFrequencyAxis();
          r := Trace(v, x0, x1);
        }
    }

    /**
     * `performSetValue`: switching 'Range type' to zero span sets Span to 0
     * and '# of points' to 2 and shortens the sweep time; clearing 'Wait for
     * new trace' resumes continuous sweeps. Both return the value as given;
     * every other quantity is passed to the generic driver.
     */
    method PerformSetValue(name: string, value: QValue) returns (r: SetResult)
      modifies this`log
      ensures name == "Range type" ==>
        (r == Returned(value)
         && log == old(log) + (if value == Label("Zero-span mode")
                               then [SetOther("Span", 0.0), SetOther("# of points", 2.0), Write(ZeroSpanTiming)]
                               else []))
      ensures name == "Wait for new trace" ==>
        (r == Returned(value) && log == old(log) + (if EqualsFalse(value) then [Write(ResumeContinuous)] else []))
      ensures name != "Range type" && name != "Wait for new trace" ==> r == Passed && log == old(log)
    {
      if name == "Range type" {
        if value == Label("Zero-span mode") {
          SendValueToOther("Span", 0.0);
          SendValueToOther("# of points", 2.0);
          WriteAndLog(ZeroSpanTiming);
        }
      } else if name == "Wait for new trace" {
        if EqualsFalse(value) {
          WriteAndLog(ResumeContinuous);
        }
      } else {
        return Passed;
      }
      r := Returned(value);
    }
  }
}
