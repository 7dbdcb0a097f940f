/**
 * Specification of the acquisition performed by `performGetValue` for the
 * quantities 'Signal' and 'Signal - Zero span': trigger, settle, poll `*ESR?`
 * until bit 0 is set or the stop flag is seen, clean up on stop, otherwise
 * resume continuous mode and read the trace.
 *
 * The instrument and the host are oracles: `esr` lists the replies of
 * successive `*ESR?` queries, `stops` the results of successive
 * `isStopped()` calls, `reply` the text returned by the trace read. Running
 * out of either sequence ends the run as `Unfinished` (the real call would
 * go on polling).
 */
module Acquisition {
  import opened Wrappers
  import opened Scpi
  import opened TraceData

  /** Values of the host's quantities that the acquisition reads. */
  datatype Quantities = Quantities(
    waitForNewTrace: bool,   // 'Wait for new trace'
    average: bool,           // 'Average'
    averages: real,          // '# of averages'
    startFrequency: real,    // 'Start frequency', via readValueFromOther
    stopFrequency: real)     // 'Stop frequency', via readValueFromOther

  /** What a get-value call returns. */
  datatype Outcome =
    | Empty                                        // stopped: `return []`
    | Trace(samples: seq<real>, x0: real, x1: real) // getTraceDict(vData, x0, x1)
    | Scalar(value: real)                          // np.average(vData)
    | FormatError                                  // float() raised on some field
    | Unfinished                                   // an oracle ran out before the call ended
    | LocalFlag(flag: bool)                        // 'Wait for new trace' answered locally
    | Delegated                                    // handed to the generic VISA driver

  datatype PollEnd = Completed | StopSeen | Exhausted

  /** Result of the poll loop: what it emitted, why it ended, and the unused oracles. */
  datatype Poll = Poll(events: seq<Event>, end: PollEnd, esrLeft: seq<int>, stopsLeft: seq<bool>)

  /** Result of a whole call: emitted events, outcome, and the unused oracles. */
  datatype Run = Run(events: seq<Event>, outcome: Outcome, esrLeft: seq<int>, stopsLeft: seq<bool>)

  /** Events and outcome of the read-out that follows a completed (or skipped) wait. */
  datatype Reading = Reading(events: seq<Event>, outcome: Outcome)

  /** The trigger command written in wait mode. */
  function TriggerCommand(q: Quantities): string
  {
    if q.average then AveragedTrigger(TruncateToInt(q.averages)) else UnaveragedTrigger
  }

  /**
   * `while (not bDone) and (not self.isStopped())`: each iteration first
   * observes the stop flag, then queries `*ESR?`, then waits unless bit 0 is set.
   */
  function PollLoop(esr: seq<int>, stops: seq<bool>): Poll
    decreases |stops|
  {
    if |stops| == 0 then Poll([], Exhausted, esr, stops)
    else if stops[0] then Poll([], StopSeen, esr, stops[1..])
    else if |esr| == 0 then Poll([], Exhausted, esr, stops[1..])
    else if OperationComplete(esr[0]) then Poll([Query(EsrQuery)], Completed, esr[1..], stops[1..])
    else
      Prefixed([Query(EsrQuery), Wait(PollIntervalMs)], PollLoop(esr[1..], stops[1..]))
  }

  /** The loop's result with `prefix` emitted before it. */
  function Prefixed(prefix: seq<Event>, p: Poll): Poll
  {
    p.(events := prefix + p.events)
  }

  lemma PrefixedTwice(a: seq<Event>, b: seq<Event>, p: Poll)
    ensures Prefixed(a, Prefixed(b, p)) == Prefixed(a + b, p)
  {
    assert a + (b + p.events) == (a + b) + p.events;
  }

  /** Independent description of a poll sequence: each poll, then a wait unless it reported done. */
  function PollEvents(replies: seq<int>): seq<Event>
  {
    if |replies| == 0 then []
    else [Query(EsrQuery)] + (if OperationComplete(replies[0]) then [] else [Wait(PollIntervalMs)])
         + PollEvents(replies[1..])
  }

  /** Replies none of which reports completion. */
  predicate AllClear(replies: seq<int>)
  {
    forall i :: 0 <= i < |replies| ==> !OperationComplete(replies[i])
  }

  /** Number of replies whose bit 0 is clear. */
  function CountClear(replies: seq<int>): nat
  {
    if |replies| == 0 then 0 else (if OperationComplete(replies[0]) then 0 else 1) + CountClear(replies[1..])
  }

  /** The value built from the trace reply: a trace, its zero-span average, or a conversion failure. */
  function Decode(q: Quantities, zeroSpan: bool, reply: string, parse: string -> Option<real>): Outcome
  {
    match ConvertAll(Split(reply, ','), parse)
    case None => FormatError
    case Some(v) => if zeroSpan then Scalar(Mean(v)) else Trace(v, q.startFrequency, q.stopFrequency)
  }

  /** `:INIT:CONT ON;` after the read: only for 'Signal', in wait mode, without averaging. */
  function ResumeAfterReadEvents(q: Quantities, zeroSpan: bool): seq<Event>
  {
    if !zeroSpan && q.waitForNewTrace && !q.average then [Write(ResumeContinuous)] else []
  }

  const ReadEvents := [Write(ResumeChannel1), Write(TraceQuery), ReadReply]
  const AxisEvents := [ReadOther("Start frequency"), ReadOther("Stop frequency")]

  /** Read-out: resume channel 1, query and read the trace, convert it, read the axis for a trace. */
  function Readout(q: Quantities, zeroSpan: bool, reply: string, parse: string -> Option<real>): Reading
  {
    var out := Decode(q, zeroSpan, reply, parse);
    Reading(ReadEvents + ResumeAfterReadEvents(q, zeroSpan) + (if out.Trace? then AxisEvents else []), out)
  }

  /** How the wait for the sweep ended, after the second look at the stop flag. */
  datatype Sync = Ready | Stopped | Pending

  /** Events of the wait for the sweep, how it ended, and the unused oracles. */
  datatype Awaited = Awaited(events: seq<Event>, sync: Sync, esrLeft: seq<int>, stopsLeft: seq<bool>)

  /** The poll loop followed by `if self.isStopped(): write cleanup; return []`. */
  function Await(esr: seq<int>, stops: seq<bool>): Awaited
  {
    var p := PollLoop(esr, stops);
    if p.end == Exhausted || |p.stopsLeft| == 0 then Awaited(p.events, Pending, p.esrLeft, p.stopsLeft)
    else if p.stopsLeft[0] then Awaited(p.events + [Write(Cleanup)], Stopped, p.esrLeft, p.stopsLeft[1..])
    else Awaited(p.events, Ready, p.esrLeft, p.stopsLeft[1..])
  }

  /** Everything after the trigger and the settle wait: wait for the sweep, then read out. */
  function AfterTrigger(q: Quantities, zeroSpan: bool, esr: seq<int>, stops: seq<bool>,
                        reply: string, parse: string -> Option<real>): Run
  {
    var a := Await(esr, stops);
    match a.sync
    case Pending => Run(a.events, Unfinished, a.esrLeft, a.stopsLeft)
    case Stopped => Run(a.events, Empty, a.esrLeft, a.stopsLeft)
    case Ready =>
      var rd := Readout(q, zeroSpan, reply, parse);
      Run(a.events + rd.events, rd.outcome, a.esrLeft, a.stopsLeft)
  }

  /** The whole acquisition for 'Signal' (zeroSpan false) or 'Signal - Zero span' (zeroSpan true). */
  function Acquire(q: Quantities, zeroSpan: bool, esr: seq<int>, stops: seq<bool>,
                   reply: string, parse: string -> Option<real>): Run
  {
    if !q.waitForNewTrace then
      var rd := Readout(q, zeroSpan, reply, parse);
      Run(rd.events, rd.outcome, esr, stops)
    else
      var w := AfterTrigger(q, zeroSpan, esr, stops, reply, parse);
      w.(events := [Write(TriggerCommand(q)), Wait(SettleMs)] + w.events)
  }

  /** `performGetValue`: dispatch on the quantity name. */
  function GetValue(name: string, q: Quantities, esr: seq<int>, stops: seq<bool>,
                    reply: string, parse: string -> Option<real>): Run
  {
    if name == "Signal" then Acquire(q, false, esr, stops, reply, parse)
    else if name == "Signal - Zero span" then Acquire(q, true, esr, stops, reply, parse)
    else if name == "Wait for new trace" then Run([], LocalFlag(q.waitForNewTrace), esr, stops)
    else Run([], Delegated, esr, stops)
  }

  // ---------------------------------------------------------------------------
  // The poll loop

  /**
   * The loop ends exactly when the stop flag is seen at the top of an
   * iteration or the last `*ESR?` reply has bit 0 set; with k polls made it
   * has emitted `PollEvents` of the first k replies and consumed exactly
   * those replies and the stop observations made before each of them.
   */
  lemma {:induction false} PollLoopExits(esr: seq<int>, stops: seq<bool>)
    ensures var p := PollLoop(esr, stops); var k := |esr| - |p.esrLeft|;
      0 <= k <= |esr| && k <= |stops| && p.esrLeft == esr[k..]
      && p.events == PollEvents(esr[..k])
      && (forall i :: 0 <= i < k ==> !stops[i])
      && (p.end == Completed ==>
            0 < k && OperationComplete(esr[k - 1]) && AllClear(esr[..k - 1]) && p.stopsLeft == stops[k..])
      && (p.end == StopSeen ==>
            k < |stops| && stops[k] && AllClear(esr[..k]) && p.stopsLeft == stops[k + 1..])
      && (p.end == Exhausted ==> AllClear(esr[..k]) && (k == |stops| || k == |esr|))
    decreases |stops|
  {
    var p := PollLoop(esr, stops);
    if |stops| == 0 || stops[0] || |esr| == 0 {
      assert esr[..0] == [];
    } else if OperationComplete(esr[0]) {
      assert esr[..1] == [esr[0]];
      assert esr[..0] == [];
    } else {
      var rest := PollLoop(esr[1..], stops[1..]);
      PollLoopExits(esr[1..], stops[1..]);
      var k' := |esr[1..]| - |rest.esrLeft|;
      var k := k' + 1;
      assert esr[..k] == [esr[0]] + esr[1..][..k'];
      assert esr[..k][1..] == esr[1..][..k'];
      assert esr[1..][k'..] == esr[k..];
      assert stops[1..][k'..] == stops[k..];
      if p.end == Completed {
        assert esr[..k - 1] == [esr[0]] + esr[1..][..k' - 1];
      }
      if p.end == StopSeen {
        assert stops[1..][k' + 1..] == stops[k + 1..];
      }
    }
  }

  /** Number of occurrences of `e` in `events`. */
  function Count(events: seq<Event>, e: Event): nat
  {
    if |events| == 0 then 0 else (if events[0] == e then 1 else 0) + Count(events[1..], e)
  }

  lemma {:induction false} CountAppend(a: seq<Event>, b: seq<Event>, e: Event)
    ensures Count(a + b, e) == Count(a, e) + Count(b, e)
  {
    if |a| > 0 {
      assert (a + b)[1..] == a[1..] + b;
      CountAppend(a[1..], b, e);
    } else {
      assert a + b == b;
    }
  }

  lemma {:induction false} CountAbsent(a: seq<Event>, e: Event)
    requires e !in a
    ensures Count(a, e) == 0
  {
    if |a| > 0 {
      assert e !in a[1..];
      CountAbsent(a[1..], e);
    }
  }

  /** Each poll contributes one query; each poll not done contributes one 100 ms wait. */
  lemma {:induction false} PollEventsCounts(replies: seq<int>)
    ensures Count(PollEvents(replies), Query(EsrQuery)) == |replies|
    ensures Count(PollEvents(replies), Wait(PollIntervalMs)) == CountClear(replies)
    ensures forall e :: e in PollEvents(replies) ==> e == Query(EsrQuery) || e == Wait(PollIntervalMs)
  {
    if |replies| > 0 {
      PollEventsCounts(replies[1..]);
      var head := [Query(EsrQuery)] + (if OperationComplete(replies[0]) then [] else [Wait(PollIntervalMs)]);
      CountAppend(head, PollEvents(replies[1..]), Query(EsrQuery));
      CountAppend(head, PollEvents(replies[1..]), Wait(PollIntervalMs));
    }
  }

  /** The loop emits nothing but status queries and 100 ms waits. */
  lemma {:induction false} PollLoopEventKinds(esr: seq<int>, stops: seq<bool>)
    ensures forall e :: e in PollLoop(esr, stops).events ==> e == Query(EsrQuery) || e == Wait(PollIntervalMs)
    decreases |stops|
  {
    if |stops| > 0 && !stops[0] && |esr| > 0 && !OperationComplete(esr[0]) {
      PollLoopEventKinds(esr[1..], stops[1..]);
    }
  }

  /** When every poll reports not-done, each is followed by a wait. */
  lemma {:induction false} AllClearCount(replies: seq<int>)
    requires AllClear(replies)
    ensures CountClear(replies) == |replies|
  {
    if |replies| > 0 {
      AllClearCount(replies[1..]);
    }
  }

  /** Number of 100 ms waits is the number of polls not done, and never exceeds the polls. */
  lemma PollWaits(esr: seq<int>, stops: seq<bool>)
    ensures var p := PollLoop(esr, stops); var k := |esr| - |p.esrLeft|;
      0 <= k <= |esr| && p.esrLeft == esr[k..]
      && Count(p.events, Query(EsrQuery)) == k
      && Count(p.events, Wait(PollIntervalMs)) == CountClear(esr[..k])
      && (p.end == Completed ==> Count(p.events, Wait(PollIntervalMs)) == k - 1)
      && (p.end != Completed ==> Count(p.events, Wait(PollIntervalMs)) == k)
  {
    var p := PollLoop(esr, stops);
    PollLoopExits(esr, stops);
    var k := |esr| - |p.esrLeft|;
    PollEventsCounts(esr[..k]);
    if p.end == Completed {
      AllClearCount(esr[..k - 1]);
      CountClearLast(esr[..k]);
      assert esr[..k][..k - 1] == esr[..k - 1];
    } else {
      AllClearCount(esr[..k]);
    }
  }

  lemma {:induction false} CountClearLast(replies: seq<int>)
    requires |replies| > 0
    ensures CountClear(replies) == CountClear(replies[..|replies| - 1])
                                   + (if OperationComplete(replies[|replies| - 1]) then 0 else 1)
  {
    if |replies| > 1 {
      CountClearLast(replies[1..]);
      assert replies[1..][..|replies| - 2] == replies[..|replies| - 1][1..];
    }
  }

  // ---------------------------------------------------------------------------
  // Properties of a whole acquisition

  /** The read-out never triggers, polls, waits or cleans up. */
  lemma ReadoutEvents(q: Quantities, zeroSpan: bool, reply: string, parse: string -> Option<real>)
    ensures var rd := Readout(q, zeroSpan, reply, parse);
      |rd.events| >= 3 && rd.events[..3] == [Write(ResumeChannel1), Write(TraceQuery), ReadReply]
      && rd.outcome != Empty && rd.outcome != Unfinished
      && (forall e :: e in rd.events ==> !e.Wait? && !e.Query? && e != Write(Cleanup))
      && (forall c :: Write(c) in rd.events ==> c == ResumeChannel1 || c == TraceQuery || c == ResumeContinuous)
  {
  }

  /** The trigger command is none of the other commands of an acquisition. */
  lemma TriggerIsDistinct(q: Quantities)
    ensures TriggerCommand(q) != ResumeChannel1 && TriggerCommand(q) != TraceQuery
    ensures TriggerCommand(q) != ResumeContinuous && TriggerCommand(q) != Cleanup
  {
    var t := TriggerCommand(q);
    TriggerCommands(TruncateToInt(q.averages));
    assert t[..6] == ":ABOR;";
    assert t[1] == t[..6][1] == 'A';
    assert ResumeChannel1[1] == 'I' && TraceQuery[1] == 'F';
    assert ResumeContinuous[1] == 'I' && Cleanup[1] == 'C';
  }

  /**
   * In wait mode exactly one trigger command is written, first, followed by
   * the one 30 ms settle wait; every status poll comes after them.
   */
  lemma WaitModeTriggersOnce(q: Quantities, zeroSpan: bool, esr: seq<int>, stops: seq<bool>,
                              reply: string, parse: string -> Option<real>)
    requires q.waitForNewTrace
    ensures var r := Acquire(q, zeroSpan, esr, stops, reply, parse);
      |r.events| >= 2 && r.events[0] == Write(TriggerCommand(q)) && r.events[1] == Wait(SettleMs)
      && Count(r.events, Write(TriggerCommand(q))) == 1
      && Count(r.events, Wait(SettleMs)) == 1
      && Query(EsrQuery) !in r.events[..2]
  {
    var tail := AfterTrigger(q, zeroSpan, esr, stops, reply, parse).events;
    assert Write(TriggerCommand(q)) !in tail && Wait(SettleMs) !in tail by {
      AfterTriggerEvents(q, zeroSpan, esr, stops, reply, parse);
      TriggerIsDistinct(q);
    }
    var arm := [Write(TriggerCommand(q)), Wait(SettleMs)];
    var r := Acquire(q, zeroSpan, esr, stops, reply, parse);
    assert r.events == arm + tail;
    CountAppend(arm, tail, Write(TriggerCommand(q)));
    CountAppend(arm, tail, Wait(SettleMs));
    CountAbsent(tail, Write(TriggerCommand(q)));
    CountAbsent(tail, Wait(SettleMs));
  }

  /** After the trigger only polls, 100 ms waits, the cleanup and the read-out commands occur. */
  lemma AfterTriggerEvents(q: Quantities, zeroSpan: bool, esr: seq<int>, stops: seq<bool>,
                           reply: string, parse: string -> Option<real>)
    ensures forall e :: e in AfterTrigger(q, zeroSpan, esr, stops, reply, parse).events ==>
      e == Query(EsrQuery) || e == Wait(PollIntervalMs) || e == ReadReply || e.ReadOther?
      || e == Write(Cleanup) || e == Write(ResumeChannel1) || e == Write(TraceQuery) || e == Write(ResumeContinuous)
  {
    PollLoopEventKinds(esr, stops);
  }

  /**
   * A stop flag seen after the loop sends the cleanup command last and returns
   * Empty, without resuming channel 1 or reading the trace, whatever the last
   * poll said.
   */
  lemma StopAfterLoopCleansUp(q: Quantities, zeroSpan: bool, esr: seq<int>, stops: seq<bool>,
                               reply: string, parse: string -> Option<real>)
    requires q.waitForNewTrace
    ensures var p := PollLoop(esr, stops); var r := Acquire(q, zeroSpan, esr, stops, reply, parse);
      p.end != Exhausted && |p.stopsLeft| > 0 && p.stopsLeft[0] ==>
        r.outcome == Empty && r.events[|r.events| - 1] == Write(Cleanup)
        && r.events == [Write(TriggerCommand(q)), Wait(SettleMs)] + p.events + [Write(Cleanup)]
        && Write(ResumeChannel1) !in r.events && Write(TraceQuery) !in r.events && ReadReply !in r.events
  {
    PollLoopEventKinds(esr, stops);
  }

  /** The outcome is Empty exactly when the wait mode saw the stop flag after the loop. */
  lemma EmptyMeansStopped(q: Quantities, zeroSpan: bool, esr: seq<int>, stops: seq<bool>,
                          reply: string, parse: string -> Option<real>)
    ensures var p := PollLoop(esr, stops); var r := Acquire(q, zeroSpan, esr, stops, reply, parse);
      r.outcome == Empty <==>
        q.waitForNewTrace && p.end != Exhausted && |p.stopsLeft| > 0 && p.stopsLeft[0]
  {
    ReadoutEvents(q, zeroSpan, reply, parse);
  }

  /**
   * Without 'Wait for new trace' the call resumes channel 1 and reads the
   * trace, and nothing else: no trigger, poll, wait or cleanup, and neither
   * oracle is consulted.
   */
  lemma ContinuousModeOnlyReads(q: Quantities, zeroSpan: bool, esr: seq<int>, stops: seq<bool>,
                                reply: string, parse: string -> Option<real>)
    requires !q.waitForNewTrace
    ensures var r := Acquire(q, zeroSpan, esr, stops, reply, parse);
      r.esrLeft == esr && r.stopsLeft == stops
      && (r.events == [Write(ResumeChannel1), Write(TraceQuery), ReadReply]
          || r.events == [Write(ResumeChannel1), Write(TraceQuery), ReadReply,
                          ReadOther("Start frequency"), ReadOther("Stop frequency")])
  {
  }

  /**
   * 'Signal' writes `:INIT:CONT ON;` right after the read exactly in wait mode
   * without averaging; 'Signal - Zero span' never does.
   */
  lemma ResumeAfterRead(q: Quantities, zeroSpan: bool, reply: string, parse: string -> Option<real>)
    ensures var rd := Readout(q, zeroSpan, reply, parse);
      ((|rd.events| > 3 && rd.events[3] == Write(ResumeContinuous))
         <==> (!zeroSpan && q.waitForNewTrace && !q.average))
      && (Write(ResumeContinuous) in rd.events <==> (!zeroSpan && q.waitForNewTrace && !q.average))
  {
  }

  /**
   * The read-out is all or nothing: a trace or scalar is built from every
   * field of the reply, the fields being the reply split at each comma; a
   * single field that does not convert makes the whole call a FormatError.
   */
  lemma ReadoutAllOrNothing(q: Quantities, zeroSpan: bool, reply: string, parse: string -> Option<real>)
    ensures var rd := Readout(q, zeroSpan, reply, parse); var fields := Split(reply, ',');
      |fields| == Occurrences(reply, ',') + 1
      && (rd.outcome == FormatError <==> exists i :: 0 <= i < |fields| && parse(fields[i]).None?)
      && (rd.outcome.Trace? ==>
            (!zeroSpan && |rd.outcome.samples| == |fields|
             && (forall i :: 0 <= i < |fields| ==> parse(fields[i]) == Some(rd.outcome.samples[i]))
             && rd.outcome.x0 == q.startFrequency && rd.outcome.x1 == q.stopFrequency))
      && (rd.outcome.Scalar? ==>
            (zeroSpan && exists v :: ConvertAll(fields, parse) == Some(v) && |v| == |fields| && rd.outcome.value == Mean(v)))
      && (rd.outcome.Trace? || rd.outcome.Scalar? || rd.outcome == FormatError)
  {
    SplitCount(reply, ',');
    ConvertAllSpec(Split(reply, ','), parse);
  }

  /** The events other than the resume of continuous mode after the read. */
  function WithoutResume(events: seq<Event>): (r: seq<Event>)
    ensures Write(ResumeContinuous) !in r
  {
    if |events| == 0 then []
    else (if events[0] == Write(ResumeContinuous) then [] else [events[0]]) + WithoutResume(events[1..])
  }

  lemma {:induction false} WithoutResumeAppend(a: seq<Event>, b: seq<Event>)
    ensures WithoutResume(a + b) == WithoutResume(a) + WithoutResume(b)
  {
    if |a| > 0 {
      assert (a + b)[1..] == a[1..] + b;
      WithoutResumeAppend(a[1..], b);
    } else {
      assert a + b == b;
    }
  }

  /** The read-out with and without averaging differs only in the resume after the read. */
  lemma ReadoutAveraging(q: Quantities, zeroSpan: bool, reply: string, parse: string -> Option<real>)
    ensures var ra := Readout(q.(average := true), zeroSpan, reply, parse);
            var ru := Readout(q.(average := false), zeroSpan, reply, parse);
      ra.outcome == ru.outcome && WithoutResume(ra.events) == WithoutResume(ru.events)
  {
    var ra := Readout(q.(average := true), zeroSpan, reply, parse);
    var ru := Readout(q.(average := false), zeroSpan, reply, parse);
    var tail := if ra.outcome.Trace? then AxisEvents else [];
    assert ra.events == ReadEvents + tail;
    var extra := ResumeAfterReadEvents(q.(average := false), zeroSpan);
    assert ru.events == ReadEvents + extra + tail;
    WithoutResumeAppend(ReadEvents + extra, tail);
    WithoutResumeAppend(ReadEvents, extra);
    WithoutResumeAppend(ReadEvents, tail);
  }

  lemma AfterTriggerAveraging(q: Quantities, zeroSpan: bool, esr: seq<int>, stops: seq<bool>,
                              reply: string, parse: string -> Option<real>)
    ensures var a := AfterTrigger(q.(average := true), zeroSpan, esr, stops, reply, parse);
            var u := AfterTrigger(q.(average := false), zeroSpan, esr, stops, reply, parse);
      a.outcome == u.outcome && a.esrLeft == u.esrLeft && a.stopsLeft == u.stopsLeft
      && WithoutResume(a.events) == WithoutResume(u.events)
  {
    var p := PollLoop(esr, stops);
    if p.end != Exhausted && |p.stopsLeft| > 0 && !p.stopsLeft[0] {
      var ra := Readout(q.(average := true), zeroSpan, reply, parse);
      var ru := Readout(q.(average := false), zeroSpan, reply, parse);
      ReadoutAveraging(q, zeroSpan, reply, parse);
      WithoutResumeAppend(p.events, ra.events);
      WithoutResumeAppend(p.events, ru.events);
    }
  }

  /**
   * The averaged and unaveraged paths poll with the same test: apart from the
   * trigger command and the resume of continuous mode after the read, they
   * emit the same events, consume the same oracles and return the same outcome.
   */
  lemma AveragingOnlyChangesCommands(q: Quantities, zeroSpan: bool, esr: seq<int>, stops: seq<bool>,
                                     reply: string, parse: string -> Option<real>)
    ensures var a := Acquire(q.(average := true), zeroSpan, esr, stops, reply, parse);
            var u := Acquire(q.(average := false), zeroSpan, esr, stops, reply, parse);
      a.outcome == u.outcome && a.esrLeft == u.esrLeft && a.stopsLeft == u.stopsLeft
      && |a.events| > 0 && |u.events| > 0
      && WithoutResume(a.events[1..]) == WithoutResume(u.events[1..])
  {
    var qa := q.(average := true);
    var qu := q.(average := false);
    var a := Acquire(qa, zeroSpan, esr, stops, reply, parse);
    var u := Acquire(qu, zeroSpan, esr, stops, reply, parse);
    if q.waitForNewTrace {
      var wa := AfterTrigger(qa, zeroSpan, esr, stops, reply, parse);
      var wu := AfterTrigger(qu, zeroSpan, esr, stops, reply, parse);
      assert a == wa.(events := [Write(TriggerCommand(qa)), Wait(SettleMs)] + wa.events);
      assert u == wu.(events := [Write(TriggerCommand(qu)), Wait(SettleMs)] + wu.events);
      assert a.events[1..] == [Wait(SettleMs)] + wa.events;
      assert u.events[1..] == [Wait(SettleMs)] + wu.events;
      AfterTriggerAveraging(q, zeroSpan, esr, stops, reply, parse);
      WithoutResumeAppend([Wait(SettleMs)], wa.events);
      WithoutResumeAppend([Wait(SettleMs)], wu.events);
    } else {
      var rd := Readout(qa, zeroSpan, reply, parse);
      assert rd == Readout(qu, zeroSpan, reply, parse);
      assert a == Run(rd.events, rd.outcome, esr, stops) == u;
      ReadoutEvents(qa, zeroSpan, reply, parse);
    }
  }

  /**
   * Over a whole wait-mode call there is one `*ESR?` query per poll and one
   * 100 ms wait per poll whose bit 0 was clear.
   */
  lemma WaitModeWaits(q: Quantities, zeroSpan: bool, esr: seq<int>, stops: seq<bool>,
                      reply: string, parse: string -> Option<real>)
    requires q.waitForNewTrace
    ensures var r := Acquire(q, zeroSpan, esr, stops, reply, parse); var k := |esr| - |r.esrLeft|;
      0 <= k <= |esr| && r.esrLeft == esr[k..]
      && Count(r.events, Query(EsrQuery)) == k
      && Count(r.events, Wait(PollIntervalMs)) == CountClear(esr[..k])
  {
    var w := AfterTrigger(q, zeroSpan, esr, stops, reply, parse);
    AfterTriggerCounts(q, zeroSpan, esr, stops, reply, parse);
    var arm := [Write(TriggerCommand(q)), Wait(SettleMs)];
    assert Acquire(q, zeroSpan, esr, stops, reply, parse) == w.(events := arm + w.events);
    CountAppend(arm, w.events, Query(EsrQuery));
    CountAppend(arm, w.events, Wait(PollIntervalMs));
  }

  /** The counts of polls and 100 ms waits after the trigger are those of the poll loop. */
  lemma AfterTriggerCounts(q: Quantities, zeroSpan: bool, esr: seq<int>, stops: seq<bool>,
                           reply: string, parse: string -> Option<real>)
    ensures var w := AfterTrigger(q, zeroSpan, esr, stops, reply, parse); var k := |esr| - |w.esrLeft|;
      0 <= k <= |esr| && w.esrLeft == esr[k..]
      && Count(w.events, Query(EsrQuery)) == k
      && Count(w.events, Wait(PollIntervalMs)) == CountClear(esr[..k])
  {
    var p := PollLoop(esr, stops);
    var w := AfterTrigger(q, zeroSpan, esr, stops, reply, parse);
    var tail := w.events[|p.events|..];
    assert w.events == p.events + tail && w.esrLeft == p.esrLeft
        && Query(EsrQuery) !in tail && Wait(PollIntervalMs) !in tail by {
      AfterTriggerSplit(q, zeroSpan, esr, stops, reply, parse);
    }
    var k := |esr| - |p.esrLeft|;
    assert 0 <= k <= |esr| && p.esrLeft == esr[k..]
        && Count(p.events, Query(EsrQuery)) == k
        && Count(p.events, Wait(PollIntervalMs)) == CountClear(esr[..k]) by {
      PollWaits(esr, stops);
    }
    CountAppend(p.events, tail, Query(EsrQuery));
    CountAppend(p.events, tail, Wait(PollIntervalMs));
    CountAbsent(tail, Query(EsrQuery));
    CountAbsent(tail, Wait(PollIntervalMs));
  }

  /** After the trigger, the poll loop's events come first; what follows holds no poll and no wait. */
  lemma AfterTriggerSplit(q: Quantities, zeroSpan: bool, esr: seq<int>, stops: seq<bool>,
                          reply: string, parse: string -> Option<real>)
    ensures var p := PollLoop(esr, stops); var w := AfterTrigger(q, zeroSpan, esr, stops, reply, parse);
      |p.events| <= |w.events| && w.events[..|p.events|] == p.events && w.esrLeft == p.esrLeft
      && forall i :: |p.events| <= i < |w.events| ==> !w.events[i].Query? && !w.events[i].Wait?
  {
    ReadoutEvents(q, zeroSpan, reply, parse);
    var p := PollLoop(esr, stops);
    var w := AfterTrigger(q, zeroSpan, esr, stops, reply, parse);
    var a := Await(esr, stops);
    if a.sync == Ready {
      var rd := Readout(q, zeroSpan, reply, parse);
      assert w.events == p.events + rd.events;
      forall i | |p.events| <= i < |w.events| ensures !w.events[i].Query? && !w.events[i].Wait? {
        assert w.events[i] == rd.events[i - |p.events|];
        assert w.events[i] in rd.events;
      }
    }
  }

  /**
   * The stop flag is read again after the loop: when the loop ended on the
   * flag but the second reading is clear, the trace is read although no
   * poll reported completion.
   */
  lemma StopClearedBeforeSecondLook(q: Quantities, zeroSpan: bool, esr: seq<int>, stops: seq<bool>,
                                    reply: string, parse: string -> Option<real>)
    requires q.waitForNewTrace && |stops| >= 2 && stops[0] && !stops[1]
    ensures var r := Acquire(q, zeroSpan, esr, stops, reply, parse);
      r.events == [Write(TriggerCommand(q)), Wait(SettleMs)] + Readout(q, zeroSpan, reply, parse).events
      && r.outcome == Readout(q, zeroSpan, reply, parse).outcome
      && r.esrLeft == esr && r.stopsLeft == stops[2..]
  {
    assert PollLoop(esr, stops) == Poll([], StopSeen, esr, stops[1..]);
  }

  /**
   * Averaged wait-mode call whose first poll reports completion: one trigger
   * with the count, the settle wait, a single poll, then the read-out.
   */
  lemma DoneOnFirstPoll(q: Quantities, zeroSpan: bool, stb: int, esr: seq<int>, stops: seq<bool>,
                        reply: string, parse: string -> Option<real>)
    requires q.waitForNewTrace && q.average && OperationComplete(stb)
    requires |stops| >= 2 && !stops[0] && !stops[1]
    ensures var r := Acquire(q, zeroSpan, [stb] + esr, stops, reply, parse);
      r.events == [Write(AveragedTrigger(TruncateToInt(q.averages))), Wait(SettleMs), Query(EsrQuery)]
                  + Readout(q, zeroSpan, reply, parse).events
      && r.esrLeft == esr && r.stopsLeft == stops[2..]
  {
    assert ([stb] + esr)[1..] == esr;
    assert PollLoop([stb] + esr, stops) == Poll([Query(EsrQuery)], Completed, esr, stops[1..]);
  }

  /**
   * An empty reply is one empty field; since converting the empty string
   * fails, the read-out is a FormatError in both trace and zero-span mode.
   */
  lemma EmptyReplyFails(q: Quantities, zeroSpan: bool, parse: string -> Option<real>)
    requires parse("") == None
    ensures Readout(q, zeroSpan, "", parse).outcome == FormatError
  {
    assert Split("", ',') == [""];
  }
}
