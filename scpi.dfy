/**
 * The instrument-facing vocabulary of the driver: the SCPI command strings it
 * sends, the events that make up its observable behaviour on the bus, the
 * interpretation of the `*ESR?` status reply, and the `%d` rendering used to
 * put the number of averages into the trigger command.
 */
module Scpi {
  import opened Wrappers

  /** One observable step of the driver, in the order it happens. */
  datatype Event =
    | Write(cmd: string)                       // writeAndLog / write
    | Query(cmd: string)                       // askAndLog: a command whose reply is consumed
    | ReadReply                                // read() of the pending trace reply
    | Wait(ms: nat)                            // wait(seconds), recorded in milliseconds
    | SetOther(quantity: string, value: real)  // sendValueToOther
    | ReadOther(quantity: string)              // readValueFromOther

  const EsrQuery := "*ESR?"
  const TraceQuery := ":FORM ASCII;TRAC:DATA? TRACE1"
  const ResumeChannel1 := ":INIT1:CONT ON;"
  const ResumeContinuous := ":INIT:CONT ON;"
  const Cleanup := "*CLS;:INIT:CONT ON;"
  const ZeroSpanTiming := ":SWE:TIME:AUTO 0;:SWE:TIME 10E-3;"
  const UnaveragedTrigger := ":ABOR;:INIT:CONT OFF;:SENS:AVER:COUN 1;:INIT:IMM;*OPC"

  /** wait(0.03) before the first poll and wait(0.1) after a poll that is not done. */
  const SettleMs: nat := 30
  const PollIntervalMs: nat := 100

  /** `(stb & 1) > 0`: bit 0 (operation complete) of the event status register. */
  predicate OperationComplete(stb: int)
  {
    stb % 2 == 1
  }

  /** Bit 0 agrees with the parity of the reply, for negative replies too. */
  lemma OperationCompleteIsOddness(stb: int)
    ensures OperationComplete(stb) <==> exists h :: stb == 2 * h + 1
  {
    if OperationComplete(stb) {
      assert stb == 2 * (stb / 2) + 1;
    }
  }

  /** Python's int() of a float: truncation toward zero. */
  function TruncateToInt(x: real): (n: int)
    ensures 0.0 <= x ==> 0 <= n && n as real <= x < n as real + 1.0
    ensures x < 0.0 ==> n <= 0 && n as real - 1.0 < x <= n as real
  {
    if 0.0 <= x then x.Floor else -((-x).Floor)
  }

  function DigitChar(d: nat): (c: char)
    requires d < 10
    ensures '0' <= c <= '9'
  {
    ('0' as int + d) as char
  }

  predicate IsDigit(c: char)
  {
    '0' <= c <= '9'
  }

  function DigitValue(c: char): (d: nat)
    requires IsDigit(c)
    ensures d < 10 && DigitChar(d) == c
  {
    (c as int - '0' as int) as nat
  }

  /** Decimal digits of a natural number, most significant first, no leading zero. */
  function NatDigits(n: nat): (s: string)
    ensures |s| > 0 && (forall i :: 0 <= i < |s| ==> IsDigit(s[i]))
    ensures |s| > 1 ==> s[0] != '0'
    decreases n
  {
    if n < 10 then [DigitChar(n)] else NatDigits(n / 10) + [DigitChar(n % 10)]
  }

  /** `'%d' % n` for an integer n. */
  function DecimalString(n: int): string
  {
    if n < 0 then "-" + NatDigits(-n) else NatDigits(n)
  }

  /** Value of a string of decimal digits. */
  function DigitsValue(s: string): nat
    requires forall i :: 0 <= i < |s| ==> IsDigit(s[i])
  {
    if |s| == 0 then 0 else 10 * DigitsValue(s[..|s| - 1]) + DigitValue(s[|s| - 1])
  }

  /** How a reader of the command takes the count back: an optional sign and digits. */
  function ParseDecimal(s: string): Option<int>
  {
    if |s| > 1 && s[0] == '-' && (forall i :: 1 <= i < |s| ==> IsDigit(s[i])) then
      Some(-(DigitsValue(s[1..]) as int))
    else if |s| > 0 && (forall i :: 0 <= i < |s| ==> IsDigit(s[i])) then
      Some(DigitsValue(s))
    else
      None
  }

  lemma {:induction false} NatDigitsValue(n: nat)
    ensures DigitsValue(NatDigits(n)) == n
    decreases n
  {
    var s := NatDigits(n);
    if n >= 10 {
      NatDigitsValue(n / 10);
      assert s[..|s| - 1] == NatDigits(n / 10);
    }
  }

  /** The count written into the trigger command reads back as the same integer. */
  lemma DecimalRoundTrip(n: int)
    ensures ParseDecimal(DecimalString(n)) == Some(n)
  {
    var s := DecimalString(n);
    if n < 0 {
      var d := NatDigits(-n);
      assert s == "-" + d && s[1..] == d;
      assert forall i :: 1 <= i < |s| ==> IsDigit(s[i]) by {
        forall i | 1 <= i < |s| ensures IsDigit(s[i]) { assert s[i] == d[i - 1]; }
      }
      NatDigitsValue(-n);
      assert ParseDecimal(s) == Some(-(DigitsValue(d) as int));
    } else {
      assert IsDigit(s[0]) && s[0] != '-';
      NatDigitsValue(n);
      assert ParseDecimal(s) == Some(DigitsValue(s));
    }
  }

  const TriggerPrefix := ":ABOR;:INIT:CONT OFF;:SENS:AVER:COUN "
  const TriggerSuffix := ";:INIT:IMM;*OPC"

  /** Trigger command with averaging: `... :SENS:AVER:COUN %d ...` with the given count. */
  function AveragedTrigger(count: int): string
  {
    TriggerPrefix + DecimalString(count) + TriggerSuffix
  }

  lemma UnaveragedTriggerParts()
    ensures UnaveragedTrigger == TriggerPrefix + "1" + TriggerSuffix
  {
  }

  /** Both trigger commands begin by aborting the sweep; with a count of one they coincide. */
  lemma TriggerCommands(count: int)
    ensures AveragedTrigger(count)[..6] == UnaveragedTrigger[..6] == ":ABOR;"
    ensures AveragedTrigger(count) == UnaveragedTrigger <==> count == 1
  {
    UnaveragedTriggerParts();
    var d := DecimalString(count);
    var n := |TriggerPrefix|;
    assert AveragedTrigger(count)[..6] == TriggerPrefix[..6];
    assert UnaveragedTrigger[..6] == TriggerPrefix[..6];
    if AveragedTrigger(count) == UnaveragedTrigger {
      assert |d| == 1;
      assert d == AveragedTrigger(count)[n..n + 1];
      assert UnaveragedTrigger[n..n + 1] == "1";
      DecimalRoundTrip(count);
      assert ParseDecimal("1") == Some(1);
    }
    if count == 1 {
      assert d == "1";
    }
  }
}
