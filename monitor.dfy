/**
  `monitor_system`: a fixed number of ticks, each classifying one CPU and
  memory reading against two thresholds, raising alerts for high readings,
  counting them and printing a table row; then one INFO summary.

  Readings are supplied as a sequence, one per tick, in tenths of a percent
  (the resolution at which the monitor formats them). The trace of a run is
  the sequence of `alert` calls and table rows, in the order they happen;
  the effects of each alert call are given by `Alerting.Alert`.
 */
module Monitor {
  import opened Text
  import opened Alerting

  /** One tick's readings, in tenths of a percent. */
  datatype Sample = Sample(cpu: nat, memory: nat)

  /** The CPU and memory thresholds, in percent. */
  datatype Limits = Limits(cpu: real, memory: real)

  /** What a run does, in order: a call of `alert`, or a table row. */
  datatype Event =
    | Alerted(message: string, alertType: string)
    | Row(time: int, cpu: nat, memory: nat, status: Status)

  function Percent(tenths: nat): real {
    tenths as real / 10.0
  }

  /** Both comparisons are inclusive: a reading equal to its threshold is high. */
  predicate CpuHigh(s: Sample, limits: Limits) {
    Percent(s.cpu) >= limits.cpu
  }

  predicate MemoryHigh(s: Sample, limits: Limits) {
    Percent(s.memory) >= limits.memory
  }

  /** The four statuses a table row can show. */
  datatype Status = StatusOk | StatusCpuHigh | StatusMemHigh | StatusCritical

  /** The text printed in the row's status column. */
  function Label(status: Status): string {
    match status
    case StatusOk => "OK"
    case StatusCpuHigh => "CPU HIGH"
    case StatusMemHigh => "MEM HIGH"
    case StatusCritical => "CRITICAL"
  }

  /** Different statuses print differently. */
  lemma LabelsDistinct(a: Status, b: Status)
    ensures Label(a) == Label(b) <==> a == b
  {
    if a != b {
      assert Label(a)[0] != Label(b)[0] || Label(a)[1] != Label(b)[1];
    }
  }

  /**
    A tick's status: OK, overwritten by CPU HIGH, then by MEM HIGH, then by
    CRITICAL, as each condition holds.
   */
  function Classify(s: Sample, limits: Limits): (status: Status)
    ensures status == StatusOk <==> !CpuHigh(s, limits) && !MemoryHigh(s, limits)
    ensures status == StatusCpuHigh <==> CpuHigh(s, limits) && !MemoryHigh(s, limits)
    ensures status == StatusMemHigh <==> !CpuHigh(s, limits) && MemoryHigh(s, limits)
    ensures status == StatusCritical <==> CpuHigh(s, limits) && MemoryHigh(s, limits)
  {
    var initial := StatusOk;
    var afterCpu := if CpuHigh(s, limits) then StatusCpuHigh else initial;
    var afterMemory := if MemoryHigh(s, limits) then StatusMemHigh else afterCpu;
    if CpuHigh(s, limits) && MemoryHigh(s, limits) then StatusCritical else afterMemory
  }

  /** The CPU warning: fixed text around the formatted reading, so no escape character. */
  function CpuMessage(s: Sample): (m: string)
    ensures NoEsc(m)
  {
    var cpu := Tenths(s.cpu);
    TenthsNoEsc(s.cpu);
    NoEscJoin("High CPU usage: ", cpu);
    NoEscJoin("High CPU usage: " + cpu, "%");
    "High CPU usage: " + cpu + "%"
  }

  /** The memory warning, likewise free of escape characters. */
  function MemoryMessage(s: Sample): (m: string)
    ensures NoEsc(m)
  {
    var memory := Tenths(s.memory);
    TenthsNoEsc(s.memory);
    NoEscJoin("High memory usage: ", memory);
    NoEscJoin("High memory usage: " + memory, "%");
    "High memory usage: " + memory + "%"
  }

  /** The critical alert names both readings, and holds no escape character either. */
  function CriticalMessage(s: Sample): (m: string)
    ensures NoEsc(m)
  {
    var cpu, memory := Tenths(s.cpu), Tenths(s.memory);
    TenthsNoEsc(s.cpu);
    TenthsNoEsc(s.memory);
    NoEscJoin("CRITICAL: Both CPU (", cpu);
    NoEscJoin("CRITICAL: Both CPU (" + cpu, "%) and Memory (");
    NoEscJoin("CRITICAL: Both CPU (" + cpu + "%) and Memory (", memory);
    NoEscJoin("CRITICAL: Both CPU (" + cpu + "%) and Memory (" + memory, "%) are high!");
    "CRITICAL: Both CPU (" + cpu + "%) and Memory (" + memory + "%) are high!"
  }

  /** The alerts one tick raises, in order: CPU warning, memory warning, critical. */
  function TickAlerts(s: Sample, limits: Limits): (t: seq<Event>)
    ensures t == [] <==> Classify(s, limits) == StatusOk
  {
    (if CpuHigh(s, limits) then [Alerted(CpuMessage(s), "WARNING")] else [])
    + (if MemoryHigh(s, limits) then [Alerted(MemoryMessage(s), "WARNING")] else [])
    + (if CpuHigh(s, limits) && MemoryHigh(s, limits) then [Alerted(CriticalMessage(s), "CRITICAL")] else [])
  }

  /** How much one tick adds to `alert_count`: one per alert raised, so 0, 1 or 3. */
  function TickIncrease(s: Sample, limits: Limits): (n: nat)
    ensures n == |TickAlerts(s, limits)|
    ensures n == 0 || n == 1 || n == 3
    ensures n == 0 <==> Classify(s, limits) == StatusOk
    ensures n == 3 <==> Classify(s, limits) == StatusCritical
  {
    (if CpuHigh(s, limits) then 1 else 0)
    + (if MemoryHigh(s, limits) then 1 else 0)
    + (if CpuHigh(s, limits) && MemoryHigh(s, limits) then 1 else 0)
  }

  /** Tick `i`: its alerts, then its row, stamped `i * interval`. */
  function TickEvents(i: nat, s: Sample, interval: int, limits: Limits): seq<Event> {
    TickAlerts(s, limits) + [Row(i * interval, s.cpu, s.memory, Classify(s, limits))]
  }

  /** The trace of the first `k` ticks. */
  function Ticks(readings: seq<Sample>, k: nat, interval: int, limits: Limits): seq<Event>
    requires k <= |readings|
  {
    if k == 0 then []
    else Ticks(readings, k - 1, interval, limits) + TickEvents(k - 1, readings[k - 1], interval, limits)
  }

  /** `alert_count` after the first `k` ticks. */
  function AlertCount(readings: seq<Sample>, k: nat, limits: Limits): nat
    requires k <= |readings|
  {
    if k == 0 then 0
    else AlertCount(readings, k - 1, limits) + TickIncrease(readings[k - 1], limits)
  }

  /** `range(duration)` is empty for a negative duration. */
  function TickCount(duration: int): nat {
    if duration < 0 then 0 else duration
  }

  /** The text around the count in the summary. */
  const SummaryHead: string := "Monitoring complete. "
  const SummaryTail: string := " alerts triggered during this session."

  /** The summary's fixed text for a run without alerts. */
  const NoAlertsMessage: string := SummaryHead + "No" + SummaryTail

  /** The summary text: the count when there were alerts, "No" in its place otherwise. */
  function SummaryMessage(count: nat): (m: string)
    ensures NoEsc(m)
  {
    var middle := if count > 0 then NatToString(count) else "No";
    NatToStringNoEsc(count);
    NoEscJoin(SummaryHead, middle);
    NoEscJoin(SummaryHead + middle, SummaryTail);
    SummaryHead + middle + SummaryTail
  }

  /** The full trace of a run that nothing interrupts: every tick, then the summary. */
  function Schedule(readings: seq<Sample>, duration: int, interval: int, limits: Limits): seq<Event>
    requires TickCount(duration) <= |readings|
  {
    var n := TickCount(duration);
    Ticks(readings, n, interval, limits) + [Alerted(SummaryMessage(AlertCount(readings, n, limits)), "INFO")]
  }

  /** An event whose `alert` call raises, ending the run. */
  predicate Raises(e: Event, config: EmailConfig) {
    e.Alerted? && AlertRaises(e.alertType, config)
  }

  /** A prefix of `b` stays a prefix when `b` is extended. */
  lemma PrefixTrans(a: seq<Event>, b: seq<Event>, c: seq<Event>)
    requires a <= b && b <= c
    ensures a <= c
  {
    assert c[..|a|] == b[..|a|];
  }

  /** One more tick only appends to the trace. */
  lemma TicksStep(readings: seq<Sample>, n: nat, interval: int, limits: Limits)
    requires 0 < n <= |readings|
    ensures Ticks(readings, n - 1, interval, limits) <= Ticks(readings, n, interval, limits)
  {
    var before := Ticks(readings, n - 1, interval, limits);
    assert Ticks(readings, n, interval, limits)[..|before|] == before;
  }

  /** A chain of one-step prefixes gives a prefix. */
  lemma {:induction false} ChainPrefix(f: nat -> seq<Event>, j: nat, n: nat)
    requires j <= n
    requires forall k: nat :: j < k <= n ==> f(k - 1) <= f(k)
    ensures f(j) <= f(n)
    decreases n
  {
    if j < n {
      ChainPrefix(f, j, n - 1);
      PrefixTrans(f(j), f(n - 1), f(n));
    }
  }

  lemma TicksGrow(readings: seq<Sample>, j: nat, n: nat, interval: int, limits: Limits)
    requires j <= n <= |readings|
    ensures Ticks(readings, j, interval, limits) <= Ticks(readings, n, interval, limits)
  {
    var f := (k: nat) => if k <= |readings| then Ticks(readings, k, interval, limits) else [];
    forall k: nat | j < k <= n
      ensures f(k - 1) <= f(k)
    {
      TicksStep(readings, k, interval, limits);
    }
    ChainPrefix(f, j, n);
  }

  /**
    A run cut short inside tick `i` has followed the schedule up to the cut,
    and has not gone past tick `i`.
   */
  lemma CutIsPrefix(readings: seq<Sample>, duration: int, interval: int, limits: Limits, i: nat, partial: seq<Event>)
    requires i < TickCount(duration) <= |readings|
    requires partial <= TickEvents(i, readings[i], interval, limits)
    ensures Ticks(readings, i, interval, limits) + partial <= Schedule(readings, duration, interval, limits)
    ensures Ticks(readings, i, interval, limits) + partial <= Ticks(readings, i + 1, interval, limits)
  {
    TicksGrow(readings, i + 1, TickCount(duration), interval, limits);
  }

  /** The trace's last event is an alert call that raised. */
  predicate EndsRaising(events: seq<Event>, config: EmailConfig) {
    0 < |events| && Raises(events[|events| - 1], config)
  }

  /** Two traces whose alerts never raise join into one whose alerts never raise. */
  lemma QuietJoin(a: seq<Event>, b: seq<Event>, config: EmailConfig)
    requires forall k :: 0 <= k < |a| ==> !Raises(a[k], config)
    requires forall k :: 0 <= k < |b| ==> !Raises(b[k], config)
    ensures forall k :: 0 <= k < |a + b| ==> !Raises((a + b)[k], config)
  {
    forall k | 0 <= k < |a + b|
      ensures !Raises((a + b)[k], config)
    {
      if k >= |a| {
        assert (a + b)[k] == b[k - |a|];
      }
    }
  }

  /** A quiet trace followed by one that raises only at its end raises only at the end of the join. */
  lemma QuietThenRaise(a: seq<Event>, b: seq<Event>, config: EmailConfig)
    requires forall k :: 0 <= k < |a| ==> !Raises(a[k], config)
    requires 0 < |b| && Raises(b[|b| - 1], config)
    requires forall k :: 0 <= k < |b| - 1 ==> !Raises(b[k], config)
    ensures 0 < |a + b| && Raises((a + b)[|a + b| - 1], config)
    ensures forall k :: 0 <= k < |a + b| - 1 ==> !Raises((a + b)[k], config)
  {
    assert (a + b)[|a + b| - 1] == b[|b| - 1];
    forall k | 0 <= k < |a + b| - 1
      ensures !Raises((a + b)[k], config)
    {
      if k >= |a| {
        assert (a + b)[k] == b[k - |a|];
      }
    }
  }

  /** The summary is an INFO alert, which never raises. */
  lemma SummaryNeverRaises(count: nat, config: EmailConfig)
    ensures !Raises(Alerted(SummaryMessage(count), "INFO"), config)
  {
    assert "INFO" in Colors && !Escalates("INFO");
  }

  /**
    One pass of the loop body: classify the sample, raise its alerts and
    print its row. If an alert raises, the tick stops right after it.
   */
  method RunTick(i: nat, sample: Sample, interval: int, limits: Limits, config: EmailConfig)
    returns (out: seq<Event>, increase: nat, raised: bool)
    ensures out <= TickEvents(i, sample, interval, limits)
    ensures forall k :: 0 <= k < |out| - 1 ==> !Raises(out[k], config)
    ensures !raised ==> out == TickEvents(i, sample, interval, limits)
    ensures !raised ==> forall k :: 0 <= k < |out| ==> !Raises(out[k], config)
    ensures !raised ==> increase == TickIncrease(sample, limits)
    ensures raised ==> 0 < |out| && Raises(out[|out| - 1], config)
  {
    out := [];
    increase := 0;
    raised := false;
    var status := StatusOk;
    if Percent(sample.cpu) >= limits.cpu {
      status := StatusCpuHigh;
      out := out + [Alerted(CpuMessage(sample), "WARNING")];
      if AlertRaises("WARNING", config) {
        raised := true;
        return;
      }
      increase := increase + 1;
    }
    if Percent(sample.memory) >= limits.memory {
      status := StatusMemHigh;
      out := out + [Alerted(MemoryMessage(sample), "WARNING")];
      if AlertRaises("WARNING", config) {
        raised := true;
        return;
      }
      increase := increase + 1;
    }
    if Percent(sample.cpu) >= limits.cpu && Percent(sample.memory) >= limits.memory {
      status := StatusCritical;
      out := out + [Alerted(CriticalMessage(sample), "CRITICAL")];
      if AlertRaises("CRITICAL", config) {
        raised := true;
        return;
      }
      increase := increase + 1;
    }
    out := out + [Row(i * interval, sample.cpu, sample.memory, status)];
  }

  /**
    How a run ends: it reaches its summary, an alert raises because of a
    missing email key, or `time.sleep` raises `ValueError` for a negative
    interval after the first tick's row.
   */
  datatype RunEnd = Completed | AlertRaised | SleepRejected

  /** The ticks a run with a negative interval gets through: only the first. */
  const FirstTick: nat := 1

  /**
    The run: `readings[i]` is what the sampler returns at tick `i`. A non-empty
    email configuration that lacks a key makes the first WARNING alert raise
    after printing, which ends the run. Every tick ends with a sleep of
    `interval` seconds, which raises for a negative interval. The trace is the
    schedule cut where the run stops, or the whole schedule if it completes.
   */
  method MonitorSystem(interval: int, duration: int, limits: Limits, config: EmailConfig, readings: seq<Sample>)
    returns (events: seq<Event>, alertCount: nat, end: RunEnd)
    requires TickCount(duration) <= |readings|
    ensures events <= Schedule(readings, duration, interval, limits)
    ensures forall k :: 0 <= k < |events| - 1 ==> !Raises(events[k], config)
    ensures end == Completed ==> events == Schedule(readings, duration, interval, limits)
    ensures end == Completed ==> forall k :: 0 <= k < |events| ==> !Raises(events[k], config)
    ensures end == Completed ==> alertCount == AlertCount(readings, TickCount(duration), limits)
    ensures end == Completed ==> interval >= 0 || TickCount(duration) == 0
    ensures end == AlertRaised ==> EndsRaising(events, config)
    ensures end != Completed && interval < 0 && 0 < TickCount(duration) ==> events <= Ticks(readings, FirstTick, interval, limits)
    ensures end == SleepRejected ==> interval < 0 && 0 < TickCount(duration)
    ensures end == SleepRejected ==> events == Ticks(readings, FirstTick, interval, limits)
    ensures end == SleepRejected ==> forall k :: 0 <= k < |events| ==> !Raises(events[k], config)
    ensures end == SleepRejected ==> alertCount == AlertCount(readings, FirstTick, limits)
  {
    events := [];
    alertCount := 0;
    end := AlertRaised;
    var i := 0;
    while i < duration
      invariant 0 <= i <= TickCount(duration)
      invariant interval < 0 ==> i == 0
      invariant events == Ticks(readings, i, interval, limits)
      invariant alertCount == AlertCount(readings, i, limits)
      invariant forall k :: 0 <= k < |events| ==> !Raises(events[k], config)
    {
      var out, increase, raised := RunTick(i, readings[i], interval, limits, config);
      if raised {
        CutIsPrefix(readings, duration, interval, limits, i, out);
        QuietThenRaise(events, out, config);
        events := events + out;
        return;
      }
      QuietJoin(events, out, config);
      events := events + out;
      alertCount := alertCount + increase;
      i := i + 1;
      if interval < 0 {
        TicksGrow(readings, i, TickCount(duration), interval, limits);
        end := SleepRejected;
        return;
      }
    }
    assert i == TickCount(duration);
    var summary := Alerted(SummaryMessage(alertCount), "INFO");
    SummaryNeverRaises(alertCount, config);
    QuietJoin(events, [summary], config);
    events := events + [summary];
    end := Completed;
  }

  /** The number of `alert` calls in a trace. */
  function AlertedCount(events: seq<Event>): nat {
    if events == [] then 0
    else AlertedCount(events[..|events| - 1]) + (if events[|events| - 1].Alerted? then 1 else 0)
  }

  /** The table rows of a trace, in order. */
  function RowsOf(events: seq<Event>): seq<Event> {
    if events == [] then []
    else RowsOf(events[..|events| - 1]) + (if events[|events| - 1].Row? then [events[|events| - 1]] else [])
  }

  lemma {:induction false} AlertedCountAppend(a: seq<Event>, b: seq<Event>)
    ensures AlertedCount(a + b) == AlertedCount(a) + AlertedCount(b)
    decreases |b|
  {
    if b != [] {
      assert (a + b)[..|a + b| - 1] == a + b[..|b| - 1];
      AlertedCountAppend(a, b[..|b| - 1]);
    } else {
      assert a + b == a;
    }
  }

  lemma {:induction false} RowsOfAppend(a: seq<Event>, b: seq<Event>)
    ensures RowsOf(a + b) == RowsOf(a) + RowsOf(b)
    decreases |b|
  {
    if b != [] {
      assert (a + b)[..|a + b| - 1] == a + b[..|b| - 1];
      RowsOfAppend(a, b[..|b| - 1]);
    } else {
      assert a + b == a;
    }
  }

  /** A trace made only of alert calls counts each of them and has no rows. */
  lemma {:induction false} AllAlerted(t: seq<Event>)
    requires forall k :: 0 <= k < |t| ==> t[k].Alerted?
    ensures AlertedCount(t) == |t| && RowsOf(t) == []
  {
    if t != [] {
      AllAlerted(t[..|t| - 1]);
    }
  }

  lemma TickAlertsAreAlerts(s: Sample, limits: Limits)
    ensures AlertedCount(TickAlerts(s, limits)) == |TickAlerts(s, limits)|
    ensures RowsOf(TickAlerts(s, limits)) == []
    ensures forall k :: 0 <= k < |TickAlerts(s, limits)| ==>
      TickAlerts(s, limits)[k].Alerted? && Escalates(TickAlerts(s, limits)[k].alertType)
      && NoEsc(TickAlerts(s, limits)[k].message)
  {
    AllAlerted(TickAlerts(s, limits));
  }

  /** `alert_count` after `k` ticks is exactly the number of alerts those ticks raised. */
  lemma {:induction false} AlertCountIsAlertsRaised(readings: seq<Sample>, k: nat, interval: int, limits: Limits)
    requires k <= |readings|
    ensures AlertCount(readings, k, limits) == AlertedCount(Ticks(readings, k, interval, limits))
  {
    if k > 0 {
      var s := readings[k - 1];
      AlertCountIsAlertsRaised(readings, k - 1, interval, limits);
      TickAlertsAreAlerts(s, limits);
      var row := Row((k - 1) * interval, s.cpu, s.memory, Classify(s, limits));
      assert AlertedCount([row]) == 0 by { assert [row][..0] == []; }
      AlertedCountAppend(TickAlerts(s, limits), [row]);
      AlertedCountAppend(Ticks(readings, k - 1, interval, limits), TickEvents(k - 1, s, interval, limits));
    }
  }

  /** The row tick `j` prints. */
  function TickRow(readings: seq<Sample>, j: nat, interval: int, limits: Limits): Event
    requires j < |readings|
  {
    Row(j * interval, readings[j].cpu, readings[j].memory, Classify(readings[j], limits))
  }

  /** `rows` are the rows of the first `k` ticks: row `j` is stamped `j * interval` and shows tick `j`'s status. */
  ghost predicate RowsOfTicks(rows: seq<Event>, readings: seq<Sample>, k: nat, interval: int, limits: Limits)
    requires k <= |readings|
  {
    |rows| == k && forall j :: 0 <= j < k ==> rows[j] == TickRow(readings, j, interval, limits)
  }

  /** A tick made of alerts and then one row adds exactly that row to a trace's rows. */
  lemma TickAddsOneRow(before: seq<Event>, alerts: seq<Event>, row: Event)
    requires row.Row? && RowsOf(alerts) == []
    ensures RowsOf(before + (alerts + [row])) == RowsOf(before) + [row]
  {
    assert RowsOf([row]) == [row] by { assert [row][..0] == []; }
    RowsOfAppend(alerts, [row]);
    RowsOfAppend(before, alerts + [row]);
  }

  lemma ExtendRowsOfTicks(rows: seq<Event>, readings: seq<Sample>, k: nat, interval: int, limits: Limits)
    requires 0 < k <= |readings| && RowsOfTicks(rows, readings, k - 1, interval, limits)
    ensures RowsOfTicks(rows + [TickRow(readings, k - 1, interval, limits)], readings, k, interval, limits)
  {
  }

  /** The first `k` ticks print exactly `k` rows, one per tick and in tick order. */
  lemma {:induction false} OneRowPerTick(readings: seq<Sample>, k: nat, interval: int, limits: Limits)
    requires k <= |readings|
    ensures RowsOfTicks(RowsOf(Ticks(readings, k, interval, limits)), readings, k, interval, limits)
  {
    if k > 0 {
      var s := readings[k - 1];
      var before := Ticks(readings, k - 1, interval, limits);
      OneRowPerTick(readings, k - 1, interval, limits);
      TickAlertsAreAlerts(s, limits);
      TickAddsOneRow(before, TickAlerts(s, limits), TickRow(readings, k - 1, interval, limits));
      ExtendRowsOfTicks(RowsOf(before), readings, k, interval, limits);
    }
  }

  /** No tick raises an INFO alert. */
  lemma {:induction false} TicksHaveNoInfo(readings: seq<Sample>, k: nat, interval: int, limits: Limits)
    requires k <= |readings|
    ensures forall j :: 0 <= j < |Ticks(readings, k, interval, limits)| ==>
      Ticks(readings, k, interval, limits)[j].Alerted? ==> Escalates(Ticks(readings, k, interval, limits)[j].alertType)
  {
    if k > 0 {
      TicksHaveNoInfo(readings, k - 1, interval, limits);
      TickAlertsAreAlerts(readings[k - 1], limits);
    }
  }

  /**
    A run raises exactly one INFO alert, its last event, and its text is the
    "no alerts" text exactly when the count of alerts before it is zero.
   */
  lemma SummaryOnceAtEnd(readings: seq<Sample>, duration: int, interval: int, limits: Limits)
    requires TickCount(duration) <= |readings|
    ensures var run := Schedule(readings, duration, interval, limits);
      && (forall j :: 0 <= j < |run| ==> (run[j].Alerted? && run[j].alertType == "INFO" <==> j == |run| - 1))
      && (run[|run| - 1].message == NoAlertsMessage <==> AlertedCount(run) == 1)
  {
    var n := TickCount(duration);
    var ticks := Ticks(readings, n, interval, limits);
    var count := AlertCount(readings, n, limits);
    var summary := Alerted(SummaryMessage(count), "INFO");
    TicksHaveNoInfo(readings, n, interval, limits);
    assert !Escalates("INFO");
    AlertCountIsAlertsRaised(readings, n, interval, limits);
    AlertedCountAppend(ticks, [summary]);
    assert AlertedCount([summary]) == 1 by { assert [summary][..0] == []; }
    NoAlertsTextIffZero(count);
  }

  /** The summary carries the fixed "no alerts" text if and only if the count is zero. */
  lemma NoAlertsTextIffZero(count: nat)
    ensures SummaryMessage(count) == NoAlertsMessage <==> count == 0
  {
    if count > 0 {
      var digits := NatToString(count);
      assert SummaryMessage(count)[|SummaryHead|] == digits[0];
      assert NoAlertsMessage[|SummaryHead|] == 'N';
    }
  }

  /** A tick below both thresholds raises nothing and prints an OK row. */
  lemma QuietTick(i: nat, s: Sample, interval: int, limits: Limits)
    requires Percent(s.cpu) < limits.cpu && Percent(s.memory) < limits.memory
    ensures TickEvents(i, s, interval, limits) == [Row(i * interval, s.cpu, s.memory, StatusOk)]
    ensures TickIncrease(s, limits) == 0
  {
  }
}
