/**
  The monitor's output as the log file receives it. Every alert message of
  a run is built from fixed text and formatted numbers, so none holds an
  escape character, and the `Logger` strips each printed alert line down to
  its plain text.
 */
module MonitorLog {
  import opened Text
  import opened Alerting
  import opened LogMirror
  import opened Monitor

  /** Every alert in `events` has a known colour and a message without escape characters. */
  ghost predicate PlainAlerts(events: seq<Event>) {
    forall k :: 0 <= k < |events| && events[k].Alerted? ==> events[k].alertType in Colors && NoEsc(events[k].message)
  }

  /** Joining two traces keeps their alerts plain. */
  lemma PlainAlertsAppend(a: seq<Event>, b: seq<Event>)
    requires PlainAlerts(a) && PlainAlerts(b)
    ensures PlainAlerts(a + b)
  {
    forall j | 0 <= j < |a + b|
      ensures (a + b)[j] == if j < |a| then a[j] else b[j - |a|]
    {
    }
  }

  /** One tick's alerts are plain. */
  lemma TickEventsPlain(i: nat, s: Sample, interval: int, limits: Limits)
    ensures PlainAlerts(TickEvents(i, s, interval, limits))
  {
    TickAlertsAreAlerts(s, limits);
  }

  lemma {:induction false} TicksPlain(readings: seq<Sample>, k: nat, interval: int, limits: Limits)
    requires k <= |readings|
    ensures PlainAlerts(Ticks(readings, k, interval, limits))
  {
    if k > 0 {
      TicksPlain(readings, k - 1, interval, limits);
      TickEventsPlain(k - 1, readings[k - 1], interval, limits);
      PlainAlertsAppend(Ticks(readings, k - 1, interval, limits), TickEvents(k - 1, readings[k - 1], interval, limits));
    }
  }

  /**
    Every alert of a run that nothing interrupts is logged as its plain
    "[TYPE] timestamp: message" text, given a timestamp without escape
    characters.
   */
  lemma ScheduleLoggedPlain(readings: seq<Sample>, duration: int, interval: int, limits: Limits, timestamp: string)
    requires TickCount(duration) <= |readings| && NoEsc(timestamp)
    ensures forall k :: 0 <= k < |Schedule(readings, duration, interval, limits)|
                        && Schedule(readings, duration, interval, limits)[k].Alerted? ==>
      var e := Schedule(readings, duration, interval, limits)[k];
      e.alertType in Colors
      && StripColours(ColouredLine(e.message, e.alertType, timestamp)) == "[" + e.alertType + "] " + timestamp + ": " + e.message
  {
    var n := TickCount(duration);
    var run := Schedule(readings, duration, interval, limits);
    var ticks := Ticks(readings, n, interval, limits);
    TicksPlain(readings, n, interval, limits);
    assert run == ticks + [Alerted(SummaryMessage(AlertCount(readings, n, limits)), "INFO")];
    forall k | 0 <= k < |run| && run[k].Alerted?
      ensures run[k].alertType in Colors
      ensures StripColours(ColouredLine(run[k].message, run[k].alertType, timestamp))
           == "[" + run[k].alertType + "] " + timestamp + ": " + run[k].message
    {
      if k < |ticks| {
        assert run[k] == ticks[k];
      }
      ColouredLineLoggedPlain(run[k].message, run[k].alertType, timestamp);
    }
  }
}
