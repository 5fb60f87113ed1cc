/**
  The monitor's `alert`: print a coloured, timestamped line and, for
  escalating alert types when an email configuration is present, attempt
  an email. The SMTP exchange itself is not modelled: an attempt is
  recorded as an effect (its failures are caught inside the sender and
  never reach the caller).
 */
module Alerting {
  import opened Wrappers
  import opened Text

  const Blue: string := "\U{1B}[94m"
  const Yellow: string := "\U{1B}[93m"
  const Red: string := "\U{1B}[91m"
  const Reset: string := "\U{1B}[0m"

  /** The `colors` table, keyed by alert type; "RESET" is a key like the others. */
  const Colors: map<string, string> :=
    map["INFO" := Blue, "WARNING" := Yellow, "CRITICAL" := Red, "RESET" := Reset]

  /** The alert types for which an email is sent. */
  predicate Escalates(alertType: string) {
    alertType in ["WARNING", "CRITICAL"]
  }

  /**
    The email configuration is a dictionary; it is truthy when non-empty, so
    `None` and `{}` are both the empty map here.
   */
  type EmailConfig = map<string, string>

  /** What one call of `alert` does, in order. */
  datatype Effect =
    | Printed(line: string)
    | EmailAttempted(subject: string, message: string, recipient: string, sender: string, password: string)

  /** The effects of a call, and the key of a failed dictionary lookup if one raised. */
  datatype AlertOutcome = AlertOutcome(effects: seq<Effect>, raised: Option<string>)

  predicate EmailWanted(alertType: string, config: EmailConfig) {
    |config| > 0 && Escalates(alertType)
  }

  /** All three keys the email step reads. */
  predicate HasEmailKeys(config: EmailConfig) {
    "recipient" in config && "sender_email" in config && "sender_password" in config
  }

  /**
    The first key the email step fails to find; the arguments are evaluated
    recipient, then sender address, then password.
   */
  function MissingEmailKey(config: EmailConfig): (r: Option<string>)
    ensures r.None? <==> HasEmailKeys(config)
    ensures r.Some? ==> r.value !in config
  {
    if "recipient" !in config then Some("recipient")
    else if "sender_email" !in config then Some("sender_email")
    else if "sender_password" !in config then Some("sender_password")
    else None
  }

  /** `alert` raises exactly when the colour lookup fails or a wanted email lacks a key. */
  predicate AlertRaises(alertType: string, config: EmailConfig) {
    alertType !in Colors || (EmailWanted(alertType, config) && MissingEmailKey(config).Some?)
  }

  /** The line printed on the terminal: colour, type, timestamp, message, reset. */
  function ColouredLine(message: string, alertType: string, timestamp: string): string
    requires alertType in Colors
  {
    Colors[alertType] + "[" + alertType + "] " + timestamp + ": " + message + Reset
  }

  /** The email subject names the alert type and the host. */
  function Subject(alertType: string, host: string): string {
    "System Alert [" + alertType + "] - " + host
  }

  predicate SendsEmail(o: AlertOutcome) {
    exists k :: 0 <= k < |o.effects| && o.effects[k].EmailAttempted?
  }

  /**
    One call of `alert(message, alertType, config)`; `timestamp` and `host`
    stand for the clock and host-name readings it takes.
   */
  function Alert(message: string, alertType: string, timestamp: string, host: string, config: EmailConfig): (o: AlertOutcome)
    ensures o.raised.Some? <==> AlertRaises(alertType, config)
    ensures alertType !in Colors ==> o.effects == [] && o.raised == Some(alertType)
    ensures alertType in Colors ==> 0 < |o.effects| && o.effects[0] == Printed(ColouredLine(message, alertType, timestamp))
    ensures SendsEmail(o) <==> EmailWanted(alertType, config) && HasEmailKeys(config)
    ensures SendsEmail(o) ==> o.effects == [
      Printed(ColouredLine(message, alertType, timestamp)),
      EmailAttempted(Subject(alertType, host), message,
                     config["recipient"], config["sender_email"], config["sender_password"])]
    ensures !SendsEmail(o) && alertType in Colors ==> o.effects == [Printed(ColouredLine(message, alertType, timestamp))]
  {
    if alertType !in Colors then
      AlertOutcome([], Some(alertType))
    else
      var printed := [Printed(ColouredLine(message, alertType, timestamp))];
      if !EmailWanted(alertType, config) then
        AlertOutcome(printed, None)
      else
        match MissingEmailKey(config)
        case Some(key) => AlertOutcome(printed, Some(key))
        case None =>
          var email := EmailAttempted(Subject(alertType, host), message, config["recipient"], config["sender_email"], config["sender_password"]);
          var o := AlertOutcome(printed + [email], None);
          assert o.effects[1].EmailAttempted?;
          o
  }

  /** INFO alerts, the monitor's summary among them, never send email and never raise. */
  lemma InfoNeverEmails(message: string, timestamp: string, host: string, config: EmailConfig)
    ensures var o := Alert(message, "INFO", timestamp, host, config);
      !SendsEmail(o) && o.raised.None? && o.effects == [Printed(ColouredLine(message, "INFO", timestamp))]
  {
    assert !Escalates("INFO");
  }
}
