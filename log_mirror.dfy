/**
  The `Logger` that `log_to_file` installs in place of standard output:
  every write goes to the terminal unchanged and to the log file with the
  four colour codes of `alert` deleted. Opening the file and replacing the
  process's output stream are not modelled; both sinks are strings that
  writes append to.
 */
module LogMirror {
  import opened Text
  import opened Alerting

  /** The text `write` sends to the log: the codes removed by four successive replaces. */
  function StripColours(message: string): (r: string)
    ensures |r| <= |message|
  {
    RemoveAll(RemoveAll(RemoveAll(RemoveAll(message, Blue), Yellow), Red), Reset)
  }

  class Logger {
    /** Everything written to the terminal so far. */
    var terminal: string
    /** Everything written to the log file so far; the file is opened for appending. */
    var log: string

    constructor (terminal: string, log: string)
      ensures this.terminal == terminal && this.log == log
    {
      this.terminal := terminal;
      this.log := log;
    }

    method Write(message: string)
      modifies this
      ensures terminal == old(terminal) + message
      ensures log == old(log) + StripColours(message)
    {
      terminal := terminal + message;
      log := log + StripColours(message);
    }
  }

  /** A message without an escape character reaches the log unchanged. */
  lemma PlainMessageLoggedUnchanged(message: string)
    requires NoEsc(message)
    ensures StripColours(message) == message
  {
    RemoveAllNoOccurrence(message, Blue);
    RemoveAllNoOccurrence(message, Yellow);
    RemoveAllNoOccurrence(message, Red);
    RemoveAllNoOccurrence(message, Reset);
  }

  predicate IsColourCode(c: string) {
    c == Blue || c == Yellow || c == Red || c == Reset
  }

  /** What is left of a code `x` after removing the code `p`. */
  function Keep(x: string, p: string): string {
    if x == p then [] else x
  }

  /** An index at which two different colour codes differ. */
  function Differs(x: string, p: string): (at: nat)
    requires IsColourCode(x) && IsColourCode(p) && x != p
    ensures at < |x| && at < |p| && x[at] != p[at]
  {
    if x == Reset || p == Reset then 2 else 3
  }

  /** One replace applied to a leading code (or nothing) deletes it exactly when it is the replaced code. */
  lemma RemoveCodeBefore(x: string, rest: string, p: string)
    requires x == [] || IsColourCode(x)
    requires IsColourCode(p)
    ensures RemoveAll(x + rest, p) == Keep(x, p) + RemoveAll(rest, p)
  {
    if x == [] {
      assert x + rest == rest;
    } else if x == p {
      RemoveAllDropsLeading(p, rest);
    } else {
      RemoveAllKeepsOtherLeading(x, rest, p, Differs(x, p));
    }
  }

  /** One replace applied to plain text and a trailing reset (or nothing) touches only the reset. */
  lemma RemoveCodeAfter(body: string, y: string, p: string)
    requires y == [] || y == Reset
    requires IsColourCode(p) && NoEsc(body)
    ensures RemoveAll(body + y, p) == body + Keep(y, p)
  {
    RemoveAllKeepsPlainPrefix(body, y, p);
    if y == Reset && p == Reset {
      RemoveAllDropsLeading(Reset, []);
      assert Reset + [] == Reset;
    }
  }

  /** One replace applied to a code (or nothing), plain text, and a reset (or nothing). */
  lemma RemoveCodeAround(x: string, body: string, y: string, p: string)
    requires x == [] || IsColourCode(x)
    requires y == [] || y == Reset
    requires IsColourCode(p) && NoEsc(body)
    ensures RemoveAll(x + body + y, p) == Keep(x, p) + body + Keep(y, p)
  {
    assert x + body + y == x + (body + y);
    RemoveCodeBefore(x, body + y, p);
    RemoveCodeAfter(body, y, p);
  }

  /** The four replaces delete a colour code in front of plain text and the reset after it. */
  lemma StripCodeAround(x0: string, body: string)
    requires IsColourCode(x0) && NoEsc(body)
    ensures StripColours(x0 + body + Reset) == body
  {
    assert Reset != Blue && Reset != Yellow && Reset != Red;
    var x1, x2, x3 := Keep(x0, Blue), Keep(Keep(x0, Blue), Yellow), Keep(Keep(Keep(x0, Blue), Yellow), Red);
    RemoveCodeAround(x0, body, Reset, Blue);
    assert RemoveAll(x0 + body + Reset, Blue) == x1 + body + Reset;
    RemoveCodeAround(x1, body, Reset, Yellow);
    assert RemoveAll(x1 + body + Reset, Yellow) == x2 + body + Reset;
    RemoveCodeAround(x2, body, Reset, Red);
    assert RemoveAll(x2 + body + Reset, Red) == x3 + body + Reset;
    assert x3 == [] || x3 == Reset;
    RemoveCodeAround(x3, body, Reset, Reset);
    assert Keep(x3, Reset) + body + [] == body;
  }

  /**
    A line printed by `alert` reaches the log as its plain text, provided the
    timestamp and the message hold no escape character.
   */
  lemma ColouredLineLoggedPlain(message: string, alertType: string, timestamp: string)
    requires alertType in Colors && NoEsc(message) && NoEsc(timestamp)
    ensures StripColours(ColouredLine(message, alertType, timestamp))
         == "[" + alertType + "] " + timestamp + ": " + message
  {
    var body := "[" + alertType + "] " + timestamp + ": " + message;
    assert ColouredLine(message, alertType, timestamp) == Colors[alertType] + body + Reset;
    StripCodeAround(Colors[alertType], body);
  }

  /** The string of `StrippedLogMayKeepACode` holds none of the three colours. */
  lemma DoubleEscapeKeepsColour(p: string)
    requires p == Blue || p == Yellow || p == Red
    ensures RemoveAll([Esc] + Reset + "[0m", p) == [Esc] + Reset + "[0m"
  {
    var tail := Reset + "[0m";
    var s := [Esc] + tail;
    assert s[..|p|][1] != p[1];
    RemoveAllSkipsOne(s, p);
    assert s[1..] == tail;
    RemoveAllKeepsOtherLeading(Reset, "[0m", p, 2);
    RemoveAllNoOccurrence("[0m", p);
    assert [Esc] + Reset + "[0m" == s;
  }

  /**
    Replacing does not rescan the joined text: deleting a reset code from the
    middle of this string leaves a reset code behind in the log.
   */
  lemma StrippedLogMayKeepACode()
    ensures StripColours([Esc] + Reset + "[0m") == Reset
  {
    var tail := Reset + "[0m";
    var s := [Esc] + tail;
    assert [Esc] + Reset + "[0m" == s;
    DoubleEscapeKeepsColour(Blue);
    DoubleEscapeKeepsColour(Yellow);
    DoubleEscapeKeepsColour(Red);
    assert s[..|Reset|][1] != Reset[1];
    RemoveAllSkipsOne(s, Reset);
    assert s[1..] == tail;
    RemoveAllDropsLeading(Reset, "[0m");
    RemoveAllNoOccurrence("[0m", Reset);
  }
}
