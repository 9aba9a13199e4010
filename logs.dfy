/**
 * The in-memory log of the web backend: each entry is the wall-clock time
 * of day, written "HH:MM:SS", then ": " and the message. The clock is an
 * input: every call that logs is given the reading it stamps.
 */
module LogBuffer {
  import opened Wrappers
  import opened Text

  /** A reading of datetime.now(), of which only the time of day is logged. */
  datatype ClockTime = ClockTime(hour: nat, minute: nat, second: nat)

  predicate ValidClock(t: ClockTime)
  {
    t.hour < 24 && t.minute < 60 && t.second < 60
  }

  /** strftime("%H:%M:%S") */
  function ClockText(t: ClockTime): (r: string)
    requires ValidClock(t)
  {
    Pad2(t.hour) + ":" + Pad2(t.minute) + ":" + Pad2(t.second)
  }

  /** f"{timestamp}: {message}": the message, whole, after a ten-character stamp. */
  function Entry(now: ClockTime, message: string): (r: string)
    requires ValidClock(now)
    ensures |r| == 10 + |message| && r[10..] == message
  {
    var r := ClockText(now) + ": " + message;
    assert r[10..] == message;
    r
  }

  /** Reads the time of day back from "HH:MM:SS". */
  function ParseClock(s: string): (r: Option<ClockTime>)
    ensures r.Some? ==> ValidClock(r.value)
  {
    if |s| == 8 && s[2] == ':' && s[5] == ':' && AllDigits(s[..2]) && AllDigits(s[3..5]) && AllDigits(s[6..]) then
      var t := ClockTime(DigitsValue(s[..2]), DigitsValue(s[3..5]), DigitsValue(s[6..]));
      if ValidClock(t) then Some(t) else None
    else None
  }

  /** Splits a log entry into its time stamp and its message. */
  function ParseEntry(e: string): (r: Option<(ClockTime, string)>)
    ensures r.Some? ==> ValidClock(r.value.0) && |e| >= 10
  {
    if |e| >= 10 && e[8..10] == ": " then
      match ParseClock(e[..8])
      case Some(t) => Some((t, e[10..]))
      case None => None
    else None
  }

  /** Every entry carries its time stamp and its message, and both can be read back. */
  lemma ParseEntryOfEntry(now: ClockTime, message: string)
    requires ValidClock(now)
    ensures |Entry(now, message)| == 10 + |message|
    ensures Entry(now, message)[10..] == message
    ensures ParseEntry(Entry(now, message)) == Some((now, message))
  {
    var h, m, s := Pad2(now.hour), Pad2(now.minute), Pad2(now.second);
    var c := ClockText(now);
    var e := Entry(now, message);
    assert c == h + ":" + m + ":" + s;
    assert |c| == 8;
    assert c[..2] == h && c[3..5] == m && c[6..] == s;
    assert e[..8] == c && e[8..10] == ": " && e[10..] == message;
  }

  class LogCollector {
    /** self.logs, oldest entry first */
    var logs: seq<string>

    /** __init__: an empty log. */
    constructor ()
      ensures logs == []
    {
      logs := [];
    }

    /** add_log: one stamped entry is appended; the earlier entries stay as they were. */
    method AddLog(message: string, now: ClockTime)
      requires ValidClock(now)
      modifies this
      ensures logs == old(logs) + [Entry(now, message)]
    {
      var timestamp := ClockText(now);
      var logEntry := timestamp + ": " + message;
      logs := logs + [logEntry];
    }

    /** get_logs: the entries so far. */
    method GetLogs() returns (r: seq<string>)
      ensures r == logs
    {
      r := logs;
    }

    /** clear_logs: the log is emptied. */
    method ClearLogs()
      modifies this
      ensures logs == []
    {
      logs := [];
    }
  }
}
