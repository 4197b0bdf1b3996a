/** services/logService.ts: the analysis history, kept newest-first in one
    local-storage slot and capped at MaxLogEntries. A save that repeats the
    IP of the newest entry within DuplicateWindowMs of the current clock
    either replaces that entry (when only the new one carries trace data) or
    is dropped. Local storage and its JSON encoding are an in-memory slot
    that is absent, holds text that does not parse, or holds a list. */
module LogService {
  import opened Types
  import opened JsString

  const MaxLogEntries: nat := 20
  const DuplicateWindowMs: int := 60 * 1000

  /** The `ipDashboardLog` storage slot. */
  datatype Slot = Absent | Corrupt | Stored(entries: seq<LogEntry>)

  /** getLogs: the stored list, or the empty list when nothing is stored or it does not parse. */
  function ReadLogs(slot: Slot): (logs: seq<LogEntry>)
    ensures slot.Stored? ==> logs == slot.entries
    ensures slot == Absent || slot == Corrupt ==> logs == []
  {
    match slot
    case Stored(entries) => entries
    case _ => []
  }

  /** The newest entry is for the same IP and was created less than a minute before `now`. */
  predicate IsRecentRepeat(logs: seq<LogEntry>, log: LogEntry, now: int) {
    |logs| > 0
    && logs[0].result.geoData.query == log.result.geoData.query
    && now - logs[0].id < DuplicateWindowMs
  }

  /** The new entry carries trace data that the newest one lacks. */
  predicate Enriches(log: LogEntry, last: LogEntry) {
    log.result.traceData.Some? && last.result.traceData.None?
  }

  /** The list saveLog writes back after reading `logs`, or None when it writes nothing. */
  function Saved(logs: seq<LogEntry>, log: LogEntry, now: int): Option<seq<LogEntry>> {
    if IsRecentRepeat(logs, log, now) then
      if Enriches(log, logs[0]) then Some(logs[0 := log]) else None
    else
      Some(Take([log] + logs, MaxLogEntries))
  }

  /** The slot after saveLog: the written list, or the old slot when nothing is written. */
  function AfterSave(slot: Slot, log: LogEntry, now: int): (after: Slot)
    ensures after.Stored? && |after.entries| >= 1
    ensures |ReadLogs(slot)| <= MaxLogEntries ==> |after.entries| <= MaxLogEntries
    ensures forall e :: e in after.entries ==> e == log || e in ReadLogs(slot)
  {
    var logs := ReadLogs(slot);
    SavedIsNonEmpty(logs, log, now);
    SavedIsBounded(logs, log, now);
    SavedDrawsFrom(logs, log, now);
    match Saved(logs, log, now)
    case Some(written) => Stored(written)
    case None => slot
  }

  /** A richer repeat replaces the newest entry in place; nothing else moves. */
  lemma SaveMergesRicherRepeat(logs: seq<LogEntry>, log: LogEntry, now: int)
    requires IsRecentRepeat(logs, log, now) && Enriches(log, logs[0])
    ensures Saved(logs, log, now).Some?
    ensures var r := Saved(logs, log, now).value;
      |r| == |logs| && r[0] == log && forall i :: 1 <= i < |r| ==> r[i] == logs[i]
  {
  }

  /** Any other repeat writes nothing. */
  lemma SaveDropsPlainRepeat(logs: seq<LogEntry>, log: LogEntry, now: int)
    requires IsRecentRepeat(logs, log, now) && !Enriches(log, logs[0])
    ensures Saved(logs, log, now) == None
  {
  }

  /** Otherwise the entry goes in front, the older ones keep their order and
      the oldest fall off beyond the cap. */
  lemma SavePrepends(logs: seq<LogEntry>, log: LogEntry, now: int)
    requires !IsRecentRepeat(logs, log, now)
    ensures Saved(logs, log, now).Some?
    ensures var r := Saved(logs, log, now).value;
      && |r| == (if |logs| < MaxLogEntries then |logs| + 1 else MaxLogEntries)
      && r[0] == log
      && forall i :: 1 <= i < |r| ==> r[i] == logs[i - 1]
  {
  }

  /** Only the newest entry is compared: an entry for the same IP further down
      does not stop the new one from being prepended. */
  lemma OnlyNewestIsCompared(logs: seq<LogEntry>, log: LogEntry, now: int, k: nat)
    requires 1 <= k < |logs| && logs[k].result.geoData.query == log.result.geoData.query
    requires logs[0].result.geoData.query != log.result.geoData.query
    ensures Saved(logs, log, now) == Some(Take([log] + logs, MaxLogEntries))
  {
  }

  /** Saving into an empty history writes exactly the new entry. */
  lemma SaveIntoEmpty(log: LogEntry, now: int)
    ensures Saved([], log, now) == Some([log])
  {
  }

  /** A written list is never empty. */
  lemma SavedIsNonEmpty(logs: seq<LogEntry>, log: LogEntry, now: int)
    ensures Saved(logs, log, now).Some? ==> |Saved(logs, log, now).value| >= 1
  {
  }

  /** A written list stays within the cap when the list read was within it. */
  lemma SavedIsBounded(logs: seq<LogEntry>, log: LogEntry, now: int)
    ensures |logs| <= MaxLogEntries && Saved(logs, log, now).Some? ==> |Saved(logs, log, now).value| <= MaxLogEntries
  {
  }

  /** Every entry of a written list is the new entry or one that was read. */
  lemma {:induction false} SavedDrawsFrom(logs: seq<LogEntry>, log: LogEntry, now: int)
    ensures Saved(logs, log, now).Some? ==>
      forall e :: e in Saved(logs, log, now).value ==> e == log || e in logs
  {
    if Saved(logs, log, now).Some? && IsRecentRepeat(logs, log, now) {
      var r := logs[0 := log];
      forall e | e in r ensures e == log || e in logs {
        var i :| 0 <= i < |r| && r[i] == e;
        if i > 0 {
          assert e == logs[i];
        }
      }
    } else if Saved(logs, log, now).Some? {
      var all := [log] + logs;
      var r := Take(all, MaxLogEntries);
      forall e | e in r ensures e == log || e in logs {
        var i :| 0 <= i < |r| && r[i] == e;
        assert e == all[i];
        if i > 0 {
          assert e == logs[i - 1];
        }
      }
    }
  }

  /** Two analyses of one IP within the window, the second carrying trace data
      the first lacks, leave one entry: the second. */
  lemma RicherRepeatLeavesOneEntry(first: LogEntry, second: LogEntry, t1: int, t2: int)
    requires first.result.traceData.None? && second.result.traceData.Some?
    requires first.result.geoData.query == second.result.geoData.query
    requires t2 - first.id < DuplicateWindowMs
    ensures Saved([first], second, t2) == Some([second])
    ensures Saved([], first, t1) == Some([first])
  {
    SaveIntoEmpty(first, t1);
    assert [first][0 := second] == [second];
  }

  /** The browser's storage as this service sees it. */
  class LogStore {
    var slot: Slot

    /** The list the store would hand out. */
    function Contents(): seq<LogEntry>
      reads this
    {
      ReadLogs(slot)
    }

    /** The stored list, if any, is within the cap. Every save keeps this, and
        clearing establishes it; an initial slot written elsewhere may break it. */
    predicate WithinCap()
      reads this
    {
      slot.Stored? ==> |slot.entries| <= MaxLogEntries
    }

    constructor (initial: Slot)
      ensures slot == initial
    {
      slot := initial;
    }

    /** getLogs: never fails; absent or unparsable storage reads as empty. */
    method GetLogs() returns (logs: seq<LogEntry>)
      ensures slot.Stored? ==> logs == slot.entries
      ensures !slot.Stored? ==> logs == []
    {
      match slot {
        case Stored(entries) => logs := entries;
        case Absent => logs := [];
        case Corrupt => logs := [];
      }
    }

    /** saveLog(log), with `now` the clock reading it takes. */
    method SaveLog(log: LogEntry, now: int)
      modifies this
      ensures slot == AfterSave(old(slot), log, now)
      ensures slot.Stored? && |slot.entries| >= 1
      ensures old(WithinCap()) ==> WithinCap()
    {
      var logs := GetLogs();
      if |logs| > 0 {
        var lastLog := logs[0];
        if lastLog.result.geoData.query == log.result.geoData.query && now - lastLog.id < DuplicateWindowMs {
          if log.result.traceData.Some? && lastLog.result.traceData.None? {
            logs := logs[0 := log];
            slot := Stored(logs);
          }
          return;
        }
      }
      var updatedLogs := Take([log] + logs, MaxLogEntries);
      slot := Stored(updatedLogs);
    }

    /** clearLogs: the slot is removed, whatever it held; so clearing twice is clearing once. */
    method ClearLogs()
      modifies this
      ensures slot == Absent && Contents() == [] && WithinCap()
    {
      slot := Absent;
    }
  }
}
