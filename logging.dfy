/** The log-level filter of cbuild.h (`cbuild_vlog` and the minimum-level
    setter and getter). What is printed, and the timestamp, are left to the
    caller: the model decides which label, if any, a message is printed
    with. */
module Logging {
  import opened Wrappers

  /** `cbuild_log_level_t`. */
  const NO_LOGS: int := -1
  const ERROR: int := 1
  const WARN: int := 2
  const INFO: int := 3
  const TRACE: int := 4
  const PRINT: int := 5

  type Level = l: int | l == -1 || 1 <= l <= 5 witness 1

  /** The label handed to the line printer: none for PRINT, the level's
      name otherwise. */
  datatype Label = Plain | Named(level: Level)

  /** Whether `cbuild_vlog(level, ...)` prints under minimum level `min`,
      and with which label. */
  function Filter(level: Level, min: Level): (r: Option<Label>)
    ensures level == NO_LOGS ==> r.None?
    ensures level == PRINT ==> r == Some(Plain)
    ensures ERROR <= level <= TRACE ==> (r.Some? <==> level <= min)
    ensures r.Some? && r.value.Named? ==> r.value.level == level
  {
    if level == NO_LOGS then None
    else if level == PRINT then Some(Plain)
    else if level <= min then Some(Named(level))
    else None
  }

  /** Raising the minimum level never silences a message. */
  lemma FilterMonotone(level: Level, min1: Level, min2: Level)
    requires min1 <= min2 && Filter(level, min1).Some?
    ensures Filter(level, min2) == Filter(level, min1)
  {
  }

  /** With the minimum at NO_LOGS only PRINT messages are printed. */
  lemma NoLogsSilences(level: Level)
    ensures Filter(level, NO_LOGS).Some? <==> level == PRINT
  {
  }

  /** The process-wide minimum level `__CBUILD_LOG_MIN_LEVEL`. */
  class Logger {
    var minLevel: Level

    /** Starts at CBUILD_LOG_MIN_LEVEL, which defaults to ERROR. */
    constructor ()
      ensures minLevel == ERROR
    {
      minLevel := ERROR;
    }

    /** `cbuild_log_set_min_level` */
    method SetMinLevel(level: Level)
      modifies this
      ensures minLevel == level
    {
      minLevel := level;
    }

    /** `cbuild_log_get_min_level` */
    function GetMinLevel(): (l: Level)
      reads this
      ensures l == minLevel
    {
      minLevel
    }

    /** `cbuild_vlog`: the label the message is printed with, or None when
        it is dropped. */
    method VLog(level: Level) returns (r: Option<Label>)
      ensures r == Filter(level, minLevel)
    {
      if level == NO_LOGS {
        return None;
      }
      if level == PRINT {
        r := Some(Plain);
      } else if level <= minLevel {
        r := Some(Named(level));
      } else {
        r := None;
      }
    }
  }

  /** With the default minimum, only errors and PRINT messages appear. */
  method DefaultFilter(level: Level) returns (r: Option<Label>)
    ensures r.Some? <==> level == ERROR || level == PRINT
  {
    var log := new Logger();
    r := log.VLog(level);
  }
}

/** `cbuild_compare_mtime_many`: the per-input results of
    `cbuild_compare_mtime` (-1 error, 1 input newer than the output or
    output missing, 0 up to date) are summed, stopping at the first
    error. */
module MtimeChecks {
  type Check = c: int | -1 <= c <= 1

  /** How many inputs are newer than the output. */
  function Newer(checks: seq<Check>): (n: nat)
    ensures n <= |checks|
  {
    if checks == [] then 0
    else Newer(checks[..|checks| - 1]) + (if checks[|checks| - 1] == 1 then 1 else 0)
  }

  predicate AllChecked(checks: seq<Check>) {
    forall i :: 0 <= i < |checks| ==> checks[i] >= 0
  }

  method CompareMtimeMany(checks: seq<Check>) returns (r: int)
    ensures !AllChecked(checks) ==> r == -1
    ensures AllChecked(checks) ==> r == Newer(checks)
    ensures r > 0 <==> AllChecked(checks) && exists i :: 0 <= i < |checks| && checks[i] == 1
  {
    var ret: int := 0;
    for i := 0 to |checks|
      invariant AllChecked(checks[..i]) && ret == Newer(checks[..i])
    {
      var check := checks[i];
      if check < 0 {
        assert !AllChecked(checks);
        return check;
      }
      assert checks[..i + 1][..i] == checks[..i];
      ret := ret + check;
    }
    assert checks[..|checks|] == checks;
    NewerPositive(checks);
    return ret;
  }

  /** The count is positive exactly when some input is newer. */
  lemma {:induction false} NewerPositive(checks: seq<Check>)
    ensures Newer(checks) > 0 <==> exists i :: 0 <= i < |checks| && checks[i] == 1
  {
    if checks != [] {
      var front := checks[..|checks| - 1];
      NewerPositive(front);
      if exists i :: 0 <= i < |front| && front[i] == 1 {
        var i :| 0 <= i < |front| && front[i] == 1;
        assert checks[i] == 1;
      }
      if exists i :: 0 <= i < |checks| && checks[i] == 1 {
        var i :| 0 <= i < |checks| && checks[i] == 1;
        if i < |front| { assert front[i] == 1; }
      }
    }
  }
}
