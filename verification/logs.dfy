/** The log text of one run: `logs_for_invocation` (server.py:292-312). */
module Logs {
  import opened Common
  import opened Validation
  import opened Host
  import opened Schedule

  /** `logs_for_invocation`: the unit, the invocation id and the line limit
      are checked in that order, the log unit is resolved, and the journal's
      text for that invocation is the answer, unchanged. */
  function LogsForInvocation(unit: string, invocation: string, limit: int, host: Host): Reply<string>
  {
    if !ValidUnitName(unit) then Reply(Err(InvalidUnit), [])
    else if !IsInvocationId(invocation) then Reply(Err(InvalidInvocation), [])
    else if !ValidLogsLimit(limit) then Reply(Err(InvalidLimit), [])
    else
      var resolved := ResolveLogUnit(unit, host);
      match resolved.result
      case Err(e) => Reply(Err(e), resolved.issued)
      case Ok(logUnit) =>
        var issued := resolved.issued + [JournalRunText(logUnit, invocation, limit)];
        match host.runText(logUnit, invocation, limit)
        case Failed(m) => Reply(Err(ToolFailed(m)), issued)
        case Printed(text) => Reply(Ok(text), issued)
  }

  /** Nothing runs unless all three checks pass, and a refusal names the
      first check that failed. */
  lemma LogsChecksFirst(unit: string, invocation: string, limit: int, host: Host)
    ensures var r := LogsForInvocation(unit, invocation, limit, host);
      && (r.issued == [] <==> !ValidUnitName(unit) || !IsInvocationId(invocation) || !ValidLogsLimit(limit))
      && (!ValidUnitName(unit) ==> r.result == Err(InvalidUnit))
      && (ValidUnitName(unit) && !IsInvocationId(invocation) ==> r.result == Err(InvalidInvocation))
      && (ValidUnitName(unit) && IsInvocationId(invocation) && !ValidLogsLimit(limit) ==> r.result == Err(InvalidLimit))
  {
    if ValidUnitName(unit) && IsInvocationId(invocation) && ValidLogsLimit(limit) {
      ResolveLogUnitShape(unit, host);
    }
  }

  /** Every command run has checked arguments. */
  lemma LogsQueriesSafe(unit: string, invocation: string, limit: int, host: Host)
    ensures AllSafe(LogsForInvocation(unit, invocation, limit, host).issued)
  {
    if ValidUnitName(unit) && IsInvocationId(invocation) && ValidLogsLimit(limit) {
      ResolveLogUnitShape(unit, host);
    }
  }

  /** A successful answer is the journal text of the resolved log unit for
      that invocation, limited to `limit` lines, passed on unchanged; the
      journal query is the last command run. */
  lemma LogsPassThrough(unit: string, invocation: string, limit: int, host: Host)
    requires LogsForInvocation(unit, invocation, limit, host).result.Ok?
    ensures var r := LogsForInvocation(unit, invocation, limit, host);
      && ResolveLogUnit(unit, host).result.Ok?
      && var logUnit := ResolveLogUnit(unit, host).result.value;
      && host.runText(logUnit, invocation, limit) == Printed(r.result.value)
      && r.issued == ResolveLogUnit(unit, host).issued + [JournalRunText(logUnit, invocation, limit)]
  {
  }
}
