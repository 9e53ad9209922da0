/** What the server asks of the machine: the commands it runs, what each
    command hands back, and the reply of an entry point together with the
    commands it ran, in order. */
module Host {
  import opened Common
  import opened Text
  import opened Validation

  /** The outcome of one command: a non-zero exit or a timeout (with the
      message `run` raises), or the command's output. */
  datatype Output<T> = Failed(message: string) | Printed(value: T)

  /** One line of `journalctl -o json` output, as the server's
      `json.loads` sees it. */
  datatype Line = Empty | Unparsable | Parsed(value: Json)

  /** The output of `systemctl list-timers --output=json`: empty, not JSON,
      or a decoded document. */
  datatype TimerText = NoOutput | NotJson | Decoded(doc: Json)

  /** The commands the server runs. */
  datatype Query =
    | SystemctlListUnitFiles
    | SystemctlListUnits
    | SystemctlListTimers
    | SystemctlListDependencies(target: string)
    | JournalScan(unit: string, window: nat)
    | JournalRun(unit: string, invocation: string)
    | JournalRunText(unit: string, invocation: string, lines: int)

  /** A snapshot of the machine: what each command would print, or how it
      would fail. The journal commands are functions of their arguments. */
  datatype Host = Host(
    unitFiles: Output<string>,
    units: Output<string>,
    timers: Output<TimerText>,
    dependencies: string -> Output<string>,
    journal: string -> Output<seq<Line>>,
    runRecords: (string, string) -> Output<seq<Line>>,
    runText: (string, string, int) -> Output<string>)

  /** The answer of an entry point and the commands it ran to get it. */
  datatype Reply<+T> = Reply(result: Result<T>, issued: seq<Query>)

  /** A command whose arguments passed the server's checks: every unit name
      matches UNIT_RE, every invocation id is 32 lowercase hex digits, every
      count is in its documented range. */
  predicate SafeQuery(q: Query)
  {
    match q
    case SystemctlListDependencies(t) => ValidUnitName(t) && EndsWith(t, ".target")
    case JournalScan(u, n) => MatchesUnitPattern(u) && n == ScanWindow
    case JournalRun(u, inv) => MatchesUnitPattern(u) && IsInvocationId(inv)
    case JournalRunText(u, inv, n) => MatchesUnitPattern(u) && IsInvocationId(inv) && ValidLogsLimit(n)
    case _ => true
  }

  predicate AllSafe(qs: seq<Query>)
  {
    forall i :: 0 <= i < |qs| ==> SafeQuery(qs[i])
  }

  /** Two runs of checked commands, one after the other. */
  lemma AllSafeJoin(a: seq<Query>, b: seq<Query>)
    requires AllSafe(a) && AllSafe(b)
    ensures AllSafe(a + b)
  {
    assert forall i :: |a| <= i < |a + b| ==> (a + b)[i] == b[i - |a|];
  }
}
