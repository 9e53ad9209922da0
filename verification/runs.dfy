/** The runs of a unit (`list_runs`, server.py:194-289): the journal scan
    that discovers invocation ids, the status heuristic `upd_status`, and the
    per-invocation aggregation of timestamps, CPU usage and status. */
module Runs {
  import opened Common
  import opened Text
  import opened Numbers
  import opened Validation
  import opened Host
  import opened Schedule

  // ---------------------------------------------------------------------
  // Status

  datatype Status = Unknown | Success | Failure

  /** A message that reports a failure: it mentions "failed", "error" or
      "exited", in any case. */
  predicate SignalsFailure(msg: string)
  {
    var m := Lower(msg);
    Contains(m, "failed") || Contains(m, "error") || Contains(m, "exited")
  }

  /** A message that reports a clean end: it mentions "deactivated
      successfully" or starts with "finished ", in any case. */
  predicate SignalsSuccess(msg: string)
  {
    var m := Lower(msg);
    Contains(m, "deactivated successfully") || StartsWith(m, "finished ")
  }

  /** `upd_status`: a failure message makes the run failed; a success
      message makes it successful unless it already failed; any other message
      leaves the status as it was. */
  function UpdStatus(prev: Status, msg: string): Status
  {
    if SignalsFailure(msg) then Failure
    else if SignalsSuccess(msg) then (if prev == Failure then Failure else Success)
    else prev
  }

  /** The status after the messages of a run, in order, starting from
      "unknown". */
  function Verdict(msgs: seq<string>): Status
  {
    if msgs == [] then Unknown else UpdStatus(Verdict(msgs[..|msgs| - 1]), msgs[|msgs| - 1])
  }

  /** Once failed, a run stays failed. */
  lemma FailureIsAbsorbing(msg: string)
    ensures UpdStatus(Failure, msg) == Failure
  {
  }

  /** A run failed exactly when one of its messages reports a failure; it
      succeeded exactly when none does and one reports a clean end; otherwise
      its status stays unknown. The order of the messages does not matter. */
  lemma {:induction false} VerdictCharacterised(msgs: seq<string>)
    ensures Verdict(msgs) == Failure <==> exists i :: 0 <= i < |msgs| && SignalsFailure(msgs[i])
    ensures Verdict(msgs) == Success <==>
      (forall i :: 0 <= i < |msgs| ==> !SignalsFailure(msgs[i]))
      && exists i :: 0 <= i < |msgs| && SignalsSuccess(msgs[i])
  {
    if msgs != [] {
      var n := |msgs| - 1;
      var init := msgs[..n];
      VerdictCharacterised(init);
      assert forall i :: 0 <= i < n ==> init[i] == msgs[i];
      if SignalsFailure(msgs[n]) {
      } else if SignalsSuccess(msgs[n]) {
        assert (exists i :: 0 <= i < |msgs| && SignalsFailure(msgs[i]))
          <==> exists i :: 0 <= i < n && SignalsFailure(init[i]);
      } else {
        assert (exists i :: 0 <= i < |msgs| && SignalsFailure(msgs[i]))
          <==> exists i :: 0 <= i < n && SignalsFailure(init[i]);
        assert (exists i :: 0 <= i < |msgs| && SignalsSuccess(msgs[i]))
          <==> exists i :: 0 <= i < n && SignalsSuccess(init[i]);
      }
    }
  }

  lemma LowerIdempotent(s: string)
    ensures Lower(Lower(s)) == Lower(s)
  {
    assert forall i :: 0 <= i < |s| ==> LowerChar(LowerChar(s[i])) == LowerChar(s[i]);
  }

  /** The heuristic ignores case: a message and its lower-case form have the
      same effect. */
  lemma UpdStatusIgnoresCase(prev: Status, msg: string)
    ensures UpdStatus(prev, Lower(msg)) == UpdStatus(prev, msg)
  {
    LowerIdempotent(msg);
  }

  /** `(msg or "")`, ready for `.lower()`: a falsy MESSAGE reads as "", a
      string as itself, anything else makes `.lower()` raise. */
  function MessageOf(v: Json): (r: Result<string>)
    ensures r.Ok? <==> !Truthy(v) || v.JStr?
    ensures !Truthy(v) ==> r == Ok("")
    ensures v.JStr? ==> r == Ok(v.s)
  {
    if !Truthy(v) then Ok("") else if v.JStr? then Ok(v.s) else Err(Unexpected)
  }

  // ---------------------------------------------------------------------
  // Discovery of invocation ids

  /** What one line of the scan contributes: nothing (a blank or unparsable
      line, or an INVOCATION_ID that is missing or not 32 lowercase hex
      digits), an id, or a raise (a record that is not an object, or an
      INVOCATION_ID that is neither falsy nor a string). */
  function Sighting(line: Line): (r: Result<Option<string>>)
    ensures r.Ok? && r.value.Some? ==> IsInvocationId(r.value.value)
  {
    match line
    case Empty => Ok(None)
    case Unparsable => Ok(None)
    case Parsed(e) =>
      if !e.JObject? then Err(Unexpected)
      else
        var inv := Get(e.members, "INVOCATION_ID");
        if !Truthy(inv) then Ok(None)
        else if !inv.JStr? then Err(Unexpected)
        else if !IsInvocationId(inv.s) then Ok(None)
        else Ok(Some(inv.s))
  }

  /** The discovery loop from a point on, with the ids `found` so far: each
      new id is appended, and the loop stops as soon as `limit` ids are in
      hand. Each id is appended once, is a valid id, and no more than `limit`
      are collected. */
  function Scan(lines: seq<Line>, limit: int, found: seq<string>): (r: Result<seq<string>>)
    ensures r.Ok? ==> found <= r.value
    ensures r.Ok? ==> forall i :: |found| <= i < |r.value| ==> IsInvocationId(r.value[i])
    ensures r.Ok? ==> forall i, j :: 0 <= i < j < |r.value| && |found| <= j ==> r.value[i] != r.value[j]
    ensures r.Ok? && |found| < limit ==> |r.value| <= limit
    decreases |lines|
  {
    if lines == [] then Ok(found)
    else
      match Sighting(lines[0])
      case Err(e) => Err(e)
      case Ok(None) => Scan(lines[1..], limit, found)
      case Ok(Some(inv)) =>
        if inv in found then Scan(lines[1..], limit, found)
        else
          var more := found + [inv];
          if |more| >= limit then Ok(more) else Scan(lines[1..], limit, more)
  }

  /** The discovery loop of `list_runs`. */
  method DiscoverInvocations(lines: seq<Line>, limit: int) returns (r: Result<seq<string>>)
    ensures r == Scan(lines, limit, [])
  {
    var invIds: seq<string> := [];
    var invSet: set<string> := {};
    var i := 0;
    while i < |lines|
      invariant 0 <= i <= |lines|
      invariant forall x :: x in invSet <==> x in invIds
      invariant Scan(lines, limit, []) == Scan(lines[i..], limit, invIds)
    {
      assert lines[i..][0] == lines[i] && lines[i..][1..] == lines[i + 1..];
      var line := lines[i];
      i := i + 1;
      if !line.Parsed? {
        continue;
      }
      var e := line.value;
      if !e.JObject? {
        return Err(Unexpected);
      }
      var inv := Get(e.members, "INVOCATION_ID");
      if !Truthy(inv) {
        continue;
      }
      if !inv.JStr? {
        return Err(Unexpected);
      }
      if !IsInvocationId(inv.s) {
        continue;
      }
      if inv.s in invSet {
        continue;
      }
      invSet := invSet + {inv.s};
      invIds := invIds + [inv.s];
      if |invIds| >= limit {
        return Ok(invIds);
      }
    }
    r := Ok(invIds);
  }

  /** The ids the scan sights, line by line, repeats included. */
  function Sighted(lines: seq<Line>): seq<string>
  {
    if lines == [] then []
    else
      var last := Sighting(lines[|lines| - 1]);
      Sighted(lines[..|lines| - 1]) + (if last.Ok? && last.value.Some? then [last.value.value] else [])
  }

  /** No line of the scan raises. */
  predicate Readable(lines: seq<Line>)
  {
    forall i :: 0 <= i < |lines| ==> Sighting(lines[i]).Ok?
  }

  /** The first occurrence of each element, in order. */
  function Distinct(s: seq<string>): (d: seq<string>)
    ensures forall x :: x in d <==> x in s
    ensures forall i, j :: 0 <= i < j < |d| ==> d[i] != d[j]
  {
    if s == [] then []
    else
      var init := Distinct(s[..|s| - 1]);
      if s[|s| - 1] in s[..|s| - 1] then init
      else
        assert forall x :: x in s <==> x in s[..|s| - 1] || x == s[|s| - 1] by {
          assert s == s[..|s| - 1] + [s[|s| - 1]];
        }
        init + [s[|s| - 1]]
  }

  function Take(s: seq<string>, n: nat): seq<string>
  {
    if |s| <= n then s else s[..n]
  }

  /** The ids sighted in the lines are those sighted before line `k`, then
      those sighted from it on. */
  lemma {:induction false} SightedSplit(lines: seq<Line>, k: nat)
    requires k <= |lines|
    ensures Sighted(lines) == Sighted(lines[..k]) + Sighted(lines[k..])
    decreases |lines|
  {
    if k == |lines| {
      assert lines[..k] == lines && lines[k..] == [];
    } else {
      var n := |lines| - 1;
      SightedSplit(lines[..n], k);
      assert lines[..n][..k] == lines[..k];
      assert lines[..n][k..] == lines[k..][..n - k];
      assert lines[k..][n - k] == lines[n];
    }
  }

  lemma {:induction false} DistinctPrefix(s: seq<string>, t: seq<string>)
    ensures Distinct(s) <= Distinct(s + t)
    decreases |t|
  {
    if t == [] {
      assert s + t == s;
    } else {
      var n := |t| - 1;
      assert (s + t)[..|s + t| - 1] == s + t[..n];
      DistinctPrefix(s, t[..n]);
    }
  }

  /** The ids sighted up to line `i`, inclusive. */
  lemma SightedStep(lines: seq<Line>, i: nat)
    requires i < |lines|
    ensures var s := Sighting(lines[i]);
      Sighted(lines[..i + 1]) == Sighted(lines[..i]) + (if s.Ok? && s.value.Some? then [s.value.value] else [])
  {
    assert lines[..i + 1][..i] == lines[..i];
    assert lines[..i + 1][i] == lines[i];
  }

  lemma DistinctStep(s: seq<string>, x: string)
    ensures Distinct(s + [x]) == if x in s then Distinct(s) else Distinct(s) + [x]
  {
    assert (s + [x])[..|s|] == s;
  }

  /** Once the distinct ids up to line `i` number `limit`, they are the
      first `limit` distinct ids of all the lines. */
  lemma TakeAtLimit(lines: seq<Line>, limit: nat, i: nat)
    requires i < |lines| && |Distinct(Sighted(lines[..i + 1]))| == limit
    ensures Take(Distinct(Sighted(lines)), limit) == Distinct(Sighted(lines[..i + 1]))
  {
    DistinctSightedPrefix(lines, i + 1);
    TakePrefix(Distinct(Sighted(lines[..i + 1])), Distinct(Sighted(lines)), limit);
  }

  /** The distinct ids of a prefix of the lines come first among those of
      all the lines. */
  lemma DistinctSightedPrefix(lines: seq<Line>, k: nat)
    requires k <= |lines|
    ensures Distinct(Sighted(lines[..k])) <= Distinct(Sighted(lines))
  {
    SightedSplit(lines, k);
    DistinctOfJoin(Sighted(lines[..k]), Sighted(lines[k..]), Sighted(lines));
  }

  lemma DistinctOfJoin(s: seq<string>, t: seq<string>, whole: seq<string>)
    requires whole == s + t
    ensures Distinct(s) <= Distinct(whole)
  {
    DistinctPrefix(s, t);
  }

  /** Taking as many elements as a prefix has yields that prefix. */
  lemma TakePrefix(d: seq<string>, all: seq<string>, n: nat)
    requires d <= all && |d| == n
    ensures Take(all, n) == d
  {
  }

  /** The scan from line `i` on, having found the distinct ids of the lines
      before it, ends with the first `limit` distinct ids of all the lines. */
  lemma {:induction false} ScanTakesDistinct(lines: seq<Line>, limit: nat, i: nat)
    requires i <= |lines| && Readable(lines)
    requires |Distinct(Sighted(lines[..i]))| < limit
    ensures Scan(lines[i..], limit, Distinct(Sighted(lines[..i]))) == Ok(Take(Distinct(Sighted(lines)), limit))
    decreases |lines| - i
  {
    var found := Distinct(Sighted(lines[..i]));
    if i == |lines| {
      assert lines[..i] == lines;
    } else {
      assert lines[i..][0] == lines[i] && lines[i..][1..] == lines[i + 1..];
      SightedStep(lines, i);
      var s := Sighting(lines[i]);
      assert s.Ok?;
      if s.value.None? {
        assert Sighted(lines[..i + 1]) == Sighted(lines[..i]) + [];
        assert Sighted(lines[..i]) + [] == Sighted(lines[..i]);
        ScanTakesDistinct(lines, limit, i + 1);
      } else {
        var x := s.value.value;
        DistinctStep(Sighted(lines[..i]), x);
        if x in found {
          ScanTakesDistinct(lines, limit, i + 1);
        } else if |found| + 1 >= limit {
          TakeAtLimit(lines, limit, i);
        } else {
          ScanTakesDistinct(lines, limit, i + 1);
        }
      }
    }
  }

  /** When no line of the scan raises, discovery yields the first `limit`
      distinct invocation ids, in the order the journal first shows them. */
  lemma DiscoveryTakesFirstDistinct(lines: seq<Line>, limit: nat)
    requires limit >= 1 && Readable(lines)
    ensures Scan(lines, limit, []) == Ok(Take(Distinct(Sighted(lines)), limit))
  {
    assert lines[..0] == [] && lines[0..] == lines;
    ScanTakesDistinct(lines, limit, 0);
  }

  /** A journal record that carries only an invocation id. */
  function IdRecord(id: string): Line
  {
    Parsed(JObject(map["INVOCATION_ID" := JStr(id)]))
  }

  /** The scanned window shows records of invocations C, B, A, C, B, in the
      order `journalctl` prints them; discovery with a limit of two yields C
      then B. */
  lemma DiscoveryExample(a: string, b: string, c: string)
    requires IsInvocationId(a) && IsInvocationId(b) && IsInvocationId(c)
    requires a != b && b != c && a != c
    ensures Scan([IdRecord(c), IdRecord(b), IdRecord(a), IdRecord(c), IdRecord(b)], 2, []) == Ok([c, b])
  {
    var lines := [IdRecord(c), IdRecord(b), IdRecord(a), IdRecord(c), IdRecord(b)];
    var rest := lines[1..];
    assert rest[0] == IdRecord(b);
    assert b !in [c] && [c] + [b] == [c, b];
    assert Scan(rest, 2, [c]) == Ok([c, b]);
    assert lines[0] == IdRecord(c) && [] + [c] == [c];
  }

  // ---------------------------------------------------------------------
  // Aggregation of one invocation

  /** What the loop over an invocation's records keeps: earliest and latest
      timestamp, the status, and the largest CPU usage seen. */
  datatype Tally = Tally(startMs: Option<nat>, endMs: Option<nat>, status: Status, cpuUsageNsec: Option<int>)

  const Fresh := Tally(None, None, Unknown, None)

  function Min(a: int, b: int): int
  {
    if a <= b then a else b
  }

  function Max(a: int, b: int): int
  {
    if a >= b then a else b
  }

  /** `int(cpu) if cpu is not None else None`, with a failed conversion
      read as None. */
  function CpuSample(v: Json): Option<int>
  {
    if v == JNull then None else PyInt(v)
  }

  /** One record folded into the tally. A record that is not an object, or
      whose MESSAGE is neither falsy nor a string, raises. */
  function Absorb(t: Tally, line: Line): Result<Tally>
  {
    match line
    case Empty => Ok(t)
    case Unparsable => Ok(t)
    case Parsed(e) =>
      if !e.JObject? then Err(Unexpected)
      else
        var d := e.members;
        var ts := UsecToMs(Get(d, "__REALTIME_TIMESTAMP"));
        var start := if ts.None? then t.startMs else if t.startMs.None? then ts else Some(Min(t.startMs.value, ts.value));
        var end := if ts.None? then t.endMs else if t.endMs.None? then ts else Some(Max(t.endMs.value, ts.value));
        var cpu := CpuSample(Get(d, "CPU_USAGE_NSEC"));
        var usage := if cpu.None? then t.cpuUsageNsec else if t.cpuUsageNsec.None? then cpu else Some(Max(t.cpuUsageNsec.value, cpu.value));
        match MessageOf(Get(d, "MESSAGE"))
        case Err(err) => Err(err)
        case Ok(msg) => Ok(Tally(start, end, UpdStatus(t.status, msg), usage))
  }

  /** The tally after the records of an invocation, in order. */
  function TallyOf(lines: seq<Line>): Result<Tally>
  {
    if lines == [] then Ok(Fresh)
    else
      match TallyOf(lines[..|lines| - 1])
      case Err(e) => Err(e)
      case Ok(t) => Absorb(t, lines[|lines| - 1])
  }

  /** A record that raises ends the aggregation: no later record is read. */
  lemma {:induction false} TallyOfFailsEarly(lines: seq<Line>, k: nat)
    requires k <= |lines| && TallyOf(lines[..k]).Err?
    ensures TallyOf(lines) == TallyOf(lines[..k])
  {
    if k < |lines| {
      var n := |lines| - 1;
      assert lines[..n][..k] == lines[..k];
      TallyOfFailsEarly(lines[..n], k);
    } else {
      assert lines[..k] == lines;
    }
  }

  /** One more record of the aggregation. */
  lemma TallyStep(lines: seq<Line>, i: nat)
    requires i < |lines| && TallyOf(lines[..i]).Ok?
    ensures TallyOf(lines[..i + 1]) == Absorb(TallyOf(lines[..i]).value, lines[i])
  {
    assert lines[..i + 1][..i] == lines[..i];
  }

  /** The aggregation loop of `list_runs` for one invocation. */
  method Aggregate(lines: seq<Line>) returns (r: Result<Tally>)
    ensures r == TallyOf(lines)
  {
    var startMs: Option<nat> := None;
    var endMs: Option<nat> := None;
    var status := Unknown;
    var cpuUsage: Option<int> := None;
    var i := 0;
    while i < |lines|
      invariant 0 <= i <= |lines|
      invariant TallyOf(lines[..i]) == Ok(Tally(startMs, endMs, status, cpuUsage))
    {
      TallyStep(lines, i);
      var line := lines[i];
      if line.Parsed? {
        var e := line.value;
        if !e.JObject? {
          TallyOfFailsEarly(lines, i + 1);
          return Err(Unexpected);
        }
        var tsMs := UsecToMs(Get(e.members, "__REALTIME_TIMESTAMP"));
        if tsMs.Some? {
          startMs := if startMs.None? then tsMs else Some(Min(startMs.value, tsMs.value));
          endMs := if endMs.None? then tsMs else Some(Max(endMs.value, tsMs.value));
        }
        var cpu := Get(e.members, "CPU_USAGE_NSEC");
        var cpuN := if cpu != JNull then PyInt(cpu) else None;
        if cpuN.Some? {
          cpuUsage := if cpuUsage.None? then cpuN else Some(Max(cpuUsage.value, cpuN.value));
        }
        var msg := Get(e.members, "MESSAGE");
        if Truthy(msg) && !msg.JStr? {
          TallyOfFailsEarly(lines, i + 1);
          return Err(Unexpected);
        }
        status := UpdStatus(status, if msg.JStr? then msg.s else "");
      }
      i := i + 1;
    }
    assert lines[..i] == lines;
    r := Ok(Tally(startMs, endMs, status, cpuUsage));
  }

  /** The smallest element, if any. */
  function MinOf(s: seq<nat>): (r: Option<nat>)
    ensures r.None? <==> s == []
    ensures r.Some? ==> r.value in s && forall x :: x in s ==> r.value <= x
  {
    if s == [] then None
    else
      var init, last := s[..|s| - 1], s[|s| - 1];
      var m := MinOf(init);
      assert forall x :: x in s <==> x in init || x == last by {
        assert s == init + [last];
      }
      Some(if m.None? then last else Min(m.value, last))
  }

  /** The largest element, if any. */
  function MaxOf(s: seq<int>): (r: Option<int>)
    ensures r.None? <==> s == []
    ensures r.Some? ==> r.value in s && forall x :: x in s ==> x <= r.value
  {
    if s == [] then None
    else
      var init, last := s[..|s| - 1], s[|s| - 1];
      var m := MaxOf(init);
      assert forall x :: x in s <==> x in init || x == last by {
        assert s == init + [last];
      }
      Some(if m.None? then last else Max(m.value, last))
  }

  /** The record of a line, when it is a JSON object. */
  function RecordOf(line: Line): Option<map<string, Json>>
  {
    if line.Parsed? && line.value.JObject? then Some(line.value.members) else None
  }

  /** The timestamps (in milliseconds) of an invocation's records. */
  function Stamps(lines: seq<Line>): seq<nat>
  {
    if lines == [] then []
    else
      var d := RecordOf(lines[|lines| - 1]);
      var ts := if d.Some? then UsecToMs(Get(d.value, "__REALTIME_TIMESTAMP")) else None;
      Stamps(lines[..|lines| - 1]) + (if ts.Some? then [ts.value] else [])
  }

  /** The CPU usage readings of an invocation's records. */
  function CpuSamples(lines: seq<Line>): seq<int>
  {
    if lines == [] then []
    else
      var d := RecordOf(lines[|lines| - 1]);
      var cpu := if d.Some? then CpuSample(Get(d.value, "CPU_USAGE_NSEC")) else None;
      CpuSamples(lines[..|lines| - 1]) + (if cpu.Some? then [cpu.value] else [])
  }

  /** The messages of an invocation's records, a falsy one read as "". */
  function Messages(lines: seq<Line>): seq<string>
  {
    if lines == [] then []
    else
      var d := RecordOf(lines[|lines| - 1]);
      var msg := if d.Some? then MessageOf(Get(d.value, "MESSAGE")) else Err(Unexpected);
      Messages(lines[..|lines| - 1]) + (if msg.Ok? then [msg.value] else [])
  }

  /** A successful aggregation reports the earliest and latest timestamp,
      the largest CPU reading and the verdict of the messages. */
  lemma TallyCharacterised(lines: seq<Line>)
    requires TallyOf(lines).Ok?
    ensures TallyOf(lines).value.startMs == MinOf(Stamps(lines))
    ensures TallyOf(lines).value.endMs == MaxOf(Stamps(lines))
    ensures TallyOf(lines).value.cpuUsageNsec == MaxOf(CpuSamples(lines))
    ensures TallyOf(lines).value.status == Verdict(Messages(lines))
  {
    TallyTimes(lines);
    TallyCpu(lines);
    TallyStatus(lines);
  }

  lemma {:induction false} TallyTimes(lines: seq<Line>)
    requires TallyOf(lines).Ok?
    ensures TallyOf(lines).value.startMs == MinOf(Stamps(lines))
    ensures TallyOf(lines).value.endMs == MaxOf(Stamps(lines))
  {
    if lines != [] {
      var init := lines[..|lines| - 1];
      TallyTimes(init);
      var s := Stamps(lines);
      if |s| > |Stamps(init)| {
        assert s[..|s| - 1] == Stamps(init);
      } else {
        assert s == Stamps(init);
      }
    }
  }

  lemma {:induction false} TallyCpu(lines: seq<Line>)
    requires TallyOf(lines).Ok?
    ensures TallyOf(lines).value.cpuUsageNsec == MaxOf(CpuSamples(lines))
  {
    if lines != [] {
      var init := lines[..|lines| - 1];
      TallyCpu(init);
      var c := CpuSamples(lines);
      if |c| > |CpuSamples(init)| {
        assert c[..|c| - 1] == CpuSamples(init);
      } else {
        assert c == CpuSamples(init);
      }
    }
  }

  lemma {:induction false} TallyStatus(lines: seq<Line>)
    requires TallyOf(lines).Ok?
    ensures TallyOf(lines).value.status == Verdict(Messages(lines))
  {
    if lines != [] {
      var init := lines[..|lines| - 1];
      TallyStatus(init);
      var m := Messages(lines);
      if |m| > |Messages(init)| {
        assert m[..|m| - 1] == Messages(init);
      } else {
        assert m == Messages(init);
      }
    }
  }

  // ---------------------------------------------------------------------
  // Runs

  /** One run as `list_runs` reports it (without the ISO renderings of the
      times). */
  datatype Run = Run(
    invocationId: string,
    startMs: Option<nat>,
    endMs: Option<nat>,
    durationMs: Option<int>,
    status: Status,
    cpuUsageNsec: Option<int>)

  function RunOf(inv: string, t: Tally): Run
  {
    var duration := if t.startMs.Some? && t.endMs.Some? then Some(t.endMs.value - t.startMs.value) else None;
    Run(inv, t.startMs, t.endMs, duration, t.status, t.cpuUsageNsec)
  }

  /** A run has a duration exactly when one of its records has a timestamp,
      and then it is the span from the earliest to the latest, never
      negative. */
  lemma RunDuration(inv: string, lines: seq<Line>)
    requires TallyOf(lines).Ok?
    ensures var run := RunOf(inv, TallyOf(lines).value);
      && (run.durationMs.Some? <==> Stamps(lines) != [])
      && (run.durationMs.Some? ==>
            run.durationMs.value >= 0
            && forall x :: x in Stamps(lines) ==> run.startMs.value <= x <= run.endMs.value)
  {
    TallyCharacterised(lines);
  }

  /** A record stamped in year 10000 or later leaves the run with an end
      that `ms_to_iso` cannot render, and so fails that run's aggregation. */
  lemma RunPastYear9999(inv: string, lines: seq<Line>, logUnit: string, host: Host)
    requires TallyOf(lines).Ok?
    requires exists x :: x in Stamps(lines) && x > MaxIsoMs
    ensures !IsoRenders(TallyOf(lines).value.endMs)
    ensures host.runRecords(logUnit, inv) == Printed(lines) ==>
      RunsOf([inv], logUnit, host).result == Err(DateOutOfRange)
  {
    TallyCharacterised(lines);
    assert [inv][..0] == [];
  }

  /** CPU readings of 100, 50 and 300 nanoseconds report 300. */
  lemma CpuUsageExample()
    ensures var a := Parsed(JObject(map["CPU_USAGE_NSEC" := JInt(100)]));
      var b := Parsed(JObject(map["CPU_USAGE_NSEC" := JInt(50)]));
      var c := Parsed(JObject(map["CPU_USAGE_NSEC" := JInt(300)]));
      TallyOf([a, b, c]) == Ok(Tally(None, None, Unknown, Some(300)))
  {
    var a := Parsed(JObject(map["CPU_USAGE_NSEC" := JInt(100)]));
    var b := Parsed(JObject(map["CPU_USAGE_NSEC" := JInt(50)]));
    var c := Parsed(JObject(map["CPU_USAGE_NSEC" := JInt(300)]));
    assert UpdStatus(Unknown, "") == Unknown;
    assert [a][..0] == [];
    assert TallyOf([a]) == Ok(Tally(None, None, Unknown, Some(100)));
    assert [a, b][..1] == [a];
    assert TallyOf([a, b]) == Ok(Tally(None, None, Unknown, Some(100)));
    assert [a, b, c][..2] == [a, b];
  }

  /** The aggregation loop over the discovered ids: each id costs one
      journal query, and a failed query, a raising record or a start or end
      that `ms_to_iso` cannot render fails the whole request. */
  function RunsOf(ids: seq<string>, logUnit: string, host: Host): Reply<seq<Run>>
  {
    if ids == [] then Reply(Ok([]), [])
    else
      var before := RunsOf(ids[..|ids| - 1], logUnit, host);
      var inv := ids[|ids| - 1];
      match before.result
      case Err(_) => before
      case Ok(runs) =>
        var issued := before.issued + [JournalRun(logUnit, inv)];
        match host.runRecords(logUnit, inv)
        case Failed(m) => Reply(Err(ToolFailed(m)), issued)
        case Printed(lines) =>
          match TallyOf(lines)
          case Err(e) => Reply(Err(e), issued)
          case Ok(t) =>
            if !IsoRenders(t.startMs) || !IsoRenders(t.endMs) then Reply(Err(DateOutOfRange), issued)
            else Reply(Ok(runs + [RunOf(inv, t)]), issued)
  }

  /** On success there is one run per id, in the ids' order, and one query
      per id; whatever the outcome, only ids are queried, in order. */
  lemma {:induction false} RunsOfShape(ids: seq<string>, logUnit: string, host: Host)
    ensures var r := RunsOf(ids, logUnit, host);
      && |r.issued| <= |ids|
      && (forall k :: 0 <= k < |r.issued| ==> r.issued[k] == JournalRun(logUnit, ids[k]))
      && (r.result.Ok? ==>
            |r.issued| == |ids| && |r.result.value| == |ids|
            && forall k :: 0 <= k < |ids| ==>
                 r.result.value[k].invocationId == ids[k]
                 && IsoRenders(r.result.value[k].startMs) && IsoRenders(r.result.value[k].endMs))
  {
    if ids != [] {
      var n := |ids| - 1;
      RunsOfShape(ids[..n], logUnit, host);
    }
  }

  /** What `list_runs` reports: the unit whose journal was read, and the
      runs. */
  datatype RunsReport = RunsReport(logUnit: string, runs: seq<Run>)

  /** `list_runs`: the unit and the limit are checked, the log unit is
      resolved, the journal is scanned for invocation ids, and each id is
      aggregated into a run. */
  function ListRunsReply(unit: string, limit: int, host: Host): Reply<RunsReport>
  {
    if !ValidUnitName(unit) then Reply(Err(InvalidUnit), [])
    else if !ValidRunsLimit(limit) then Reply(Err(InvalidLimit), [])
    else
      var resolved := ResolveLogUnit(unit, host);
      match resolved.result
      case Err(e) => Reply(Err(e), resolved.issued)
      case Ok(logUnit) =>
        var issued := resolved.issued + [JournalScan(logUnit, ScanWindow)];
        match host.journal(logUnit)
        case Failed(m) => Reply(Err(ToolFailed(m)), issued)
        case Printed(lines) =>
          match Scan(lines, limit, [])
          case Err(e) => Reply(Err(e), issued)
          case Ok(ids) =>
            var runs := RunsOf(ids, logUnit, host);
            var result := if runs.result.Ok? then Ok(RunsReport(logUnit, runs.result.value)) else Err(runs.result.error);
            Reply(result, issued + runs.issued)
  }

  /** The loop of `list_runs` over the discovered ids. */
  method CollectRuns(invIds: seq<string>, logUnit: string, host: Host) returns (r: Result<seq<Run>>, issued: seq<Query>)
    ensures Reply(r, issued) == RunsOf(invIds, logUnit, host)
  {
    issued := [];
    var runs: seq<Run> := [];
    var i := 0;
    while i < |invIds|
      invariant 0 <= i <= |invIds|
      invariant RunsOf(invIds[..i], logUnit, host) == Reply(Ok(runs), issued)
    {
      assert invIds[..i + 1][..i] == invIds[..i];
      var inv := invIds[i];
      issued := issued + [JournalRun(logUnit, inv)];
      var raw := host.runRecords(logUnit, inv);
      if raw.Failed? {
        RunsOfFailsEarly(invIds, logUnit, host, i + 1);
        return Err(ToolFailed(raw.message)), issued;
      }
      var tally := Aggregate(raw.value);
      if tally.Err? {
        RunsOfFailsEarly(invIds, logUnit, host, i + 1);
        return Err(tally.error), issued;
      }
      if !IsoRenders(tally.value.startMs) || !IsoRenders(tally.value.endMs) {
        RunsOfFailsEarly(invIds, logUnit, host, i + 1);
        return Err(DateOutOfRange), issued;
      }
      runs := runs + [RunOf(inv, tally.value)];
      i := i + 1;
    }
    assert invIds[..i] == invIds;
    r := Ok(runs);
  }

  /** `list_runs`. */
  method ListRuns(unit: string, limit: int, host: Host) returns (r: Result<RunsReport>, issued: seq<Query>)
    ensures Reply(r, issued) == ListRunsReply(unit, limit, host)
  {
    if !ValidUnitName(unit) {
      return Err(InvalidUnit), [];
    }
    if !ValidRunsLimit(limit) {
      return Err(InvalidLimit), [];
    }
    var resolved := ResolveLogUnit(unit, host);
    issued := resolved.issued;
    if resolved.result.Err? {
      return Err(resolved.result.error), issued;
    }
    var logUnit := resolved.result.value;
    issued := issued + [JournalScan(logUnit, ScanWindow)];
    var scan := host.journal(logUnit);
    if scan.Failed? {
      return Err(ToolFailed(scan.message)), issued;
    }
    var found := DiscoverInvocations(scan.value, limit);
    if found.Err? {
      return Err(found.error), issued;
    }
    var runs, more := CollectRuns(found.value, logUnit, host);
    issued := issued + more;
    if runs.Err? {
      return Err(runs.error), issued;
    }
    r := Ok(RunsReport(logUnit, runs.value));
  }

  /** A failed invocation ends the loop: no later id is queried. */
  lemma {:induction false} RunsOfFailsEarly(ids: seq<string>, logUnit: string, host: Host, k: nat)
    requires k <= |ids| && RunsOf(ids[..k], logUnit, host).result.Err?
    ensures RunsOf(ids, logUnit, host) == RunsOf(ids[..k], logUnit, host)
  {
    if k < |ids| {
      var n := |ids| - 1;
      assert ids[..n][..k] == ids[..k];
      RunsOfFailsEarly(ids[..n], logUnit, host, k);
    } else {
      assert ids[..k] == ids;
    }
  }

  /** The request is refused before any command runs exactly when the unit
      or the limit is invalid, and the unit is checked first. */
  lemma ListRunsChecksFirst(unit: string, limit: int, host: Host)
    ensures ListRunsReply(unit, limit, host).issued == [] <==> !ValidUnitName(unit) || !ValidRunsLimit(limit)
    ensures !ValidUnitName(unit) ==> ListRunsReply(unit, limit, host).result == Err(InvalidUnit)
    ensures ValidUnitName(unit) && !ValidRunsLimit(limit) ==> ListRunsReply(unit, limit, host).result == Err(InvalidLimit)
  {
  }

  /** Every command `list_runs` runs has checked arguments: the log unit
      matches UNIT_RE, the scan reads 20000 records, and only discovered,
      well-formed invocation ids are queried. */
  lemma ListRunsQueriesSafe(unit: string, limit: int, host: Host)
    ensures AllSafe(ListRunsReply(unit, limit, host).issued)
  {
    if ValidUnitName(unit) && ValidRunsLimit(limit) {
      ResolveLogUnitShape(unit, host);
      var resolved := ResolveLogUnit(unit, host);
      if resolved.result.Ok? && host.journal(resolved.result.value).Printed? {
        var logUnit := resolved.result.value;
        var scan := Scan(host.journal(logUnit).value, limit, []);
        if scan.Ok? {
          var before := resolved.issued + [JournalScan(logUnit, ScanWindow)];
          assert AllSafe(before);
          RunsQueriesSafe(scan.value, logUnit, host);
          AllSafeJoin(before, RunsOf(scan.value, logUnit, host).issued);
        }
      }
    }
  }

  /** The aggregation loop queries only the ids it is given, under the log
      unit. */
  lemma RunsQueriesSafe(ids: seq<string>, logUnit: string, host: Host)
    requires MatchesUnitPattern(logUnit)
    requires forall i :: 0 <= i < |ids| ==> IsInvocationId(ids[i])
    ensures AllSafe(RunsOf(ids, logUnit, host).issued)
  {
    RunsOfShape(ids, logUnit, host);
  }


  /** A successful report reads the resolved log unit and holds at most
      `limit` runs, one per discovered invocation id, in discovery order,
      with no id twice, and every run's start and end render as ISO times;
      when no scanned line raises, these are the first `limit` distinct ids
      the journal shows. */
  lemma ListRunsReport(unit: string, limit: int, host: Host)
    requires ListRunsReply(unit, limit, host).result.Ok?
    ensures var report := ListRunsReply(unit, limit, host).result.value;
      && ResolveLogUnit(unit, host).result == Ok(report.logUnit)
      && host.journal(report.logUnit).Printed?
      && Scan(host.journal(report.logUnit).value, limit, []).Ok?
      && var ids := Scan(host.journal(report.logUnit).value, limit, []).value;
      && |report.runs| == |ids| <= limit
      && (forall k :: 0 <= k < |ids| ==> report.runs[k].invocationId == ids[k])
      && (forall k :: 0 <= k < |ids| ==> IsoRenders(report.runs[k].startMs) && IsoRenders(report.runs[k].endMs))
      && (forall i, j :: 0 <= i < j < |ids| ==> ids[i] != ids[j])
      && (Readable(host.journal(report.logUnit).value) ==>
            ids == Take(Distinct(Sighted(host.journal(report.logUnit).value)), limit))
  {
    var logUnit := ResolveLogUnit(unit, host).result.value;
    var lines := host.journal(logUnit).value;
    RunsOfShape(Scan(lines, limit, []).value, logUnit, host);
    if Readable(lines) {
      DiscoveryTakesFirstDistinct(lines, limit);
    }
  }

  /** A unit that is not a timer is its own log unit. */
  lemma ListRunsOfNonTimer(unit: string, limit: int, host: Host)
    requires !EndsWith(unit, ".timer")
    requires ListRunsReply(unit, limit, host).result.Ok?
    ensures ListRunsReply(unit, limit, host).result.value.logUnit == unit
  {
  }
}
