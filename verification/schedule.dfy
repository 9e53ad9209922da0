/** When a unit runs next: `schedule_for_unit` (server.py:147-182), and the
    unit whose journal holds a unit's runs: `resolve_log_unit`
    (server.py:185-191). */
module Schedule {
  import opened Common
  import opened Text
  import opened Validation
  import opened Host
  import opened Timers

  datatype Kind = TimerUnit | ServiceUnit | OtherUnit

  /** The schedule of a unit. For a unit that is neither a timer nor a
      service the server answers only the unit and its kind; the other fields
      then read as null, as `.get` on that answer would. */
  datatype Schedule = Schedule(
    unit: string,
    kind: Kind,
    timer: Json,
    activates: Json,
    nextMs: Option<nat>,
    lastMs: Option<nat>)

  /** `by_timer.get(name)`: the dict keeps the last timer of that name, so
      this is the index of the last one, or -1. */
  function LastNamedIndex(timers: seq<Timer>, name: string): (i: int)
    ensures -1 <= i < |timers|
    ensures i >= 0 ==> timers[i].timer == JStr(name)
    ensures forall j :: i < j < |timers| ==> timers[j].timer != JStr(name)
  {
    if timers == [] then -1
    else if timers[|timers| - 1].timer == JStr(name) then |timers| - 1
    else LastNamedIndex(timers[..|timers| - 1], name)
  }

  /** The positions in the listing of the timers that activate `unit`, in
      ascending order. */
  function ActivatingAt(timers: seq<Timer>, unit: string): (pos: seq<nat>)
    ensures forall k :: 0 <= k < |pos| ==> pos[k] < |timers| && timers[pos[k]].activates == JStr(unit)
    ensures forall k, l :: 0 <= k < l < |pos| ==> pos[k] < pos[l]
    ensures forall j :: 0 <= j < |timers| && timers[j].activates == JStr(unit) ==> j in pos
  {
    if timers == [] then []
    else
      var n := |timers| - 1;
      var rest := ActivatingAt(timers[..n], unit);
      assert forall j :: 0 <= j < n ==> timers[..n][j] == timers[j];
      if timers[n].activates == JStr(unit) then rest + [n] else rest
  }

  /** `[t for t in timers if t.get("activates") == unit]`: the timers that
      activate `unit`, in listing order. */
  function Activating(timers: seq<Timer>, unit: string): (r: seq<Timer>)
    ensures forall t :: t in r <==> t in timers && t.activates == JStr(unit)
    ensures |r| == |ActivatingAt(timers, unit)|
    ensures forall k :: 0 <= k < |r| ==> r[k] == timers[ActivatingAt(timers, unit)[k]]
  {
    if timers == [] then []
    else
      var n := |timers| - 1;
      var rest := Activating(timers[..n], unit);
      assert timers == timers[..n] + [timers[n]];
      assert forall j :: 0 <= j < n ==> timers[..n][j] == timers[j];
      if timers[n].activates == JStr(unit) then rest + [timers[n]] else rest
  }

  /** `a` sorts strictly before `b` under the key `(ms is None, ms or 0)`:
      a time sorts before no time, and earlier times first. */
  predicate Earlier(a: Option<nat>, b: Option<nat>)
  {
    a.Some? && (b.None? || a.value < b.value)
  }

  /** `candidates[0]` after a stable sort by next run: the index of the
      first candidate whose next run is earliest, or -1 if there is none. */
  function EarliestIndex(cands: seq<Timer>): (i: int)
    ensures -1 <= i < |cands|
    ensures i == -1 <==> cands == []
    ensures i >= 0 ==> forall j :: 0 <= j < |cands| ==> !Earlier(cands[j].nextMs, cands[i].nextMs)
    ensures i >= 0 ==> forall j :: 0 <= j < i ==> Earlier(cands[i].nextMs, cands[j].nextMs)
  {
    if cands == [] then -1
    else
      var k := EarliestIndex(cands[1..]);
      if k == -1 || !Earlier(cands[k + 1].nextMs, cands[0].nextMs) then 0 else k + 1
  }

  /** The schedule `schedule_for_unit` reports for a unit once the timer
      listing is in hand. */
  function ScheduleOf(unit: string, timers: seq<Timer>): Schedule
  {
    if EndsWith(unit, ".timer") then
      var i := LastNamedIndex(timers, unit);
      if i < 0 then Schedule(unit, TimerUnit, JStr(unit), JNull, None, None)
      else Schedule(unit, TimerUnit, JStr(unit), timers[i].activates, timers[i].nextMs, timers[i].lastMs)
    else if EndsWith(unit, ".service") then
      var cands := Activating(timers, unit);
      var i := EarliestIndex(cands);
      if i < 0 then Schedule(unit, ServiceUnit, JNull, JStr(unit), None, None)
      else Schedule(unit, ServiceUnit, cands[i].timer, JStr(unit), cands[i].nextMs, cands[i].lastMs)
    else
      Schedule(unit, OtherUnit, JNull, JNull, None, None)
  }

  /** `schedule_for_unit`: the unit is checked, then the timer listing is
      fetched (for every kind of unit), then the schedule is read off it. */
  function ScheduleForUnit(unit: string, host: Host): Reply<Schedule>
  {
    if !ValidUnitName(unit) then Reply(Err(InvalidUnit), [])
    else
      var listing := ListTimersReply(host);
      match listing.result
      case Err(e) => Reply(Err(e), listing.issued)
      case Ok(timers) => Reply(Ok(ScheduleOf(unit, timers)), listing.issued)
  }

  /** A timer unit's schedule is that of the last timer of its name in the
      listing, or empty when the listing has no such timer. */
  lemma ScheduleOfTimer(unit: string, timers: seq<Timer>)
    requires EndsWith(unit, ".timer")
    ensures var s := ScheduleOf(unit, timers);
      && s.unit == unit && s.kind == TimerUnit && s.timer == JStr(unit)
      && ((forall t :: t in timers ==> t.timer != JStr(unit)) ==>
            s.activates == JNull && s.nextMs == None && s.lastMs == None)
      && (forall i ::
            (0 <= i < |timers| && timers[i].timer == JStr(unit)
             && forall j :: i < j < |timers| ==> timers[j].timer != JStr(unit)) ==>
            s.activates == timers[i].activates && s.nextMs == timers[i].nextMs && s.lastMs == timers[i].lastMs)
  {
    var k := LastNamedIndex(timers, unit);
    if k >= 0 {
      assert timers[k] in timers;
    }
  }

  /** A service's schedule comes from a timer that activates it and whose
      next run is no later than that of any other such timer; a service that
      no timer activates has no schedule. */
  lemma ScheduleOfService(unit: string, timers: seq<Timer>)
    requires EndsWith(unit, ".service")
    ensures var s := ScheduleOf(unit, timers);
      && s.unit == unit && s.kind == ServiceUnit && s.activates == JStr(unit)
      && ((forall t :: t in timers ==> t.activates != JStr(unit)) ==>
            s.timer == JNull && s.nextMs == None && s.lastMs == None)
      && ((exists t :: t in timers && t.activates == JStr(unit)) ==>
            (exists t :: t in timers && t.activates == JStr(unit)
               && s.timer == t.timer && s.nextMs == t.nextMs && s.lastMs == t.lastMs)
            && forall t :: t in timers && t.activates == JStr(unit) ==> !Earlier(t.nextMs, s.nextMs))
  {
    assert !EndsWith(unit, ".timer") by {
      assert unit[|unit| - 1] == 'e';
    }
    var cands := Activating(timers, unit);
    var i := EarliestIndex(cands);
    if i >= 0 {
      assert cands[i] in cands;
      forall t | t in timers && t.activates == JStr(unit) ensures !Earlier(t.nextMs, cands[i].nextMs) {
        assert t in cands;
      }
    } else {
      forall t | t in timers ensures t.activates != JStr(unit) {
        assert t !in cands;
      }
    }
  }

  /** The position in the listing of the timer whose schedule a service
      gets, or -1 when no timer activates it. */
  function ChosenAt(timers: seq<Timer>, unit: string): int
  {
    var cands := Activating(timers, unit);
    if cands == [] then -1 else ActivatingAt(timers, unit)[EarliestIndex(cands)]
  }

  /** Of the timers that activate a service, the one whose schedule it gets
      is the first in listing order among those with the earliest next run:
      every such timer listed before it runs strictly later, and none listed
      after it runs earlier. */
  lemma ScheduleOfServiceFirstEarliest(unit: string, timers: seq<Timer>)
    requires EndsWith(unit, ".service")
    requires exists t :: t in timers && t.activates == JStr(unit)
    ensures var s := ScheduleOf(unit, timers);
      var i := ChosenAt(timers, unit);
      && 0 <= i < |timers| && timers[i].activates == JStr(unit)
      && s.timer == timers[i].timer && s.nextMs == timers[i].nextMs && s.lastMs == timers[i].lastMs
      && (forall j :: 0 <= j < i && timers[j].activates == JStr(unit) ==> Earlier(timers[i].nextMs, timers[j].nextMs))
      && (forall j :: i < j < |timers| && timers[j].activates == JStr(unit) ==> !Earlier(timers[j].nextMs, timers[i].nextMs))
  {
    ActivatingNonEmpty(timers, unit);
    ScheduleOfChosen(unit, timers);
    ChosenFirstEarliest(timers, unit);
  }

  /** A timer that activates the unit is among the candidates. */
  lemma ActivatingNonEmpty(timers: seq<Timer>, unit: string)
    requires exists t :: t in timers && t.activates == JStr(unit)
    ensures Activating(timers, unit) != []
  {
    var t :| t in timers && t.activates == JStr(unit);
    assert t in Activating(timers, unit);
  }

  /** A service with candidates takes its schedule from the chosen timer. */
  lemma ScheduleOfChosen(unit: string, timers: seq<Timer>)
    requires EndsWith(unit, ".service") && Activating(timers, unit) != []
    ensures var i := ChosenAt(timers, unit);
      && 0 <= i < |timers|
      && ScheduleOf(unit, timers) == Schedule(unit, ServiceUnit, timers[i].timer, JStr(unit), timers[i].nextMs, timers[i].lastMs)
  {
    assert !EndsWith(unit, ".timer") by {
      assert unit[|unit| - 1] == 'e';
    }
    var cands := Activating(timers, unit);
    assert cands[EarliestIndex(cands)] == timers[ChosenAt(timers, unit)];
  }

  /** The chosen timer activates the unit, and it is the first of the
      earliest. */
  lemma ChosenFirstEarliest(timers: seq<Timer>, unit: string)
    requires Activating(timers, unit) != []
    ensures var i := ChosenAt(timers, unit);
      && 0 <= i < |timers| && timers[i].activates == JStr(unit)
      && (forall j :: 0 <= j < i && timers[j].activates == JStr(unit) ==> Earlier(timers[i].nextMs, timers[j].nextMs))
      && (forall j :: i < j < |timers| && timers[j].activates == JStr(unit) ==> !Earlier(timers[j].nextMs, timers[i].nextMs))
  {
    var cands := Activating(timers, unit);
    FirstEarliestOf(timers, unit, cands, ActivatingAt(timers, unit), EarliestIndex(cands));
  }

  /** The candidate at index `e` of an order-preserving selection, earliest
      and first among the earliest, is at a position of the listing before
      which every selected timer runs strictly later, and after which none
      runs earlier. */
  lemma FirstEarliestOf(timers: seq<Timer>, unit: string, cands: seq<Timer>, pos: seq<nat>, e: int)
    requires |cands| == |pos| && 0 <= e < |pos|
    requires forall k :: 0 <= k < |pos| ==> pos[k] < |timers| && cands[k] == timers[pos[k]]
    requires forall k, l :: 0 <= k < l < |pos| ==> pos[k] < pos[l]
    requires forall j :: 0 <= j < |timers| && timers[j].activates == JStr(unit) ==> j in pos
    requires forall j :: 0 <= j < |cands| ==> !Earlier(cands[j].nextMs, cands[e].nextMs)
    requires forall j :: 0 <= j < e ==> Earlier(cands[e].nextMs, cands[j].nextMs)
    ensures var i := pos[e];
      && (forall j :: 0 <= j < i && timers[j].activates == JStr(unit) ==> Earlier(timers[i].nextMs, timers[j].nextMs))
      && (forall j :: i < j < |timers| && timers[j].activates == JStr(unit) ==> !Earlier(timers[j].nextMs, timers[i].nextMs))
  {
    var i := pos[e];
    forall j | 0 <= j < i && timers[j].activates == JStr(unit)
      ensures Earlier(timers[i].nextMs, timers[j].nextMs)
    {
      var k :| 0 <= k < |pos| && pos[k] == j;
      assert k < e;
    }
    forall j | i < j < |timers| && timers[j].activates == JStr(unit)
      ensures !Earlier(timers[j].nextMs, timers[i].nextMs)
    {
      var k :| 0 <= k < |pos| && pos[k] == j;
    }
  }

  /** A unit that is neither a timer nor a service has no schedule. */
  lemma ScheduleOfOther(unit: string, timers: seq<Timer>)
    requires !EndsWith(unit, ".timer") && !EndsWith(unit, ".service")
    ensures ScheduleOf(unit, timers) == Schedule(unit, OtherUnit, JNull, JNull, None, None)
  {
  }

  /** Of two timers of a service, the second is chosen only when it runs
      strictly earlier; on a tie, such as two timers with no next run, the
      first listed is chosen. */
  lemma ScheduleOfServiceExample(unit: string, a: Timer, b: Timer)
    requires EndsWith(unit, ".service")
    requires a.activates == JStr(unit) && b.activates == JStr(unit)
    ensures var s := ScheduleOf(unit, [a, b]);
      && (Earlier(b.nextMs, a.nextMs) ==> s.timer == b.timer && s.nextMs == b.nextMs && s.lastMs == b.lastMs)
      && (!Earlier(b.nextMs, a.nextMs) ==> s.timer == a.timer && s.nextMs == a.nextMs && s.lastMs == a.lastMs)
  {
    assert a in [a, b];
    ScheduleOfServiceFirstEarliest(unit, [a, b]);
  }

  /** The unit is checked before anything runs; a valid unit of any kind,
      even one that is neither a timer nor a service, costs one timer
      listing, and a failed listing fails the request. */
  lemma ScheduleForUnitQueries(unit: string, host: Host)
    ensures ScheduleForUnit(unit, host).issued == [] <==> !ValidUnitName(unit)
    ensures !ValidUnitName(unit) ==> ScheduleForUnit(unit, host).result == Err(InvalidUnit)
    ensures ValidUnitName(unit) ==> ScheduleForUnit(unit, host).issued == [SystemctlListTimers]
    ensures ValidUnitName(unit) && host.timers.Failed? ==>
      ScheduleForUnit(unit, host).result == Err(ToolFailed(host.timers.message))
  {
  }

  /** `resolve_log_unit`: a timer's runs are logged under the unit it
      activates, when its schedule names one that matches UNIT_RE; any other
      unit is its own log unit. */
  function ResolveLogUnit(unit: string, host: Host): Reply<string>
  {
    if !EndsWith(unit, ".timer") then Reply(Ok(unit), [])
    else
      var s := ScheduleForUnit(unit, host);
      match s.result
      case Err(e) => Reply(Err(e), s.issued)
      case Ok(sched) =>
        var a := sched.activates;
        Reply(Ok(if a.JStr? && MatchesUnitPattern(a.s) then a.s else unit), s.issued)
  }

  /** The log unit of a name that matches UNIT_RE matches it too, and is
      either the name itself or, for a timer, the unit its schedule activates;
      only a timer costs a query. */
  lemma ResolveLogUnitShape(unit: string, host: Host)
    requires MatchesUnitPattern(unit)
    ensures var r := ResolveLogUnit(unit, host);
      && (r.result.Ok? ==> MatchesUnitPattern(r.result.value))
      && (r.result.Ok? && r.result.value != unit ==>
            EndsWith(unit, ".timer") && ScheduleForUnit(unit, host).result.Ok?
            && ScheduleForUnit(unit, host).result.value.activates == JStr(r.result.value))
      && (!EndsWith(unit, ".timer") ==> r == Reply(Ok(unit), []))
      && (EndsWith(unit, ".timer") ==> r.issued == ScheduleForUnit(unit, host).issued)
      && AllSafe(r.issued)
  {
  }

  /** A valid timer whose listing entry activates a unit matching UNIT_RE
      has its runs looked up under that unit. */
  lemma ResolveLogUnitOfTimer(unit: string, host: Host, target: string)
    requires ValidUnitName(unit) && EndsWith(unit, ".timer")
    requires ListTimersReply(host).result.Ok?
    requires var timers := ListTimersReply(host).result.value;
      exists i :: 0 <= i < |timers| && timers[i].timer == JStr(unit) && timers[i].activates == JStr(target)
        && forall j :: i < j < |timers| ==> timers[j].timer != JStr(unit)
    requires MatchesUnitPattern(target)
    ensures ResolveLogUnit(unit, host).result == Ok(target)
  {
    var timers := ListTimersReply(host).result.value;
    ScheduleOfTimer(unit, timers);
  }
}
