/** The timer listing: `systemctl list-timers --output=json` decoded into one
    record per timer, sorted by timer name (`list_timers`, server.py:122-144). */
module Timers {
  import opened Common
  import opened Text
  import opened Sorting
  import opened Numbers
  import opened Host

  /** One timer of the listing. `timer` and `activates` are whatever the
      listing's "unit" and "activates" held (null when absent); the times are
      whole milliseconds since the epoch, absent when not positive. */
  datatype Timer = Timer(timer: Json, activates: Json, nextMs: Option<nat>, lastMs: Option<nat>)

  /** The items `for it in items` visits in `list_timers`, where `items` is
      `json.loads(out or "[]")`. Empty output is an empty list and an array
      visits its items. An empty object or string visits nothing. A non-empty
      one visits keys or characters, and `.get` on the first of them raises.
      Any other document cannot be iterated. */
  function TimerEntries(text: TimerText): (r: Result<seq<Json>>)
    ensures text.NoOutput? ==> r == Ok([])
    ensures text.NotJson? ==> r == Err(MalformedOutput)
    ensures text.Decoded? && text.doc.JArray? ==> r == Ok(text.doc.items)
    ensures r.Ok? <==> text.NoOutput? || (text.Decoded? && (text.doc.JArray? || text.doc == JObject(map[]) || text.doc == JStr([])))
    ensures r.Err? && text.Decoded? ==> r.error == Unexpected
  {
    match text
    case NoOutput => Ok([])
    case NotJson => Err(MalformedOutput)
    case Decoded(doc) =>
      match doc
      case JArray(items) => Ok(items)
      case JObject(members) => if members == map[] then Ok([]) else Err(Unexpected)
      case JStr(s) => if s == [] then Ok([]) else Err(Unexpected)
      case _ => Err(Unexpected)
  }

  /** The record `list_timers` builds from one entry. */
  function TimerOf(entry: map<string, Json>): Timer
  {
    Timer(Get(entry, "unit"), Get(entry, "activates"), UsecToMs(Get(entry, "next")), UsecToMs(Get(entry, "last")))
  }

  /** `x.get("timer") or ""`, the sort key, for a name that is a string or falsy. */
  function TimerKey(t: Timer): string
  {
    if t.timer.JStr? then t.timer.s else ""
  }

  /** A name the sort can compare with the others: a string, or falsy. */
  predicate Sortable(t: Timer)
  {
    t.timer.JStr? || !Truthy(t.timer)
  }

  /** `ms_to_iso` renders both times of the record. */
  predicate Renders(t: Timer)
  {
    IsoRenders(t.nextMs) && IsoRenders(t.lastMs)
  }

  /** An item the loop turns into a record without raising: an object whose
      times `ms_to_iso` can render. */
  predicate Accepted(it: Json)
  {
    it.JObject? && Renders(TimerOf(it.members))
  }

  /** What the loop raises at an item it does not accept: `.get` on a value
      that is not an object, or `ms_to_iso` on a time it cannot render. */
  function Refusal(it: Json): Error
  {
    if it.JObject? then DateOutOfRange else Unexpected
  }

  /** The records the loop of `list_timers` appends, item by item, until the
      first item it does not accept. */
  function RecordsOf(items: seq<Json>): Result<seq<Timer>>
    decreases |items|
  {
    if items == [] then Ok([])
    else
      match RecordsOf(items[..|items| - 1])
      case Err(e) => Err(e)
      case Ok(records) =>
        var it := items[|items| - 1];
        if Accepted(it) then Ok(records + [TimerOf(it.members)]) else Err(Refusal(it))
  }

  /** Once a prefix of the items fails, the whole loop fails with its error. */
  lemma {:induction false} RecordsOfFailsEarly(items: seq<Json>, n: nat)
    requires n <= |items| && RecordsOf(items[..n]).Err?
    ensures RecordsOf(items) == RecordsOf(items[..n])
    decreases |items|
  {
    if n < |items| {
      var m := |items| - 1;
      assert items[..m][..n] == items[..n];
      RecordsOfFailsEarly(items[..m], n);
    } else {
      assert items[..n] == items;
    }
  }

  /** One step of the loop: the prefix of the items grows by the next item. */
  lemma RecordsOfStep(items: seq<Json>, i: nat, records: seq<Timer>)
    requires i < |items| && RecordsOf(items[..i]) == Ok(records)
    ensures RecordsOf(items[..i + 1])
      == if Accepted(items[i]) then Ok(records + [TimerOf(items[i].members)]) else Err(Refusal(items[i]))
  {
    assert items[..i + 1][..i] == items[..i];
  }

  /** The loop succeeds exactly when it accepts every item, and then yields
      one record per item, in order. Otherwise it fails with the refusal of
      the first item it does not accept. */
  lemma {:induction false} RecordsOfCharacterised(items: seq<Json>)
    ensures RecordsOf(items).Ok? <==> forall i :: 0 <= i < |items| ==> Accepted(items[i])
    ensures RecordsOf(items).Ok? ==>
      |RecordsOf(items).value| == |items|
      && forall i :: 0 <= i < |items| ==> RecordsOf(items).value[i] == TimerOf(items[i].members)
    ensures RecordsOf(items).Err? ==> exists k :: (0 <= k < |items| && !Accepted(items[k])
      && (forall j :: 0 <= j < k ==> Accepted(items[j])) && RecordsOf(items).error == Refusal(items[k]))
    decreases |items|
  {
    if items != [] {
      var n := |items| - 1;
      var init := items[..n];
      RecordsOfCharacterised(init);
      assert forall i :: 0 <= i < n ==> init[i] == items[i];
      if RecordsOf(init).Err? {
        var k :| 0 <= k < n && !Accepted(init[k]) && (forall j :: 0 <= j < k ==> Accepted(init[j])) && RecordsOf(init).error == Refusal(init[k]);
        assert !Accepted(items[k]);
      } else if !Accepted(items[n]) {
        assert forall j :: 0 <= j < n ==> Accepted(items[j]);
      }
    }
  }

  /** Items are visited in order, so which error a listing raises depends on
      which bad item comes first: a time that cannot be rendered ahead of a
      non-object is a date error, and the other way round it is not. */
  lemma FirstRefusalWins(entry: map<string, Json>, other: Json)
    requires !Renders(TimerOf(entry)) && !other.JObject?
    ensures RecordsOf([JObject(entry), other]) == Err(DateOutOfRange)
    ensures RecordsOf([other, JObject(entry)]) == Err(Unexpected)
  {
    RecordsOfStep([JObject(entry), other], 0, []);
    RecordsOfFailsEarly([JObject(entry), other], 1);
    RecordsOfStep([other, JObject(entry)], 0, []);
    RecordsOfFailsEarly([other, JObject(entry)], 1);
  }

  /** The answer of `list_timers` for the visited items: the loop raises at
      the first item it does not accept, and after the loop the sort raises
      at a name it cannot compare. */
  function TimersOf(items: seq<Json>): Result<seq<Timer>>
  {
    match RecordsOf(items)
    case Err(e) => Err(e)
    case Ok(records) =>
      if forall i :: 0 <= i < |records| ==> Sortable(records[i]) then Ok(SortByKey(records, TimerKey))
      else Err(Unexpected)
  }

  /** What `list_timers` does: one command, whose failure fails the request. */
  function ListTimersReply(host: Host): Reply<seq<Timer>>
  {
    var issued := [SystemctlListTimers];
    match host.timers
    case Failed(m) => Reply(Err(ToolFailed(m)), issued)
    case Printed(text) =>
      match TimerEntries(text)
      case Err(e) => Reply(Err(e), issued)
      case Ok(items) => Reply(TimersOf(items), issued)
  }

  /** `list_timers`: the append loop over the entries, then the sort. */
  method ListTimers(host: Host) returns (r: Result<seq<Timer>>, issued: seq<Query>)
    ensures Reply(r, issued) == ListTimersReply(host)
  {
    issued := [SystemctlListTimers];
    if host.timers.Failed? {
      return Err(ToolFailed(host.timers.message)), issued;
    }
    var entries := TimerEntries(host.timers.value);
    if entries.Err? {
      return Err(entries.error), issued;
    }
    var items := entries.value;
    var res: seq<Timer> := [];
    var sortable := true;
    var i := 0;
    while i < |items|
      invariant 0 <= i <= |items|
      invariant RecordsOf(items[..i]) == Ok(res)
      invariant |res| == i
      invariant sortable <==> forall k :: 0 <= k < i ==> Sortable(res[k])
    {
      var it := items[i];
      RecordsOfStep(items, i, res);
      if !it.JObject? {
        RecordsOfFailsEarly(items, i + 1);
        return Err(Unexpected), issued;
      }
      var nextMs := UsecToMs(Get(it.members, "next"));
      var lastMs := UsecToMs(Get(it.members, "last"));
      var t := Timer(Get(it.members, "unit"), Get(it.members, "activates"), nextMs, lastMs);
      if !IsoRenders(nextMs) || !IsoRenders(lastMs) {
        RecordsOfFailsEarly(items, i + 1);
        return Err(DateOutOfRange), issued;
      }
      assert forall k :: 0 <= k < i ==> (res + [t])[k] == res[k];
      assert (res + [t])[i] == t;
      sortable := sortable && Sortable(t);
      res := res + [t];
      i := i + 1;
    }
    assert items[..i] == items;
    if !sortable {
      return Err(Unexpected), issued;
    }
    r := Ok(SortByKey(res, TimerKey));
  }

  /** A successful listing accepted every item it visited. It holds exactly
      their records, each as often as its item occurs, ascending by timer
      name, and every time in it renders. */
  lemma ListTimersSorted(host: Host)
    requires ListTimersReply(host).result.Ok?
    ensures var ts := ListTimersReply(host).result.value;
      && host.timers.Printed? && TimerEntries(host.timers.value).Ok?
      && var items := TimerEntries(host.timers.value).value;
      && (forall i :: 0 <= i < |items| ==> Accepted(items[i]))
      && RecordsOf(items).Ok?
      && SortedBy(ts, TimerKey)
      && multiset(ts) == multiset(RecordsOf(items).value)
      && forall t :: t in ts ==> Renders(t) && Sortable(t)
  {
    var items := TimerEntries(host.timers.value).value;
    RecordsOfCharacterised(items);
    var records := RecordsOf(items).value;
    forall t | t in ListTimersReply(host).result.value ensures Renders(t) && Sortable(t) {
      assert t in multiset(records);
      var k :| 0 <= k < |records| && records[k] == t;
      assert Accepted(items[k]);
    }
  }

  /** When every item is an object, one whose next or last time falls in
      year 10000 or later fails the whole listing, wherever it stands. */
  lemma ListTimersFarFuture(host: Host, i: nat)
    requires host.timers.Printed? && TimerEntries(host.timers.value).Ok?
    requires var items := TimerEntries(host.timers.value).value;
      && (forall j :: 0 <= j < |items| ==> items[j].JObject?)
      && i < |items|
      && !(IsoRenders(UsecToMs(Get(items[i].members, "next"))) && IsoRenders(UsecToMs(Get(items[i].members, "last"))))
    ensures ListTimersReply(host).result == Err(DateOutOfRange)
  {
    var items := TimerEntries(host.timers.value).value;
    RecordsOfCharacterised(items);
    assert !Accepted(items[i]);
  }

  /** A listing whose document is not JSON fails the request, and an empty
      output is an empty listing. */
  lemma ListTimersDocument(host: Host)
    requires host.timers.Printed?
    ensures host.timers.value.NotJson? ==> ListTimersReply(host).result == Err(MalformedOutput)
    ensures host.timers.value.NoOutput? ==> ListTimersReply(host).result == Ok([])
  {
  }

  /** The record of an entry as systemd prints it: name and activated unit as
      strings, times as positive microsecond counts, read back in milliseconds. */
  lemma TimerOfPrinted(name: string, activates: string, next: int, last: int)
    requires next > 0 && last > 0
    ensures TimerOf(map["unit" := JStr(name), "activates" := JStr(activates), "next" := JInt(next), "last" := JInt(last)])
      == Timer(JStr(name), JStr(activates), Some(next / 1000), Some(last / 1000))
  {
  }

  /** An entry whose times are missing or zero has no times. */
  lemma TimerOfUnscheduled(entry: map<string, Json>)
    requires Get(entry, "next") in {JNull, JInt(0)} && Get(entry, "last") in {JNull, JInt(0)}
    ensures TimerOf(entry).nextMs == None && TimerOf(entry).lastMs == None
  {
  }
}
